/**
 * The text rewrite in the GUI client's `sendMessage` (ChatClientGUI.java):
 * the typed line is trimmed, a blank line is not sent, and `@name text` is
 * rewritten into the server's `@name: text` form. The Swing widgets are
 * reduced to the text of the input field and of the chat area, and the
 * socket to the sequence of lines written to it.
 */
module ChatClient {
  import opened Wrappers
  import opened JavaString
  import opened ChatProtocol

  /**
   * The line `sendMessage` writes for what was typed, or nothing for a blank
   * input. Only the first space separates the target from the text.
   */
  function Outgoing(typed: string): (r: Option<string>)
    ensures r.None? <==> Trim(typed) == []
    ensures r.Some? && !StartsWith(Trim(typed), '@') ==> r.value == Trim(typed)
    ensures r.Some? && ' ' !in Trim(typed) ==> r.value == Trim(typed)
  {
    var message := Trim(typed);
    if message == [] then None
    else if StartsWith(message, '@') then
      var space := IndexOf(message, ' ');
      if space != -1 then Some("@" + Trim(message[1..space]) + ": " + Trim(message[space + 1..]))
      else Some(message)
    else Some(message)
  }

  /** A typed `@<word> <rest>` whose word holds no space is sent as `@<trimmed word>: <trimmed rest>`. */
  lemma OutgoingAddressed(typed: string, word: string, rest: string)
    requires Trim(typed) == "@" + word + " " + rest && ' ' !in word
    ensures Outgoing(typed) == Some("@" + Trim(word) + ": " + Trim(rest))
  {
    var message := Trim(typed);
    var i := 1 + |word|;
    assert message[i] == ' ';
    assert message[..i] == "@" + word;
    assert IndexOf(message, ' ') == i;
    assert message[1..i] == word;
    assert message[i + 1..] == rest;
  }

  /**
   * The rewrite agrees with the server's parse: when the target word holds
   * no colon, the server reads back the same target and the same trimmed text.
   */
  lemma OutgoingRoundTrip(typed: string, word: string, rest: string)
    requires Trim(typed) == "@" + word + " " + rest && ' ' !in word && ':' !in word
    ensures Outgoing(typed).Some?
    ensures Classify(Outgoing(typed).value) == PrivateMessage(Trim(word), Trim(rest))
  {
    OutgoingAddressed(typed, word, rest);
    var target, body := Trim(word), Trim(rest);
    TrimKeepsAbsentChar(word, ':');
    assert "@" + target + ": " + body == "@" + target + ":" + (" " + body);
    ClassifyAddressed(target, " " + body);
    TrimIdempotent(word);
    TrimOfPaddedTrim(rest);
  }

  /**
   * The round trip needs a colon-free target word: a typed `@a:b hi` is sent
   * as `@a:b: hi`, which the server reads as a private message to `a`, never
   * to the name that was typed.
   */
  lemma ColonInTargetMisroutes(typed: string, word: string, rest: string)
    requires Trim(typed) == "@" + word + " " + rest && ' ' !in word && ':' in word
    ensures Outgoing(typed).Some?
    ensures Classify(Outgoing(typed).value).PrivateMessage?
    ensures Classify(Outgoing(typed).value).target != Trim(word)
  {
    OutgoingAddressed(typed, word, rest);
    var line := Outgoing(typed).value;
    assert line[0] == '@' && line[1 + |Trim(word)|] == ':';
    ClassifyPrivateParts(line);
    var i :| 1 <= i < |line| && line[i] == ':' && ':' !in line[1..i]
             && Classify(line) == PrivateMessage(Trim(line[1..i]), Trim(line[i + 1..]));
    TrimKeepsAbsentChar(line[1..i], ':');
    TrimKeepsKeptChar(word, ':');
  }

  /** The GUI client's state that `sendMessage` touches. */
  class ChatClientGUI {
    /** The text typed in the input field. */
    var messageField: string
    /** The text of the chat area. */
    var chatArea: string
    /** The lines written to the server. */
    var sent: seq<string>

    constructor ()
      ensures messageField == "" && chatArea == "" && sent == []
    {
      messageField := "";
      chatArea := "";
      sent := [];
    }

    /**
     * `sendMessage`: a non-blank input is echoed as `You: <line>`, the same
     * line is written to the server, and the field is cleared; a blank input
     * changes nothing.
     */
    method SendMessage()
      modifies this
      ensures Trim(old(messageField)) == [] ==> unchanged(this)
      ensures Trim(old(messageField)) != [] ==>
        var line := Outgoing(old(messageField)).value;
        && chatArea == old(chatArea) + "You: " + line + "\n"
        && sent == old(sent) + [line]
        && messageField == ""
    {
      var message := Outgoing(messageField);
      if message.Some? {
        chatArea := chatArea + "You: " + message.value + "\n";
        sent := sent + [message.value];
        messageField := "";
      }
    }
  }
}
