/**
 * The chat server's wire vocabulary: the exact lines it sends, the way it
 * classifies an inbound line, and the text of the active-users reply
 * (ChatServer.java).
 */
module ChatProtocol {
  import opened JavaString

  // ---------------------------------------------------------------------------
  // Exact lines the server writes
  // ---------------------------------------------------------------------------

  const UsernamePrompt: string := "Enter a unique username:"
  const UsernameTakenPrompt: string := "Username already taken. Enter a different username:"
  const ListUsersCommand: string := "/users"
  const UserListHeader: string := "Active users: "
  const UserListSeparator: string := ", "

  function WelcomeLine(name: string): string {
    "Welcome to the chat, " + name + "!"
  }

  /** Text of the join notice; recipients see it through `BroadcastLine`. */
  function JoinNotice(name: string): string {
    name + " has joined the chat."
  }

  /** Text of the departure notice; recipients see it through `BroadcastLine`. */
  function LeaveNotice(name: string): string {
    name + " has left the chat."
  }

  /** What every other client receives when `sender` broadcasts `message`. */
  function BroadcastLine(sender: string, message: string): string {
    sender + ": " + message
  }

  function PrivateFromLine(sender: string, message: string): string {
    "Private message from " + sender + ": " + message
  }

  function PrivateToLine(target: string, message: string): string {
    "Private message to " + target + ": " + message
  }

  /** The log text of a delivered private message. */
  function PrivateLogText(target: string, message: string): string {
    "Private to " + target + ": " + message
  }

  function NotFoundLine(target: string): string {
    "User " + target + " not found."
  }

  // ---------------------------------------------------------------------------
  // Classifying an inbound line
  // ---------------------------------------------------------------------------

  /** What the server does with one line from a registered client. */
  datatype Command =
    | PrivateMessage(target: string, body: string)
    | ListUsers
    | Broadcast(text: string)
      /** An `@` line without a `:` is dropped without any reply. */
    | Ignored

  /**
   * The dispatch in `ClientHandler.run`: the `@` test comes first, then the
   * exact `/users` command, and anything else is broadcast verbatim.
   */
  function Classify(line: string): (c: Command)
    ensures c.Ignored? <==> StartsWith(line, '@') && ':' !in line
    ensures c.PrivateMessage? <==> StartsWith(line, '@') && ':' in line
    ensures c.ListUsers? <==> line == ListUsersCommand
    ensures c.Broadcast? <==> !StartsWith(line, '@') && line != ListUsersCommand
    ensures c.Broadcast? ==> c.text == line
  {
    if StartsWith(line, '@') then
      var i := IndexOf(line, ':');
      if i != -1 then PrivateMessage(Trim(line[1..i]), Trim(line[i + 1..])) else Ignored
    else if line == ListUsersCommand then ListUsers
    else Broadcast(line)
  }

  /**
   * A private message names the trimmed text between the leading `@` and the
   * first `:`, and carries the trimmed text after that colon.
   */
  lemma ClassifyPrivateParts(line: string)
    requires Classify(line).PrivateMessage?
    ensures exists i ::
              && 1 <= i < |line| && line[i] == ':' && ':' !in line[1..i]
              && Classify(line) == PrivateMessage(Trim(line[1..i]), Trim(line[i + 1..]))
  {
    var i := IndexOf(line, ':');
    assert line[1..i] == line[..i][1..];
    assert 1 <= i < |line| && line[i] == ':' && ':' !in line[1..i];
  }

  /**
   * Any line `@<t>:<b>` whose `t` holds no colon is a private message to the
   * trimmed `t` with the trimmed `b` as its body; colons inside `b` stay in the body.
   */
  lemma ClassifyAddressed(rawTarget: string, rawBody: string)
    requires ':' !in rawTarget
    ensures Classify("@" + rawTarget + ":" + rawBody) == PrivateMessage(Trim(rawTarget), Trim(rawBody))
  {
    var line := "@" + rawTarget + ":" + rawBody;
    var i := 1 + |rawTarget|;
    assert line[i] == ':';
    assert line[1..i] == rawTarget;
    assert line[i + 1..] == rawBody;
    assert line[..i] == "@" + rawTarget;
    assert IndexOf(line, ':') == i;
  }

  // ---------------------------------------------------------------------------
  // The active-users reply
  // ---------------------------------------------------------------------------

  /** The names separated by `sep`, with no separator before the first or after the last. */
  function Join(names: seq<string>, sep: string): string {
    if |names| == 0 then ""
    else if |names| == 1 then names[0]
    else Join(names[..|names| - 1], sep) + sep + names[|names| - 1]
  }

  /** The names, each followed by `sep`: what the `StringBuilder` holds before truncation. */
  function Terminated(names: seq<string>, sep: string): string {
    if |names| == 0 then "" else Terminated(names[..|names| - 1], sep) + names[|names| - 1] + sep
  }

  /** The reply to `/users` for the names in the order they are enumerated. */
  function UserListLine(names: seq<string>): string {
    if names == [] then "Active users" else UserListHeader + Join(names, UserListSeparator)
  }

  lemma {:induction false} TerminatedIsJoinPlusSeparator(names: seq<string>, sep: string)
    requires names != []
    ensures Terminated(names, sep) == Join(names, sep) + sep
  {
    if |names| > 1 {
      TerminatedIsJoinPlusSeparator(names[..|names| - 1], sep);
    } else {
      assert names[..0] == [];
    }
  }

  /**
   * `listActiveUsers`' `StringBuilder` loop: append each name and `", "`,
   * then drop the last two characters (always, since the header is never empty).
   */
  method BuildUserList(names: seq<string>) returns (line: string)
    ensures names == [] ==> line == "Active users"
    ensures names != [] ==> line == UserListHeader + Join(names, UserListSeparator)
    ensures line == UserListLine(names)
  {
    var users := UserListHeader;
    for i := 0 to |names|
      invariant users == UserListHeader + Terminated(names[..i], UserListSeparator)
    {
      assert names[..i + 1][..i] == names[..i];
      users := users + names[i] + UserListSeparator;
    }
    assert names[..|names|] == names;
    if |users| > 0 {
      users := users[..|users| - 2];
    }
    if names != [] {
      TerminatedIsJoinPlusSeparator(names, UserListSeparator);
      assert users == UserListHeader + Join(names, UserListSeparator);
    }
    line := users;
  }

  /** Joining two non-empty runs of names puts exactly one separator between them. */
  lemma {:induction false} JoinAppend(a: seq<string>, b: seq<string>, sep: string)
    requires a != [] && b != []
    ensures Join(a + b, sep) == Join(a, sep) + sep + Join(b, sep)
  {
    var ab := a + b;
    assert ab[..|ab| - 1] == a + b[..|b| - 1];
    if |b| == 1 {
      assert ab[..|ab| - 1] == a;
    } else {
      JoinAppend(a, b[..|b| - 1], sep);
    }
  }

  /**
   * Every enumerated name is listed in its own slot: the reply is the header,
   * the names before it, the name, and the names after it, separated by `", "`.
   */
  lemma UserListShowsName(names: seq<string>, k: nat)
    requires k < |names|
    ensures UserListLine(names) ==
      UserListHeader
      + (if k == 0 then "" else Join(names[..k], UserListSeparator) + UserListSeparator)
      + names[k]
      + (if k == |names| - 1 then "" else UserListSeparator + Join(names[k + 1..], UserListSeparator))
  {
    var sep := UserListSeparator;
    var rest := names[k + 1..];
    var upTo := names[..k + 1];
    assert names == upTo + rest;
    if k > 0 {
      assert upTo == names[..k] + [names[k]];
      JoinAppend(names[..k], [names[k]], sep);
    }
    if rest != [] {
      JoinAppend(upTo, rest, sep);
    } else {
      assert names == upTo;
    }
  }
}
