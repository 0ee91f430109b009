/**
 * The chat server's registry and router (ChatServer.java): the set of
 * registered handlers, the map from username to handler, the per-handler
 * outbox that stands for its `PrintWriter`, and the log of (username, text)
 * entries. Every operation is one atomic sequential step; sockets, threads,
 * locks, timestamps and the log file are not modelled.
 */
module ChatServer {
  import opened Wrappers
  import opened JavaString
  import opened ChatProtocol

  /** One line of the chat log, without its timestamp. */
  datatype LogEntry = LogEntry(username: string, text: string)

  /** `ks` lists every element of `keys` exactly once, in some order. */
  ghost predicate IsEnumeration(ks: seq<string>, keys: set<string>) {
    && (forall i, j :: 0 <= i < j < |ks| ==> ks[i] != ks[j])
    && (forall k :: k in ks <==> k in keys)
  }

  /** Iterating over `usernameMap.keySet()`: an order the hash map chooses, each key once. */
  method EnumerateKeys(keys: set<string>) returns (ks: seq<string>)
    ensures IsEnumeration(ks, keys)
  {
    ks := [];
    var rest := keys;
    while rest != {}
      invariant rest <= keys
      invariant forall k :: k in ks <==> k in keys - rest
      invariant forall i, j :: 0 <= i < j < |ks| ==> ks[i] != ks[j]
      decreases rest
    {
      var k :| k in rest;
      assert k !in ks;
      forall i, j | 0 <= i < j < |ks| + 1 ensures (ks + [k])[i] != (ks + [k])[j] {
        if j == |ks| {
          assert (ks + [k])[i] == ks[i];
        }
      }
      ks := ks + [k];
      rest := rest - {k};
    }
  }

  /** The lines the handshake writes to a new client before the welcome: one prompt, then one retry prompt per taken name. */
  function HandshakePrompts(taken: nat): seq<string> {
    [UsernamePrompt] + seq(taken, _ => UsernameTakenPrompt)
  }

  /** A `ClientHandler`: its username (null until a candidate is read) and the lines written to it. */
  class Handler {
    var username: Option<string>
    var outbox: seq<string>

    constructor ()
      ensures username == None && outbox == []
    {
      username := None;
      outbox := [];
    }

    /** `sendMessage`: `out.println`. */
    method SendMessage(message: string)
      modifies this`outbox
      ensures outbox == old(outbox) + [message]
    {
      outbox := outbox + [message];
    }
  }

  /** The server's static state. */
  class Server {
    var clients: set<Handler>
    var usernameMap: map<string, Handler>
    var log: seq<LogEntry>

    /**
     * The registry is consistent: every bound name belongs to a registered
     * handler whose username it is, and every registered handler is bound
     * under its own username.
     */
    ghost predicate Valid()
      reads this, clients`username, usernameMap.Values`username
    {
      && (forall name :: name in usernameMap ==>
            usernameMap[name] in clients && usernameMap[name].username == Some(name))
      && (forall c :: c in clients ==>
            c.username.Some? && c.username.value in usernameMap && usernameMap[c.username.value] == c)
    }

    constructor ()
      ensures clients == {} && usernameMap == map[] && log == []
      ensures Valid()
    {
      clients := {};
      usernameMap := map[];
      log := [];
    }

    // -------------------------------------------------------------------------
    // Effects of the routing operations, shared by their callers' contracts
    // -------------------------------------------------------------------------

    /** No one in `audience` received anything and nothing was logged. */
    twostate predicate Quiet(audience: set<Handler>)
      reads this, audience`outbox
    {
      && log == old(log)
      && forall c :: c in audience ==> c.outbox == old(c.outbox)
    }

    /**
     * `sender` broadcast `message`: every registered client except the sender
     * received `<sender>: <message>` once, the sender received nothing, and the
     * log gained the raw message under the sender's name.
     */
    twostate predicate Broadcasted(audience: set<Handler>, sender: Handler, message: string)
      reads this, audience`outbox, sender
    {
      && sender.username.Some?
      && var name := sender.username.value;
      && log == old(log) + [LogEntry(name, message)]
      && sender.outbox == old(sender.outbox)
      && forall c :: c in audience && c != sender ==> c.outbox == old(c.outbox) + [BroadcastLine(name, message)]
    }

    /**
     * `sender` sent `message` to `target`: if the name is bound, the recipient
     * got the private line, the sender got the confirmation (both land in the
     * sender's outbox when it is the recipient) and the attempt was logged;
     * otherwise only the sender got `User <target> not found.` and nothing was
     * logged. No other registered client received anything.
     */
    twostate predicate PrivateRouted(
      audience: set<Handler>, registry: map<string, Handler>, sender: Handler, target: string, message: string)
      reads this, audience`outbox, registry.Values`outbox, sender
    {
      && sender.username.Some?
      && var name := sender.username.value;
      && (target in registry ==>
            var recipient := registry[target];
            && log == old(log) + [LogEntry(name, PrivateLogText(target, message))]
            && (recipient == sender ==>
                  sender.outbox == old(sender.outbox) + [PrivateFromLine(name, message), PrivateToLine(target, message)])
            && (recipient != sender ==>
                  && recipient.outbox == old(recipient.outbox) + [PrivateFromLine(name, message)]
                  && sender.outbox == old(sender.outbox) + [PrivateToLine(target, message)]))
      && (target !in registry ==>
            && log == old(log)
            && sender.outbox == old(sender.outbox) + [NotFoundLine(target)])
      && forall c :: c in audience && c != sender && (target !in registry || c != registry[target]) ==>
            c.outbox == old(c.outbox)
    }

    /**
     * `sender` asked for the user list: it received one line naming every
     * bound username once, in the map's iteration order; nothing else changed.
     */
    twostate predicate UsersListed(audience: set<Handler>, sender: Handler)
      reads this, audience`outbox, sender
    {
      && log == old(log)
      && (exists ks :: IsEnumeration(ks, usernameMap.Keys) && sender.outbox == old(sender.outbox) + [UserListLine(ks)])
      && forall c :: c in audience && c != sender ==> c.outbox == old(c.outbox)
    }

    // -------------------------------------------------------------------------
    // Operations
    // -------------------------------------------------------------------------

    /** `logMessage`: one (username, text) entry; the file and the timestamp are not modelled. */
    method LogMessage(username: string, message: string)
      modifies this`log
      ensures log == old(log) + [LogEntry(username, message)]
    {
      log := log + [LogEntry(username, message)];
    }

    /** `broadcastMessage`: the loop over `clients`, skipping the sender, then one log entry. */
    method BroadcastMessage(message: string, sender: Handler)
      requires sender.username.Some?
      modifies this`log, clients`outbox
      ensures Broadcasted(clients, sender, message)
    {
      var name := sender.username.value;
      var line := BroadcastLine(name, message);
      var pending := clients;
      while pending != {}
        invariant pending <= clients
        invariant forall c :: c in clients && c !in pending && c != sender ==> c.outbox == old(c.outbox) + [line]
        invariant forall c :: c in pending ==> c.outbox == old(c.outbox)
        invariant sender.outbox == old(sender.outbox)
        invariant log == old(log)
        decreases pending
      {
        var c :| c in pending;
        if c != sender {
          c.SendMessage(line);
        }
        pending := pending - {c};
      }
      LogMessage(name, message);
    }

    /** `sendPrivateMessage`: look the target up, deliver and confirm, or report it missing. */
    method SendPrivateMessage(target: string, message: string, sender: Handler)
      requires sender.username.Some?
      modifies this`log, sender`outbox, (if target in usernameMap then {usernameMap[target]} else {})`outbox
      ensures PrivateRouted(clients, usernameMap, sender, target, message)
    {
      var name := sender.username.value;
      if target in usernameMap {
        var recipient := usernameMap[target];
        recipient.SendMessage(PrivateFromLine(name, message));
        sender.SendMessage(PrivateToLine(target, message));
        LogMessage(name, PrivateLogText(target, message));
      } else {
        sender.SendMessage(NotFoundLine(target));
      }
    }

    /** `addClient`. */
    method AddClient(h: Handler)
      modifies this`clients
      ensures clients == old(clients) + {h}
    {
      clients := clients + {h};
    }

    /**
     * `removeClient`: drop the handler from `clients`, then delete the map key
     * equal to its username, whichever handler that key is bound to, then
     * broadcast the departure from it. A handler that never read a name has a
     * null username: the map removal throws and nothing after it happens.
     */
    method RemoveClient(h: Handler)
      modifies this`clients, this`usernameMap, this`log, clients`outbox
      ensures clients == old(clients) - {h}
      ensures h.username.None? ==>
        && usernameMap == old(usernameMap)
        && log == old(log)
        && forall c :: c in old(clients) ==> c.outbox == old(c.outbox)
      ensures h.username.Some? ==>
        && usernameMap == old(usernameMap) - {h.username.value}
        && Broadcasted(old(clients), h, LeaveNotice(h.username.value))
      ensures old(Valid()) && h in old(clients) ==> Valid() && h.username.value !in usernameMap
    {
      clients := clients - {h};
      if h.username.None? {
        return;
      }
      var name := h.username.value;
      usernameMap := usernameMap - {name};
      BroadcastMessage(LeaveNotice(name), h);
    }

    /** `listActiveUsers`: enumerate the bound names, build the line, send it to the asker. */
    method ListActiveUsers(h: Handler)
      modifies h`outbox
      ensures exists ks :: IsEnumeration(ks, usernameMap.Keys) && h.outbox == old(h.outbox) + [UserListLine(ks)]
    {
      var ks := EnumerateKeys(usernameMap.Keys);
      var line := BuildUserList(ks);
      h.SendMessage(line);
    }

    /**
     * One line from a registered client, dispatched as `ClientHandler.run`
     * does: a private message, the user list, a broadcast, or nothing at all
     * for an `@` line without a colon.
     */
    method HandleLine(sender: Handler, line: string)
      requires sender.username.Some?
      modifies this`log, clients`outbox, usernameMap.Values`outbox, sender`outbox
      ensures match Classify(line)
        case PrivateMessage(target, body) => PrivateRouted(clients, usernameMap, sender, target, body)
        case ListUsers => UsersListed(clients, sender)
        case Broadcast(text) => Broadcasted(clients, sender, text)
        case Ignored => Quiet(clients + {sender})
      ensures
        var addressed := Classify(line).PrivateMessage? && Classify(line).target in usernameMap;
        forall c :: c in usernameMap.Values && c !in clients && c != sender ==>
          (addressed && usernameMap[Classify(line).target] == c) || c.outbox == old(c.outbox)
    {
      match Classify(line)
      case PrivateMessage(target, body) =>
        SendPrivateMessage(target, body, sender);
      case ListUsers =>
        ListActiveUsers(sender);
      case Broadcast(text) =>
        BroadcastMessage(text, sender);
      case Ignored =>
    }

    /**
     * The prompt loop of the handshake: prompt, read a candidate and trim it,
     * and re-prompt while the name is bound. `input` is what the client sends;
     * the stream ends after it, and reading past its end makes `trim()` throw,
     * which ends the handshake with the last candidate still held.
     */
    method AwaitFreeName(h: Handler, input: seq<string>) returns (found: bool, consumed: nat)
      modifies h`username, h`outbox
      ensures consumed <= |input|
      ensures forall j :: 0 <= j < consumed - 1 ==> Trim(input[j]) in usernameMap
      ensures found ==>
        && 1 <= consumed
        && h.username == Some(Trim(input[consumed - 1]))
        && Trim(input[consumed - 1]) !in usernameMap
        && h.outbox == old(h.outbox) + HandshakePrompts(consumed - 1)
      ensures !found ==>
        && consumed == |input|
        && (forall j :: 0 <= j < |input| ==> Trim(input[j]) in usernameMap)
        && h.username == (if input == [] then old(h.username) else Some(Trim(input[|input| - 1])))
        && h.outbox == old(h.outbox) + HandshakePrompts(|input|)
    {
      h.SendMessage(UsernamePrompt);
      if input == [] {
        return false, 0;
      }
      found, consumed := ReadCandidates(h, input);
    }

    /** The candidates after the first prompt, until a free one or the end of the stream. */
    method ReadCandidates(h: Handler, input: seq<string>) returns (found: bool, consumed: nat)
      requires input != []
      modifies h`username, h`outbox
      ensures 1 <= consumed <= |input|
      ensures forall j :: 0 <= j < consumed - 1 ==> Trim(input[j]) in usernameMap
      ensures h.username == Some(Trim(input[consumed - 1]))
      ensures found <==> Trim(input[consumed - 1]) !in usernameMap
      ensures !found ==> consumed == |input|
      ensures found ==> h.outbox == old(h.outbox) + seq(consumed - 1, _ => UsernameTakenPrompt)
      ensures !found ==> h.outbox == old(h.outbox) + seq(consumed, _ => UsernameTakenPrompt)
    {
      var candidate := Trim(input[0]);
      h.username := Some(candidate);
      consumed := 1;
      while candidate in usernameMap && consumed < |input|
        invariant 1 <= consumed <= |input|
        invariant candidate == Trim(input[consumed - 1]) && h.username == Some(candidate)
        invariant forall j :: 0 <= j < consumed - 1 ==> Trim(input[j]) in usernameMap
        invariant h.outbox == old(h.outbox) + seq(consumed - 1, _ => UsernameTakenPrompt)
        decreases |input| - consumed
      {
        h.SendMessage(UsernameTakenPrompt);
        candidate := Trim(input[consumed]);
        h.username := Some(candidate);
        consumed := consumed + 1;
      }
      found := candidate !in usernameMap;
      if !found {
        // The re-prompt is sent, then reading the next candidate hits the end of the stream.
        h.SendMessage(UsernameTakenPrompt);
      }
    }

    /**
     * The end of the handshake once a free name is held: bind it, register
     * the handler, broadcast the join from it, then welcome it.
     */
    method Register(h: Handler)
      requires h !in clients && h.username.Some? && h.username.value !in usernameMap
      requires forall name :: name in usernameMap ==> usernameMap[name] != h
      modifies this`clients, this`usernameMap, this`log, clients`outbox, h`outbox
      ensures
        var name := h.username.value;
        && usernameMap == old(usernameMap)[name := h]
        && clients == old(clients) + {h}
        && log == old(log) + [LogEntry(name, JoinNotice(name))]
        && (forall c :: c in old(clients) ==> c.outbox == old(c.outbox) + [BroadcastLine(name, JoinNotice(name))])
        && h.outbox == old(h.outbox) + [WelcomeLine(name)]
      ensures old(Valid()) ==> Valid()
    {
      var name := h.username.value;
      usernameMap := usernameMap[name := h];
      AddClient(h);
      BroadcastMessage(JoinNotice(name), h);
      h.SendMessage(WelcomeLine(name));
    }

    /**
     * The handshake in `ClientHandler.run` for a new handler: wait for a free
     * name, then register under it.
     */
    method Handshake(h: Handler, input: seq<string>) returns (registered: bool, consumed: nat)
      requires h !in clients && h.username.None?
      requires forall name :: name in usernameMap ==> usernameMap[name] != h
      modifies this`clients, this`usernameMap, this`log, clients`outbox, h`username, h`outbox
      ensures consumed <= |input|
      ensures forall j :: 0 <= j < consumed - 1 ==> Trim(input[j]) in old(usernameMap)
      ensures registered ==>
        && 1 <= consumed
        && var name := Trim(input[consumed - 1]);
        && name !in old(usernameMap)
        && h.username == Some(name)
        && usernameMap == old(usernameMap)[name := h]
        && clients == old(clients) + {h}
        && log == old(log) + [LogEntry(name, JoinNotice(name))]
        && (forall c :: c in old(clients) ==> c.outbox == old(c.outbox) + [BroadcastLine(name, JoinNotice(name))])
        && h.outbox == old(h.outbox) + HandshakePrompts(consumed - 1) + [WelcomeLine(name)]
      ensures !registered ==>
        && consumed == |input|
        && (forall j :: 0 <= j < |input| ==> Trim(input[j]) in old(usernameMap))
        && h.username == (if input == [] then None else Some(Trim(input[|input| - 1])))
        && usernameMap == old(usernameMap)
        && clients == old(clients)
        && log == old(log)
        && (forall c :: c in old(clients) ==> c.outbox == old(c.outbox))
        && h.outbox == old(h.outbox) + HandshakePrompts(|input|)
      ensures old(Valid()) ==> Valid()
    {
      registered, consumed := AwaitFreeName(h, input);
      if registered {
        Register(h);
      }
    }

    /**
     * A whole session of one client, run alone: the handshake over `input`,
     * every remaining line dispatched, and the removal in `finally` once the
     * stream ends. A session that registered leaves the registry as it found
     * it. One that ran out of input while holding a taken candidate unbinds
     * that name from whoever owns it.
     */
    method Run(h: Handler, input: seq<string>) returns (registered: bool)
      requires h !in clients && h.username.None?
      requires forall name :: name in usernameMap ==> usernameMap[name] != h
      modifies this`clients, this`usernameMap, this`log, clients`outbox, usernameMap.Values`outbox
      modifies h`username, h`outbox
      ensures clients == old(clients)
      ensures registered <==> exists j :: 0 <= j < |input| && Trim(input[j]) !in old(usernameMap)
      ensures registered ==> usernameMap == old(usernameMap)
      ensures !registered && input == [] ==> usernameMap == old(usernameMap) && log == old(log)
      ensures !registered && input == [] ==> forall c :: c in old(clients) ==> c.outbox == old(c.outbox)
      ensures !registered && input != [] ==>
        var name := Trim(input[|input| - 1]);
        && usernameMap == old(usernameMap) - {name}
        && log == old(log) + [LogEntry(name, LeaveNotice(name))]
        && (forall c :: c in old(clients) ==> c.outbox == old(c.outbox) + [BroadcastLine(name, LeaveNotice(name))])
      ensures !registered ==> h.outbox == old(h.outbox) + HandshakePrompts(|input|)
      ensures !registered ==> forall c: Handler :: old(allocated(c)) && c !in old(clients) && c != h ==> c.outbox == old(c.outbox)
      ensures old(Valid()) && (registered || input == []) ==> Valid()
    {
      var consumed;
      registered, consumed := Handshake(h, input);
      if registered {
        var name := h.username.value;
        var i := consumed;
        while i < |input|
          invariant consumed <= i <= |input|
          invariant h.username == Some(name) && name !in old(usernameMap)
          invariant usernameMap == old(usernameMap)[name := h]
          invariant clients == old(clients) + {h}
          invariant old(Valid()) ==> Valid()
        {
          HandleLine(h, input[i]);
          i := i + 1;
        }
        RemoveClient(h);
        assert usernameMap == old(usernameMap);
      } else {
        RemoveClient(h);
      }
    }
  }

  /**
   * A client that gave up during the handshake while holding a taken
   * candidate unbinds the owner of that name: `bob` stays registered but the
   * name is no longer in the map, so the registry is no longer consistent,
   * and the registered `bob` is told that `bob` has left.
   */
  method RemovingUnregisteredHandlerUnbindsOwner() returns (s: Server, owner: Handler, quitter: Handler)
    ensures owner in s.clients && owner.username == Some("bob")
    ensures quitter !in s.clients && quitter.username == Some("bob")
    ensures "bob" !in s.usernameMap
    ensures !s.Valid()
    ensures owner.outbox == [UsernamePrompt, WelcomeLine("bob"), BroadcastLine("bob", LeaveNotice("bob"))]
  {
    s := new Server();
    owner := new Handler();
    var first, _ := s.Handshake(owner, ["bob"]);
    quitter := new Handler();
    var second, _ := s.Handshake(quitter, ["bob"]);
    s.RemoveClient(quitter);
  }
}
