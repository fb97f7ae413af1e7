/** The session and an adapter, talking over two queues. */
module DapSystem {
  import opened Options
  import opened DapClient
  import opened DapClientFacts

  /** The client; how many of its messages the adapter has taken from its queue; the
      requests the adapter has yet to answer; what it has said; how much of that
      the client has heard; and the numbers answered by then. */
  datatype Sys = Sys(
    client: Client,
    received: nat,
    open: map<int, string>,
    said: seq<Message>,
    heard: nat,
    done: set<int>)

  function Begin(launchArguments: Arguments): Sys {
    Sys(Started(launchArguments), 0, map[], [], 0, {})
  }

  predicate Answers(message: Message, command: string) {
    message.Response? && message.command == command
  }

  predicate Answered(said: seq<Message>, n: nat, command: string) {
    exists j | 0 <= j < n && j < |said| :: Answers(said[j], command)
  }

  predicate ToldInitialized(said: seq<Message>, n: nat) {
    exists j | 0 <= j < n && j < |said| :: IsInitialized(said[j])
  }

  /** What an adapter may say. It answers what it was asked, once; it succeeds in
      initializing, and is ready for configuration only after saying so; and it
      holds the launch answer back until configuration is done. */
  predicate MaySay(s: Sys, message: Message) {
    match message
    case Response(requestSeq, command, result) =>
      && requestSeq in s.open && s.open[requestSeq] == command
      && (command == INITIALIZE ==> result.Ok?)
      && (command == LAUNCH ==> Asked(s.client.sent, s.received, CONFIGURATION_DONE))
    case Event(name, _) => name == INITIALIZED ==> Answered(s.said, |s.said|, INITIALIZE)
    case Request(_, _, _) => true
  }

  datatype Move =
    | UserWants(path: string, lines: seq<nat>)
    | UserAsks(command: string, arguments: Arguments, runs: bool)
    | UserTakes(seqNo: int)
    | ClientHears
    | AdapterReceives
    | AdapterSays(message: Message)

  /** Commands that are the session's own, not its user's. */
  predicate Handshake(command: string) {
    command == INITIALIZE || command == LAUNCH || command == SET_BREAKPOINTS || command == CONFIGURATION_DONE
  }

  ghost predicate Step(s: Sys, move: Move, s': Sys) {
    match move
    case UserWants(path, lines) => s' == s.(client := Want(s.client, path, lines))
    case UserAsks(command, arguments, runs) =>
      && !Handshake(command)
      && s' == s.(client := Ask(if runs then s.client.(execution := Running) else s.client, command, arguments))
    case UserTakes(seqNo) => s' == s.(client := s.client.(responses := s.client.responses - {seqNo}))
    case ClientHears =>
      && s.heard < |s.said|
      && Hears(s.client, s.said[s.heard], s'.client)
      && s' == s.(client := s'.client, heard := s.heard + 1,
                  done := if s.said[s.heard].Response? then s.done + {s.said[s.heard].requestSeq} else s.done)
    case AdapterReceives =>
      && s.received < |s.client.sent|
      && var message := s.client.sent[s.received];
         s' == s.(received := s.received + 1,
                  open := if message.Request? then s.open[message.seqNo := message.command] else s.open)
    case AdapterSays(message) =>
      && MaySay(s, message)
      && s' == s.(said := s.said + [message],
                  open := if message.Response? then s.open - {message.requestSeq} else s.open)
  }

  // What every reachable state keeps

  /** Message `i` is the request numbered `q`, for `command`. */
  predicate IsRequest(sent: seq<Message>, i: nat, q: int, command: string) {
    i < |sent| && AsksFor(sent[i], command) && sent[i].seqNo == q
  }

  predicate Received(s: Sys, q: int, command: string) {
    exists i: nat | i < s.received :: IsRequest(s.client.sent, i, q, command)
  }

  predicate Responded(said: seq<Message>, n: nat, q: int) {
    exists j | 0 <= j < n && j < |said| :: said[j].Response? && said[j].requestSeq == q
  }

  /** The queues: what is open was received, what was received is open or answered,
      answers answer it, once each, and `done` is the answers heard. */
  ghost predicate Wires(s: Sys) {
    && s.received <= |s.client.sent| && s.heard <= |s.said|
    && (forall q | q in s.open :: Received(s, q, s.open[q]) && !Responded(s.said, |s.said|, q))
    && (forall i | 0 <= i < s.received && s.client.sent[i].Request? ::
          s.client.sent[i].seqNo in s.open || Responded(s.said, |s.said|, s.client.sent[i].seqNo))
    && (forall j | 0 <= j < |s.said| && s.said[j].Response? ::
          Received(s, s.said[j].requestSeq, s.said[j].command) && !Responded(s.said, j, s.said[j].requestSeq))
    && (forall q :: q in s.done <==> Responded(s.said, s.heard, q))
  }

  /** The handshake's order, as far as it has come. */
  ghost predicate Ordered(s: Sys) {
    && (forall i | 0 <= i < |s.client.sent| :: AsksFor(s.client.sent[i], INITIALIZE) <==> i == 0)
    && |s.client.sent| > 0
    && (forall j | 0 <= j < |s.said| && Answers(s.said[j], INITIALIZE) :: s.said[j].result.Ok?)
    && (forall j | 0 <= j < |s.said| && IsInitialized(s.said[j]) :: Answered(s.said, j, INITIALIZE))
    && (Asked(s.client.sent, |s.client.sent|, LAUNCH) <==> Answered(s.said, s.heard, INITIALIZE))
    && (Asked(s.client.sent, |s.client.sent|, CONFIGURATION_DONE) <==> ToldInitialized(s.said, s.heard))
    && (Asked(s.client.sent, |s.client.sent|, SET_BREAKPOINTS) ==> ToldInitialized(s.said, s.heard))
    && (s.client.state.Configured? ==> ToldInitialized(s.said, s.heard))
  }

  ghost predicate Inv(s: Sys) {
    Wires(s) && Ordered(s) && Books(s.client, s.done) && InSync(s.client)
  }

  lemma BeginsWell(launchArguments: Arguments)
    ensures Inv(Begin(launchArguments))
  {
  }

  lemma AskedMore(sent: seq<Message>, message: Message, command: string)
    ensures Asked(sent + [message], |sent| + 1, command) <==> Asked(sent, |sent|, command) || AsksFor(message, command)
  {
    var more := sent + [message];
    assert more[|sent|] == message;
    if i :| 0 <= i < |sent| && AsksFor(sent[i], command) {
      assert AsksFor(more[i], command);
    }
    if i :| 0 <= i < |more| && AsksFor(more[i], command) {
      assert i < |sent| ==> AsksFor(sent[i], command);
    }
  }

  lemma AnsweredMore(said: seq<Message>, n: nat, command: string)
    requires n < |said|
    ensures Answered(said, n + 1, command) <==> Answered(said, n, command) || Answers(said[n], command)
    ensures ToldInitialized(said, n + 1) <==> ToldInitialized(said, n) || IsInitialized(said[n])
  {
  }

  lemma RespondedMore(said: seq<Message>, n: nat, q: int)
    requires n < |said|
    ensures Responded(said, n + 1, q) <==> Responded(said, n, q) || (said[n].Response? && said[n].requestSeq == q)
  {
  }

  /** What is in a prefix does not depend on what follows it. */
  lemma PrefixSays(said: seq<Message>, more: seq<Message>, n: nat)
    requires n <= |said| <= |more| && more[..|said|] == said
    ensures forall command :: Answered(more, n, command) <==> Answered(said, n, command)
    ensures ToldInitialized(more, n) <==> ToldInitialized(said, n)
    ensures forall q :: Responded(more, n, q) <==> Responded(said, n, q)
  {
    assert forall j | 0 <= j < |said| :: more[j] == said[j];
  }

  lemma PrefixAsks(sent: seq<Message>, more: seq<Message>, n: nat)
    requires n <= |sent| <= |more| && more[..|sent|] == sent
    ensures forall command :: Asked(more, n, command) <==> Asked(sent, n, command)
    ensures forall i: nat, q, command | i < |sent| :: IsRequest(more, i, q, command) <==> IsRequest(sent, i, q, command)
  {
    assert forall j | 0 <= j < |sent| :: more[j] == sent[j];
  }

  // Each move keeps it

  ghost predicate Extends(c: Client, c': Client) {
    |c.sent| <= |c'.sent| && c'.sent[..|c.sent|] == c.sent
  }

  /** Writing more leaves the queues as they were. */
  lemma WritingKeepsWires(s: Sys, c': Client)
    requires Wires(s) && Extends(s.client, c')
    ensures Wires(s.(client := c'))
  {
    var s' := s.(client := c');
    hide AsksFor, Responded;
    PrefixAsks(s.client.sent, c'.sent, s.received);
    forall i | 0 <= i < s.received && c'.sent[i].Request?
      ensures c'.sent[i].seqNo in s.open || Responded(s.said, |s.said|, c'.sent[i].seqNo)
    {
      assert c'.sent[i] == s.client.sent[i];
    }
    forall q, command | Received(s, q, command) ensures Received(s', q, command) {
      var i: nat :| i < s.received && IsRequest(s.client.sent, i, q, command);
      assert IsRequest(c'.sent, i, q, command);
    }
  }

  /** One more message written, that is no part of the handshake or is one whose
      turn it is. */
  lemma WritingKeepsOrder(s: Sys, c': Client, message: Message)
    requires Ordered(s) && c'.sent == s.client.sent + [message] && c'.state == s.client.state
    requires !AsksFor(message, INITIALIZE) && !AsksFor(message, LAUNCH) && !AsksFor(message, CONFIGURATION_DONE)
    requires AsksFor(message, SET_BREAKPOINTS) ==> ToldInitialized(s.said, s.heard)
    ensures Ordered(s.(client := c'))
  {
    AskedMore(s.client.sent, message, LAUNCH);
    AskedMore(s.client.sent, message, CONFIGURATION_DONE);
    AskedMore(s.client.sent, message, SET_BREAKPOINTS);
    hide Asked, Answered, ToldInitialized;
    forall i | 0 <= i < |c'.sent| ensures AsksFor(c'.sent[i], INITIALIZE) <==> i == 0 {
      if i < |s.client.sent| {
        assert c'.sent[i] == s.client.sent[i];
      }
    }
  }

  lemma UserWantsKeeps(s: Sys, path: string, lines: seq<nat>)
    requires Inv(s)
    ensures Inv(s.(client := Want(s.client, path, lines)))
  {
    hide Wires, Ordered, Books, InSync, SendFile, SortedOnce;
    var c, c' := s.client, Want(s.client, path, lines);
    var wanting := c.(wanted := c.wanted[path := SortedOnce(lines)]);
    WantStaysInSync(c, path, lines);
    SameBooks(c, wanting, s.done);
    if c.state.Configured? {
      SendFileKeepsBooks(wanting, s.done, path);
      SendFileKeeps(wanting, path);
      assert c'.sent == c.sent + [c'.sent[|c.sent|]];
      assert ToldInitialized(s.said, s.heard) by {
        ConfiguredAfterTold(s);
      }
      WritingKeepsWires(s, c');
      OneCommand(c'.sent[|c.sent|], SET_BREAKPOINTS);
      WritingKeepsOrder(s, c', c'.sent[|c.sent|]);
    } else {
      WritingKeepsWires(s, c');
      NothingWritten(s, c');
    }
  }

  lemma ConfiguredAfterTold(s: Sys)
    requires Ordered(s) && s.client.state.Configured?
    ensures ToldInitialized(s.said, s.heard)
  {
  }

  lemma OneCommand(message: Message, command: string)
    requires AsksFor(message, command)
    ensures forall other | other != command :: !AsksFor(message, other)
    ensures INITIALIZE != LAUNCH && INITIALIZE != SET_BREAKPOINTS && INITIALIZE != CONFIGURATION_DONE
    ensures LAUNCH != SET_BREAKPOINTS && LAUNCH != CONFIGURATION_DONE && SET_BREAKPOINTS != CONFIGURATION_DONE
  {
  }

  lemma SameBooks(c: Client, c': Client, done: set<int>)
    requires Books(c, done) && c'.sent == c.sent && c'.pending == c.pending && c'.nextSeq == c.nextSeq
    ensures Books(c', done)
  {
    forall i | 0 <= i < |c'.sent| && c'.sent[i].Request? && c'.sent[i].seqNo !in done ensures Awaits(c', c'.sent[i]) {
      assert Awaits(c, c.sent[i]);
    }
  }

  lemma NothingWritten(s: Sys, c': Client)
    requires Ordered(s) && c'.sent == s.client.sent
    requires c'.state.Configured? ==> s.client.state.Configured?
    ensures Ordered(s.(client := c'))
  {
    hide Asked, Answered, ToldInitialized;
  }

  lemma UserAsksKeeps(s: Sys, command: string, arguments: Arguments, runs: bool)
    requires Inv(s) && !Handshake(command)
    ensures Inv(s.(client := Ask(if runs then s.client.(execution := Running) else s.client, command, arguments)))
  {
    hide Wires, Ordered, Books, LastLines;
    var c := if runs then s.client.(execution := Running) else s.client;
    var c' := Ask(c, command, arguments);
    var message := Request(c.nextSeq, command, arguments);
    SameBooks(s.client, c, s.done);
    AskKeepsBooks(c, s.done, command, arguments);
    WritingKeepsWires(s, c');
    WritingKeepsOrder(s, c', message);
    PlainMessageKeepsLines(c.sent, message);
  }

  // Hearing

  lemma HearingKeepsWires(s: Sys, done: set<int>)
    requires Wires(s) && s.heard < |s.said|
    requires done == if s.said[s.heard].Response? then s.done + {s.said[s.heard].requestSeq} else s.done
    ensures Wires(s.(heard := s.heard + 1, done := done))
  {
    forall q ensures q in done <==> Responded(s.said, s.heard + 1, q) {
      RespondedMore(s.said, s.heard, q);
    }
    hide Responded, Received;
  }

  /** An answer about to be heard is to a request still awaiting it. */
  lemma AnswerIsAwaited(s: Sys) returns (i: nat)
    requires Wires(s) && Books(s.client, s.done)
    requires s.heard < |s.said| && s.said[s.heard].Response?
    ensures IsRequest(s.client.sent, i, s.said[s.heard].requestSeq, s.said[s.heard].command)
    ensures s.said[s.heard].requestSeq !in s.done && 1 <= s.said[s.heard].requestSeq
    ensures s.said[s.heard].requestSeq in s.client.pending
    ensures s.client.pending[s.said[s.heard].requestSeq] == s.said[s.heard].command
  {
    var q := s.said[s.heard].requestSeq;
    assert Received(s, q, s.said[s.heard].command) && !Responded(s.said, s.heard, q);
    i :| i < s.received && IsRequest(s.client.sent, i, q, s.said[s.heard].command);
    assert q !in s.done;
    assert Awaits(s.client, s.client.sent[i]);
  }

  /** The client after an answer, for each command it may be to. */
  lemma AnswerHeard(s: Sys, c': Client)
    requires Wires(s) && Books(s.client, s.done)
    requires s.heard < |s.said| && s.said[s.heard].Response? && Hears(s.client, s.said[s.heard], c')
    requires s.said[s.heard].command == INITIALIZE ==> s.said[s.heard].result.Ok?
    ensures Books(c', s.done + {s.said[s.heard].requestSeq})
    ensures c'.wanted == s.client.wanted
    ensures if s.said[s.heard].command == INITIALIZE
            then c'.sent == s.client.sent + [Request(s.client.nextSeq, LAUNCH, s.client.launchArguments)] && c'.state == Launching
            else c'.sent == s.client.sent && c'.state == s.client.state
  {
    hide Wires, Books;
    var q := s.said[s.heard].requestSeq;
    var i := AnswerIsAwaited(s);
    assert c' == HearResponse(s.client, q, s.said[s.heard].command, s.said[s.heard].result);
    ResponseKeepsBooks(s.client, s.done, q, s.said[s.heard].command, s.said[s.heard].result);
  }

  lemma ResponseKeepsBooks(c: Client, done: set<int>, q: int, command: string, result: Result<Body, string>)
    requires Books(c, done) && 1 <= q && q in c.pending && c.pending[q] == command
    requires command == INITIALIZE ==> result.Ok?
    ensures Books(HearResponse(c, q, command, result), done + {q})
  {
    var c' := HearResponse(c, q, command, result);
    AnswerKeepsBooks(c, done, c.pending - {q}, q);
    AnswerKeepsBooks(c, done, c.pending - {q, -q}, q);
    hide Books;
    var less := c.(pending := c.pending - {q});
    if command == INITIALIZE {
      var ready := less.(capabilities := result.value);
      SameBooks(less, ready, done + {q});
      AskKeepsBooks(ready, done + {q}, LAUNCH, c.launchArguments);
      SameBooks(Ask(ready, LAUNCH, c.launchArguments), c', done + {q});
    } else if command == SET_BREAKPOINTS && result.Ok? && -q in less.pending {
      assert c.pending - {q} - {-q} == c.pending - {q, -q};
      SameBooks(c.(pending := c.pending - {q, -q}), c', done + {q});
    } else {
      SameBooks(less, c', done + {q});
    }
  }

  /** The handshake's order after a message is heard. */
  lemma HearingKeepsOrder(s: Sys, c': Client, done: set<int>)
    requires Ordered(s) && s.heard < |s.said| && Extends(s.client, c')
    requires forall i | |s.client.sent| <= i < |c'.sent| :: !AsksFor(c'.sent[i], INITIALIZE)
    requires Asked(c'.sent, |c'.sent|, LAUNCH) <==> Answered(s.said, s.heard + 1, INITIALIZE)
    requires Asked(c'.sent, |c'.sent|, CONFIGURATION_DONE) <==> ToldInitialized(s.said, s.heard + 1)
    requires Asked(c'.sent, |c'.sent|, SET_BREAKPOINTS) ==> ToldInitialized(s.said, s.heard + 1)
    requires c'.state.Configured? ==> ToldInitialized(s.said, s.heard + 1)
    ensures Ordered(s.(client := c', heard := s.heard + 1, done := done))
  {
    hide Asked, Answered, ToldInitialized;
    forall i | 0 <= i < |c'.sent| ensures AsksFor(c'.sent[i], INITIALIZE) <==> i == 0 {
      if i < |s.client.sent| {
        assert c'.sent[i] == s.client.sent[i];
      }
    }
  }

  lemma HearsAnswerKeeps(s: Sys, c': Client)
    requires Inv(s) && s.heard < |s.said| && s.said[s.heard].Response? && Hears(s.client, s.said[s.heard], c')
    ensures Inv(s.(client := c', heard := s.heard + 1, done := s.done + {s.said[s.heard].requestSeq}))
  {
    hide Wires, Ordered, Books, InSync, Hears, AsksFor;
    var done := s.done + {s.said[s.heard].requestSeq};
    InitializeSucceeds(s);
    AnswerHeard(s, c');
    HearingStaysInSync(s.client, s.said[s.heard], c');
    HearingKeepsWires(s, done);
    WritingKeepsWires(s.(heard := s.heard + 1, done := done), c');
    AnswerKeepsOrder(s, c', done);
  }

  lemma AnswerKeepsOrder(s: Sys, c': Client, done: set<int>)
    requires Ordered(s) && s.heard < |s.said| && s.said[s.heard].Response?
    requires if s.said[s.heard].command == INITIALIZE
             then c'.sent == s.client.sent + [Request(s.client.nextSeq, LAUNCH, s.client.launchArguments)] && c'.state == Launching
             else c'.sent == s.client.sent && c'.state == s.client.state
    ensures Ordered(s.(client := c', heard := s.heard + 1, done := done))
  {
    hide Ordered, Asked, Answered, ToldInitialized, AsksFor, IsInitialized;
    NotInitialized(s.said[s.heard]);
    AnsweredMore(s.said, s.heard, INITIALIZE);
    AskedSoFar(s);
    if s.said[s.heard].command == INITIALIZE {
      LaunchAsked(s.client.sent, s.client.nextSeq, s.client.launchArguments);
    }
    HearingKeepsOrder(s, c', done);
  }

  lemma NotInitialized(message: Message)
    ensures message.Response? ==> !IsInitialized(message)
    ensures message.Response? ==> forall command :: Answers(message, command) <==> message.command == command
  {
  }

  lemma LaunchAsked(sent: seq<Message>, seqNo: int, arguments: Arguments)
    ensures var message := Request(seqNo, LAUNCH, arguments);
            var more := sent + [message];
            && !AsksFor(message, INITIALIZE)
            && Asked(more, |more|, LAUNCH)
            && (Asked(more, |more|, CONFIGURATION_DONE) <==> Asked(sent, |sent|, CONFIGURATION_DONE))
            && (Asked(more, |more|, SET_BREAKPOINTS) <==> Asked(sent, |sent|, SET_BREAKPOINTS))
  {
    hide Asked;
    var message := Request(seqNo, LAUNCH, arguments);
    AskedMore(sent, message, LAUNCH);
    AskedMore(sent, message, CONFIGURATION_DONE);
    AskedMore(sent, message, SET_BREAKPOINTS);
    OneCommand(message, LAUNCH);
  }

  lemma InitializeSucceeds(s: Sys)
    requires Ordered(s) && s.heard < |s.said|
    ensures s.said[s.heard].Response? && s.said[s.heard].command == INITIALIZE ==> s.said[s.heard].result.Ok?
  {
    assert Answers(s.said[s.heard], INITIALIZE) ==> s.said[s.heard].result.Ok?;
  }

  /** The handshake's order, one fact at a time. */
  lemma AskedSoFar(s: Sys)
    requires Ordered(s)
    ensures Asked(s.client.sent, |s.client.sent|, LAUNCH) <==> Answered(s.said, s.heard, INITIALIZE)
    ensures Asked(s.client.sent, |s.client.sent|, CONFIGURATION_DONE) <==> ToldInitialized(s.said, s.heard)
    ensures Asked(s.client.sent, |s.client.sent|, SET_BREAKPOINTS) ==> ToldInitialized(s.said, s.heard)
    ensures s.client.state.Configured? ==> ToldInitialized(s.said, s.heard)
  {
    hide Asked, Answered, ToldInitialized;
  }

  /** What configuring writes: the files, then that it is done. */
  lemma Configuring(c: Client, order: seq<string>, done: set<int>)
    requires Books(c, done)
    ensures var c' := Configure(c, order);
            && Books(c', done) && Extends(c, c') && |c'.sent| == |c.sent| + |order| + 1
            && c'.wanted == c.wanted && c'.state == Configured
            && AsksFor(c'.sent[|c'.sent| - 1], CONFIGURATION_DONE)
            && forall i | |c.sent| <= i < |c'.sent| - 1 :: AsksFor(c'.sent[i], SET_BREAKPOINTS)
  {
    hide Books, SendFiles;
    var files := SendFiles(c, order);
    SendFilesKeepBooks(c, done, order);
    SendFilesKeep(c, order);
    AskKeepsBooks(files, done, CONFIGURATION_DONE, NoArguments);
    var asked := Ask(files, CONFIGURATION_DONE, NoArguments);
    var c' := Configure(c, order);
    SameBooks(asked, c', done);
    assert c'.sent[..|files.sent|] == files.sent;
    assert c'.sent[..|c.sent|] == files.sent[..|c.sent|];
    forall i | |c.sent| <= i < |c'.sent| - 1 ensures AsksFor(c'.sent[i], SET_BREAKPOINTS) {
      assert c'.sent[i] == files.sent[i];
    }
  }

  lemma HearsInitializedKeeps(s: Sys, c': Client)
    requires Inv(s) && s.heard < |s.said| && IsInitialized(s.said[s.heard]) && Hears(s.client, s.said[s.heard], c')
    ensures Inv(s.(client := c', heard := s.heard + 1))
  {
    hide Wires, Ordered, Books, InSync, Asked, Answered, ToldInitialized, Orders, Configure, HearPlain;
    HearingStaysInSync(s.client, s.said[s.heard], c');
    var order :| Orders(order, s.client.wanted.Keys) && c' == Configure(s.client, order);
    Configuring(s.client, order, s.done);
    AnsweredMore(s.said, s.heard, INITIALIZE);
    HearingKeepsWires(s, s.done);
    WritingKeepsWires(s.(heard := s.heard + 1), c');
    AskedSoFar(s);
    ConfiguringAsks(s.client.sent, c'.sent);
    forall i | |s.client.sent| <= i < |c'.sent| ensures !AsksFor(c'.sent[i], INITIALIZE) {
      OneCommand(c'.sent[i], if i < |c'.sent| - 1 then SET_BREAKPOINTS else CONFIGURATION_DONE);
    }
    HearingKeepsOrder(s, c', s.done);
  }

  lemma ConfiguringAsks(sent: seq<Message>, more: seq<Message>)
    requires |sent| < |more| && more[..|sent|] == sent
    requires AsksFor(more[|more| - 1], CONFIGURATION_DONE)
    requires forall i | |sent| <= i < |more| - 1 :: AsksFor(more[i], SET_BREAKPOINTS)
    ensures Asked(more, |more|, LAUNCH) <==> Asked(sent, |sent|, LAUNCH)
    ensures Asked(more, |more|, CONFIGURATION_DONE)
  {
    assert forall i | 0 <= i < |sent| :: more[i] == sent[i];
  }

  lemma HearsOtherKeeps(s: Sys, c': Client)
    requires Inv(s) && s.heard < |s.said| && !s.said[s.heard].Response? && !IsInitialized(s.said[s.heard])
    requires Hears(s.client, s.said[s.heard], c')
    ensures Inv(s.(client := c', heard := s.heard + 1))
  {
    hide Wires, Ordered, Books, InSync, Hears, IsInitialized;
    HearingStaysInSync(s.client, s.said[s.heard], c');
    HearingKeepsWires(s, s.done);
    OtherHeard(s.client, s.done, s.said[s.heard], c');
    WritingKeepsWires(s.(heard := s.heard + 1), c');
    OtherKeepsOrder(s, c');
  }

  lemma OtherHeard(c: Client, done: set<int>, message: Message, c': Client)
    requires Books(c, done) && Hears(c, message, c') && !message.Response? && !IsInitialized(message)
    ensures Books(c', done) && Extends(c, c')
    ensures c'.state.Configured? ==> c.state.Configured?
    ensures forall i | |c.sent| <= i < |c'.sent| :: c'.sent[i].Response?
    ensures |c'.sent| <= |c.sent| + 1
  {
    hide Books, Revises, HearResponse, Configure, Orders;
    if message.Request? {
      RefusalKeepsBooks(c, c', done, c'.sent[|c.sent|]);
    } else {
      SameBooks(c, c', done);
    }
  }

  lemma OtherKeepsOrder(s: Sys, c': Client)
    requires Ordered(s) && s.heard < |s.said| && !s.said[s.heard].Response? && !IsInitialized(s.said[s.heard])
    requires Extends(s.client, c') && |c'.sent| <= |s.client.sent| + 1
    requires c'.state.Configured? ==> s.client.state.Configured?
    requires forall i | |s.client.sent| <= i < |c'.sent| :: c'.sent[i].Response?
    ensures Ordered(s.(client := c', heard := s.heard + 1))
  {
    hide Ordered, Asked, Answered, ToldInitialized, IsInitialized;
    AnsweredMore(s.said, s.heard, INITIALIZE);
    AskedSoFar(s);
    if |c'.sent| > |s.client.sent| {
      var message := c'.sent[|s.client.sent|];
      assert c'.sent == s.client.sent + [message];
      AskedMore(s.client.sent, message, LAUNCH);
      AskedMore(s.client.sent, message, CONFIGURATION_DONE);
      AskedMore(s.client.sent, message, SET_BREAKPOINTS);
    } else {
      assert c'.sent == s.client.sent;
    }
    HearingKeepsOrder(s, c', s.done);
  }

  lemma RefusalKeepsBooks(c: Client, c': Client, done: set<int>, message: Message)
    requires Books(c, done) && message.Response? && c' == c.(sent := c.sent + [message])
    ensures Books(c', done)
  {
    forall i | 0 <= i < |c'.sent| && c'.sent[i].Request? && c'.sent[i].seqNo !in done ensures Awaits(c', c'.sent[i]) {
      assert Awaits(c, c.sent[i]);
    }
  }

  // The adapter's moves

  lemma ReceivesKeeps(s: Sys, s': Sys)
    requires Inv(s) && Step(s, AdapterReceives, s')
    ensures Inv(s')
  {
    var message := s.client.sent[s.received];
    forall q, command | Received(s, q, command) ensures Received(s', q, command) {
      var i: nat :| i < s.received && IsRequest(s.client.sent, i, q, command);
      assert IsRequest(s'.client.sent, i, q, command);
    }
    if message.Request? {
      assert IsRequest(s.client.sent, s.received, message.seqNo, message.command);
      if Responded(s.said, |s.said|, message.seqNo) {
        AnsweredEarlier(s, message.seqNo);
        assert false;
      }
    }
    hide Ordered, InSync, Responded, IsRequest;
    assert Ordered(s') by {
      ReceivingKeepsOrder(s, s');
    }
  }

  lemma ReceivingKeepsOrder(s: Sys, s': Sys)
    requires Ordered(s) && s' == s.(received := s'.received, open := s'.open)
    ensures Ordered(s')
  {
    hide Asked, Answered, ToldInitialized;
  }

  /** Numbers are not reused, so an answer seen is to a request already received. */
  lemma AnsweredEarlier(s: Sys, q: int)
    requires Wires(s) && Numbered(s.client) && Responded(s.said, |s.said|, q)
    ensures exists i | 0 <= i < s.received :: s.client.sent[i].Request? && s.client.sent[i].seqNo == q
  {
    var j :| 0 <= j < |s.said| && s.said[j].Response? && s.said[j].requestSeq == q;
    assert Received(s, q, s.said[j].command);
  }

  lemma SaysKeeps(s: Sys, message: Message, s': Sys)
    requires Inv(s) && Step(s, AdapterSays(message), s')
    ensures Inv(s')
  {
    SayingKeepsWires(s, message, s');
    SayingKeepsOrder(s, message, s');
  }

  lemma SayingKeepsWires(s: Sys, message: Message, s': Sys)
    requires Wires(s) && Step(s, AdapterSays(message), s')
    ensures Wires(s')
  {
    hide IsRequest;
    PrefixSays(s.said, s'.said, s.heard);
    PrefixSays(s.said, s'.said, |s.said|);
    assert s'.said[|s.said|] == message;
    forall q ensures Responded(s'.said, |s'.said|, q) <==> Responded(s.said, |s.said|, q) || (message.Response? && message.requestSeq == q) {
      RespondedMore(s'.said, |s.said|, q);
    }
    forall q, command ensures Received(s', q, command) == Received(s, q, command) {
    }
    forall j | 0 <= j < |s'.said| && s'.said[j].Response?
      ensures Received(s', s'.said[j].requestSeq, s'.said[j].command) && !Responded(s'.said, j, s'.said[j].requestSeq)
    {
      if j < |s.said| {
        assert s'.said[j] == s.said[j];
        PrefixSays(s.said, s'.said, j);
      }
    }
    hide Responded, Received;
  }

  lemma SayingKeepsOrder(s: Sys, message: Message, s': Sys)
    requires Ordered(s) && s.heard <= |s.said| && Step(s, AdapterSays(message), s')
    ensures Ordered(s')
  {
    PrefixSays(s.said, s'.said, s.heard);
    PrefixSays(s.said, s'.said, |s.said|);
    assert s'.said[|s.said|] == message;
    forall j | 0 <= j < |s'.said| ensures Answers(s'.said[j], INITIALIZE) ==> s'.said[j].result.Ok?
      ensures IsInitialized(s'.said[j]) ==> Answered(s'.said, j, INITIALIZE)
    {
      if j < |s.said| {
        assert s'.said[j] == s.said[j];
        PrefixSays(s.said, s'.said, j);
      }
    }
    hide Asked, Answered, ToldInitialized;
  }

  /** Every move keeps every invariant. */
  lemma StepKeepsInv(s: Sys, move: Move, s': Sys)
    requires Inv(s) && Step(s, move, s')
    ensures Inv(s')
  {
    match move
    case UserWants(path, lines) => UserWantsKeeps(s, path, lines);
    case UserAsks(command, arguments, runs) => UserAsksKeeps(s, command, arguments, runs);
    case UserTakes(seqNo) => UserTakesKeeps(s, s');
    case ClientHears =>
      if s.said[s.heard].Response? {
        HearsAnswerKeeps(s, s'.client);
      } else if IsInitialized(s.said[s.heard]) {
        HearsInitializedKeeps(s, s'.client);
      } else {
        HearsOtherKeeps(s, s'.client);
      }
    case AdapterReceives => ReceivesKeeps(s, s');
    case AdapterSays(message) => SaysKeeps(s, message, s');
  }

  lemma UserTakesKeeps(s: Sys, s': Sys)
    requires Inv(s) && s' == s.(client := s.client.(responses := s'.client.responses))
    ensures Inv(s')
  {
    hide Wires, Ordered, Books, LastLines;
    SameBooks(s.client, s'.client, s.done);
    WritingKeepsWires(s, s'.client);
    NothingWritten(s, s'.client);
  }

  lemma InvHasQueues(s: Sys)
    requires Inv(s)
    ensures s.received <= |s.client.sent| && s.heard <= |s.said|
  {
  }

  lemma InvParts(s: Sys)
    requires Inv(s)
    ensures Wires(s) && Ordered(s) && Books(s.client, s.done)
  {
  }

  /** Any run at all, from the start, with any user and any adapter that keeps its
      word: every state keeps the invariants. */
  lemma {:induction false} EveryRunKeepsInv(launchArguments: Arguments, run: seq<Sys>, moves: seq<Move>)
    requires |run| == |moves| + 1 && run[0] == Begin(launchArguments)
    requires forall i | 0 <= i < |moves| :: Step(run[i], moves[i], run[i + 1])
    ensures forall i | 0 <= i < |run| :: Inv(run[i])
    decreases |moves|
  {
    hide Inv, Step, Begin;
    BeginsWell(launchArguments);
    if moves != [] {
      var n := |moves| - 1;
      EveryRunKeepsInv(launchArguments, run[..n + 1], moves[..n]);
      assert Inv(run[..n + 1][n]);
      StepKeepsInv(run[n], moves[n], run[n + 1]);
      forall i | 0 <= i < |run| ensures Inv(run[i]) {
        if i <= n {
          assert Inv(run[..n + 1][i]);
        }
      }
    }
  }

  /** Over any run, once configured, the last `setBreakpoints` sent for a file
      carries exactly the lines wanted of it. */
  lemma SentIsWanted(launchArguments: Arguments, run: seq<Sys>, moves: seq<Move>, k: nat, path: string)
    requires |run| == |moves| + 1 && run[0] == Begin(launchArguments) && k < |run|
    requires forall i | 0 <= i < |moves| :: Step(run[i], moves[i], run[i + 1])
    requires run[k].client.state.Configured? && path in run[k].client.wanted
    ensures LastLines(run[k].client.sent, path) == Some(run[k].client.wanted[path])
  {
    hide Step, Wires, Ordered, Books;
    EveryRunKeepsInv(launchArguments, run, moves);
  }

  /** Configuration requests are sent only once `initialized` has been heard. */
  lemma NothingConfiguredEarly(s: Sys, i: nat)
    requires Inv(s) && i < |s.client.sent|
    requires AsksFor(s.client.sent[i], SET_BREAKPOINTS) || AsksFor(s.client.sent[i], CONFIGURATION_DONE)
    ensures ToldInitialized(s.said, s.heard)
  {
  }

  /** A breakpoint answer about to be heard names no file, and is stored under the
      one its request named. */
  lemma AnswerFindsItsFile(s: Sys, c': Client, body: Body)
    requires Inv(s) && s.heard < |s.said| && Hears(s.client, s.said[s.heard], c')
    requires Answers(s.said[s.heard], SET_BREAKPOINTS) && s.said[s.heard].result == Ok(body)
    ensures exists i: nat ::
              && IsRequest(s.client.sent, i, s.said[s.heard].requestSeq, SET_BREAKPOINTS)
              && s.client.sent[i].arguments.SetLines?
              && c'.placed == s.client.placed[s.client.sent[i].arguments.path := BreakpointsIn(body)]
  {
    hide Wires, Books, Ordered;
    var i := AnswerIsAwaited(s);
    StoredUnderItsFile(s.client, s.done, i, SET_BREAKPOINTS, s.said[s.heard].result);
  }
}
