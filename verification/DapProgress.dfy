/** How the handshake comes to its end, whatever else goes on. */
module DapProgress {
  import opened Options
  import opened DapClient
  import opened DapClientFacts
  import opened DapSystem

  /** The moves that bring the launch nearer: what is in a queue is taken from it,
      an adapter answers what it may, and says it is ready once it can. */
  predicate Advances(s: Sys, move: Move) {
    match move
    case ClientHears => true
    case AdapterReceives => true
    case AdapterSays(message) => message.Response? || (IsInitialized(message) && !ToldInitialized(s.said, |s.said|))
    case _ => false
  }

  ghost predicate Progress(s: Sys, s': Sys) {
    exists move :: Advances(s, move) && Step(s, move, s')
  }

  function Weight(message: Message): nat {
    if message.Request? then 3 else 1
  }

  function Written(sent: seq<Message>, n: nat): nat
    requires n <= |sent|
  {
    if n == 0 then 0 else Written(sent, n - 1) + Weight(sent[n - 1])
  }

  /** What hearing a message costs: of the rest, a request is refused, and being
      told to go ahead sends every file. */
  function Load(message: Message, files: nat): nat {
    if IsInitialized(message) then 4 + 3 * files else if message.Request? then 2 else 1
  }

  function Spoken(said: seq<Message>, n: nat, files: nat): nat
    requires n <= |said|
  {
    if n == 0 then 0 else Spoken(said, n - 1, files) + Load(said[n - 1], files)
  }

  /** How far there is to go. */
  ghost function Measure(s: Sys): int
    requires s.received <= |s.client.sent| && s.heard <= |s.said|
  {
    var files := |s.client.wanted|;
    Written(s.client.sent, |s.client.sent|) - Written(s.client.sent, s.received)
    + 2 * |s.open|
    + Spoken(s.said, |s.said|, files) - Spoken(s.said, s.heard, files)
    + (if Asked(s.client.sent, |s.client.sent|, LAUNCH) then 0 else 3)
    + (if ToldInitialized(s.said, |s.said|) then 0 else 5 + 3 * files)
  }

  lemma {:induction false} WrittenPrefix(sent: seq<Message>, more: seq<Message>, n: nat)
    requires n <= |sent| <= |more| && more[..|sent|] == sent
    ensures Written(more, n) == Written(sent, n)
  {
    if n > 0 {
      WrittenPrefix(sent, more, n - 1);
      assert more[n - 1] == sent[n - 1];
    }
  }

  lemma {:induction false} SpokenPrefix(said: seq<Message>, more: seq<Message>, n: nat, files: nat)
    requires n <= |said| <= |more| && more[..|said|] == said
    ensures Spoken(more, n, files) == Spoken(said, n, files)
  {
    if n > 0 {
      SpokenPrefix(said, more, n - 1, files);
      assert more[n - 1] == said[n - 1];
    }
  }

  lemma {:induction false} WrittenGrows(sent: seq<Message>, m: nat, n: nat)
    requires m <= n <= |sent|
    ensures Written(sent, m) <= Written(sent, n)
    decreases n
  {
    if m < n {
      WrittenGrows(sent, m, n - 1);
    }
  }

  lemma {:induction false} SpokenGrows(said: seq<Message>, m: nat, n: nat, files: nat)
    requires m <= n <= |said|
    ensures Spoken(said, m, files) <= Spoken(said, n, files)
    decreases n
  {
    if m < n {
      SpokenGrows(said, m, n - 1, files);
    }
  }

  lemma MeasureIsNatural(s: Sys)
    requires s.received <= |s.client.sent| && s.heard <= |s.said|
    ensures Measure(s) >= 0
  {
    WrittenGrows(s.client.sent, s.received, |s.client.sent|);
    SpokenGrows(s.said, s.heard, |s.said|, |s.client.wanted|);
  }

  lemma ReceivingCounts(s: Sys, s': Sys)
    requires Inv(s) && Step(s, AdapterReceives, s')
    ensures Measure(s') == Measure(s) - 1
  {
    var message := s.client.sent[s.received];
    if message.Request? {
      assert message.seqNo !in s.open;
      assert s'.open.Keys == s.open.Keys + {message.seqNo};
    }
    hide Spoken, Asked, ToldInitialized;
    assert Written(s.client.sent, s.received + 1) == Written(s.client.sent, s.received) + Weight(message);
  }

  /** What saying something does to the counts, before the rest of its effect. */
  lemma SpokenMore(s: Sys, message: Message, s': Sys)
    requires s.heard <= |s.said| && s'.said == s.said + [message]
    ensures var files := |s.client.wanted|;
            && Spoken(s'.said, |s'.said|, files) == Spoken(s.said, |s.said|, files) + Load(message, files)
            && Spoken(s'.said, s.heard, files) == Spoken(s.said, s.heard, files)
    ensures ToldInitialized(s'.said, |s'.said|) <==> ToldInitialized(s.said, |s.said|) || IsInitialized(message)
  {
    var files := |s.client.wanted|;
    SpokenPrefix(s.said, s'.said, |s.said|, files);
    SpokenPrefix(s.said, s'.said, s.heard, files);
    PrefixSays(s.said, s'.said, |s.said|);
    AnsweredMore(s'.said, |s.said|, INITIALIZE);
    hide ToldInitialized, IsInitialized, Load;
    assert s'.said[|s.said|] == message;
  }

  lemma AnsweringCounts(s: Sys, message: Message, s': Sys)
    requires Inv(s) && Step(s, AdapterSays(message), s') && message.Response?
    ensures Measure(s') == Measure(s) - 1
  {
    InvHasQueues(s);
    SpokenMore(s, message, s');
    NotInitialized(message);
    hide Inv, Written, Spoken, Asked, ToldInitialized, IsInitialized;
    assert s'.open.Keys == s.open.Keys - {message.requestSeq};
  }

  /** Saying it is ready, for the first time, is one of the moves counted on; any
      other message but an answer adds what the client has to do about it. */
  lemma TellingCounts(s: Sys, message: Message, s': Sys)
    requires Inv(s) && Step(s, AdapterSays(message), s') && !message.Response?
    ensures Measure(s') == Measure(s) + if Advances(s, AdapterSays(message)) then -1 else Load(message, |s.client.wanted|)
  {
    InvHasQueues(s);
    SpokenMore(s, message, s');
    hide Inv, Written, Spoken, Asked, ToldInitialized, MaySay;
  }

  /** Hearing uses up exactly what it was counted at, whatever it has to send. */
  lemma HearingCounts(s: Sys, s': Sys)
    requires Inv(s) && Step(s, ClientHears, s')
    ensures s'.received <= |s'.client.sent| && s'.heard <= |s'.said|
    ensures Measure(s') == Measure(s) - 1
  {
    InvHasQueues(s);
    hide Inv, Hears, Written, Weight, Asked, Answered, ToldInitialized, AsksFor, IsInitialized;
    var c, c', message, files := s.client, s'.client, s.said[s.heard], |s.client.wanted|;
    HearingWrites(s, c');
    assert Spoken(s.said, s.heard + 1, files) == Spoken(s.said, s.heard, files) + Load(message, files);
    WrittenPrefix(c.sent, c'.sent, s.received);
    WrittenPrefix(c.sent, c'.sent, |c.sent|);
    if message.Response? {
      NotInitialized(message);
    }
  }

  /** What the client writes on hearing a message, by weight. */
  lemma HearingWrites(s: Sys, c': Client)
    requires Inv(s) && s.heard < |s.said| && Hears(s.client, s.said[s.heard], c')
    ensures Extends(s.client, c') && s.received <= |s.client.sent| && |c'.wanted| == |s.client.wanted|
    ensures var before, after := Asked(s.client.sent, |s.client.sent|, LAUNCH), Asked(c'.sent, |c'.sent|, LAUNCH);
            Written(c'.sent, |c'.sent|) - Written(c'.sent, |s.client.sent|) + 1 + (if after then 0 else 3) ==
            Load(s.said[s.heard], |s.client.wanted|) + (if before then 0 else 3)
  {
    InvHasQueues(s);
    hide Inv, Hears, Asked, IsInitialized, Written;
    NotInitialized(s.said[s.heard]);
    if s.said[s.heard].Response? {
      AnswerWrites(s, c');
    } else if IsInitialized(s.said[s.heard]) {
      InitializedWrites(s, c');
    } else {
      OtherWrites(s.client, s.said[s.heard], c');
    }
  }

  lemma OtherWrites(c: Client, message: Message, c': Client)
    requires Hears(c, message, c') && !message.Response? && !IsInitialized(message)
    ensures Extends(c, c') && c'.wanted == c.wanted
    ensures Asked(c'.sent, |c'.sent|, LAUNCH) <==> Asked(c.sent, |c.sent|, LAUNCH)
    ensures Written(c'.sent, |c'.sent|) - Written(c'.sent, |c.sent|) == if message.Request? then 1 else 0
  {
    hide Asked, Revises, HearResponse, Configure, Orders;
    if message.Request? {
      AskedMore(c.sent, c'.sent[|c.sent|], LAUNCH);
    }
  }

  lemma AnswerWrites(s: Sys, c': Client)
    requires Inv(s) && s.heard < |s.said| && s.said[s.heard].Response? && Hears(s.client, s.said[s.heard], c')
    ensures Extends(s.client, c') && c'.wanted == s.client.wanted && s.received <= |s.client.sent|
    ensures var before, after := Asked(s.client.sent, |s.client.sent|, LAUNCH), Asked(c'.sent, |c'.sent|, LAUNCH);
            Written(c'.sent, |c'.sent|) - Written(c'.sent, |s.client.sent|) + 1 + (if after then 0 else 3) ==
            1 + (if before then 0 else 3)
  {
    InvHasQueues(s);
    InvParts(s);
    hide Inv, Wires, Ordered, Books, Hears, Asked, Answered, ToldInitialized, AsksFor, IsInitialized;
    NotInitialized(s.said[s.heard]);
    if s.said[s.heard].command == INITIALIZE {
      NotYetInitialized(s);
    }
    InitializeSucceeds(s);
    AnswerHeard(s, c');
    AskedSoFar(s);
    if s.said[s.heard].command == INITIALIZE {
      LaunchAsked(s.client.sent, s.client.nextSeq, s.client.launchArguments);
    }
  }

  /** Initializing is answered once: the answer about to be heard is the first. */
  lemma NotYetInitialized(s: Sys)
    requires Inv(s) && s.heard < |s.said| && Answers(s.said[s.heard], INITIALIZE)
    ensures !Answered(s.said, s.heard, INITIALIZE)
  {
    if j :| 0 <= j < s.heard && Answers(s.said[j], INITIALIZE) {
      FirstRequestAnswered(s, j);
      FirstRequestAnswered(s, s.heard);
      assert Responded(s.said, s.heard, s.said[s.heard].requestSeq);
      assert false;
    }
  }

  lemma FirstRequestAnswered(s: Sys, j: nat)
    requires Wires(s) && Ordered(s) && j < |s.said| && Answers(s.said[j], INITIALIZE)
    ensures s.client.sent[0].Request? && s.said[j].requestSeq == s.client.sent[0].seqNo
  {
    assert Received(s, s.said[j].requestSeq, INITIALIZE);
  }

  lemma InitializedWrites(s: Sys, c': Client)
    requires Inv(s) && s.heard < |s.said| && IsInitialized(s.said[s.heard]) && Hears(s.client, s.said[s.heard], c')
    ensures Extends(s.client, c') && c'.wanted == s.client.wanted && s.received <= |s.client.sent|
    ensures Asked(c'.sent, |c'.sent|, LAUNCH) <==> Asked(s.client.sent, |s.client.sent|, LAUNCH)
    ensures Written(c'.sent, |c'.sent|) - Written(c'.sent, |s.client.sent|) == 3 * |s.client.wanted| + 3
  {
    hide Ordered, Books, InSync, Asked, Answered, ToldInitialized, Orders, Configure, HearPlain;
    var order :| Orders(order, s.client.wanted.Keys) && c' == Configure(s.client, order);
    Configuring(s.client, order, s.done);
    OrderCounts(order, s.client.wanted.Keys);
    ConfiguringAsks(s.client.sent, c'.sent);
    RequestsWeigh(c'.sent, |s.client.sent|, |c'.sent|);
  }

  lemma {:induction false} RequestsWeigh(sent: seq<Message>, m: nat, n: nat)
    requires m <= n <= |sent|
    requires forall i | m <= i < n :: sent[i].Request?
    ensures Written(sent, n) == Written(sent, m) + 3 * (n - m)
    decreases n
  {
    if m < n {
      RequestsWeigh(sent, m, n - 1);
    }
  }

  /** Every move of the handshake brings its end one nearer. */
  lemma ProgressCounts(s: Sys, move: Move, s': Sys)
    requires Inv(s) && Step(s, move, s') && Advances(s, move)
    ensures Inv(s') && Measure(s') == Measure(s) - 1
  {
    StepKeepsInv(s, move, s');
    hide Inv, Measure, Step;
    match move
    case ClientHears => HearingCounts(s, s');
    case AdapterReceives => ReceivingCounts(s, s');
    case AdapterSays(message) =>
      if message.Response? {
        AnsweringCounts(s, message, s');
      } else {
        TellingCounts(s, message, s');
      }
  }

  // What the others add

  /** How many words of readiness come from the adapter's message `m` on and before `n`. */
  function Notices(said: seq<Message>, m: nat, n: nat): nat
    requires m <= n <= |said|
    decreases n
  {
    if m == n then 0 else Notices(said, m, n - 1) + if IsInitialized(said[n - 1]) then 1 else 0
  }

  /** What a move outside the handshake adds to what there is to do: a request is
      carried there and answered; a message unasked for is heard; and a file wanted
      for the first time is sent at every notice still to come, and one wanted
      after configuration at once. */
  function Added(s: Sys, move: Move): nat
    requires s.heard <= |s.said|
  {
    match move
    case UserWants(path, _) =>
      var told := if ToldInitialized(s.said, |s.said|) then 0 else 1;
      (if s.client.state.Configured? then 3 else 0)
      + if path in s.client.wanted then 0 else 3 * (Notices(s.said, s.heard, |s.said|) + told)
    case UserAsks(_, _, _) => 3
    case AdapterSays(message) => Load(message, |s.client.wanted|)
    case _ => 0
  }

  lemma {:induction false} OneFileMore(said: seq<Message>, m: nat, n: nat, files: nat)
    requires m <= n <= |said|
    ensures Spoken(said, n, files + 1) - Spoken(said, m, files + 1) ==
            Spoken(said, n, files) - Spoken(said, m, files) + 3 * Notices(said, m, n)
    decreases n
  {
    if m < n {
      OneFileMore(said, m, n - 1, files);
    }
  }

  /** One request more in the client's queue, no part of the handshake's beginning. */
  lemma OneRequestMore(s: Sys, c': Client)
    requires s.received <= |s.client.sent| && |c'.sent| == |s.client.sent| + 1 && c'.sent[..|s.client.sent|] == s.client.sent
    requires c'.sent[|s.client.sent|].Request? && c'.sent[|s.client.sent|].command != LAUNCH
    ensures Written(c'.sent, |c'.sent|) - Written(c'.sent, s.received) ==
            Written(s.client.sent, |s.client.sent|) - Written(s.client.sent, s.received) + 3
    ensures Asked(c'.sent, |c'.sent|, LAUNCH) <==> Asked(s.client.sent, |s.client.sent|, LAUNCH)
  {
    var message := c'.sent[|s.client.sent|];
    assert c'.sent == s.client.sent + [message];
    WrittenPrefix(s.client.sent, c'.sent, s.received);
    WrittenPrefix(s.client.sent, c'.sent, |s.client.sent|);
    AskedMore(s.client.sent, message, LAUNCH);
    hide Asked;
  }

  lemma OneKeyMore<K, V>(m: map<K, V>, k: K, v: V)
    ensures |m[k := v]| == |m| + if k in m then 0 else 1
  {
    assert m[k := v].Keys == m.Keys + {k};
    assert k in m ==> m.Keys + {k} == m.Keys;
  }

  /** A file wanted for the first time is one more to send at every notice. */
  lemma FilesCount(s: Sys, path: string, lines: seq<nat>)
    requires s.heard <= |s.said|
    ensures var files, more := |s.client.wanted|, |s.client.wanted[path := lines]|;
            && more == files + (if path in s.client.wanted then 0 else 1)
            && Spoken(s.said, |s.said|, more) - Spoken(s.said, s.heard, more) ==
               Spoken(s.said, |s.said|, files) - Spoken(s.said, s.heard, files)
               + if path in s.client.wanted then 0 else 3 * Notices(s.said, s.heard, |s.said|)
  {
    hide Spoken, Notices;
    OneKeyMore(s.client.wanted, path, lines);
    OneFileMore(s.said, s.heard, |s.said|, |s.client.wanted|);
  }

  lemma WantingCounts(s: Sys, path: string, lines: seq<nat>)
    requires Inv(s)
    ensures var c' := Want(s.client, path, lines);
            s.received <= |c'.sent| && s.heard <= |s.said|
            && Measure(s.(client := c')) == Measure(s) + Added(s, UserWants(path, lines))
  {
    InvHasQueues(s);
    hide Inv, Spoken, Written, Asked, ToldInitialized, SendFile, SortedOnce, Notices, AsksFor;
    var c, c' := s.client, Want(s.client, path, lines);
    var wanting := c.(wanted := c.wanted[path := SortedOnce(lines)]);
    FilesCount(s, path, SortedOnce(lines));
    if c.state.Configured? {
      SendFileKeeps(wanting, path);
      SendingCounts(s, c');
    }
  }

  lemma SendingCounts(s: Sys, c': Client)
    requires s.received <= |s.client.sent| && |c'.sent| == |s.client.sent| + 1 && c'.sent[..|s.client.sent|] == s.client.sent
    requires AsksFor(c'.sent[|s.client.sent|], SET_BREAKPOINTS)
    ensures Written(c'.sent, |c'.sent|) - Written(c'.sent, s.received) ==
            Written(s.client.sent, |s.client.sent|) - Written(s.client.sent, s.received) + 3
    ensures Asked(c'.sent, |c'.sent|, LAUNCH) <==> Asked(s.client.sent, |s.client.sent|, LAUNCH)
  {
    OneCommand(c'.sent[|s.client.sent|], SET_BREAKPOINTS);
    hide Written, Asked;
    OneRequestMore(s, c');
  }

  lemma AskingCounts(s: Sys, command: string, arguments: Arguments, runs: bool)
    requires Inv(s) && !Handshake(command)
    ensures var c' := Ask(if runs then s.client.(execution := Running) else s.client, command, arguments);
            s.received <= |c'.sent| && s.heard <= |s.said| && Measure(s.(client := c')) == Measure(s) + 3
  {
    InvHasQueues(s);
    hide Inv, Spoken, Written, Asked, ToldInitialized;
    OneRequestMore(s, Ask(if runs then s.client.(execution := Running) else s.client, command, arguments));
  }

  /** Every other move adds to it, exactly so much. */
  lemma OthersCount(s: Sys, move: Move, s': Sys)
    requires Inv(s) && Step(s, move, s') && !Advances(s, move)
    ensures Inv(s') && Measure(s') == Measure(s) + Added(s, move)
  {
    StepKeepsInv(s, move, s');
    match move
    case UserWants(path, lines) => WantingCounts(s, path, lines);
    case UserAsks(command, arguments, runs) => AskingCounts(s, command, arguments, runs);
    case UserTakes(seqNo) => hide Inv, Written, Spoken, Asked, ToldInitialized;
    case AdapterSays(message) => TellingCounts(s, message, s');
    case _ => assert false;
  }

  // The launch is answered

  /** The client has heard its launch answered. */
  predicate Launched(s: Sys) {
    Answered(s.said, s.heard, LAUNCH)
  }

  /** No move of the handshake is left. */
  ghost predicate Stuck(s: Sys) {
    forall s' :: !Progress(s, s')
  }

  /** No reachable state is stuck before the launch is answered. */
  lemma NeverStuck(s: Sys) returns (s': Sys)
    requires Inv(s) && !Launched(s)
    ensures Progress(s, s')
  {
    if s.heard < |s.said| {
      s' := Listen(s);
    } else if s.received < |s.client.sent| {
      s' := Deliver(s);
    } else {
      s' := Speak(s);
    }
  }

  lemma Listen(s: Sys) returns (s': Sys)
    requires s.heard < |s.said|
    ensures Progress(s, s')
  {
    hide Hears;
    var c' := HearsSomething(s.client, s.said[s.heard]);
    s' := s.(client := c', heard := s.heard + 1,
             done := if s.said[s.heard].Response? then s.done + {s.said[s.heard].requestSeq} else s.done);
    assert Advances(s, ClientHears) && Step(s, ClientHears, s');
  }

  lemma Deliver(s: Sys) returns (s': Sys)
    requires s.received < |s.client.sent|
    ensures Progress(s, s')
  {
    var message := s.client.sent[s.received];
    s' := s.(received := s.received + 1,
             open := if message.Request? then s.open[message.seqNo := message.command] else s.open);
    assert Advances(s, AdapterReceives) && Step(s, AdapterReceives, s');
  }

  /** With both queues empty it is the adapter's turn: it owes an answer to
      initializing, or word that it is ready, or, configured, the launch's answer. */
  lemma Speak(s: Sys) returns (s': Sys)
    requires Inv(s) && !Launched(s) && s.heard == |s.said| && s.received == |s.client.sent|
    ensures Progress(s, s')
  {
    InvParts(s);
    assert AsksFor(s.client.sent[0], INITIALIZE);
    AskedSoFar(s);
    hide Inv, Wires, Books, InSync;
    var ok: Result<Body, string> := Ok(NoBody);
    var message;
    if !Answered(s.said, |s.said|, INITIALIZE) {
      var q := StillOpen(s, INITIALIZE);
      message := Response(q, INITIALIZE, ok);
    } else if !ToldInitialized(s.said, |s.said|) {
      message := Event(INITIALIZED, NoBody);
    } else {
      var q := StillOpen(s, LAUNCH);
      message := Response(q, LAUNCH, ok);
    }
    assert MaySay(s, message) by {
      OneCommand(Request(1, LAUNCH, NoArguments), LAUNCH);
    }
    s' := s.(said := s.said + [message], open := if message.Response? then s.open - {message.requestSeq} else s.open);
    assert Advances(s, AdapterSays(message)) && Step(s, AdapterSays(message), s');
  }

  /** What was asked, received and never answered is open. */
  lemma StillOpen(s: Sys, command: string) returns (q: int)
    requires Inv(s) && s.received == |s.client.sent| && Asked(s.client.sent, |s.client.sent|, command)
    requires !Answered(s.said, |s.said|, command)
    ensures q in s.open && s.open[q] == command
  {
    var i :| 0 <= i < |s.client.sent| && AsksFor(s.client.sent[i], command);
    q := s.client.sent[i].seqNo;
    if Responded(s.said, |s.said|, q) {
      AnsweredByNumber(s, i);
    }
    OpenByNumber(s, i);
  }

  /** Numbers stand for commands: an answer with a request's number is to its command. */
  lemma AnsweredByNumber(s: Sys, i: nat)
    requires Inv(s) && i < |s.client.sent| && s.client.sent[i].Request?
    requires Responded(s.said, |s.said|, s.client.sent[i].seqNo)
    ensures Answered(s.said, |s.said|, s.client.sent[i].command)
  {
    hide Ordered, Tracks, InSync;
    var q := s.client.sent[i].seqNo;
    var j :| 0 <= j < |s.said| && s.said[j].Response? && s.said[j].requestSeq == q;
    SameNumber(s, i, q, s.said[j].command);
    assert Answers(s.said[j], s.said[j].command);
  }

  lemma OpenByNumber(s: Sys, i: nat)
    requires Inv(s) && i < |s.client.sent| && s.client.sent[i].Request? && s.client.sent[i].seqNo in s.open
    ensures s.open[s.client.sent[i].seqNo] == s.client.sent[i].command
  {
    hide Ordered, Tracks, InSync;
    SameNumber(s, i, s.client.sent[i].seqNo, s.open[s.client.sent[i].seqNo]);
  }

  lemma SameNumber(s: Sys, i: nat, q: int, command: string)
    requires Numbered(s.client) && Received(s, q, command)
    requires i < |s.client.sent| && s.client.sent[i].Request? && s.client.sent[i].seqNo == q
    ensures s.client.sent[i].command == command
  {
    var k: nat :| k < s.received && IsRequest(s.client.sent, k, q, command);
    assert k == i;
  }

  /** What the moves of a run outside the handshake add, and how many are of it. */
  function Disturbance(run: seq<Sys>, moves: seq<Move>): nat
    requires |run| == |moves| + 1 && forall s | s in run :: s.heard <= |s.said|
    decreases |moves|
  {
    if moves == [] then 0
    else
      var n := |moves| - 1;
      assert run[n] in run && forall s | s in run[..n + 1] :: s in run;
      Disturbance(run[..n + 1], moves[..n]) + if Advances(run[n], moves[n]) then 0 else Added(run[n], moves[n])
  }

  function Advanced(run: seq<Sys>, moves: seq<Move>): nat
    requires |run| == |moves| + 1
    decreases |moves|
  {
    if moves == [] then 0
    else
      var n := |moves| - 1;
      Advanced(run[..n + 1], moves[..n]) + if Advances(run[n], moves[n]) then 1 else 0
  }

  ghost predicate IsRun(run: seq<Sys>, moves: seq<Move>) {
    |run| == |moves| + 1 && forall i | 0 <= i < |moves| :: Step(run[i], moves[i], run[i + 1])
  }

  /** Over any run at all, the handshake's moves are no more than it first had to
      make and the others added, and if it ends where none of them is left, the
      launch has been answered. */
  lemma {:induction false} RunsReachLaunch(run: seq<Sys>, moves: seq<Move>)
    requires IsRun(run, moves) && Inv(run[0])
    ensures forall s | s in run :: s.heard <= |s.said|
    ensures Inv(run[|moves|]) && 0 <= Measure(run[|moves|])
    ensures Advanced(run, moves) + Measure(run[|moves|]) == Measure(run[0]) + Disturbance(run, moves)
    ensures Stuck(run[|moves|]) ==> Launched(run[|moves|])
    decreases |moves|
  {
    hide Measure, Inv, Progress, Step, Advances, Added, Launched;
    var last := run[|moves|];
    if moves != [] {
      var n := |moves| - 1;
      RunsReachLaunch(run[..n + 1], moves[..n]);
      assert run[..n + 1][n] == run[n];
      if Advances(run[n], moves[n]) {
        ProgressCounts(run[n], moves[n], last);
      } else {
        OthersCount(run[n], moves[n], last);
      }
      assert run == run[..n + 1] + [last];
    }
    InvHasQueues(last);
    MeasureIsNatural(last);
    if !Launched(last) {
      var s' := NeverStuck(last);
    }
  }

  /** A session with no breakpoints wanted is eleven moves from its launch; what is
      done meanwhile adds what it adds. */
  lemma StartReachesLaunch(launchArguments: Arguments, run: seq<Sys>, moves: seq<Move>)
    requires IsRun(run, moves) && run[0] == Begin(launchArguments)
    ensures forall s | s in run :: s.heard <= |s.said|
    ensures Advanced(run, moves) <= 11 + Disturbance(run, moves)
    ensures Stuck(run[|moves|]) ==> Launched(run[|moves|])
  {
    BeginsWell(launchArguments);
    assert Measure(run[0]) == 11 by {
      assert Written(run[0].client.sent, 0) == 0;
      OneCommand(run[0].client.sent[0], INITIALIZE);
    }
    hide Measure, Inv, Advances, Added, Stuck, Launched;
    RunsReachLaunch(run, moves);
  }
}
