/** Why the order matters: a client that waits to hear its launch answered before it
    configures waits for ever. */
module DapWaiting {
  import opened Options
  import opened DapClient
  import opened DapClientFacts
  import opened DapSystem
  import opened DapProgress

  /** What a waiting client makes of the next message. It differs from `Hears` in
      when it configures alone: on the second to come of the launch's answer and
      word that the adapter is ready. */
  ghost predicate WaitHears(s: Sys, c': Client)
    requires s.heard < |s.said|
  {
    var message := s.said[s.heard];
    if IsInitialized(message) then
      if Launched(s) then Hears(s.client, message, c') else c' == s.client
    else if Answers(message, LAUNCH) && ToldInitialized(s.said, s.heard) then
      exists c, order :: Hears(s.client, message, c) && Orders(order, c.wanted.Keys) && c' == Configure(c, order)
    else Hears(s.client, message, c')
  }

  /** A move with a waiting client in the other's place. */
  ghost predicate WaitStep(s: Sys, move: Move, s': Sys) {
    if move.ClientHears? then
      && s.heard < |s.said|
      && WaitHears(s, s'.client)
      && s' == s.(client := s'.client, heard := s.heard + 1,
                  done := if s.said[s.heard].Response? then s.done + {s.said[s.heard].requestSeq} else s.done)
    else Step(s, move, s')
  }

  /** Nobody has asked for the end of configuration, or answered the launch. */
  predicate Waits(s: Sys) {
    && s.received <= |s.client.sent| && s.heard <= |s.said|
    && !Asked(s.client.sent, |s.client.sent|, CONFIGURATION_DONE)
    && !Answered(s.said, |s.said|, LAUNCH)
  }

  /** Nothing a client does but configure asks for the end of configuration. */
  lemma WritingWaits(s: Sys, c': Client)
    requires Waits(s) && Extends(s.client, c')
    requires forall i | |s.client.sent| <= i < |c'.sent| :: !AsksFor(c'.sent[i], CONFIGURATION_DONE)
    ensures Waits(s.(client := c'))
  {
    forall i | 0 <= i < |c'.sent| ensures !AsksFor(c'.sent[i], CONFIGURATION_DONE) {
      if i < |s.client.sent| {
        assert c'.sent[i] == s.client.sent[i];
      }
    }
  }

  lemma HearingWaits(s: Sys, s': Sys)
    requires Waits(s) && WaitStep(s, ClientHears, s')
    ensures Waits(s')
  {
    var message, c' := s.said[s.heard], s'.client;
    assert !Launched(s) && !Answers(message, LAUNCH);
    if IsInitialized(message) {
    } else {
      HearingAsksLittle(s.client, message, c');
      WritingWaits(s, c');
    }
  }

  lemma HearingAsksLittle(c: Client, message: Message, c': Client)
    requires Hears(c, message, c') && !IsInitialized(message)
    ensures Extends(c, c')
    ensures forall i | |c.sent| <= i < |c'.sent| :: !AsksFor(c'.sent[i], CONFIGURATION_DONE)
  {
    hide Revises, Configure, Orders;
    OneCommand(Request(1, LAUNCH, NoArguments), LAUNCH);
  }

  lemma StepWaits(s: Sys, move: Move, s': Sys)
    requires Waits(s) && WaitStep(s, move, s')
    ensures Waits(s')
  {
    match move
    case UserWants(path, lines) =>
      var wanting := s.client.(wanted := s.client.wanted[path := SortedOnce(lines)]);
      SendFileKeeps(wanting, path);
      OneCommand(SendFile(wanting, path).sent[|s.client.sent|], SET_BREAKPOINTS);
      hide SendFile, SortedOnce, Asked, AsksFor;
      WritingWaits(s, s'.client);
    case UserAsks(_, _, _) =>
      WritingWaits(s, s'.client);
    case UserTakes(_) =>
    case ClientHears => HearingWaits(s, s');
    case AdapterReceives =>
    case AdapterSays(message) =>
      PrefixSays(s.said, s'.said, |s.said|);
      AnsweredMore(s'.said, |s.said|, LAUNCH);
  }

  /** No run with a waiting client ever hears its launch answered, or asks for the
      end of configuration. */
  lemma {:induction false} WaitingNeverLaunches(launchArguments: Arguments, run: seq<Sys>, moves: seq<Move>)
    requires |run| == |moves| + 1 && run[0] == Begin(launchArguments)
    requires forall i | 0 <= i < |moves| :: WaitStep(run[i], moves[i], run[i + 1])
    ensures Waits(run[|moves|]) && !Launched(run[|moves|])
    decreases |moves|
  {
    if moves == [] {
      OneCommand(run[0].client.sent[0], INITIALIZE);
    } else {
      hide Waits, WaitStep, Begin;
      var n := |moves| - 1;
      WaitingNeverLaunches(launchArguments, run[..n + 1], moves[..n]);
      assert run[..n + 1][n] == run[n];
      StepWaits(run[n], moves[n], run[n + 1]);
    }
    WaitingIsUnlaunched(run[|moves|]);
  }

  lemma WaitingIsUnlaunched(s: Sys)
    requires Waits(s)
    ensures !Launched(s)
  {
  }

  /** No move of the handshake is left to a waiting client and its adapter. */
  ghost predicate Deadlocked(s: Sys) {
    forall move, s' | Advances(s, move) :: !WaitStep(s, move, s')
  }

  /** An adapter that owes nothing but the launch's answer, and a waiting client
      that has heard all it said, have no move left. */
  lemma NothingLeft(s: Sys)
    requires Waits(s) && s.received == |s.client.sent| && s.heard == |s.said| && ToldInitialized(s.said, |s.said|)
    requires forall q | q in s.open :: s.open[q] == LAUNCH
    ensures Deadlocked(s)
  {
    OneCommand(Request(1, LAUNCH, NoArguments), LAUNCH);
  }

  /** The start, up to the answer to initializing and the launch's being asked for. */
  lemma WaitingBegins(launchArguments: Arguments) returns (run: seq<Sys>, moves: seq<Move>)
    ensures |run| == 4 && |moves| == 3 && run[0] == Begin(launchArguments)
    ensures forall i | 0 <= i < |moves| :: Advances(run[i], moves[i]) && WaitStep(run[i], moves[i], run[i + 1])
    ensures run[3].open == map[] && run[3].received == 1 && run[3].heard == |run[3].said| == 1
    ensures Answers(run[3].said[0], INITIALIZE)
    ensures |run[3].client.sent| == 2 && run[3].client.sent[1] == Request(2, LAUNCH, launchArguments)
  {
    var answer := Response(1, INITIALIZE, Ok(NoBody));
    var s0 := Begin(launchArguments);
    var s1 := s0.(received := 1, open := map[1 := INITIALIZE]);
    var s2 := s1.(said := [answer], open := map[]);
    var s3 := s2.(client := HearPlain(s2.client, answer), heard := 1, done := {1});
    OneCommand(Request(1, INITIALIZE, NoArguments), INITIALIZE);
    assert WaitStep(s0, AdapterReceives, s1);
    assert WaitStep(s1, AdapterSays(answer), s2);
    assert WaitStep(s2, ClientHears, s3);
    run := [s0, s1, s2, s3];
    moves := [AdapterReceives, AdapterSays(answer), ClientHears];
  }

  /** And that is where they get to, from the start, each doing its part. */
  lemma WaitingDeadlocks(launchArguments: Arguments) returns (run: seq<Sys>, moves: seq<Move>)
    ensures |run| == |moves| + 1 && run[0] == Begin(launchArguments)
    ensures forall i | 0 <= i < |moves| :: Advances(run[i], moves[i]) && WaitStep(run[i], moves[i], run[i + 1])
    ensures Deadlocked(run[|moves|])
  {
    var begun, first := WaitingBegins(launchArguments);
    var s3 := begun[3];
    var ready := Event(INITIALIZED, NoBody);
    var s4 := s3.(received := 2, open := map[2 := LAUNCH]);
    var s5 := s4.(said := s4.said + [ready]);
    var s6 := s5.(heard := 2);
    WaitingNeverLaunches(launchArguments, begun, first);
    assert Waits(s6) && WaitStep(s3, AdapterReceives, s4) && WaitStep(s4, AdapterSays(ready), s5) && WaitStep(s5, ClientHears, s6);
    NothingLeft(s6);
    hide WaitStep, Waits, Deadlocked;
    run := begun + [s4, s5, s6];
    moves := first + [AdapterReceives, AdapterSays(ready), ClientHears];
    assert forall i | 0 <= i < 3 :: run[i] == begun[i] && moves[i] == first[i];
  }
}
