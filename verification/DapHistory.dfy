/** What a session shows its user, read off the run that led to it. */
module DapHistory {
  import opened Options
  import opened DapClient
  import opened DapClientFacts
  import opened DapSystem
  import opened DapProgress

  // What was set last

  /** Of all that was ever set, `v` is what was set last. */
  predicate LastSet<T(==)>(sets: seq<Option<T>>, v: T) {
    exists k | 0 <= k < |sets| :: sets[k] == Some(v) && forall j | k < j < |sets| :: sets[j].None?
  }

  lemma LastSetMore<T>(sets: seq<Option<T>>, set_: Option<T>, v: T)
    ensures LastSet(sets + [set_], v) <==> if set_.Some? then set_.value == v else LastSet(sets, v)
  {
    var more := sets + [set_];
    assert more[|sets|] == set_;
    if LastSet(sets, v) && set_.None? {
      var k :| 0 <= k < |sets| && sets[k] == Some(v) && forall j | k < j < |sets| :: sets[j].None?;
      assert more[k] == Some(v);
    }
    if LastSet(more, v) {
      var k :| 0 <= k < |more| && more[k] == Some(v) && forall j | k < j < |more| :: more[j].None?;
      if k < |sets| {
        assert more[|sets|].None?;
        assert sets[k] == Some(v);
        forall j | k < j < |sets| ensures sets[j].None? {
          assert more[j] == sets[j];
        }
      }
    }
  }

  function Heard(s: Sys, move: Move): Option<Message> {
    if move.ClientHears? && s.heard < |s.said| then Some(s.said[s.heard]) else None
  }

  /** Whether a move stops the program or sets it running, as the session is told. */
  function ExecutionSet(s: Sys, move: Move): Option<Execution> {
    if move.UserAsks? then if move.runs then Some(Running) else None
    else
      match Heard(s, move)
      case Some(Event(name, body)) =>
        if name == "stopped" then Some(Stopped(body)) else if name == "continued" then Some(Running) else None
      case _ => None
  }

  function StateSet(s: Sys, move: Move): Option<State> {
    match Heard(s, move)
    case Some(Response(_, command, _)) => if command == INITIALIZE then Some(Launching) else None
    case Some(Event(name, _)) =>
      if name == INITIALIZED then Some(Configured) else if name == "terminated" then Some(Exited) else None
    case _ => None
  }

  /** The answer to request `q` to be had: heard, and not taken since. */
  function AnswerSet(s: Sys, move: Move, q: int): Option<Option<Result<Body, string>>> {
    if move.UserTakes? then if move.seqNo == q then Some(None) else None
    else
      match Heard(s, move)
      case Some(Response(requestSeq, _, result)) => if requestSeq == q then Some(Some(result)) else None
      case _ => None
  }

  function CapabilitiesSet(s: Sys, move: Move): Option<Body> {
    match Heard(s, move)
    case Some(Response(_, command, result)) => if command == INITIALIZE && result.Ok? then Some(result.value) else None
    case _ => None
  }

  /** The lines wanted of a file, sorted and each once. */
  function LinesSet(move: Move, path: string): Option<Option<seq<nat>>> {
    if move.UserWants? && move.path == path then Some(Some(SortedOnce(move.lines))) else None
  }

  function LinesOf(c: Client, path: string): Option<seq<nat>> {
    if path in c.wanted then Some(c.wanted[path]) else None
  }

  function AnswerTo(c: Client, q: int): Option<Result<Body, string>> {
    if q in c.responses then Some(c.responses[q]) else None
  }

  function Over<T>(set_: Option<T>, was: T): T {
    if set_.Some? then set_.value else was
  }

  // One move

  /** What a move sets is what it says, and all else stays. */
  ghost predicate SetsAsSaid(s: Sys, move: Move, s': Sys) {
    && s'.client.execution == Over(ExecutionSet(s, move), s.client.execution)
    && s'.client.state == Over(StateSet(s, move), s.client.state)
    && s'.client.capabilities == Over(CapabilitiesSet(s, move), s.client.capabilities)
    && forall q :: AnswerTo(s'.client, q) == Over(AnswerSet(s, move, q), AnswerTo(s.client, q))
  }

  lemma ConfiguringSetsState(c: Client, order: seq<string>)
    ensures var c' := Configure(c, order);
            && c'.state == Configured && c'.execution == c.execution && c'.responses == c.responses
            && c'.capabilities == c.capabilities
  {
    hide SendFiles;
    SendFilesKeep(c, order);
  }

  lemma HearingSets(s: Sys, s': Sys)
    requires Inv(s) && Step(s, ClientHears, s')
    ensures SetsAsSaid(s, ClientHears, s')
  {
    if s.said[s.heard].Response? {
      HearingAnswerSets(s, s');
    } else if IsInitialized(s.said[s.heard]) {
      HearingInitializedSets(s, s');
    } else {
      HearingOtherSets(s, s');
    }
  }

  lemma HearingAnswerSets(s: Sys, s': Sys)
    requires Inv(s) && Step(s, ClientHears, s') && s.said[s.heard].Response?
    ensures SetsAsSaid(s, ClientHears, s')
  {
    InvParts(s);
    hide Inv, Wires, Ordered, Books, HearResponse;
    var message := s.said[s.heard];
    var i := AnswerIsAwaited(s);
    InitializeSucceeds(s);
    AnswerSets(s.client, message.requestSeq, message.command, message.result);
  }

  lemma HearingInitializedSets(s: Sys, s': Sys)
    requires Step(s, ClientHears, s') && IsInitialized(s.said[s.heard])
    ensures SetsAsSaid(s, ClientHears, s')
  {
    hide Configure, Orders, HearPlain;
    var order :| Orders(order, s.client.wanted.Keys) && s'.client == Configure(s.client, order);
    ConfiguringSetsState(s.client, order);
  }

  lemma HearingOtherSets(s: Sys, s': Sys)
    requires Step(s, ClientHears, s') && !s.said[s.heard].Response? && !IsInitialized(s.said[s.heard])
    ensures SetsAsSaid(s, ClientHears, s')
  {
    hide Hears;
    OtherSets(s.client, s.said[s.heard], s'.client);
  }

  lemma OtherSets(c: Client, message: Message, c': Client)
    requires Hears(c, message, c') && !message.Response? && !IsInitialized(message)
    ensures c'.responses == c.responses && c'.capabilities == c.capabilities
    ensures c'.execution == if !message.Event? then c.execution
                            else if message.name == "stopped" then Stopped(message.body)
                            else if message.name == "continued" then Running
                            else c.execution
    ensures c'.state == if message.Event? && message.name == "terminated" then Exited else c.state
  {
    hide Revises, Configure, Orders, HearResponse;
    if IsRevision(message) {
      assert message.name != "stopped" && message.name != "continued" && message.name != "terminated";
    }
  }

  lemma AnswerSets(c: Client, q: int, command: string, result: Result<Body, string>)
    requires q in c.pending && c.pending[q] == command && (command == INITIALIZE ==> result.Ok?)
    ensures var c' := HearResponse(c, q, command, result);
            && c'.execution == c.execution
            && c'.state == (if command == INITIALIZE then Launching else c.state)
            && c'.capabilities == (if command == INITIALIZE then result.value else c.capabilities)
            && c'.responses == c.responses[q := result]
  {
  }

  lemma MoveSets(s: Sys, move: Move, s': Sys)
    requires Inv(s) && Step(s, move, s')
    ensures SetsAsSaid(s, move, s')
  {
    match move
    case UserWants(path, lines) =>
      hide SortedOnce, SendFile;
      SendFileKeeps(s.client.(wanted := s.client.wanted[path := SortedOnce(lines)]), path);
    case ClientHears => HearingSets(s, s');
    case _ =>
  }

  // Whole runs

  /** What each move of a run set, after what stood at its start. */
  function Executions(run: seq<Sys>, moves: seq<Move>): seq<Option<Execution>>
    requires |moves| < |run|
  {
    if moves == [] then [Some(Running)]
    else Executions(run, moves[..|moves| - 1]) + [ExecutionSet(run[|moves| - 1], moves[|moves| - 1])]
  }

  function States(run: seq<Sys>, moves: seq<Move>): seq<Option<State>>
    requires |moves| < |run|
  {
    if moves == [] then [Some(Initializing)]
    else States(run, moves[..|moves| - 1]) + [StateSet(run[|moves| - 1], moves[|moves| - 1])]
  }

  function AllCapabilities(run: seq<Sys>, moves: seq<Move>): seq<Option<Body>>
    requires |moves| < |run|
  {
    if moves == [] then [Some(NoBody)]
    else AllCapabilities(run, moves[..|moves| - 1]) + [CapabilitiesSet(run[|moves| - 1], moves[|moves| - 1])]
  }

  function AnswersSet(run: seq<Sys>, moves: seq<Move>, q: int): seq<Option<Option<Result<Body, string>>>>
    requires |moves| < |run|
  {
    if moves == [] then [Some(None)]
    else AnswersSet(run, moves[..|moves| - 1], q) + [AnswerSet(run[|moves| - 1], moves[|moves| - 1], q)]
  }

  lemma OneMoveMore(run: seq<Sys>, moves: seq<Move>, n: nat, q: int)
    requires 0 < n <= |moves| < |run|
    ensures var before, s, move := moves[..n - 1], run[n - 1], moves[n - 1];
            && Executions(run, moves[..n]) == Executions(run, before) + [ExecutionSet(s, move)]
            && States(run, moves[..n]) == States(run, before) + [StateSet(s, move)]
            && AllCapabilities(run, moves[..n]) == AllCapabilities(run, before) + [CapabilitiesSet(s, move)]
            && AnswersSet(run, moves[..n], q) == AnswersSet(run, before, q) + [AnswerSet(s, move, q)]
  {
    hide ExecutionSet, StateSet, CapabilitiesSet, AnswerSet;
    assert moves[..n][..n - 1] == moves[..n - 1];
  }

  /** Over any run, what the session shows is what was last said of it: whether the
      program runs or stopped, and why; which stage of the handshake this is; what the
      adapter can do; and each answer not taken yet. */
  lemma {:induction false} ShowsWhatWasSaidLast(
    launchArguments: Arguments, run: seq<Sys>, moves: seq<Move>, n: nat, execution: Execution, state: State,
    capabilities: Body, q: int, answer: Option<Result<Body, string>>)
    requires IsRun(run, moves) && run[0] == Begin(launchArguments) && n <= |moves|
    ensures run[n].client.execution == execution <==> LastSet(Executions(run, moves[..n]), execution)
    ensures run[n].client.state == state <==> LastSet(States(run, moves[..n]), state)
    ensures run[n].client.capabilities == capabilities <==> LastSet(AllCapabilities(run, moves[..n]), capabilities)
    ensures AnswerTo(run[n].client, q) == answer <==> LastSet(AnswersSet(run, moves[..n], q), answer)
  {
    if n == 0 {
      assert moves[..0] == [];
      LastSetMore([], Some(Running), execution);
      LastSetMore([], Some(Initializing), state);
      LastSetMore([], Some(NoBody), capabilities);
      LastSetMore([], Some(None), answer);
    } else {
      hide Step, Inv, Begin, LastSet, ExecutionSet, StateSet, CapabilitiesSet, AnswerSet, AnswerTo;
      hide Executions, States, AllCapabilities, AnswersSet;
      var k := n - 1;
      EveryRunKeepsInv(launchArguments, run, moves);
      ShowsWhatWasSaidLast(launchArguments, run, moves, k, execution, state, capabilities, q, answer);
      OneMoveMore(run, moves, n, q);
      MoveSets(run[k], moves[k], run[n]);
      LastSetMore(Executions(run, moves[..k]), ExecutionSet(run[k], moves[k]), execution);
      LastSetMore(States(run, moves[..k]), StateSet(run[k], moves[k]), state);
      LastSetMore(AllCapabilities(run, moves[..k]), CapabilitiesSet(run[k], moves[k]), capabilities);
      LastSetMore(AnswersSet(run, moves[..k], q), AnswerSet(run[k], moves[k], q), answer);
    }
  }

  function AllLines(moves: seq<Move>, path: string): seq<Option<Option<seq<nat>>>> {
    if moves == [] then [Some(None)]
    else AllLines(moves[..|moves| - 1], path) + [LinesSet(moves[|moves| - 1], path)]
  }

  lemma WantingSets(c: Client, path: string, lines: seq<nat>)
    ensures Want(c, path, lines).wanted == c.wanted[path := SortedOnce(lines)]
  {
    hide SortedOnce, SendFile;
    SendFileKeeps(c.(wanted := c.wanted[path := SortedOnce(lines)]), path);
  }

  lemma HearingWantsNothing(c: Client, message: Message, c': Client)
    requires Hears(c, message, c')
    ensures c'.wanted == c.wanted
  {
    if IsInitialized(message) {
      hide SendFiles, HearPlain;
      var order :| Orders(order, c.wanted.Keys) && c' == Configure(c, order);
      SendFilesKeep(c, order);
    } else {
      hide Revises, Configure, Orders;
    }
  }

  lemma MoveWants(s: Sys, move: Move, s': Sys, path: string)
    requires Step(s, move, s')
    ensures LinesOf(s'.client, path) == Over(LinesSet(move, path), LinesOf(s.client, path))
  {
    hide Hears, Want, SortedOnce, MaySay;
    match move
    case UserWants(of, lines) => WantingSets(s.client, of, lines);
    case ClientHears => HearingWantsNothing(s.client, s.said[s.heard], s'.client);
    case _ =>
  }

  /** Over any run, the lines wanted of a file are those its user last asked for. */
  lemma {:induction false} WantsWhatWasAskedLast(
    launchArguments: Arguments, run: seq<Sys>, moves: seq<Move>, n: nat, path: string, lines: Option<seq<nat>>)
    requires IsRun(run, moves) && run[0] == Begin(launchArguments) && n <= |moves|
    ensures LinesOf(run[n].client, path) == lines <==> LastSet(AllLines(moves[..n], path), lines)
  {
    if n == 0 {
      assert moves[..0] == [];
      LastSetMore([], Some(None), lines);
    } else {
      hide Step, Begin, LastSet, LinesSet, LinesOf;
      var k := n - 1;
      WantsWhatWasAskedLast(launchArguments, run, moves, k, path, lines);
      assert moves[..n][..k] == moves[..k];
      MoveWants(run[k], moves[k], run[n], path);
      LastSetMore(AllLines(moves[..k], path), LinesSet(moves[k], path), lines);
    }
  }

  // The adapter's own requests

  function RefusalOf(message: Message): Message
    requires message.Request?
  {
    Response(message.seqNo, message.command, Err("bish does not implement " + message.command))
  }

  /** One refusal for each request among the first `n` messages, in order. */
  function Refusals(said: seq<Message>, n: nat): seq<Message>
    requires n <= |said|
  {
    if n == 0 then []
    else Refusals(said, n - 1) + if said[n - 1].Request? then [RefusalOf(said[n - 1])] else []
  }

  function ResponsesIn(sent: seq<Message>): seq<Message> {
    if sent == [] then []
    else
      var last := sent[|sent| - 1];
      ResponsesIn(sent[..|sent| - 1]) + if last.Response? then [last] else []
  }

  lemma {:induction false} OnlyRequestsMore(sent: seq<Message>, more: seq<Message>)
    requires |sent| <= |more| && more[..|sent|] == sent
    requires forall i | |sent| <= i < |more| :: more[i].Request?
    ensures ResponsesIn(more) == ResponsesIn(sent)
    decreases |more|
  {
    if |sent| < |more| {
      var before := more[..|more| - 1];
      assert before[..|sent|] == sent;
      OnlyRequestsMore(sent, before);
    } else {
      assert more == sent;
    }
  }

  lemma {:induction false} RefusalsPrefix(said: seq<Message>, more: seq<Message>, n: nat)
    requires n <= |said| <= |more| && more[..|said|] == said
    ensures Refusals(more, n) == Refusals(said, n)
  {
    if n > 0 {
      RefusalsPrefix(said, more, n - 1);
      assert more[n - 1] == said[n - 1];
    }
  }

  lemma HearingResponds(s: Sys, s': Sys)
    requires Step(s, ClientHears, s')
    ensures ResponsesIn(s'.client.sent) ==
            ResponsesIn(s.client.sent) + if s.said[s.heard].Request? then [RefusalOf(s.said[s.heard])] else []
  {
    var c, c', message := s.client, s'.client, s.said[s.heard];
    if message.Request? {
      assert c'.sent[..|c.sent|] == c.sent;
    } else {
      OnlyAsks(c, message, c');
      OnlyRequestsMore(c.sent, c'.sent);
    }
  }

  lemma OnlyAsks(c: Client, message: Message, c': Client)
    requires Hears(c, message, c') && !message.Request?
    ensures |c.sent| <= |c'.sent| && c'.sent[..|c.sent|] == c.sent
    ensures forall i | |c.sent| <= i < |c'.sent| :: c'.sent[i].Request?
  {
    if IsInitialized(message) {
      hide Configure, Orders, HearPlain;
      var order :| Orders(order, c.wanted.Keys) && c' == Configure(c, order);
      ConfiguringOnlyAsks(c, order);
    } else {
      hide Revises, Configure, Orders;
    }
  }

  lemma ConfiguringOnlyAsks(c: Client, order: seq<string>)
    ensures var c' := Configure(c, order);
            && |c.sent| <= |c'.sent| && c'.sent[..|c.sent|] == c.sent
            && forall i | |c.sent| <= i < |c'.sent| :: c'.sent[i].Request?
  {
    hide SendFiles;
    SendFilesKeep(c, order);
    var files, c' := SendFiles(c, order), Configure(c, order);
    assert c'.sent == files.sent + [c'.sent[|files.sent|]];
    assert c'.sent[..|c.sent|] == files.sent[..|c.sent|];
  }

  lemma WantingOnlyAsks(c: Client, path: string, lines: seq<nat>)
    ensures ResponsesIn(Want(c, path, lines).sent) == ResponsesIn(c.sent)
  {
    hide SortedOnce, SendFile, ResponsesIn;
    SendFileKeeps(c.(wanted := c.wanted[path := SortedOnce(lines)]), path);
    OnlyRequestsMore(c.sent, Want(c, path, lines).sent);
  }

  lemma MoveResponds(s: Sys, move: Move, s': Sys)
    requires Step(s, move, s') && s.heard <= |s.said|
    requires ResponsesIn(s.client.sent) == Refusals(s.said, s.heard)
    ensures s'.heard <= |s'.said| && ResponsesIn(s'.client.sent) == Refusals(s'.said, s'.heard)
  {
    hide ResponsesIn, Want, Hears, MaySay;
    match move
    case UserWants(path, lines) => WantingOnlyAsks(s.client, path, lines);
    case UserAsks(_, _, _) => OnlyRequestsMore(s.client.sent, s'.client.sent);
    case UserTakes(_) =>
    case ClientHears => HearingResponds(s, s');
    case AdapterReceives =>
    case AdapterSays(_) => RefusalsPrefix(s.said, s'.said, s.heard);
  }

  /** Over any run, the answers the client has written are a refusal of every request
      it has heard from the adapter, once each and in their order. */
  lemma {:induction false} RequestsAreRefused(launchArguments: Arguments, run: seq<Sys>, moves: seq<Move>, n: nat)
    requires IsRun(run, moves) && run[0] == Begin(launchArguments) && n <= |moves|
    ensures run[n].heard <= |run[n].said| && ResponsesIn(run[n].client.sent) == Refusals(run[n].said, run[n].heard)
  {
    if n == 0 {
      NothingRefusedYet(launchArguments);
    } else {
      hide Step, Begin, ResponsesIn, Refusals;
      RequestsAreRefused(launchArguments, run, moves, n - 1);
      MoveResponds(run[n - 1], moves[n - 1], run[n]);
    }
  }

  lemma NothingRefusedYet(launchArguments: Arguments)
    ensures var s := Begin(launchArguments);
            s.heard <= |s.said| && ResponsesIn(s.client.sent) == Refusals(s.said, s.heard)
  {
    var s := Begin(launchArguments);
    assert s.client.sent[..0] == [];
  }

  // Which entry a revised breakpoint replaces

  lemma {:induction false} FirstWithIdIs(placed: seq<Breakpoint>, id: Option<int>, i: nat)
    requires id.Some?
    ensures FirstWithId(placed, id) == Some(i) <==>
            i < |placed| && placed[i].id == id && forall j | 0 <= j < i :: placed[j].id != id
    ensures FirstWithId(placed, id).None? <==> forall j | 0 <= j < |placed| :: placed[j].id != id
    decreases placed
  {
    if placed != [] {
      FirstWithIdIs(placed[1..], id, if i > 0 then i - 1 else 0);
      if placed[0].id != id {
        assert forall j | 0 < j < |placed| :: placed[j] == placed[1..][j - 1];
      }
    }
  }

  lemma {:induction false} FirstAtLineIs(placed: seq<Breakpoint>, line: Option<nat>, i: nat)
    ensures FirstAtLine(placed, line) == Some(i) <==>
            i < |placed| && placed[i].line == line && forall j | 0 <= j < i :: placed[j].line != line
    ensures FirstAtLine(placed, line).None? <==> forall j | 0 <= j < |placed| :: placed[j].line != line
    decreases placed
  {
    if placed != [] {
      FirstAtLineIs(placed[1..], line, if i > 0 then i - 1 else 0);
      if placed[0].line != line {
        assert forall j | 0 < j < |placed| :: placed[j] == placed[1..][j - 1];
      }
    }
  }

  /** A revised breakpoint replaces the file's first entry with its number; with no
      such entry, and in the file it names alone, the first on its line. */
  lemma EntryIsFirst(path: string, placed: seq<Breakpoint>, updated: Breakpoint, i: nat)
    ensures var known := updated.id.Some? && exists j | 0 <= j < |placed| :: placed[j].id == updated.id;
            EntryFor(path, placed, updated) == Some(i) <==>
            if known then i < |placed| && placed[i].id == updated.id && forall j | 0 <= j < i :: placed[j].id != updated.id
            else
              && updated.sourcePath == Some(path)
              && i < |placed| && placed[i].line == updated.line && forall j | 0 <= j < i :: placed[j].line != updated.line
  {
    if updated.id.Some? {
      FirstWithIdIs(placed, updated.id, i);
    }
    FirstAtLineIs(placed, updated.line, i);
    hide FirstWithId, FirstAtLine;
    NoIdIsFirst(placed);
  }

  lemma NoIdIsFirst(placed: seq<Breakpoint>)
    ensures FirstWithId(placed, None).None?
  {
  }
}
