/** The debug-adapter client: its state, and what each thing that happens to it
    does. */
module DapClient {
  import opened Options

  datatype Breakpoint = Breakpoint(id: Option<int>, verified: bool, line: Option<nat>, sourcePath: Option<string>)

  /** A message's body, as far as the session looks into one. */
  datatype Body =
    | NoBody
    | Capabilities(flags: set<string>)
    | Placements(breakpoints: seq<Breakpoint>)
    | Revised(breakpoint: Breakpoint)
    | Other(text: string)

  datatype Arguments = NoArguments | SetLines(path: string, lines: seq<nat>) | Given(text: string)

  datatype Message =
    | Request(seqNo: int, command: string, arguments: Arguments)
    | Response(requestSeq: int, command: string, result: Result<Body, string>)
    | Event(name: string, body: Body)

  const INITIALIZE: string := "initialize"
  const LAUNCH: string := "launch"
  const SET_BREAKPOINTS: string := "setBreakpoints"
  const CONFIGURATION_DONE: string := "configurationDone"
  const INITIALIZED: string := "initialized"

  /** The phases of the handshake. */
  datatype State = Initializing | Launching | Configured | Exited

  datatype Execution = Running | Stopped(why: Body)

  /** The session, with every message it has written in order. */
  datatype Client = Client(
    state: State,
    execution: Execution,
    nextSeq: int,
    pending: map<int, string>,
    responses: map<int, Result<Body, string>>,
    capabilities: Body,
    launchArguments: Arguments,
    wanted: map<string, seq<nat>>,
    placed: map<string, seq<Breakpoint>>,
    sent: seq<Message>)

  function BreakpointsIn(body: Body): seq<Breakpoint> {
    if body.Placements? then body.breakpoints else []
  }

  // Sending

  function Ask(c: Client, command: string, arguments: Arguments): Client {
    c.(nextSeq := c.nextSeq + 1,
       pending := c.pending[c.nextSeq := command],
       sent := c.sent + [Request(c.nextSeq, command, arguments)])
  }

  /** A `setBreakpoints` request for one file, its path remembered under minus the
      request's number, since an answer carries the number alone. */
  function SendFile(c: Client, path: string): Client {
    var lines := if path in c.wanted then c.wanted[path] else [];
    var asked := Ask(c, SET_BREAKPOINTS, SetLines(path, lines));
    asked.(pending := asked.pending[-c.nextSeq := path])
  }

  function SendFiles(c: Client, paths: seq<string>): Client {
    if paths == [] then c else SendFile(SendFiles(c, paths[..|paths| - 1]), paths[|paths| - 1])
  }

  /** What a session is when it starts: one request out. */
  function Started(launchArguments: Arguments): Client {
    Ask(Client(Initializing, Running, 1, map[], map[], NoBody, launchArguments, map[], map[], []), INITIALIZE, NoArguments)
  }

  // Lines, sorted and each once

  function Inserted(line: nat, lines: seq<nat>): seq<nat> {
    if lines == [] then [line]
    else if line < lines[0] then [line] + lines
    else if line == lines[0] then lines
    else [lines[0]] + Inserted(line, lines[1..])
  }

  function SortedOnce(lines: seq<nat>): seq<nat> {
    if lines == [] then [] else Inserted(lines[0], SortedOnce(lines[1..]))
  }

  predicate Increasing(lines: seq<nat>) {
    forall i, j | 0 <= i < j < |lines| :: lines[i] < lines[j]
  }

  lemma {:induction false} InsertedKeeps(line: nat, lines: seq<nat>)
    requires Increasing(lines)
    ensures Increasing(Inserted(line, lines))
    ensures forall l: nat :: l in Inserted(line, lines) <==> l == line || l in lines
    decreases lines
  {
    if lines != [] && line > lines[0] {
      InsertedKeeps(line, lines[1..]);
      assert lines == [lines[0]] + lines[1..];
      assert forall l: nat | l in lines[1..] :: l > lines[0];
    }
  }

  lemma {:induction false} SortedOnceIsSorted(lines: seq<nat>)
    ensures Increasing(SortedOnce(lines))
    ensures forall l: nat :: l in SortedOnce(lines) <==> l in lines
    decreases lines
  {
    if lines != [] {
      SortedOnceIsSorted(lines[1..]);
      InsertedKeeps(lines[0], SortedOnce(lines[1..]));
      assert lines == [lines[0]] + lines[1..];
    }
  }

  /** Breakpoints wanted: remembered, and sent if the adapter takes them already. */
  function Want(c: Client, path: string, lines: seq<nat>): Client {
    var c' := c.(wanted := c.wanted[path := SortedOnce(lines)]);
    if c'.state.Configured? then SendFile(c', path) else c'
  }

  // Hearing

  /** The files in some order, each once. */
  predicate Orders(order: seq<string>, files: set<string>) {
    && (forall f | f in files :: f in order)
    && (forall i | 0 <= i < |order| :: order[i] in files)
    && (forall i, j | 0 <= i < j < |order| :: order[i] != order[j])
  }

  function Configure(c: Client, order: seq<string>): Client {
    Ask(SendFiles(c, order), CONFIGURATION_DONE, NoArguments).(state := Configured)
  }

  function HearResponse(c: Client, requestSeq: int, named: string, result: Result<Body, string>): Client {
    var command := if requestSeq in c.pending then c.pending[requestSeq] else named;
    var c' := c.(pending := c.pending - {requestSeq});
    var after :=
      if command == INITIALIZE && result.Ok? then
        Ask(c'.(capabilities := result.value), LAUNCH, c'.launchArguments).(state := Launching)
      else if command == SET_BREAKPOINTS && result.Ok? && -requestSeq in c'.pending then
        c'.(pending := c'.pending - {-requestSeq},
            placed := c'.placed[c'.pending[-requestSeq] := BreakpointsIn(result.value)])
      else c';
    after.(responses := after.responses[requestSeq := result])
  }

  function FirstWithId(placed: seq<Breakpoint>, id: Option<int>): Option<nat> {
    if placed == [] || id.None? then None
    else if placed[0].id == id then Some(0)
    else match FirstWithId(placed[1..], id) case None => None case Some(i) => Some(i + 1)
  }

  function FirstAtLine(placed: seq<Breakpoint>, line: Option<nat>): Option<nat> {
    if placed == [] then None
    else if placed[0].line == line then Some(0)
    else match FirstAtLine(placed[1..], line) case None => None case Some(i) => Some(i + 1)
  }

  /** The entry of one file that a revised breakpoint replaces, if any: by id where
      it has one, else by the line it is on in the file it names. */
  function EntryFor(path: string, placed: seq<Breakpoint>, updated: Breakpoint): (entry: Option<nat>)
    ensures entry.Some? ==> entry.value < |placed|
  {
    FirstInRange(placed, updated);
    if FirstWithId(placed, updated.id).Some? then FirstWithId(placed, updated.id)
    else if updated.sourcePath == Some(path) then FirstAtLine(placed, updated.line)
    else None
  }

  lemma {:induction false} FirstInRange(placed: seq<Breakpoint>, updated: Breakpoint)
    ensures FirstWithId(placed, updated.id).Some? ==> FirstWithId(placed, updated.id).value < |placed|
    ensures FirstAtLine(placed, updated.line).Some? ==> FirstAtLine(placed, updated.line).value < |placed|
    decreases placed
  {
    if placed != [] {
      FirstInRange(placed[1..], updated);
    }
  }

  /** One entry of one file replaced, or nothing when no file has an entry for it.
      Which file, when several do, is the order they happen to be listed in. */
  ghost predicate Revises(before: map<string, seq<Breakpoint>>, after: map<string, seq<Breakpoint>>, updated: Breakpoint) {
    || (after == before && forall path | path in before :: EntryFor(path, before[path], updated).None?)
    || exists path | path in before ::
         && EntryFor(path, before[path], updated).Some?
         && after == before[path := before[path][EntryFor(path, before[path], updated).value := updated]]
  }

  /** What a session learns from any message but the two whose effect depends on
      the order its maps happen to be listed in. */
  function HearPlain(c: Client, message: Message): Client {
    match message
    case Response(requestSeq, command, result) => HearResponse(c, requestSeq, command, result)
    case Request(seqNo, command, _) =>
      c.(sent := c.sent + [Response(seqNo, command, Err("bish does not implement " + command))])
    case Event(name, body) =>
      if name == "stopped" then c.(execution := Stopped(body))
      else if name == "continued" then c.(execution := Running)
      else if name == "terminated" then c.(state := Exited)
      else c
  }

  predicate IsInitialized(message: Message) {
    message.Event? && message.name == INITIALIZED
  }

  predicate IsRevision(message: Message) {
    message.Event? && message.name == "breakpoint" && message.body.Revised?
  }

  /** `c'` is a client that `c` may become on hearing `message`. */
  ghost predicate Hears(c: Client, message: Message, c': Client) {
    if IsInitialized(message) then exists order :: Orders(order, c.wanted.Keys) && c' == Configure(c, order)
    else if IsRevision(message) then Revises(c.placed, c'.placed, message.body.breakpoint) && c' == c.(placed := c'.placed)
    else c' == HearPlain(c, message)
  }
}
