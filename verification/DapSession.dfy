/** The session as an object, its methods in place over its fields. */
module DapSession {
  import opened Options
  import opened DapClient

  class Session {
    var state: State
    var execution: Execution
    var nextSeq: int
    var pending: map<int, string>
    var responses: map<int, Result<Body, string>>
    var capabilities: Body
    const launchArguments: Arguments
    var wanted: map<string, seq<nat>>
    var placed: map<string, seq<Breakpoint>>
    /** Everything written, oldest first; the pipe takes it in that order. */
    var outgoing: seq<Message>

    function View(): Client
      reads this
    {
      Client(state, execution, nextSeq, pending, responses, capabilities, launchArguments, wanted, placed, outgoing)
    }

    constructor (launchArguments: Arguments)
      ensures View() == Started(launchArguments)
    {
      state, execution, nextSeq := Initializing, Running, 1;
      pending, responses, capabilities := map[], map[], NoBody;
      this.launchArguments := launchArguments;
      wanted, placed, outgoing := map[], map[], [];
      new;
      var _ := Ask(INITIALIZE, NoArguments);
    }

    method Write(message: Message)
      modifies this`outgoing
      ensures outgoing == old(outgoing) + [message]
    {
      outgoing := outgoing + [message];
    }

    method Ask(command: string, arguments: Arguments) returns (seqNo: int)
      modifies this`nextSeq, this`pending, this`outgoing
      ensures seqNo == old(nextSeq)
      ensures View() == DapClient.Ask(old(View()), command, arguments)
    {
      seqNo := nextSeq;
      nextSeq := nextSeq + 1;
      pending := pending[seqNo := command];
      Write(Request(seqNo, command, arguments));
    }

    method SendBreakpoints(path: string)
      modifies this`nextSeq, this`pending, this`outgoing
      ensures View() == SendFile(old(View()), path)
    {
      var lines := if path in wanted then wanted[path] else [];
      var seqNo := Ask(SET_BREAKPOINTS, SetLines(path, lines));
      pending := pending[-seqNo := path];
    }

    /** Where breakpoints should be: recorded, and sent only if the adapter takes
        them already. */
    method SetBreakpoints(path: string, lines: seq<nat>)
      modifies this
      ensures View() == Want(old(View()), path, lines)
    {
      wanted := wanted[path := SortedOnce(lines)];
      if state.Configured? {
        SendBreakpoints(path);
      }
    }

    /** A request's answer, taken so that it cannot be read twice. */
    method TakeResponse(seqNo: int) returns (answer: Option<Result<Body, string>>)
      modifies this`responses
      ensures answer == if seqNo in old(responses) then Some(old(responses)[seqNo]) else None
      ensures View() == old(View()).(responses := old(responses) - {seqNo})
    {
      answer := if seqNo in responses then Some(responses[seqNo]) else None;
      responses := responses - {seqNo};
    }

    /** Resuming and stepping: running again as far as the session knows, and asked for. */
    method Drive(command: string, thread: Arguments) returns (seqNo: int)
      modifies this
      ensures seqNo == old(nextSeq)
      ensures View() == DapClient.Ask(old(View()).(execution := Running), command, thread)
    {
      execution := Running;
      seqNo := Ask(command, thread);
    }

    /** Replaces the one entry that `EntryFor` picks, in some file that has one. */
    method UpdateBreakpoint(updated: Breakpoint)
      modifies this`placed
      ensures Revises(old(placed), placed, updated)
    {
      var left := placed.Keys;
      while left != {}
        invariant placed == old(placed)
        invariant left <= placed.Keys
        invariant forall path | path in placed && path !in left :: EntryFor(path, placed[path], updated).None?
        decreases |left|
      {
        var path :| path in left;
        match EntryFor(path, placed[path], updated) {
          case Some(i) =>
            placed := placed[path := placed[path][i := updated]];
            return;
          case None =>
            left := left - {path};
        }
      }
    }

    /** One message taken in: the new state is one that `Hears` allows. */
    method Absorb(message: Message)
      modifies this
      ensures Hears(old(View()), message, View())
    {
      hide Orders, Revises, Configure, HearResponse;
      match message {
        case Response(requestSeq, command, result) =>
          AbsorbResponse(requestSeq, command, result);
        case Event(name, body) =>
          if name == INITIALIZED {
            ghost var order := ConfigureAll();
          } else if name == "stopped" {
            execution := Stopped(body);
          } else if name == "continued" {
            execution := Running;
          } else if name == "breakpoint" {
            if body.Revised? {
              UpdateBreakpoint(body.breakpoint);
            }
          } else if name == "terminated" {
            state := Exited;
          }
        case Request(seqNo, command, _) =>
          // Asked for something it said it cannot do: a plain refusal.
          Write(Response(seqNo, command, Err("bish does not implement " + command)));
      }
    }

    method AbsorbResponse(requestSeq: int, named: string, result: Result<Body, string>)
      modifies this
      ensures View() == HearResponse(old(View()), requestSeq, named, result)
    {
      var command := if requestSeq in pending then pending[requestSeq] else named;
      pending := pending - {requestSeq};
      if command == INITIALIZE && result.Ok? {
        capabilities := result.value;
        // Asked for here; answered only after configuration.
        var _ := Ask(LAUNCH, launchArguments);
        state := Launching;
      } else if command == SET_BREAKPOINTS && result.Ok? {
        if -requestSeq in pending {
          placed := placed[pending[-requestSeq] := BreakpointsIn(result.value)];
          pending := pending - {-requestSeq};
        }
      }
      responses := responses[requestSeq := result];
    }

    /** Every wanted file sent, in whatever order they are listed, and the end of
        configuration said. */
    method ConfigureAll() returns (ghost order: seq<string>)
      modifies this
      ensures Orders(order, old(wanted).Keys)
      ensures View() == Configure(old(View()), order)
    {
      order := [];
      hide Orders, SendFile, SendFiles;
      ghost var was := View();
      var left := wanted.Keys;
      NothingSent(was, wanted.Keys);
      while left != {}
        invariant left <= wanted.Keys && wanted == old(wanted)
        invariant Orders(order, wanted.Keys - left)
        invariant View() == SendFiles(was, order)
        decreases |left|
      {
        var path :| path in left;
        SendBreakpoints(path);
        OrderGrows(was, order, wanted.Keys, left, path);
        order := order + [path];
        left := left - {path};
      }
      assert wanted.Keys - {} == wanted.Keys;
      var _ := Ask(CONFIGURATION_DONE, NoArguments);
      state := Configured;
    }
  }

  lemma OrderGrows(c: Client, order: seq<string>, files: set<string>, left: set<string>, path: string)
    requires Orders(order, files - left) && path in left && left <= files
    ensures Orders(order + [path], files - (left - {path}))
    ensures SendFiles(c, order + [path]) == SendFile(SendFiles(c, order), path)
  {
    hide SendFile;
    assert (order + [path])[..|order|] == order;
    assert files - (left - {path}) == files - left + {path};
    forall f | f in files - (left - {path}) ensures f in order + [path] {
    }
  }

  lemma NothingSent(c: Client, files: set<string>)
    ensures Orders([], files - files) && SendFiles(c, []) == c
  {
  }
}
