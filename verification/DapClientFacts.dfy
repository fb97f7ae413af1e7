/** Facts about the client that hold whatever it hears. */
module DapClientFacts {
  import opened Options
  import opened DapClient

  predicate AsksFor(message: Message, command: string) {
    message.Request? && message.command == command
  }

  /** One of the first `n` messages asks for `command`. */
  predicate Asked(sent: seq<Message>, n: nat, command: string) {
    exists i | 0 <= i < n && i < |sent| :: AsksFor(sent[i], command)
  }

  predicate SetsLines(message: Message, path: string) {
    AsksFor(message, SET_BREAKPOINTS) && message.arguments.SetLines? && message.arguments.path == path
  }

  /** The lines last sent for a file. */
  function LastLines(sent: seq<Message>, path: string): Option<seq<nat>> {
    if sent == [] then None
    else if SetsLines(sent[|sent| - 1], path) then Some(sent[|sent| - 1].arguments.lines)
    else LastLines(sent[..|sent| - 1], path)
  }

  lemma LastLinesAppend(sent: seq<Message>, message: Message, path: string)
    ensures LastLines(sent + [message], path) ==
            if SetsLines(message, path) then Some(message.arguments.lines) else LastLines(sent, path)
  {
    assert (sent + [message])[..|sent|] == sent;
  }

  /** The adapter has been sent exactly the lines wanted of every file. */
  predicate UpToDate(c: Client) {
    forall path | path in c.wanted :: LastLines(c.sent, path) == Some(c.wanted[path])
  }

  predicate InSync(c: Client) {
    c.state.Configured? ==> UpToDate(c)
  }

  lemma SendFileUpdates(c: Client, path: string)
    ensures var c' := SendFile(c, path);
            && c'.wanted == c.wanted
            && LastLines(c'.sent, path) == Some(if path in c.wanted then c.wanted[path] else [])
            && forall other | other != path :: LastLines(c'.sent, other) == LastLines(c.sent, other)
  {
    var lines := if path in c.wanted then c.wanted[path] else [];
    var message := Request(c.nextSeq, SET_BREAKPOINTS, SetLines(path, lines));
    LastLinesAppend(c.sent, message, path);
    forall other | other != path ensures LastLines(c.sent + [message], other) == LastLines(c.sent, other) {
      LastLinesAppend(c.sent, message, other);
    }
  }

  lemma {:induction false} SendFilesUpdates(c: Client, paths: seq<string>)
    ensures SendFiles(c, paths).wanted == c.wanted
    ensures forall path | path in paths && path in c.wanted :: LastLines(SendFiles(c, paths).sent, path) == Some(c.wanted[path])
  {
    if paths != [] {
      var before := paths[..|paths| - 1];
      SendFilesUpdates(c, before);
      hide SendFile, LastLines;
      SendFileUpdates(SendFiles(c, before), paths[|paths| - 1]);
      forall path | path in paths && path in c.wanted
        ensures LastLines(SendFiles(c, paths).sent, path) == Some(c.wanted[path])
      {
        assert path == paths[|paths| - 1] || path in before;
      }
    }
  }

  lemma PlainMessageKeepsLines(sent: seq<Message>, message: Message)
    requires !AsksFor(message, SET_BREAKPOINTS)
    ensures forall path :: LastLines(sent + [message], path) == LastLines(sent, path)
  {
    forall path ensures LastLines(sent + [message], path) == LastLines(sent, path) {
      LastLinesAppend(sent, message, path);
    }
  }

  /** Asking for breakpoints keeps the adapter up to date. */
  lemma WantStaysInSync(c: Client, path: string, lines: seq<nat>)
    requires InSync(c)
    ensures InSync(Want(c, path, lines))
  {
    hide LastLines, SendFile, SortedOnce;
    SendFileUpdates(c.(wanted := c.wanted[path := SortedOnce(lines)]), path);
    SendFileKeeps(c.(wanted := c.wanted[path := SortedOnce(lines)]), path);
  }

  lemma SendFileKeeps(c: Client, path: string)
    ensures SendFile(c, path) == c.(nextSeq := SendFile(c, path).nextSeq, pending := SendFile(c, path).pending, sent := SendFile(c, path).sent)
    ensures SendFile(c, path).nextSeq == c.nextSeq + 1
    ensures |SendFile(c, path).sent| == |c.sent| + 1 && SendFile(c, path).sent[..|c.sent|] == c.sent
    ensures AsksFor(SendFile(c, path).sent[|c.sent|], SET_BREAKPOINTS)
  {
  }

  /** So does anything heard, in any order, from any adapter. */
  lemma HearingStaysInSync(c: Client, message: Message, c': Client)
    requires InSync(c) && Hears(c, message, c')
    ensures InSync(c')
  {
    if IsInitialized(message) {
      var order :| Orders(order, c.wanted.Keys) && c' == Configure(c, order);
      var sent := SendFiles(c, order);
      SendFilesUpdates(c, order);
      SendFilesKeep(c, order);
      PlainMessageKeepsLines(sent.sent, Request(sent.nextSeq, CONFIGURATION_DONE, NoArguments));
    } else if message.Request? {
      PlainMessageKeepsLines(c.sent, c'.sent[|c.sent|]);
    }
  }

  lemma {:induction false} SendFilesKeep(c: Client, paths: seq<string>)
    ensures var c' := SendFiles(c, paths);
            && c' == c.(nextSeq := c'.nextSeq, pending := c'.pending, sent := c'.sent)
            && c'.nextSeq == c.nextSeq + |paths|
            && |c'.sent| == |c.sent| + |paths| && c'.sent[..|c.sent|] == c.sent
            && forall i | |c.sent| <= i < |c'.sent| :: AsksFor(c'.sent[i], SET_BREAKPOINTS)
  {
    if paths != [] {
      var before := SendFiles(c, paths[..|paths| - 1]);
      SendFilesKeep(c, paths[..|paths| - 1]);
      hide SendFile, AsksFor;
      SendFileKeeps(before, paths[|paths| - 1]);
      var c' := SendFiles(c, paths);
      assert c'.sent[..|before.sent|] == before.sent;
      assert c'.sent[..|c.sent|] == before.sent[..|c.sent|];
      forall i | |c.sent| <= i < |c'.sent| ensures AsksFor(c'.sent[i], SET_BREAKPOINTS) {
        if i < |before.sent| {
          assert c'.sent[i] == before.sent[i];
        }
      }
    }
  }

  /** One listing has one entry a file. */
  lemma {:induction false} OrderCounts(order: seq<string>, files: set<string>)
    requires Orders(order, files)
    ensures |order| == |files|
    decreases |order|
  {
    if order == [] {
      assert files == {};
    } else {
      var last := order[|order| - 1];
      var before := order[..|order| - 1];
      forall f | f in files - {last} ensures f in before {
        assert f in order;
      }
      assert Orders(before, files - {last});
      OrderCounts(before, files - {last});
    }
  }

  lemma {:induction false} AnyOrder(files: set<string>) returns (order: seq<string>)
    ensures Orders(order, files)
    decreases |files|
  {
    if files == {} {
      order := [];
    } else {
      var f :| f in files;
      order := AnyOrder(files - {f});
      order := order + [f];
    }
  }

  /** There is always something to make of a message. */
  lemma HearsSomething(c: Client, message: Message) returns (c': Client)
    ensures Hears(c, message, c')
  {
    if IsInitialized(message) {
      var order := AnyOrder(c.wanted.Keys);
      c' := Configure(c, order);
    } else if IsRevision(message) {
      var updated := message.body.breakpoint;
      if path :| path in c.placed && EntryFor(path, c.placed[path], updated).Some? {
        c' := c.(placed := c.placed[path := c.placed[path][EntryFor(path, c.placed[path], updated).value := updated]]);
      } else {
        c' := c;
      }
    } else {
      c' := HearPlain(c, message);
    }
  }

  // Requests and what they await

  /** Requests are numbered upwards from 1. */
  predicate Numbered(c: Client) {
    && 1 <= c.nextSeq
    && (forall i | 0 <= i < |c.sent| && c.sent[i].Request? :: 1 <= c.sent[i].seqNo < c.nextSeq)
    && (forall i, j | 0 <= i < j < |c.sent| && c.sent[i].Request? && c.sent[j].Request? :: c.sent[i].seqNo < c.sent[j].seqNo)
  }

  /** Every request not in `done` awaits its answer: its command under its number,
      and a breakpoint request's file under the negated one. */
  predicate Awaits(c: Client, message: Message) {
    message.Request? ==>
      && message.seqNo in c.pending && c.pending[message.seqNo] == message.command
      && (message.command == SET_BREAKPOINTS ==>
            && message.arguments.SetLines?
            && -message.seqNo in c.pending && c.pending[-message.seqNo] == message.arguments.path)
  }

  predicate Tracks(c: Client, done: set<int>) {
    forall i | 0 <= i < |c.sent| && c.sent[i].Request? && c.sent[i].seqNo !in done :: Awaits(c, c.sent[i])
  }

  predicate Books(c: Client, done: set<int>) {
    Numbered(c) && Tracks(c, done)
  }

  lemma AskKeepsBooks(c: Client, done: set<int>, command: string, arguments: Arguments)
    requires Books(c, done) && command != SET_BREAKPOINTS
    ensures Books(Ask(c, command, arguments), done)
  {
    var c' := Ask(c, command, arguments);
    forall i | 0 <= i < |c'.sent| && c'.sent[i].Request? && c'.sent[i].seqNo !in done ensures Awaits(c', c'.sent[i]) {
      if i < |c.sent| {
        assert Awaits(c, c.sent[i]);
      }
    }
  }

  lemma SendFileKeepsBooks(c: Client, done: set<int>, path: string)
    requires Books(c, done)
    ensures Books(SendFile(c, path), done)
  {
    var c' := SendFile(c, path);
    forall i | 0 <= i < |c'.sent| && c'.sent[i].Request? && c'.sent[i].seqNo !in done ensures Awaits(c', c'.sent[i]) {
      if i < |c.sent| {
        assert Awaits(c, c.sent[i]);
      }
    }
  }

  lemma {:induction false} SendFilesKeepBooks(c: Client, done: set<int>, paths: seq<string>)
    requires Books(c, done)
    ensures Books(SendFiles(c, paths), done)
  {
    if paths != [] {
      SendFilesKeepBooks(c, done, paths[..|paths| - 1]);
      hide Books, SendFile;
      SendFileKeepsBooks(SendFiles(c, paths[..|paths| - 1]), done, paths[|paths| - 1]);
    }
  }

  /** An answered request's entries go, and nothing else's: numbers are positive,
      so no number is another's negation. */
  lemma AnswerKeepsBooks(c: Client, done: set<int>, pending: map<int, string>, answered: int)
    requires Books(c, done) && 1 <= answered
    requires pending == c.pending - {answered} || pending == c.pending - {answered, -answered}
    ensures Books(c.(pending := pending), done + {answered})
  {
    var c' := c.(pending := pending);
    forall i | 0 <= i < |c.sent| && c.sent[i].Request? && c.sent[i].seqNo !in done + {answered} ensures Awaits(c', c.sent[i]) {
      assert Awaits(c, c.sent[i]);
    }
  }

  /** A successful breakpoint answer is stored under the file its request named. */
  lemma StoredUnderItsFile(c: Client, done: set<int>, i: nat, named: string, result: Result<Body, string>)
    requires Books(c, done) && i < |c.sent|
    requires AsksFor(c.sent[i], SET_BREAKPOINTS) && c.sent[i].seqNo !in done && result.Ok?
    ensures c.sent[i].arguments.SetLines?
    ensures HearResponse(c, c.sent[i].seqNo, named, result).placed ==
            c.placed[c.sent[i].arguments.path := BreakpointsIn(result.value)]
  {
    assert Awaits(c, c.sent[i]);
  }
}
