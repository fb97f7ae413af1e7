// The invariant over whole runs, and what it says to whoever is suspended.
module CoroutineTheorems {
  import opened CoroutineMachine
  import opened CoroutineRuns
  import opened CoroutineSafety

  lemma AllButLast(q: seq<Word>)
    requires |q| > 0 && forall j, k :: 0 <= j < k < |q| ==> q[j] != q[k]
    ensures forall e :: e in q <==> e in q[..|q| - 1] || e == q[|q| - 1]
    ensures q[|q| - 1] !in q[..|q| - 1]
  {
    var n := |q| - 1;
    assert q == q[..n] + [q[n]];
  }

  // The cell's value depends on the chain below and on how those left.
  lemma ReturnStays(b: Calls, b2: Calls, k: nat)
    requires k <= |b.chain| && k <= |b2.chain|
    requires k > 0 ==> b2.chain[k - 1] == b.chain[k - 1]
    requires k > 0 ==> (b.chain[k - 1] in b.left <==> b.chain[k - 1] in b2.left)
    requires k > 0 && b.chain[k - 1] in b.left ==> b2.left[b.chain[k - 1]] == b.left[b.chain[k - 1]]
    ensures ReturnOf(b2, k) == ReturnOf(b, k)
  {
  }

  lemma ReturnOfNext(b: Calls, k: nat)
    requires 0 < k <= |b.chain| && b.chain[k - 1] in b.left
    ensures ReturnOf(b, k) == b.left[b.chain[k - 1]].regs.rsp - 1
  {
  }

  lemma NewLinkInv(l: Layout, t: Config, b: Calls, k: nat)
    requires k + 1 < |b.chain| && 0 <= b.chain[k] < |l| && b.chain[k] in b.left
    requires b.left[b.chain[k]].current == b.chain[k] && b.left[b.chain[k]].returnTo == ReturnOf(b, k)
    requires Resumed(l, t.mem, b.chain[k], b.chain[k + 1], b.left[b.chain[k]])
    ensures LinkInv(l, t, b, k)
  {
    hide Resumed;
  }

  // A chain one longer, its new end running.
  lemma ChainGrows(l: Layout, s: Config, b: Calls, t: Config, co: Word)
    requires Inv(l, s, b) && co in s.cos && co !in b.chain
    requires Resumed(l, t.mem, s.current, co, Shot(s)) && t.cos.Keys == s.cos.Keys
    requires forall e :: 0 <= e < |l| && e != s.current && e != co ==>
               Same(s.mem, t.mem, l[e].lo, l[e].hi) && At(s.mem, ContextOf(e)) == At(t.mem, ContextOf(e))
    ensures var b2 := Calls(b.chain + [co], b.left[s.current := Shot(s)]);
            && ChainInv(l, t, b2) && ReturnOf(b2, |b.chain|) == s.regs.rsp - 1
            && forall k: nat :: k + 1 < |b2.chain| ==> LinkInv(l, t, b2, k)
  {
    hide CoroutineInv, Resumed, Same, StartedOnce, ReturnOf, LinkInv, Apart, Floor;
    var b2 := Calls(b.chain + [co], b.left[s.current := Shot(s)]);
    var top := |b.chain| - 1;
    forall k: nat | k + 1 < |b2.chain| ensures LinkInv(l, t, b2, k) {
      ReturnStays(b, b2, k);
      if k < top {
        assert LinkInv(l, s, b, k);
        assert b.chain[k] != s.current && b.chain[k] != co;
        LinkStays(l, s, b, t, b2, k);
      } else {
        NewLinkInv(l, t, b2, k);
      }
    }
    ReturnOfNext(b2, |b.chain|);
  }

  // A coroutine that has just been resumed.
  lemma EntrantInv(l: Layout, s: Config, b: Calls, t: Config, b2: Calls, co: Word)
    requires Inv(l, s, b) && co in s.cos && CoroutineInv(l, s, b, co) && co in t.cos && co in b2.chain
    requires t.cos[co] == s.cos[co].(state := Running, body := false) && Framed(l, t.mem, co) && co in t.started
    requires s.cos[co].state != Done
    ensures CoroutineInv(l, t, b2, co)
  {
    hide LinkInv, Framed, Yielded, Readied, RunningInv, StartedOnce;
  }

  // One that has just resumed another.
  lemma ResumerInv(l: Layout, s: Config, b: Calls, t: Config, b2: Calls)
    requires Inv(l, s, b) && s.current in s.cos && CoroutineInv(l, s, b, s.current) && s.current in t.cos
    requires s.current in b.chain && s.current in b2.chain && t.cos[s.current] == s.cos[s.current]
    requires s.current in s.started <==> s.current in t.started
    requires Same(s.mem, t.mem, s.regs.rsp, l[s.current].hi)
    ensures CoroutineInv(l, t, b2, s.current)
  {
    hide LinkInv, Yielded, Readied, StartedOnce;
    assert At(s.mem, l[s.current].hi - 2) == At(t.mem, l[s.current].hi - 2);
  }

  // One that has just yielded.
  lemma YielderInv(l: Layout, s: Config, b: Calls, t: Config, b2: Calls)
    requires Inv(l, s, b) && s.current in s.cos && CoroutineInv(l, s, b, s.current) && s.current in t.cos
    requires s.current in b.chain && s.current !in b2.chain && t.started == s.started
    requires t.cos[s.current] == s.cos[s.current].(state := Suspended)
    requires s.current in b2.left && b2.left[s.current] == Shot(s) && Yielded(l, t.mem, s.current, Shot(s))
    ensures CoroutineInv(l, t, b2, s.current)
  {
    hide LinkInv, Readied, StartedOnce;
    assert At(s.mem, l[s.current].hi - 2) == At(t.mem, l[s.current].hi - 2);
  }

  // One that has just finished.
  lemma FinisherInv(l: Layout, s: Config, b: Calls, t: Config, b2: Calls)
    requires s.current in s.cos && 0 <= s.current < |l| && CoroutineInv(l, s, b, s.current) && s.current in t.cos
    requires s.current in b.chain && s.current !in b2.chain && t.started == s.started
    requires t.cos[s.current].body == s.cos[s.current].body && t.cos[s.current].state == Done
    ensures CoroutineInv(l, t, b2, s.current)
  {
    hide Framed, Yielded, Readied;
  }

  // What both ways of being resumed have in common.
  lemma CallMoves(l: Layout, s: Config, b: Calls, co: Word)
    requires Inv(l, s, b) && Allowed(l, s, Call(co)) && s.cos[co].state != Done
    ensures var t := Resume(s, co);
            && co !in b.chain && t.cos == s.cos[co := s.cos[co].(state := Running, body := false)]
            && t.pc == USER && t.current == co && t.returnTo == s.regs.rsp - 1
            && l[co].lo <= t.regs.rsp <= Floor(l, co)
            && t.started == (if s.cos[co].state == Fresh then s.started + [co] else s.started)
            && (co in s.started <==> s.cos[co].state != Fresh)
            && Resumed(l, t.mem, s.current, co, Shot(s)) && Framed(l, t.mem, co)
            && Same(s.mem, t.mem, s.regs.rsp, l[s.current].hi)
            && forall e :: 0 <= e < |l| && e != s.current && e != co ==>
                 Same(s.mem, t.mem, l[e].lo, l[e].hi) && At(s.mem, ContextOf(e)) == At(t.mem, ContextOf(e))
  {
    hide LinkInv, Same, Resumed, Readied, Yielded, Framed, Resume, StartedOnce;
    assert CoroutineInv(l, s, b, co);
    var t := Resume(s, co);
    if s.cos[co].state == Fresh {
      CallStarts(l, s, b, co);
    } else {
      CallContinues(l, s, b, co);
      YieldedMeans(l, s.mem, co, b.left[co]);
      StackStays(l, s.mem, t.mem, co);
    }
  }

  lemma CallKeepsCoroutine(l: Layout, s: Config, b: Calls, co: Word, e: Word)
    requires Inv(l, s, b) && Allowed(l, s, Call(co)) && s.cos[co].state != Done && e in s.cos
    ensures CoroutineInv(l, Resume(s, co), Book(s, b, Call(co)), e)
  {
    hide CoroutineInv, LinkInv, Same, Resumed, Readied, Yielded, Framed, Resume, ReturnOf, Apart, StartedOnce;
    var t, b2 := Resume(s, co), Book(s, b, Call(co));
    CallMoves(l, s, b, co);
    assert CoroutineInv(l, s, b, e);
    assert b2.chain == b.chain + [co];
    if e == co {
      EntrantInv(l, s, b, t, b2, co);
    } else if e == s.current {
      ResumerInv(l, s, b, t, b2);
    } else {
      CoroutineStays(l, s, b, t, b2, e);
    }
  }

  lemma StartedGrows(s: Config, t: Config, co: Word)
    requires StartedOnce(s) && co in s.cos && t.cos.Keys == s.cos.Keys
    requires t.started == s.started || (co !in s.started && t.started == s.started + [co])
    ensures StartedOnce(t)
  {
  }

  lemma DoneIsDone(s: Config, co: Word)
    requires co in s.cos && s.cos[co].state == Done
    ensures Resume(s, co) == s
  {
  }

  lemma CallKeepsInv(l: Layout, s: Config, b: Calls, co: Word)
    requires Inv(l, s, b) && Allowed(l, s, Call(co))
    ensures Inv(l, Next(l, s, Call(co)), Book(s, b, Call(co)))
  {
    hide CoroutineInv, LinkInv, Same, Resumed, Framed, Resume, ReturnOf, Apart, Floor, StartedOnce;
    if s.cos[co].state == Done {
      DoneIsDone(s, co);
    } else {
      var t, b2 := Resume(s, co), Book(s, b, Call(co));
      CallMoves(l, s, b, co);
      ChainGrows(l, s, b, t, co);
      StartedGrows(s, t, co);
      forall e | e in t.cos ensures CoroutineInv(l, t, b2, e) {
        CallKeepsCoroutine(l, s, b, co, e);
      }
    }
  }

  // A chain one shorter: whoever was next to last runs again.
  lemma ChainShrinks(l: Layout, s: Config, b: Calls, t: Config, b2: Calls)
    requires Inv(l, s, b) && |b.chain| > 1 && t.cos.Keys == s.cos.Keys && b2.chain == b.chain[..|b.chain| - 1]
    requires forall e :: e != s.current ==> (e in b2.left <==> e in b.left) && (e in b.left ==> b2.left[e] == b.left[e])
    requires forall e :: 0 <= e < |l| && e != s.current ==>
               Same(s.mem, t.mem, l[e].lo, l[e].hi) && At(s.mem, ContextOf(e)) == At(t.mem, ContextOf(e))
    ensures ChainInv(l, t, b2) && forall k: nat :: k + 1 < |b2.chain| ==> LinkInv(l, t, b2, k)
    ensures ReturnOf(b2, |b2.chain| - 1) == ReturnOf(b, |b.chain| - 2)
    ensures forall e :: e != s.current ==> (e in b2.chain <==> e in b.chain)
    ensures s.current !in b2.chain
  {
    hide CoroutineInv, Resumed, Same, StartedOnce, ReturnOf, LinkInv, Apart;
    AllButLast(b.chain);
    var top := |b.chain| - 1;
    forall k: nat | k < top ensures b.chain[k] != s.current && ReturnOf(b2, k) == ReturnOf(b, k) {
      assert k > 0 ==> b.chain[k - 1] != s.current;
      ReturnStays(b, b2, k);
    }
    forall k: nat | k + 1 < |b2.chain| ensures LinkInv(l, t, b2, k) {
      assert LinkInv(l, s, b, k);
      LinkStays(l, s, b, t, b2, k);
    }
  }

  // With nothing resumed a yield leaves the configuration alone.
  lemma NobodyToYieldTo(l: Layout, s: Config, b: Calls)
    requires Inv(l, s, b)
    ensures s.current == NULL <==> |b.chain| == 1
    ensures s.current == NULL ==> YieldNow(s) == s
  {
    hide CoroutineInv, LinkInv, Land, Switch;
  }

  // One cell of the two is enough to stop it, whatever else the machine is in.
  lemma YieldNeedsBothCells(s: Config)
    requires s.current == NULL || s.returnTo == NULL
    ensures YieldNow(s) == s
  {
  }

  // And only then: inside a coroutine it always hands over.
  lemma YieldOutside(l: Layout, s: Config, b: Calls)
    requires Inv(l, s, b) && Allowed(l, s, Yield)
    ensures YieldNow(s) == s <==> s.current == NULL
  {
    hide CoroutineInv, LinkInv, YieldNow, Resumed, Framed, Yielded, Same, Apart;
    NobodyToYieldTo(l, s, b);
    if s.current != NULL {
      YieldReturnsToResumer(l, s, b);
      ReturnIsElsewhere(l, s, b);
    }
  }

  lemma YieldKeepsInv(l: Layout, s: Config, b: Calls)
    requires Inv(l, s, b) && Allowed(l, s, Yield)
    ensures Inv(l, Next(l, s, Yield), Book(s, b, Yield))
  {
    hide CoroutineInv, LinkInv, Same, Resumed, Readied, Yielded, Framed, ReturnOf, Apart, YieldNow;
    NobodyToYieldTo(l, s, b);
    if |b.chain| > 1 {
      var t, b2, me := YieldNow(s), Book(s, b, Yield), s.current;
      YieldReturnsToResumer(l, s, b);
      ReturnIsElsewhere(l, s, b);
      ChainShrinks(l, s, b, t, b2);
      forall e | e in t.cos ensures CoroutineInv(l, t, b2, e) {
        assert CoroutineInv(l, s, b, e);
        if e == me {
          YielderInv(l, s, b, t, b2);
        } else {
          CoroutineStays(l, s, b, t, b2, e);
        }
      }
      ResumedMeans(l, s.mem, b.chain[|b.chain| - 2], me, b.left[b.chain[|b.chain| - 2]]);
    }
  }

  lemma ReturnKeepsInv(l: Layout, s: Config, b: Calls, panicked: bool)
    requires Inv(l, s, b) && Allowed(l, s, Return(panicked))
    ensures Inv(l, Next(l, s, Return(panicked)), Book(s, b, Return(panicked)))
  {
    hide CoroutineInv, LinkInv, Same, Resumed, Readied, Yielded, Framed, ReturnOf, Finish;
    var t, b2, me := Finish(s, panicked), Book(s, b, Return(panicked)), s.current;
    FinishReturnsToResumer(l, s, b, panicked);
    ReturnIsElsewhere(l, s, b);
    ChainShrinks(l, s, b, t, b2);
    forall e | e in t.cos ensures CoroutineInv(l, t, b2, e) {
      assert CoroutineInv(l, s, b, e);
      if e == me {
        FinisherInv(l, s, b, t, b2);
      } else {
        CoroutineStays(l, s, b, t, b2, e);
      }
    }
    ResumedMeans(l, s.mem, b.chain[|b.chain| - 2], me, b.left[b.chain[|b.chain| - 2]]);
  }

  /** Every event keeps the invariant. */
  lemma StepKeepsInv(l: Layout, s: Config, b: Calls, ev: Event)
    requires Inv(l, s, b) && Allowed(l, s, ev)
    ensures Inv(l, Next(l, s, ev), Book(s, b, ev))
  {
    hide Inv, Allowed, Next;
    match ev
    case Make(co) => MakeKeepsInv(l, s, b, co);
    case Compute(regs, mem) => ComputeKeepsInv(l, s, b, regs, mem);
    case Call(co) => CallKeepsInv(l, s, b, co);
    case Yield => YieldKeepsInv(l, s, b);
    case Return(panicked) => ReturnKeepsInv(l, s, b, panicked);
  }

  /** Every moment of every run satisfies it: in particular control is never
    * at an address nobody meant, and no body is entered twice. */
  lemma {:induction false} RunsKeepInv(l: Layout, ss: seq<Config>, evs: seq<Event>, k: nat)
    requires IsRun(l, ss, evs) && k <= |evs|
    ensures Inv(l, ss[k], Books(ss, evs, k))
    ensures ss[k].pc == USER
    ensures forall i, j :: 0 <= i < j < |ss[k].started| ==> ss[k].started[i] != ss[k].started[j]
    ensures forall e :: e in ss[k].cos ==> (e in ss[k].started <==> ss[k].cos[e].state != Fresh)
  {
    if k == 0 {
      assert ChainInv(l, ss[0], Books(ss, evs, 0));
    } else {
      hide Allowed, Next, CoroutineInv, LinkInv, ChainInv, Apart;
      RunsKeepInv(l, ss, evs, k - 1);
      assert ss[k - 1 + 1] == Next(l, ss[k - 1], evs[k - 1]);
      StepKeepsInv(l, ss[k - 1], Books(ss, evs, k - 1), evs[k - 1]);
      forall e | e in ss[k].cos ensures e in ss[k].started <==> ss[k].cos[e].state != Fresh {
        StateMeans(l, ss[k], Books(ss, evs, k), e);
      }
    }
  }

  lemma ChainHasEnd(l: Layout, s: Config, b: Calls)
    requires ChainInv(l, s, b)
    ensures |b.chain| > 0
  {
  }

  // Who loses control has left a record, who gains it stands by its record.
  lemma StepHandsOver(l: Layout, s: Config, b: Calls, ev: Event)
    requires Inv(l, s, b) && Allowed(l, s, ev)
    ensures var t, b2, e := Next(l, s, ev), Book(s, b, ev), Next(l, s, ev).current;
            && (forall f :: f != s.current ==> (f in b2.left <==> f in b.left) && (f in b.left ==> b2.left[f] == b.left[f]))
            && s.started <= t.started && 0 <= e < |l|
            && (e != s.current && !ev.Return? ==> s.current in b2.left && b2.left[s.current] == Shot(s))
            && (e != s.current && (e == 0 || e in s.started) ==>
                  && e in b.left && t.regs == b.left[e].regs && Same(b.left[e].mem, t.mem, t.regs.rsp, l[e].hi)
                  && (e in b.chain ==> t.returnTo == b.left[e].returnTo))
  {
    hide CoroutineInv, LinkInv, Resumed, Framed, Apart, Floor, StartedOnce, ReturnOf, Resume, YieldNow, Finish, Same, ChainInv;
    ChainHasEnd(l, s, b);
    match ev
    case Make(_) =>
    case Compute(_, _) =>
    case Call(co) =>
      assert CoroutineInv(l, s, b, co);
      StateMeans(l, s, b, co);
      if s.cos[co].state == Suspended {
        CallContinues(l, s, b, co);
        YieldedMeans(l, Resume(s, co).mem, co, b.left[co]);
      } else if s.cos[co].state == Fresh {
        CallStarts(l, s, b, co);
      } else {
        DoneIsDone(s, co);
      }
    case Yield =>
      NobodyToYieldTo(l, s, b);
      if |b.chain| > 1 { YieldReturnsToResumer(l, s, b); }
    case Return(panicked) =>
      FinishReturnsToResumer(l, s, b, panicked);
  }

  // So the books of a run are there to be read.
  lemma RunHasBooks(l: Layout, ss: seq<Config>, evs: seq<Event>)
    requires IsRun(l, ss, evs)
    ensures forall i :: 0 <= i < |evs| && evs[i].Call? ==> evs[i].co in ss[i].cos
  {
  }

  // A coroutine's record never goes back: once done it stays as it is.
  lemma StepKeepsDone(l: Layout, s: Config, b: Calls, ev: Event, co: Word)
    requires Inv(l, s, b) && Allowed(l, s, ev) && co in s.cos && s.cos[co].state == Done
    ensures co in Next(l, s, ev).cos && Next(l, s, ev).cos[co] == s.cos[co]
    ensures ev == Call(co) ==> Next(l, s, ev) == s
  {
    hide CoroutineInv, LinkInv, Resumed, Framed, Yielded, Readied, Apart, Floor, StartedOnce, ReturnOf, Resume, YieldNow, Finish, Same;
    assert CoroutineInv(l, s, b, co);
    StateMeans(l, s, b, co);
    AllButLast(b.chain);
    match ev
    case Make(_) =>
    case Compute(_, _) =>
    case Call(other) =>
      if s.cos[other].state == Done { DoneIsDone(s, other); } else { CallMoves(l, s, b, other); }
    case Yield =>
      NobodyToYieldTo(l, s, b);
      if |b.chain| > 1 { YieldReturnsToResumer(l, s, b); }
    case Return(panicked) =>
      FinishReturnsToResumer(l, s, b, panicked);
  }

  /** Done is absorbing: over any run the record of a finished coroutine, what
    * it says of a panic included, never changes again. */
  lemma {:induction false} DoneIsAbsorbing(l: Layout, ss: seq<Config>, evs: seq<Event>, i: nat, j: nat, co: Word)
    requires IsRun(l, ss, evs) && i <= j <= |evs| && co in ss[i].cos && ss[i].cos[co].state == Done
    ensures co in ss[j].cos && ss[j].cos[co] == ss[i].cos[co]
  {
    hide Allowed, Next, Inv;
    RunHasBooks(l, ss, evs);
    if i < j {
      DoneIsAbsorbing(l, ss, evs, i, j - 1, co);
      RunsKeepInv(l, ss, evs, j - 1);
      assert Allowed(l, ss[j - 1], evs[j - 1]) && ss[j - 1 + 1] == Next(l, ss[j - 1], evs[j - 1]);
      StepKeepsDone(l, ss[j - 1], Books(ss, evs, j - 1), evs[j - 1], co);
    }
  }

  // Whoever runs is on the chain and has started; a resumer stays on the chain.
  lemma RunnerStands(l: Layout, s: Config, b: Calls, ev: Event)
    requires Inv(l, s, b) && Allowed(l, s, ev)
    ensures s.current in b.chain && 0 <= s.current < |l| && (s.current == 0 || s.current in s.started)
    ensures s.current != 0 ==> s.current in s.cos && s.cos[s.current].state == Running
    ensures ev.Return? ==> s.current != 0 && var t := Next(l, s, ev); s.current in t.cos && t.cos[s.current].state == Done
    ensures forall e :: e in b.chain && e != s.current ==> e in Book(s, b, ev).chain
    ensures ev.Call? ==> s.current in Book(s, b, ev).chain
  {
    hide LinkInv, Resumed, Framed, Yielded, Readied, Apart, Floor, StartedOnce, ReturnOf, Resume, YieldNow, Finish, Same;
    AllButLast(b.chain);
    assert b.chain[|b.chain| - 1] == s.current;
    if s.current != 0 { assert CoroutineInv(l, s, b, s.current); }
    if ev.Return? { FinishReturnsToResumer(l, s, b, ev.panicked); }
  }

  // Between leaving and coming back, the record of how it left stands.
  lemma {:induction false} RecordStands(l: Layout, ss: seq<Config>, evs: seq<Event>, i: nat, j: nat)
    requires IsRun(l, ss, evs) && i < j <= |evs| && !evs[i].Return?
    requires forall k :: i < k <= j ==> ss[k].current != ss[i].current
    ensures var b, e := Books(ss, evs, j), ss[i].current;
            && e in b.left && b.left[e] == Shot(ss[i]) && (evs[i].Call? ==> e in b.chain)
            && ss[i].started <= ss[j].started
  {
    hide Allowed, Next, Inv, Book;
    RunHasBooks(l, ss, evs);
    var s, b, ev := ss[j - 1], Books(ss, evs, j - 1), evs[j - 1];
    RunsKeepInv(l, ss, evs, j - 1);
    assert Allowed(l, s, ev) && ss[j - 1 + 1] == Next(l, s, ev);
    StepHandsOver(l, s, b, ev);
    RunnerStands(l, s, b, ev);
    if i < j - 1 { RecordStands(l, ss, evs, i, j - 1); }
  }

  /** Over every run of nested resumes, yields and finishes: an execution that
    * lost control and has it again finds its registers, its stack pointer and
    * its stack as it left them, and if it had called `resume`, the cell too. */
  lemma GivenBackIntact(l: Layout, ss: seq<Config>, evs: seq<Event>, i: nat, j: nat)
    requires IsRun(l, ss, evs) && i + 1 < j <= |evs| && ss[j].current == ss[i].current
    requires forall k :: i < k < j ==> ss[k].current != ss[i].current
    ensures 0 <= ss[i].current < |l| && ss[j].regs == ss[i].regs
    ensures Same(ss[i].mem, ss[j].mem, ss[i].regs.rsp, l[ss[i].current].hi)
    ensures evs[i].Call? ==> ss[j].returnTo == ss[i].returnTo
  {
    hide Allowed, Next, Inv, Book, Same;
    RunHasBooks(l, ss, evs);
    var e := ss[i].current;
    RunsKeepInv(l, ss, evs, i);
    RunnerStands(l, ss[i], Books(ss, evs, i), evs[i]);
    assert Allowed(l, ss[i], evs[i]) && ss[i + 1] == Next(l, ss[i], evs[i]);
    RunsKeepInv(l, ss, evs, j - 1);
    var s, b, ev := ss[j - 1], Books(ss, evs, j - 1), evs[j - 1];
    assert Allowed(l, s, ev) && ss[j - 1 + 1] == Next(l, s, ev);
    if evs[i].Return? {
      DoneIsAbsorbing(l, ss, evs, i + 1, j, e);
      RunsKeepInv(l, ss, evs, j);
      StillRunning(l, ss[j], Books(ss, evs, j));
    } else {
      RecordStands(l, ss, evs, i, j - 1);
      StepHandsOver(l, s, b, ev);
    }
  }

  lemma StillRunning(l: Layout, s: Config, b: Calls)
    requires Inv(l, s, b) && s.current != 0
    ensures s.current in s.cos && s.cos[s.current].state == Running
  {
    hide LinkInv, Resumed, Framed, Yielded, Readied, Apart, Floor, StartedOnce, ReturnOf, Same;
    assert b.chain[|b.chain| - 1] == s.current;
    assert CoroutineInv(l, s, b, s.current);
  }
}
