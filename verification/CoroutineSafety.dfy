// Each event keeps the invariant, and hands control back to an execution
// exactly as that execution left.
module CoroutineSafety {
  import opened CoroutineMachine
  import opened CoroutineRuns

  // Two configurations agree on all that coroutine `e` rests on.
  ghost predicate Alike(l: Layout, s: Config, b: Calls, s2: Config, b2: Calls, e: Word)
    requires 0 <= e < |l|
  {
    && Same(s.mem, s2.mem, l[e].lo, l[e].hi) && At(s.mem, ContextOf(e)) == At(s2.mem, ContextOf(e))
    && (e in b.left <==> e in b2.left) && (e in b.left ==> b.left[e] == b2.left[e])
  }

  lemma CoroutineStays(l: Layout, s: Config, b: Calls, s2: Config, b2: Calls, e: Word)
    requires Apart(l) && 0 <= e < |l| && Alike(l, s, b, s2, b2, e) && e in s.cos && CoroutineInv(l, s, b, e)
    requires e in s2.cos && s2.cos[e] == s.cos[e] && (e in b.chain <==> e in b2.chain)
    requires e in s.started <==> e in s2.started
    ensures CoroutineInv(l, s2, b2, e)
  {
    hide Same, Apart, Yielded, Readied, Framed;
    StackStays(l, s.mem, s2.mem, e);
  }

  lemma LinkStays(l: Layout, s: Config, b: Calls, s2: Config, b2: Calls, k: nat)
    requires Apart(l) && k + 1 < |b.chain| && k + 1 < |b2.chain| && 0 <= b.chain[k] < |l| && LinkInv(l, s, b, k)
    requires b2.chain[k] == b.chain[k] && b2.chain[k + 1] == b.chain[k + 1] && Alike(l, s, b, s2, b2, b.chain[k])
    requires ReturnOf(b2, k) == ReturnOf(b, k)
    ensures LinkInv(l, s2, b2, k)
  {
    hide Same, Apart, Resumed, ReturnOf;
    StackStays(l, s.mem, s2.mem, b.chain[k]);
  }

  // The running execution's stack is not the one to be read on the way out.
  lemma ReturnIsElsewhere(l: Layout, s: Config, b: Calls)
    requires Inv(l, s, b) && |b.chain| > 1
    ensures var e := b.chain[|b.chain| - 2];
            && 0 <= e < |l| && e != s.current && e in b.left && 1 <= s.current < |l| && s.current in s.cos
            && Resumed(l, s.mem, e, s.current, b.left[e]) && b.left[e].current == e
            && b.left[e].returnTo == ReturnOf(b, |b.chain| - 2)
            && s.returnTo == b.left[e].regs.rsp - 1 && s.returnTo >= 1
            && !(l[s.current].lo <= s.returnTo < l[s.current].hi)
            && s.cos[s.current].state == Running && Framed(l, s.mem, s.current)
  {
    hide CoroutineInv, Resumed, Readied, Yielded, Framed, StartedOnce;
    var k := |b.chain| - 2;
    assert LinkInv(l, s, b, k);
    assert CoroutineInv(l, s, b, s.current) && s.current in b.chain;
    StateMeans(l, s, b, s.current);
    ResumedMeans(l, s.mem, b.chain[k], s.current, b.left[b.chain[k]]);
  }

  // One that has just been made.
  lemma NewcomerInv(l: Layout, t: Config, b: Calls, co: Word)
    requires 1 <= co < |l| && co in t.cos && t.cos[co] == Coroutine(Fresh, true, false)
    requires co !in b.chain && co !in t.started && Readied(l, t.mem, co)
    ensures CoroutineInv(l, t, b, co)
  {
    hide Readied;
  }

  // The one that is running, after computing.
  lemma RunnerInv(l: Layout, s: Config, b: Calls, t: Config)
    requires s.current in s.cos && CoroutineInv(l, s, b, s.current) && s.current in b.chain
    requires t.cos == s.cos && t.started == s.started && At(t.mem, l[s.current].hi - 2) == At(s.mem, l[s.current].hi - 2)
    ensures CoroutineInv(l, t, b, s.current)
  {
    hide Readied, Yielded;
  }

  lemma MakeKeepsInv(l: Layout, s: Config, b: Calls, co: Word)
    requires Inv(l, s, b) && Allowed(l, s, Make(co))
    ensures Inv(l, Next(l, s, Make(co)), b)
  {
    hide CoroutineInv, LinkInv, Prepared, Same;
    var t, top := Next(l, s, Make(co)), l[co].hi;
    PreparedIsPopped(s.mem, top, co);
    assert SameBut(t.mem, s.mem, l[co].lo, l[co].hi, ContextOf(co));
    forall e | 0 <= e < |l| && e != co ensures Alike(l, s, b, t, b, e) {
      OthersStay(l, s.mem, t.mem, co, e, ContextOf(co));
    }
    assert co !in b.chain;
    forall e | e in t.cos ensures CoroutineInv(l, t, b, e) {
      if e == co {
        assert Readied(l, t.mem, co);
        NewcomerInv(l, t, b, co);
      } else {
        CoroutineStays(l, s, b, t, b, e);
      }
    }
    forall k: nat | k + 1 < |b.chain| ensures LinkInv(l, t, b, k) {
      LinkStays(l, s, b, t, b, k);
    }
  }

  // The trampoline's frame lies above what a body may write.
  lemma FrameStays(l: Layout, s: Config, b: Calls, regs: Regs, mem: Memory)
    requires Apart(l) && Allowed(l, s, Compute(regs, mem)) && s.current >= 1
    ensures At(mem, l[s.current].hi - 2) == At(s.mem, l[s.current].hi - 2)
  {
  }

  lemma ComputeKeepsInv(l: Layout, s: Config, b: Calls, regs: Regs, mem: Memory)
    requires Inv(l, s, b) && Allowed(l, s, Compute(regs, mem))
    ensures Inv(l, Next(l, s, Compute(regs, mem)), b)
  {
    hide CoroutineInv, LinkInv, Same;
    var t, me := Next(l, s, Compute(regs, mem)), s.current;
    forall e | (e == 0 || e in s.cos) && e != me ensures 0 <= e < |l| && Alike(l, s, b, t, b, e) {
    }
    forall e | e in t.cos ensures CoroutineInv(l, t, b, e) {
      if e == me {
        assert me in b.chain;
        assert CoroutineInv(l, s, b, me);
        FrameStays(l, s, b, regs, mem);
        RunnerInv(l, s, b, t);
      } else {
        CoroutineStays(l, s, b, t, b, e);
      }
    }
    forall k: nat | k + 1 < |b.chain| ensures LinkInv(l, t, b, k) {
      assert b.chain[k] != me && (b.chain[k] == 0 || b.chain[k] in s.cos);
      LinkStays(l, s, b, t, b, k);
    }
  }

  // What a first resume does, from the caller's call to the body's first step.
  lemma CallStarts(l: Layout, s: Config, b: Calls, co: Word)
    requires Inv(l, s, b) && Allowed(l, s, Call(co)) && s.cos[co].state == Fresh
    ensures var t := Resume(s, co);
            && t == Config(Regs(0, 0, 0, co, 0, 0, l[co].hi - 2), USER, t.mem, s.regs.rsp - 1, co,
                           s.cos[co := Coroutine(Running, false, s.cos[co].panicked)], s.started + [co])
            && Resumed(l, t.mem, s.current, co, Shot(s)) && Framed(l, t.mem, co)
            && forall e :: 0 <= e < |l| && e != s.current && e != co ==>
                 Same(s.mem, t.mem, l[e].lo, l[e].hi) && At(s.mem, ContextOf(e)) == At(t.mem, ContextOf(e))
    ensures Same(s.mem, Resume(s, co).mem, s.regs.rsp, l[s.current].hi)
  {
    hide EnterResume, Land, Same, SameBut, LinkInv, Readied, Resumed, StartedOnce, Unspill, Framed;
    var me := s.current;
    assert co != me && CoroutineInv(l, s, b, co);
    ResumeLeaves(l, s, co);
    var u := EnterResume(s, co);
    SameButWider(u.mem, s.mem, l[me].lo, s.regs.rsp, l[me].hi, l[me].lo);
    OthersStay(l, s.mem, u.mem, me, co, l[me].lo);
    StackStays(l, s.mem, u.mem, co);
    ReadiedMeans(l, s.mem, co);
    BodyStarts(l, u, co);
    var t := Resume(s, co);
    OthersStay(l, u.mem, t.mem, co, me, l[co].lo);
    StackStays(l, u.mem, t.mem, me);
    forall e | 0 <= e < |l| && e != me && e != co
      ensures Same(s.mem, t.mem, l[e].lo, l[e].hi) && At(s.mem, ContextOf(e)) == At(t.mem, ContextOf(e)) {
      OthersStay(l, s.mem, u.mem, me, e, l[me].lo);
      OthersStay(l, u.mem, t.mem, co, e, l[co].lo);
      SameBoth(s.mem, u.mem, t.mem, l[e].lo, l[e].hi);
    }
    ResumedMeans(l, t.mem, me, co, Shot(s));
  }

  // What resuming a suspended coroutine does: it stands as it left.
  lemma CallContinues(l: Layout, s: Config, b: Calls, co: Word)
    requires Inv(l, s, b) && Allowed(l, s, Call(co)) && s.cos[co].state == Suspended
    ensures co in b.left
    ensures var t := Resume(s, co);
            && t == Config(b.left[co].regs, USER, t.mem, s.regs.rsp - 1, co,
                           s.cos[co := s.cos[co].(state := Running)], s.started)
            && Resumed(l, t.mem, s.current, co, Shot(s)) && Yielded(l, t.mem, co, b.left[co])
            && forall e :: 0 <= e < |l| && e != s.current ==>
                 Same(s.mem, t.mem, l[e].lo, l[e].hi) && At(s.mem, ContextOf(e)) == At(t.mem, ContextOf(e))
    ensures Same(s.mem, Resume(s, co).mem, s.regs.rsp, l[s.current].hi)
  {
    hide EnterResume, Land, Same, SameBut, LinkInv, Yielded, Resumed, StartedOnce, Unspill;
    var me := s.current;
    assert co != me && CoroutineInv(l, s, b, co);
    ResumeLeaves(l, s, co);
    var u := EnterResume(s, co);
    SameButWider(u.mem, s.mem, l[me].lo, s.regs.rsp, l[me].hi, l[me].lo);
    forall e | 0 <= e < |l| && e != me
      ensures Same(s.mem, u.mem, l[e].lo, l[e].hi) && At(s.mem, ContextOf(e)) == At(u.mem, ContextOf(e)) {
      OthersStay(l, s.mem, u.mem, me, e, l[me].lo);
    }
    StackStays(l, s.mem, u.mem, co);
    YieldedMeans(l, s.mem, co, b.left[co]);
    YieldReturns(l, u, co, b.left[co]);
    ResumedMeans(l, u.mem, me, co, Shot(s));
  }

  // What a yield does: the resume that started this run of the coroutine
  // returns, with the two cells as it found them.
  lemma YieldReturnsToResumer(l: Layout, s: Config, b: Calls)
    requires Inv(l, s, b) && Allowed(l, s, Yield) && |b.chain| > 1
    ensures b.chain[|b.chain| - 2] in b.left
    ensures var t, e := YieldNow(s), b.chain[|b.chain| - 2];
            var n := b.left[e];
            && 0 <= e < |l| && n.current == e
            && t == Config(n.regs, USER, t.mem, n.returnTo, e,
                           s.cos[s.current := s.cos[s.current].(state := Suspended)], s.started)
            && Same(n.mem, t.mem, n.regs.rsp, l[e].hi) && Yielded(l, t.mem, s.current, Shot(s))
            && forall f :: 0 <= f < |l| && f != s.current ==>
                 Same(s.mem, t.mem, l[f].lo, l[f].hi) && At(s.mem, ContextOf(f)) == At(t.mem, ContextOf(f))
  {
    hide Switch, Land, Same, SameBut, LinkInv, Yielded, Resumed, StartedOnce, Unspill, Framed, CoroutineInv, ReturnOf, ChainInv;
    var e, me := b.chain[|b.chain| - 2], s.current;
    ReturnIsElsewhere(l, s, b);
    YieldLeaves(l, s);
    var u := Switch(s, IN_YIELD, ContextOf(me), s.returnTo);
    SameButWider(u.mem, s.mem, l[me].lo, s.regs.rsp, l[me].hi, ContextOf(me));
    forall f | 0 <= f < |l| && f != me
      ensures Same(s.mem, u.mem, l[f].lo, l[f].hi) && At(s.mem, ContextOf(f)) == At(u.mem, ContextOf(f)) {
      OthersStay(l, s.mem, u.mem, me, f, ContextOf(me));
    }
    StackStays(l, s.mem, u.mem, e);
    ResumedMeans(l, s.mem, e, me, b.left[e]);
    ResumeReturns(l, u, e, me, b.left[e]);
    ResumedMeans(l, u.mem, e, me, b.left[e]);
  }

  // What a return from the body does: the same, and the coroutine is done.
  lemma FinishReturnsToResumer(l: Layout, s: Config, b: Calls, panicked: bool)
    requires Inv(l, s, b) && Allowed(l, s, Return(panicked))
    ensures |b.chain| > 1 && b.chain[|b.chain| - 2] in b.left
    ensures var t, e := Finish(s, panicked), b.chain[|b.chain| - 2];
            var n := b.left[e];
            && 0 <= e < |l| && n.current == e && s.current in s.cos
            && t == Config(n.regs, USER, t.mem, n.returnTo, e,
                           s.cos[s.current := s.cos[s.current].(state := Done, panicked := panicked)], s.started)
            && Same(n.mem, t.mem, n.regs.rsp, l[e].hi)
            && forall f :: 0 <= f < |l| && f != s.current ==>
                 Same(s.mem, t.mem, l[f].lo, l[f].hi) && At(s.mem, ContextOf(f)) == At(t.mem, ContextOf(f))
  {
    hide LeaveBody, Land, Same, SameBut, LinkInv, Yielded, Resumed, StartedOnce, Unspill, Framed, CoroutineInv, ReturnOf;
    assert |b.chain| > 1;
    var e, me := b.chain[|b.chain| - 2], s.current;
    ReturnIsElsewhere(l, s, b);
    FinishLeaves(l, s, panicked);
    var u := LeaveBody(s, panicked);
    SameButWider(u.mem, s.mem, l[me].lo, s.regs.rsp, l[me].hi, l[me].lo);
    forall f | 0 <= f < |l| && f != me
      ensures Same(s.mem, u.mem, l[f].lo, l[f].hi) && At(s.mem, ContextOf(f)) == At(u.mem, ContextOf(f)) {
      OthersStay(l, s.mem, u.mem, me, f, l[me].lo);
    }
    StackStays(l, s.mem, u.mem, e);
    ResumedMeans(l, s.mem, e, me, b.left[e]);
    ResumeReturns(l, u, e, me, b.left[e]);
    ResumedMeans(l, u.mem, e, me, b.left[e]);
  }
}
