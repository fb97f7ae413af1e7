// Every run of resumes, yields and finishes, over stacks that lie apart.
module CoroutineRuns {
  import opened CoroutineMachine

  // One stack: words from `lo` up to `hi`. Place 0 is the thread's own.
  datatype Place = Place(lo: Word, hi: Word)
  type Layout = seq<Place>

  ghost predicate Apart(l: Layout) {
    && |l| > 0
    && (forall e :: 0 <= e < |l| ==> 1 <= l[e].lo && l[e].lo + 8 <= l[e].hi)
    && (forall e, f :: 0 <= e < f < |l| ==> l[e].hi <= l[f].lo || l[f].hi <= l[e].lo)
  }

  // What the body's frames may reach up to: below the trampoline's own frame.
  function Floor(l: Layout, e: Word): Word
    requires 0 <= e < |l|
  {
    if e == 0 then l[e].hi else l[e].hi - 2
  }

  /** What happens next in the running execution: it makes a coroutine,
    * computes, on its own stack and off every stack, resumes, yields, or returns from its body. */
  datatype Event =
    | Make(made: Word)
    | Compute(regs: Regs, mem: Memory)
    | Call(co: Word)
    | Yield
    | Return(panicked: bool)

  /** How an execution stood when it called `resume` or `yield_now`. */
  datatype Snapshot = Snapshot(regs: Regs, mem: Memory, returnTo: Word, current: Word)

  /** The bookkeeping the machine does not have: who resumed whom, innermost
    * last, and how each execution last left. */
  datatype Calls = Calls(chain: seq<Word>, left: map<Word, Snapshot>)

  function Shot(s: Config): Snapshot {
    Snapshot(s.regs, s.mem, s.returnTo, s.current)
  }

  function Next(l: Layout, s: Config, ev: Event): Config
    requires Allowed(l, s, ev)
  {
    match ev
    case Make(co) => Create(s, l[co].hi, co)
    case Compute(regs, mem) => s.(regs := regs, mem := mem)
    case Call(co) => Resume(s, co)
    case Yield => YieldNow(s)
    case Return(panicked) => Finish(s, panicked)
  }

  // What a body may not write: a stack another execution is on, where a made
  // coroutine keeps its context, the trampoline's frame below its own, and
  // address 0. The rest of memory, the heap and the stacks nobody has yet, it may.
  ghost predicate Spares(l: Layout, s: Config, mem: Memory)
    requires 0 <= s.current < |l|
  {
    && (forall e | 0 <= e < |l| && (e == 0 || e in s.cos) && e != s.current :: Same(s.mem, mem, l[e].lo, l[e].hi))
    && (forall e | e == 0 || e in s.cos :: At(s.mem, ContextOf(e)) == At(mem, ContextOf(e)))
    && Same(s.mem, mem, Floor(l, s.current), l[s.current].hi)
  }

  // `&mut self` keeps a running coroutine from being resumed, the guard page
  // keeps a stack that is full from being pushed to, and compiled code keeps
  // off the stacks of others and gives its frames back before it returns.
  ghost predicate Allowed(l: Layout, s: Config, ev: Event) {
    && 0 <= s.current < |l|
    && var r, lo := s.regs.rsp, l[s.current].lo;
    match ev
    case Make(co) => 1 <= co < |l| && co !in s.cos
    case Compute(regs, mem) => lo <= regs.rsp <= Floor(l, s.current) && Spares(l, s, mem)
    case Call(co) => co in s.cos && s.cos[co].state != Running && lo + 11 <= r
    case Yield => lo + 7 <= r
    case Return(_) => s.current != NULL && lo + 8 <= r == Floor(l, s.current)
  }

  function Book(s: Config, b: Calls, ev: Event): (after: Calls)
    requires |b.chain| > 0 && (ev.Call? ==> ev.co in s.cos)
    ensures |after.chain| > 0
  {
    var out := b.chain[..|b.chain| - 1];
    match ev
    case Call(co) => if s.cos[co].state == Done then b else Calls(b.chain + [co], b.left[s.current := Shot(s)])
    case Yield => if |b.chain| == 1 then b else Calls(out, b.left[s.current := Shot(s)])
    case Return(_) => if |b.chain| == 1 then b else b.(chain := out)
    case _ => b
  }

  // Left by `yield_now`: the context points at the image below the call.
  ghost predicate Yielded(l: Layout, mem: Memory, e: Word, n: Snapshot)
    requires 0 <= e < |l|
  {
    var r := n.regs.rsp;
    && l[e].lo + 7 <= r <= Floor(l, e)
    && At(mem, ContextOf(e)) == r - 7 && Spilled(mem, r - 7, n.regs) && At(mem, r - 1) == IN_YIELD
    && Same(mem, n.mem, r, l[e].hi)
  }

  // Left by `resume` of `co`: the same below resume's own frame.
  ghost predicate Resumed(l: Layout, mem: Memory, e: Word, co: Word, n: Snapshot)
    requires 0 <= e < |l|
  {
    var r := n.regs.rsp;
    && l[e].lo + 11 <= r <= Floor(l, e)
    && At(mem, r - 1) == r - 11 && At(mem, r - 2) == n.returnTo && At(mem, r - 3) == n.current
    && At(mem, r - 4) == co && At(mem, r - 5) == IN_RESUME && Spilled(mem, r - 11, n.regs)
    && Same(mem, n.mem, r, l[e].hi)
  }

  // Made and not yet resumed.
  ghost predicate Readied(l: Layout, mem: Memory, e: Word)
    requires 0 <= e < |l|
  {
    var top := l[e].hi;
    && At(mem, ContextOf(e)) == top - 8 && At(mem, top - 2) == TRAMPOLINE && At(mem, top - 1) == FAULT
    && Unspill(mem, top - 8) == Regs(0, 0, 0, e, 0, 0, top - 1)
  }

  // The trampoline's frame names its coroutine.
  ghost predicate Framed(l: Layout, mem: Memory, e: Word)
    requires 0 <= e < |l|
  {
    At(mem, l[e].hi - 2) == e
  }

  ghost predicate CoroutineInv(l: Layout, s: Config, b: Calls, e: Word) {
    && 1 <= e < |l| && e in s.cos
    && var co := s.cos[e];
    && (co.state == Running <==> e in b.chain)
    && (co.state == Fresh ==> Readied(l, s.mem, e))
    && (co.state == Suspended ==> e in b.left && Yielded(l, s.mem, e, b.left[e]))
    && (co.state == Suspended || co.state == Running ==> Framed(l, s.mem, e))
    && (co.body <==> co.state == Fresh) && (co.panicked ==> co.state == Done)
    && (e in s.started <==> !co.body)
  }

  // The `RETURN_TO` cell as the k-th execution of the chain runs with it.
  function ReturnOf(b: Calls, k: nat): Word
    requires k <= |b.chain|
  {
    if k == 0 || b.chain[k - 1] !in b.left then NULL else b.left[b.chain[k - 1]].regs.rsp - 1
  }

  ghost predicate LinkInv(l: Layout, s: Config, b: Calls, k: nat)
    requires k + 1 < |b.chain|
  {
    var e := b.chain[k];
    && 0 <= e < |l| && e in b.left && b.left[e].current == e && b.left[e].returnTo == ReturnOf(b, k)
    && Resumed(l, s.mem, e, b.chain[k + 1], b.left[e])
  }

  ghost predicate ChainInv(l: Layout, s: Config, b: Calls) {
    && |b.chain| > 0 && b.chain[0] == 0
    && (forall k :: 0 < k < |b.chain| ==> b.chain[k] in s.cos)
    && (forall j, k :: 0 <= j < k < |b.chain| ==> b.chain[j] != b.chain[k])
  }

  ghost predicate StartedOnce(s: Config) {
    && (forall j, k :: 0 <= j < k < |s.started| ==> s.started[j] != s.started[k])
    && (forall k :: 0 <= k < |s.started| ==> s.started[k] in s.cos)
  }

  ghost predicate RunningInv(l: Layout, s: Config, b: Calls)
    requires |b.chain| > 0
  {
    var e := b.chain[|b.chain| - 1];
    && s.pc == USER && s.current == e && s.returnTo == ReturnOf(b, |b.chain| - 1)
    && 0 <= e < |l| && l[e].lo <= s.regs.rsp <= Floor(l, e)
  }

  ghost predicate Inv(l: Layout, s: Config, b: Calls) {
    && Apart(l) && ChainInv(l, s, b) && StartedOnce(s) && RunningInv(l, s, b)
    && (forall e :: e in s.cos ==> 1 <= e < |l| && CoroutineInv(l, s, b, e))
    && (forall k: nat :: k + 1 < |b.chain| ==> LinkInv(l, s, b, k))
  }

  // The thread before its first coroutine.
  ghost predicate Begins(l: Layout, s: Config) {
    && Apart(l) && s.cos == map[] && s.started == [] && s.current == NULL && s.returnTo == NULL
    && s.pc == USER && l[0].lo <= s.regs.rsp <= l[0].hi
  }

  ghost predicate IsRun(l: Layout, ss: seq<Config>, evs: seq<Event>) {
    && |ss| == |evs| + 1 && Begins(l, ss[0])
    && forall i :: 0 <= i < |evs| ==> Allowed(l, ss[i], evs[i]) && ss[i + 1] == Next(l, ss[i], evs[i])
  }

  function Books(ss: seq<Config>, evs: seq<Event>, k: nat): (b: Calls)
    requires k <= |evs| < |ss| && forall i :: 0 <= i < |evs| && evs[i].Call? ==> evs[i].co in ss[i].cos
    ensures |b.chain| > 0
  {
    if k == 0 then Calls([0], map[]) else Book(ss[k - 1], Books(ss, evs, k - 1), evs[k - 1])
  }

  // What a suspended execution rests on is its own stack and context.
  lemma StackStays(l: Layout, m: Memory, n: Memory, e: Word)
    requires Apart(l) && 0 <= e < |l| && Same(m, n, l[e].lo, l[e].hi) && At(m, ContextOf(e)) == At(n, ContextOf(e))
    ensures Readied(l, m, e) ==> Readied(l, n, e)
    ensures Framed(l, m, e) ==> Framed(l, n, e)
    ensures forall t :: Yielded(l, m, e, t) ==> Yielded(l, n, e, t)
    ensures forall f, t :: Resumed(l, m, e, f, t) ==> Resumed(l, n, e, f, t)
  {
  }

  // Writes to one stack and one other cell leave the other stacks alone.
  lemma OthersStay(l: Layout, m: Memory, n: Memory, mine: Word, e: Word, cell: Word)
    requires Apart(l) && 0 <= mine < |l| && 0 <= e < |l| && e != mine
    requires SameBut(n, m, l[mine].lo, l[mine].hi, cell) && cell != ContextOf(e) && !(l[e].lo <= cell < l[e].hi)
    ensures Same(m, n, l[e].lo, l[e].hi) && At(m, ContextOf(e)) == At(n, ContextOf(e))
  {
  }

  // What is read of an image left by `resume`, by `yield_now`, by `prepare`.
  lemma ResumedMeans(l: Layout, mem: Memory, e: Word, co: Word, n: Snapshot)
    requires 0 <= e < |l| && Resumed(l, mem, e, co, n)
    ensures l[e].lo + 11 <= n.regs.rsp <= Floor(l, e) && At(mem, n.regs.rsp - 1) == n.regs.rsp - 11
    ensures Same(n.mem, mem, n.regs.rsp, l[e].hi)
  {
  }

  lemma YieldedMeans(l: Layout, mem: Memory, e: Word, n: Snapshot)
    requires 0 <= e < |l| && Yielded(l, mem, e, n)
    ensures l[e].lo + 7 <= n.regs.rsp <= Floor(l, e) && At(mem, ContextOf(e)) == n.regs.rsp - 7
    ensures Same(n.mem, mem, n.regs.rsp, l[e].hi)
  {
  }

  lemma ReadiedMeans(l: Layout, mem: Memory, e: Word)
    requires 0 <= e < |l| && Readied(l, mem, e)
    ensures At(mem, ContextOf(e)) == l[e].hi - 8
  {
  }

  // What a coroutine's state says, memory apart.
  lemma StateMeans(l: Layout, s: Config, b: Calls, e: Word)
    requires CoroutineInv(l, s, b, e)
    ensures s.cos[e].state == Running <==> e in b.chain
    ensures e in s.started <==> s.cos[e].state != Fresh
    ensures s.cos[e].body <==> s.cos[e].state == Fresh
    ensures s.cos[e].state == Suspended || s.cos[e].state == Running ==> Framed(l, s.mem, e)
    ensures s.cos[e].state == Suspended ==> e in b.left && Yielded(l, s.mem, e, b.left[e])
    ensures s.cos[e].state == Fresh ==> Readied(l, s.mem, e)
  {
    hide Framed, Yielded, Readied;
  }

  lemma SameBoth(m: Memory, n: Memory, o: Memory, lo: Word, hi: Word)
    requires Same(m, n, lo, hi) && Same(n, o, lo, hi)
    ensures Same(m, o, lo, hi) && Same(n, m, lo, hi)
  {
  }

  lemma SameButWider(m: Memory, n: Memory, lo: Word, r: Word, hi: Word, cell: Word)
    requires SameBut(m, n, lo, r, cell) && r <= hi
    ensures SameBut(m, n, lo, hi, cell)
  {
  }

  // Leaving through `resume`: the image is complete and lies below the
  // caller's stack pointer, and control goes where the context says.
  lemma ResumeLeaves(l: Layout, s: Config, co: Word)
    requires Apart(l) && 0 <= s.current < |l| && s.regs.rsp <= Floor(l, s.current) && co != 0
    requires Allowed(l, s, Call(co)) && 1 <= co < |l|
    ensures var t := EnterResume(s, co);
            && Resumed(l, t.mem, s.current, co, Shot(s))
            && SameBut(t.mem, s.mem, l[s.current].lo, s.regs.rsp, l[s.current].lo)
            && t.regs == Unspill(t.mem, At(s.mem, ContextOf(co))) && t.pc == At(t.mem, At(s.mem, ContextOf(co)) + 6)
            && t.returnTo == s.regs.rsp - 1 && t.current == co && t.started == s.started
            && t.cos == s.cos[co := s.cos[co].(state := Running)]
  {
    hide Unspill, Switch;
    var r := s.regs.rsp;
    var mem := s.mem[r - 1 := NULL][r - 2 := s.returnTo][r - 3 := s.current][r - 4 := co];
    var framed := s.(regs := s.regs.(rsp := r - 4), mem := mem, returnTo := r - 1, current := co,
                     cos := s.cos[co := s.cos[co].(state := Running)]);
    SwitchSavesAndLoads(framed, IN_RESUME, r - 1, ContextOf(co));
    var t := EnterResume(s, co);
    assert forall a :: !(r - 4 <= a < r) ==> At(mem, a) == At(s.mem, a);
    assert At(mem, r - 2) == s.returnTo && At(mem, r - 3) == s.current && At(mem, r - 4) == co;
    assert Spilled(t.mem, r - 11, framed.regs);
    assert Spilled(t.mem, r - 11, s.regs);
  }

  // Leaving through `yield_now`: the same, into the coroutine's own context.
  lemma YieldLeaves(l: Layout, s: Config)
    requires Apart(l) && 1 <= s.current < |l| && s.regs.rsp <= Floor(l, s.current) && Allowed(l, s, Yield)
    requires s.returnTo >= 1 && !(l[s.current].lo <= s.returnTo < l[s.current].hi)
    ensures var t := Switch(s, IN_YIELD, ContextOf(s.current), s.returnTo);
            && Yielded(l, t.mem, s.current, Shot(s))
            && SameBut(t.mem, s.mem, l[s.current].lo, s.regs.rsp, ContextOf(s.current))
            && t == s.(mem := t.mem, regs := t.regs, pc := t.pc)
            && t.regs == Unspill(t.mem, At(s.mem, s.returnTo)) && t.pc == At(t.mem, At(s.mem, s.returnTo) + 6)
  {
    hide Unspill, Switch;
    SwitchSavesAndLoads(s, IN_YIELD, ContextOf(s.current), s.returnTo);
  }

  // Leaving for the last time, from the bottom of the trampoline.
  lemma FinishLeaves(l: Layout, s: Config, panicked: bool)
    requires Apart(l) && 1 <= s.current < |l| && Allowed(l, s, Return(panicked))
    requires Framed(l, s.mem, s.current) && s.current in s.cos
    requires s.returnTo >= 1 && !(l[s.current].lo <= s.returnTo < l[s.current].hi)
    ensures var t := LeaveBody(s, panicked);
            && SameBut(t.mem, s.mem, l[s.current].lo, s.regs.rsp, l[s.current].lo)
            && t == s.(mem := t.mem, regs := t.regs, pc := t.pc, cos := t.cos)
            && t.cos == s.cos[s.current := s.cos[s.current].(state := Done, panicked := panicked)]
            && t.regs == Unspill(t.mem, At(s.mem, s.returnTo)) && t.pc == At(t.mem, At(s.mem, s.returnTo) + 6)
  {
    hide Unspill, Switch;
    var sp := s.regs.rsp;
    var last := s.(regs := s.regs.(rsp := sp - 1), mem := s.mem[sp - 1 := NULL],
                   cos := s.cos[s.current := s.cos[s.current].(state := Done, panicked := panicked)]);
    SwitchSavesAndLoads(last, IN_TRAMPOLINE, sp - 1, s.returnTo);
    assert forall a :: a != sp - 1 ==> At(last.mem, a) == At(s.mem, a);
  }

  // Landing in `resume` gives the caller back what it left with.
  lemma ResumeReturns(l: Layout, t: Config, e: Word, co: Word, n: Snapshot)
    requires 0 <= e < |l| && Resumed(l, t.mem, e, co, n) && co in t.cos
    requires t.regs == Unspill(t.mem, n.regs.rsp - 11) && t.pc == At(t.mem, n.regs.rsp - 5)
    ensures Land(t) == t.(regs := n.regs, pc := USER, returnTo := n.returnTo, current := n.current,
                          cos := if t.cos[co].state == Running then t.cos[co := t.cos[co].(state := Suspended)] else t.cos)
  {
  }

  // Landing in `yield_now` does too.
  lemma YieldReturns(l: Layout, t: Config, e: Word, n: Snapshot)
    requires 0 <= e < |l| && Yielded(l, t.mem, e, n)
    requires t.regs == Unspill(t.mem, n.regs.rsp - 7) && t.pc == At(t.mem, n.regs.rsp - 1)
    ensures Land(t) == t.(regs := n.regs, pc := USER)
  {
  }

  // Landing in the trampoline enters the body, on an empty stack.
  lemma BodyStarts(l: Layout, t: Config, e: Word)
    requires Apart(l) && 1 <= e < |l| && Readied(l, t.mem, e) && e in t.cos && t.cos[e].body && t.current == e
    requires t.regs == Unspill(t.mem, l[e].hi - 8) && t.pc == At(t.mem, l[e].hi - 2)
    ensures var u := Land(t);
            && u == t.(regs := Regs(0, 0, 0, e, 0, 0, l[e].hi - 2), pc := USER, mem := u.mem,
                       cos := t.cos[e := t.cos[e].(body := false)], started := t.started + [e])
            && Framed(l, u.mem, e) && SameBut(u.mem, t.mem, l[e].lo, l[e].hi, l[e].lo)
  {
  }
}
