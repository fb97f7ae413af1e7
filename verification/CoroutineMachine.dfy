// src/coroutine.rs, the x86_64 half, over words: a stack is a run of
// addresses, a context is one address holding a stack pointer, and code is
// known by the words that a `ret` may jump to.
module CoroutineMachine {
  type Word = int
  type Memory = map<Word, Word>

  // A page never written reads as zero.
  function At(mem: Memory, a: Word): Word {
    if a in mem then mem[a] else 0
  }

  /** What section 3.2.1 of the System V AMD64 ABI makes a callee keep. */
  datatype Regs = Regs(rbx: Word, rbp: Word, r12: Word, r13: Word, r14: Word, r15: Word, rsp: Word)

  datatype State = Fresh | Suspended | Running | Done
  // `body` says whether the body is still there to be taken.
  datatype Coroutine = Coroutine(state: State, body: bool, panicked: bool)

  const NULL: Word := 0

  // The places in the code that a stack can hold the address of.
  const FAULT: Word := 0
  const TRAMPOLINE: Word := 1
  const IN_RESUME: Word := 2
  const IN_YIELD: Word := 3
  const IN_TRAMPOLINE: Word := 4
  // Where an interpreter's own code runs, and the end of the trampoline.
  const USER: Word := 5
  const AFTER_BODY: Word := 6

  // A coroutine is named by a nonzero word and its context lies off every stack.
  function ContextOf(co: Word): Word {
    -co
  }

  /** One thread's machine: registers, memory, the two thread-local cells and
    * the coroutines. `started` lists the bodies called, in order. */
  datatype Config = Config(regs: Regs, pc: Word, mem: Memory, returnTo: Word, current: Word,
                           cos: map<Word, Coroutine>, started: seq<Word>)

  // The six pushes: rbp highest, r15 lowest.
  function Spill(mem: Memory, sp: Word, r: Regs): Memory {
    mem[sp + 5 := r.rbp][sp + 4 := r.rbx][sp + 3 := r.r12][sp + 2 := r.r13][sp + 1 := r.r14][sp := r.r15]
  }

  // What popping six registers and a return address from `sp` leaves.
  function Unspill(mem: Memory, sp: Word): Regs {
    Regs(At(mem, sp + 4), At(mem, sp + 5), At(mem, sp + 3), At(mem, sp + 2), At(mem, sp + 1), At(mem, sp), sp + 7)
  }

  // The image that a suspended execution leaves below its stack pointer.
  ghost predicate Spilled(mem: Memory, sp: Word, r: Regs) {
    Unspill(mem, sp).(rsp := r.rsp) == r
  }

  // A call of the switch from `site`: saves into `from`, loads from `to`.
  function Switch(s: Config, site: Word, from: Word, to: Word): Config {
    var sp := s.regs.rsp - 7;
    var mem := Spill(s.mem[sp + 6 := site], sp, s.regs)[from := sp];
    var target := At(mem, to);
    s.(mem := mem, regs := Unspill(mem, target), pc := At(mem, target + 6))
  }

  // A stack made ready: nowhere to return to, the trampoline, six registers
  // with the coroutine itself in what pops into r13: the fourth word written,
  // although the comment in `prepare` says r12. The trampoline reads neither.
  function Prepared(mem: Memory, top: Word, co: Word): Memory {
    Spill(mem[top - 1 := FAULT][top - 2 := TRAMPOLINE], top - 8, Regs(0, 0, 0, co, 0, 0, top - 8))
      [ContextOf(co) := top - 8]
  }

  function Create(s: Config, top: Word, co: Word): Config {
    s.(mem := Prepared(s.mem, top, co), cos := s.cos[co := Coroutine(Fresh, true, false)])
  }

  // `resume` keeps four words of its own: the context it is left in, the two
  // cells as found, and which coroutine it resumed.
  function EnterResume(s: Config, co: Word): Config
    requires co in s.cos
  {
    var r := s.regs.rsp;
    var mem := s.mem[r - 1 := NULL][r - 2 := s.returnTo][r - 3 := s.current][r - 4 := co];
    Switch(s.(regs := s.regs.(rsp := r - 4), mem := mem, returnTo := r - 1, current := co,
              cos := s.cos[co := s.cos[co].(state := Running)]),
           IN_RESUME, r - 1, ContextOf(co))
  }

  function LeaveResume(s: Config): Config {
    var sp := s.regs.rsp;
    var co := At(s.mem, sp);
    if co !in s.cos then s.(pc := FAULT)
    else
      s.(regs := s.regs.(rsp := sp + 4), returnTo := At(s.mem, sp + 2), current := At(s.mem, sp + 1), pc := USER,
         cos := if s.cos[co].state == Running then s.cos[co := s.cos[co].(state := Suspended)] else s.cos)
  }

  // The trampoline up to the call of the body.
  function EnterBody(s: Config): Config {
    var co := s.current;
    if co !in s.cos then s.(pc := FAULT)
    else
      var sp := s.regs.rsp - 1;
      var t := s.(regs := s.regs.(rsp := sp), mem := s.mem[sp := co]);
      if s.cos[co].body then t.(pc := USER, cos := s.cos[co := s.cos[co].(body := false)], started := s.started + [co])
      else t.(pc := AFTER_BODY)
  }

  // The trampoline from the body's return: `panicked` is what was caught.
  function LeaveBody(s: Config, panicked: bool): Config {
    var sp := s.regs.rsp;
    var co := At(s.mem, sp);
    if co !in s.cos then s.(pc := FAULT)
    else
      Switch(s.(regs := s.regs.(rsp := sp - 1), mem := s.mem[sp - 1 := NULL],
                cos := s.cos[co := s.cos[co].(state := Done, panicked := panicked)]),
             IN_TRAMPOLINE, sp - 1, s.returnTo)
  }

  // Where the switch's `ret` leads.
  function Land(s: Config): Config {
    if s.pc == TRAMPOLINE then EnterBody(s)
    else if s.pc == IN_RESUME then LeaveResume(s)
    else if s.pc == IN_YIELD then s.(pc := USER)
    else s.(pc := FAULT)
  }

  function Resume(s: Config, co: Word): Config
    requires co in s.cos
  {
    if s.cos[co].state == Done then s else Land(EnterResume(s, co))
  }

  function YieldNow(s: Config): Config {
    if s.current == NULL || s.returnTo == NULL then s
    else Land(Switch(s, IN_YIELD, ContextOf(s.current), s.returnTo))
  }

  function Finish(s: Config, panicked: bool): Config {
    Land(LeaveBody(s, panicked))
  }

  // Two memories agree from `lo` up to `hi`.
  ghost predicate Same(m: Memory, n: Memory, lo: Word, hi: Word) {
    forall a {:trigger At(m, a)} {:trigger At(n, a)} :: lo <= a < hi ==> At(m, a) == At(n, a)
  }

  // They agree everywhere else, but for one cell.
  ghost predicate SameBut(m: Memory, n: Memory, lo: Word, hi: Word, cell: Word) {
    forall a {:trigger At(m, a)} {:trigger At(n, a)} :: !(lo <= a < hi) && a != cell ==> At(m, a) == At(n, a)
  }

  // The six pushes leave the image and touch nothing else.
  lemma SpillKeeps(mem: Memory, sp: Word, r: Regs)
    ensures Spilled(Spill(mem, sp, r), sp, r)
    ensures forall a {:trigger At(Spill(mem, sp, r), a)} {:trigger At(mem, a)} ::
              !(sp <= a < sp + 6) ==> At(Spill(mem, sp, r), a) == At(mem, a)
  {
  }

  // What a switch saves, what it leaves alone, and what it loads.
  lemma SwitchSavesAndLoads(s: Config, site: Word, from: Word, to: Word)
    requires !(s.regs.rsp - 7 <= from < s.regs.rsp)
    ensures var t, sp := Switch(s, site, from, to), s.regs.rsp - 7;
            && t == s.(mem := t.mem, regs := t.regs, pc := t.pc)
            && At(t.mem, from) == sp && Spilled(t.mem, sp, s.regs) && At(t.mem, sp + 6) == site
            && SameBut(t.mem, s.mem, sp, sp + 7, from)
            && t.regs == Unspill(t.mem, At(t.mem, to)) && t.pc == At(t.mem, At(t.mem, to) + 6)
  {
    hide Spill;
    var sp := s.regs.rsp - 7;
    var called := s.mem[sp + 6 := site];
    SpillKeeps(called, sp, s.regs);
    var mem := Spill(called, sp, s.regs);
    assert forall a {:trigger At(mem[from := sp], a)} :: a != from ==> At(mem[from := sp], a) == At(mem, a);
    assert At(mem, sp + 6) == At(called, sp + 6);
  }

  // What `prepare` leaves on an empty stack for the first switch to pop.
  lemma PreparedIsPopped(mem: Memory, top: Word, co: Word)
    requires !(top - 8 <= ContextOf(co) < top)
    ensures var m := Prepared(mem, top, co);
            && At(m, ContextOf(co)) == top - 8 && At(m, top - 2) == TRAMPOLINE && At(m, top - 1) == FAULT
            && Unspill(m, top - 8) == Regs(0, 0, 0, co, 0, 0, top - 1)
            && SameBut(m, mem, top - 8, top, ContextOf(co))
  {
    hide Spill;
    var begun := mem[top - 1 := FAULT][top - 2 := TRAMPOLINE];
    var zero := Regs(0, 0, 0, co, 0, 0, top - 8);
    SpillKeeps(begun, top - 8, zero);
    var m := Spill(begun, top - 8, zero);
    assert At(m, top - 2) == At(begun, top - 2) && At(m, top - 1) == At(begun, top - 1);
    assert forall a {:trigger At(m[ContextOf(co) := top - 8], a)} ::
        a != ContextOf(co) ==> At(m[ContextOf(co) := top - 8], a) == At(m, a);
  }
}
