// The code itself, a push and a pop at a time, over the thread it runs on.
module CoroutineThread {
  import opened CoroutineMachine

  // Words written downward from `sp`, first word highest.
  function Laid(mem: Memory, sp: Word, values: seq<Word>): Memory {
    var n := |values|;
    if n == 0 then mem else Laid(mem, sp, values[..n - 1])[sp - n := values[n - 1]]
  }

  // Six words laid are six registers spilled, rbp first.
  lemma LaidIsSpilled(mem: Memory, sp: Word, v: seq<Word>)
    requires |v| == 6
    ensures Laid(mem, sp, v) == Spill(mem, sp - 6, Regs(v[1], v[0], v[2], v[3], v[4], v[5], sp - 6))
  {
    assert v[..5][..4] == v[..4] && v[..4][..3] == v[..3] && v[..3][..2] == v[..2] && v[..2][..1] == v[..1];
    assert Laid(mem, sp, v[..1]) == mem[sp - 1 := v[0]];
    assert Laid(mem, sp, v[..2]) == mem[sp - 1 := v[0]][sp - 2 := v[1]];
    assert Laid(mem, sp, v[..3]) == mem[sp - 1 := v[0]][sp - 2 := v[1]][sp - 3 := v[2]];
    assert Laid(mem, sp, v[..4]) == mem[sp - 1 := v[0]][sp - 2 := v[1]][sp - 3 := v[2]][sp - 4 := v[3]];
  }

  class Thread {
    var regs: Regs
    var pc: Word
    var mem: Memory
    var returnTo: Word
    var current: Word
    var cos: map<Word, Coroutine>
    var started: seq<Word>

    function Now(): Config
      reads this
    {
      Config(regs, pc, mem, returnTo, current, cos, started)
    }

    method Push(w: Word)
      modifies `regs, `mem
      ensures regs == old(regs).(rsp := old(regs.rsp) - 1) && mem == old(mem)[old(regs.rsp) - 1 := w]
    {
      regs := regs.(rsp := regs.rsp - 1);
      mem := mem[regs.rsp := w];
    }

    method Pop() returns (w: Word)
      modifies `regs
      ensures regs == old(regs).(rsp := old(regs.rsp) + 1) && w == At(mem, old(regs.rsp))
    {
      w := At(mem, regs.rsp);
      regs := regs.(rsp := regs.rsp + 1);
    }

    method PushRegisters()
      modifies `regs, `mem
      ensures regs == old(regs).(rsp := old(regs.rsp) - 6)
      ensures mem == Spill(old(mem), old(regs.rsp) - 6, old(regs))
    {
      hide At;
      Push(regs.rbp);
      Push(regs.rbx);
      Push(regs.r12);
      Push(regs.r13);
      Push(regs.r14);
      Push(regs.r15);
    }

    method PopRegisters() returns (to: Word)
      modifies `regs
      ensures regs == Unspill(mem, old(regs.rsp)) && to == At(mem, old(regs.rsp) + 6)
    {
      hide At;
      var w := Pop();
      regs := regs.(r15 := w);
      w := Pop();
      regs := regs.(r14 := w);
      w := Pop();
      regs := regs.(r13 := w);
      w := Pop();
      regs := regs.(r12 := w);
      w := Pop();
      regs := regs.(rbx := w);
      w := Pop();
      regs := regs.(rbp := w);
      to := Pop();
    }

    // `bish_switch_context`, from the call at `site` to the final `ret`.
    method SwitchContext(site: Word, from: Word, to: Word)
      modifies `regs, `mem, `pc
      ensures Now() == Switch(old(Now()), site, from, to)
    {
      hide At, Unspill;
      Push(site);
      PushRegisters();
      mem := mem[from := regs.rsp];
      regs := regs.(rsp := At(mem, to));
      var ret := PopRegisters();
      pc := ret;
    }

    // A new coroutine, its stack laid out each word below the last.
    method Prepare(top: Word, co: Word)
      modifies `mem, `cos
      ensures Now() == Create(old(Now()), top, co)
    {
      var sp := top - 1;
      mem := mem[sp := FAULT];
      sp := sp - 1;
      mem := mem[sp := TRAMPOLINE];
      var values, i := [0, 0, 0, co, 0, 0], 0;
      ghost var begun := mem;
      while i < |values|
        invariant 0 <= i <= |values| && sp == top - 2 - i
        invariant mem == Laid(begun, top - 2, values[..i])
        modifies `mem
      {
        sp := sp - 1;
        mem := mem[sp := values[i]];
        assert values[..i + 1][..i] == values[..i];
        i := i + 1;
      }
      assert values[..i] == values;
      LaidIsSpilled(begun, top - 2, values);
      mem := mem[ContextOf(co) := sp];
      cos := cos[co := Coroutine(Fresh, true, false)];
    }

    // Goes where the switch's `ret` leads, up to the next user code.
    method LandThere()
      modifies this
      ensures Now() == Land(old(Now()))
    {
      if pc == TRAMPOLINE {
        if current !in cos {
          pc := FAULT;
          return;
        }
        Push(current);
        if cos[current].body {
          cos := cos[current := cos[current].(body := false)];
          started := started + [current];
          pc := USER;
        } else {
          pc := AFTER_BODY;
        }
      } else if pc == IN_RESUME {
        var co := At(mem, regs.rsp);
        if co !in cos {
          pc := FAULT;
          return;
        }
        co := Pop();
        var w := Pop();
        current := w;
        returnTo := Pop();
        w := Pop();
        if cos[co].state == Running {
          cos := cos[co := cos[co].(state := Suspended)];
        }
        pc := USER;
      } else if pc == IN_YIELD {
        pc := USER;
      } else {
        pc := FAULT;
      }
    }

    // `resume`, up to whatever runs next.
    method ResumeOne(co: Word)
      requires co in cos
      modifies this
      ensures Now() == Resume(old(Now()), co)
    {
      hide Switch, Land, At;
      if cos[co].state == Done {
        return;
      }
      Push(NULL);
      var here := regs.rsp;
      Push(returnTo);
      Push(current);
      Push(co);
      returnTo := here;
      current := co;
      cos := cos[co := cos[co].(state := Running)];
      SwitchContext(IN_RESUME, here, ContextOf(co));
      LandThere();
    }

    method Yield()
      modifies this
      ensures Now() == YieldNow(old(Now()))
    {
      if current == NULL || returnTo == NULL {
        return;
      }
      SwitchContext(IN_YIELD, ContextOf(current), returnTo);
      LandThere();
    }

    // The trampoline once the body has returned or panicked.
    method BodyReturned(panicked: bool)
      modifies this
      ensures Now() == Finish(old(Now()), panicked)
    {
      var co := At(mem, regs.rsp);
      if co !in cos {
        pc := FAULT;
        return;
      }
      cos := cos[co := cos[co].(state := Done, panicked := panicked)];
      Push(NULL);
      SwitchContext(IN_TRAMPOLINE, regs.rsp, returnTo);
      LandThere();
    }
  }
}
