/** Saving and restoring contexts: the timer interrupt pushes all registers on the stack of the
    running task, and pops those of the task the scheduler has chosen from the frame that was
    pushed when that task was last interrupted, or that was prepared when it was created. */
module Context {

  datatype Reg = RAX | RCX | RDX | RBX | RBP | RSI | RDI | R8 | R9 | R10 | R11 | R12 | R13 | R14 | R15

  /** Everything a task can see of the processor. */
  datatype Cpu = Cpu(gpr: map<Reg, int>, rip: int, cs: int, rflags: int, rsp: int, ss: int)

  /** Memory as 8-byte words; an address not in the map reads 0. */
  type Memory = map<int, int>

  const WORD := 8
  const FRAME_WORDS := 22

  const PUSHES: seq<Reg> := [RAX, RCX, RDX, RBX, RBP, RSI, RDI, R8, R9, R10, R11, R12, R13, R14, R15]
  const POPS: seq<Reg> := [R15, R14, R13, R12, R11, R10, R9, R8, RDI, RSI, RBP, RBX, RDX, RCX, RAX]

  function Get(m: Memory, a: int): int { if a in m then m[a] else 0 }

  function Align16(a: int): int { a - a % 16 }

  /** Position of a register in a frame, in words from its low end. */
  function Slot(r: Reg): nat {
    match r
    case RAX => 16 case RCX => 15 case RDX => 14 case RBX => 13 case RBP => 12
    case RSI => 11 case RDI => 10 case R8 => 9 case R9 => 8 case R10 => 7
    case R11 => 6 case R12 => 5 case R13 => 4 case R14 => 3 case R15 => 2
  }

  /** The context that a frame at address f holds. */
  function FrameAt(m: Memory, f: int): Cpu {
    Cpu(map r: Reg :: Get(m, f + WORD * Slot(r)),
        Get(m, f + WORD * 17), Get(m, f + WORD * 18), Get(m, f + WORD * 19), Get(m, f + WORD * 20),
        Get(m, f + WORD * 21))
  }

  /** The layout of a frame: two words, the general registers from r15 up to rax, and what iretq pops. */
  lemma FrameLayout(m: Memory, f: int)
    ensures var c := FrameAt(m, f);
      && Complete(c)
      && c.gpr[R15] == Get(m, f + 16) && c.gpr[R14] == Get(m, f + 24) && c.gpr[R13] == Get(m, f + 32)
      && c.gpr[R12] == Get(m, f + 40) && c.gpr[R11] == Get(m, f + 48) && c.gpr[R10] == Get(m, f + 56)
      && c.gpr[R9] == Get(m, f + 64) && c.gpr[R8] == Get(m, f + 72) && c.gpr[RDI] == Get(m, f + 80)
      && c.gpr[RSI] == Get(m, f + 88) && c.gpr[RBP] == Get(m, f + 96) && c.gpr[RBX] == Get(m, f + 104)
      && c.gpr[RDX] == Get(m, f + 112) && c.gpr[RCX] == Get(m, f + 120) && c.gpr[RAX] == Get(m, f + 128)
      && c.rip == Get(m, f + 136) && c.cs == Get(m, f + 144) && c.rflags == Get(m, f + 152)
      && c.rsp == Get(m, f + 160) && c.ss == Get(m, f + 168)
  {}

  predicate Complete(c: Cpu) { forall r: Reg :: r in c.gpr }

  /** Memory differs at most in [a, b). */
  ghost predicate SameOutside(m: Memory, m': Memory, a: int, b: int) {
    forall x :: !(a <= x < b) ==> Get(m', x) == Get(m, x)
  }

  lemma FrameKept(m: Memory, m': Memory, a: int, b: int, f: int)
    requires SameOutside(m, m', a, b) && (f + WORD * FRAME_WORDS <= a || b <= f)
    ensures FrameAt(m', f) == FrameAt(m, f)
  {
    assert forall r: Reg :: 2 <= Slot(r) <= 16;
  }

  /** A change below a frame, after changes between lo and the frame's end. */
  lemma Below(m: Memory, m1: Memory, m2: Memory, lo: int, f: int, top: int)
    requires (SameOutside(m, m1, lo, top) || SameOutside(m, m1, f, top)) && SameOutside(m1, m2, lo, f) && lo <= f <= top
    ensures SameOutside(m, m2, lo, top)
  {}

  lemma Stored(m: Memory, a: int, v: int, lo: int, hi: int)
    requires lo <= a < hi
    ensures SameOutside(m, m[a := v], lo, hi)
  {}

  lemma Wider(m: Memory, m': Memory, lo: int, a: int, b: int)
    requires SameOutside(m, m', lo, a) && a <= b
    ensures SameOutside(m, m', lo, b)
  {}

  lemma SlotRange(r: Reg)
    ensures 2 <= Slot(r) <= 16
  {}

  /** A frame read word by word. */
  lemma FrameIs(m: Memory, f: int, c: Cpu)
    requires Complete(c) && forall r: Reg :: c.gpr[r] == Get(m, f + WORD * Slot(r))
    requires c.rip == Get(m, f + WORD * 17) && c.cs == Get(m, f + WORD * 18) && c.rflags == Get(m, f + WORD * 19)
    requires c.rsp == Get(m, f + WORD * 20) && c.ss == Get(m, f + WORD * 21)
    ensures FrameAt(m, f) == c
  {
    hide Slot, Get;
    assert FrameAt(m, f).gpr == c.gpr;
  }

  lemma Slots(j: int)
    requires 0 <= j < 15
    ensures Slot(PUSHES[j]) == 16 - j && Slot(POPS[j]) == 2 + j
    ensures forall r: Reg :: (Slot(r) == 16 - j ==> r == PUSHES[j]) && (Slot(r) == 2 + j ==> r == POPS[j])
  {}

  class Machine {
    var gpr: map<Reg, int>
    var rip: int
    var cs: int
    var rflags: int
    var rsp: int
    var ss: int
    var mem: Memory

    ghost function View(): Cpu
      reads this
    {
      Cpu(gpr, rip, cs, rflags, rsp, ss)
    }

    method Push(v: int)
      modifies this`rsp, this`mem
      ensures rsp == old(rsp) - WORD && mem == old(mem)[rsp := v]
    {
      rsp := rsp - WORD;
      mem := mem[rsp := v];
    }

    method Pop() returns (v: int)
      modifies this`rsp
      ensures rsp == old(rsp) + WORD && v == Get(mem, old(rsp))
    {
      v := if rsp in mem then mem[rsp] else 0;
      rsp := rsp + WORD;
    }

    /** The handler pushes the general registers, the last one lowest. */
    method PushRegisters()
      requires Complete(View())
      modifies this`rsp, this`mem
      ensures rsp == old(rsp) - WORD * 15 && SameOutside(old(mem), mem, rsp, old(rsp))
      ensures forall r: Reg :: Get(mem, old(rsp) - WORD * (17 - Slot(r))) == gpr[r]
    {
      ghost var base := rsp;
      for j := 0 to 15
        invariant rsp == base - WORD * j && SameOutside(old(mem), mem, rsp, base)
        invariant forall r: Reg :: Slot(r) > 16 - j ==> Get(mem, base - WORD * (17 - Slot(r))) == gpr[r]
      {
        Slots(j);
        Push(gpr[PUSHES[j]]);
      }
    }

    /** The handler pops the general registers. */
    method PopRegisters()
      modifies this`gpr, this`rsp
      ensures rsp == old(rsp) + WORD * 15
      ensures Complete(View()) && forall r: Reg :: gpr[r] == Get(mem, old(rsp) + WORD * (Slot(r) - 2))
    {
      ghost var base := rsp;
      gpr := map[];
      for j := 0 to 15
        invariant rsp == base + WORD * j
        invariant forall r: Reg :: Slot(r) < 2 + j ==> r in gpr && gpr[r] == Get(mem, base + WORD * (Slot(r) - 2))
      {
        Slots(j);
        var v := Pop();
        gpr := gpr[POPS[j] := v];
      }
    }

    /** What the processor pushes on an interrupt. */
    method EnterInterrupt()
      modifies this`rsp, this`mem
      ensures rsp == Align16(old(rsp)) - WORD * 5 && SameOutside(old(mem), mem, rsp, Align16(old(rsp)))
      ensures Get(mem, rsp) == rip && Get(mem, rsp + 8) == cs && Get(mem, rsp + 16) == rflags
      ensures Get(mem, rsp + 24) == old(rsp) && Get(mem, rsp + 32) == ss
    {
      hide Align16;
      var sp := rsp;
      rsp := Align16(rsp);
      Push(ss);
      Push(sp);
      Push(rflags);
      Push(cs);
      Push(rip);
    }

    /** What the processor and the handler push before the scheduler is called: a frame with the
        interrupted context at the new stack pointer. */
    method Save()
      requires Complete(View())
      modifies this`rsp, this`mem
      ensures rsp == Align16(old(rsp)) - WORD * FRAME_WORDS
      ensures FrameAt(mem, rsp) == old(View())
      ensures SameOutside(old(mem), mem, rsp, Align16(old(rsp)))
    {
      hide Slot, Align16, FrameAt;
      EnterInterrupt();
      ghost var base, m := rsp, mem;
      PushRegisters();
      ghost var low, m1 := rsp, mem;
      Push(0);
      Push(32);
      assert forall x :: x >= base ==> Get(m1, x) == Get(m, x);
      assert forall x :: x >= low ==> Get(mem, x) == Get(m1, x);
      forall r: Reg ensures Get(mem, rsp + WORD * Slot(r)) == gpr[r] {
        SlotRange(r);
        assert rsp + WORD * Slot(r) == base - WORD * (17 - Slot(r));
      }
      assert rsp + WORD * 17 == base;
      FrameIs(mem, rsp, old(View()));
    }

    /** What the handler pops after it has switched to the chosen frame, and what iretq pops. */
    method Restore(f: int)
      modifies this`gpr, this`rip, this`cs, this`rflags, this`rsp, this`ss
      ensures View() == FrameAt(mem, f)
    {
      hide Slot, FrameAt;
      rsp := f;
      var _ := Pop();
      var _ := Pop();
      PopRegisters();
      forall r: Reg ensures gpr[r] == Get(mem, f + WORD * Slot(r)) {
        assert f + 16 + WORD * (Slot(r) - 2) == f + WORD * Slot(r);
      }
      rip := Pop();
      cs := Pop();
      rflags := Pop();
      var sp := Pop();
      ss := Pop();
      rsp := sp;
      FrameIs(mem, f, View());
    }

    /** A C function called by the handler uses the stack from lo up to the stack pointer. */
    method Scribble(lo: int, scratch: Memory)
      modifies this`mem
      ensures SameOutside(old(mem), mem, lo, rsp)
    {
      mem := mem + map x | x in scratch && lo <= x < rsp :: scratch[x];
    }

    /** The handler up to the call of the scheduler: a frame with the interrupted context, and below it a slot
        for the result. lo is the low end of the stack, and the scratch memories are what timer_tick and
        the scheduler leave on it. */
    method EnterHandler(lo: int, scratch1: Memory, scratch2: Memory) returns (frame: int)
      requires Complete(View()) && lo <= FrameOf(View()) - WORD
      modifies this`rsp, this`mem
      ensures frame == FrameOf(old(View())) && rsp == frame - WORD && FrameAt(mem, frame) == old(View())
      ensures SameOutside(old(mem), mem, lo, Align16(old(rsp)))
    {
      hide FrameAt, Align16, SameOutside;
      Save();
      frame := rsp;
      ghost var m1 := mem;
      Scribble(lo, scratch1);
      ghost var m2 := mem;
      Push(0);
      ghost var m3 := mem;
      Scribble(lo, scratch2);
      Below(old(mem), m1, m2, lo, frame, frame + WORD * FRAME_WORDS);
      Stored(m2, frame - WORD, 0, lo, frame);
      Below(old(mem), m2, m3, lo, frame, frame + WORD * FRAME_WORDS);
      Wider(m3, mem, lo, frame - WORD, frame);
      Below(old(mem), m3, mem, lo, frame, frame + WORD * FRAME_WORDS);
      FrameKept(m1, m2, lo, frame, frame);
      FrameKept(m2, m3, lo, frame, frame);
      FrameKept(m3, mem, lo, frame, frame);
    }

    /** The handler after the call of the scheduler, which has stored the frame to resume in the slot. */
    method LeaveHandler(out: int)
      modifies this`gpr, this`rip, this`cs, this`rflags, this`rsp, this`ss, this`mem
      ensures mem == old(mem)[old(rsp) := out] && View() == FrameAt(mem, out)
    {
      hide FrameAt;
      mem := mem[rsp := out];
      var f := Pop();
      Restore(f);
    }

    /** The frame of a new task, just below the top of its stack. */
    method PrepareInitialStack(entry: int, top: int) returns (sp: int)
      modifies this`mem
      ensures sp == Align16(top) - WORD * FRAME_WORDS
      ensures FrameAt(mem, sp) == Initial(entry, top) && SameOutside(old(mem), mem, sp, Align16(top))
      ensures Get(mem, sp) == 32 && forall j :: 1 <= j <= 16 ==> Get(mem, sp + 8 * j) == 0
      ensures Get(mem, sp + 8 * 17) == entry && Get(mem, sp + 8 * 18) == 0x08 && Get(mem, sp + 8 * 19) == 0x202
      ensures Get(mem, sp + 8 * 20) == top && Get(mem, sp + 8 * 21) == 0x10
    {
      hide Slot, Align16, FrameAt, CLEARED;
      AllCleared();
      sp := Align16(top);
      sp := sp - WORD * FRAME_WORDS;
      mem := mem[sp := 32][sp + WORD := 0];
      for j := 2 to 17
        invariant SameOutside(old(mem), mem, sp, sp + WORD * j)
        invariant Get(mem, sp) == 32 && forall i :: 1 <= i < j ==> Get(mem, sp + WORD * i) == 0
      {
        mem := mem[sp + WORD * j := 0];
      }
      mem := mem[sp + WORD * 17 := entry][sp + WORD * 19 := 0x202][sp + WORD * 18 := 0x08];
      mem := mem[sp + WORD * 20 := top][sp + WORD * 21 := 0x10];
      forall r: Reg ensures Get(mem, sp + WORD * Slot(r)) == 0 { SlotRange(r); }
      FrameIs(mem, sp, Initial(entry, top));
    }
  }

  /** What the scheduler returns: the frame it was given, or that of another task. */
  datatype Choice = Same | Other(frame: int)

  /** Where the context of an interrupted task is saved. */
  function FrameOf(c: Cpu): int { Align16(c.rsp) - WORD * FRAME_WORDS }

  /** A timer interrupt in context c, on a stack from lo, that resumes in context c'. */
  ghost predicate Switched(m: Memory, c: Cpu, lo: int, next: Choice, m': Memory, c': Cpu) {
    && FrameAt(m', FrameOf(c)) == c && SameOutside(m, m', lo, Align16(c.rsp))
    && c' == if next.Other? then FrameAt(m', next.frame) else c
  }

  const CLEARED: map<Reg, int> := map r | r in PUSHES :: 0

  lemma AllCleared()
    ensures forall r: Reg :: r in CLEARED && CLEARED[r] == 0
    ensures forall r: Reg :: 2 <= Slot(r) <= 16
  {
    forall r: Reg ensures r in PUSHES {
      SlotRange(r);
      Slots(16 - Slot(r));
    }
  }

  /** The context in which a new task starts. */
  function Initial(entry: int, top: int): Cpu { Cpu(CLEARED, entry, 0x08, 0x202, top, 0x10) }

  // ---------------------------------------------------------------------
  // A system of tasks, each with its own stack
  // ---------------------------------------------------------------------

  datatype Stack = Stack(lo: int, hi: int)

  /** `frames` are the saved stack pointers; `saved` records, for the argument, the context in which
      each task was last interrupted or will start. */
  datatype System = System(mem: Memory, cpu: Cpu, current: int, stacks: map<int, Stack>,
                           frames: map<int, int>, saved: map<int, Cpu>)

  datatype Step =
    | Execute(cpu: Cpu, mem: Memory)
    | Tick(next: int, mem: Memory, cpu: Cpu)
    | Start(t: int, entry: int, stack: Stack, mem: Memory)
    | Remove(t: int)

  /** Room for a frame and the slot below it. */
  predicate Fits(s: Stack, c: Cpu) { s.lo <= FrameOf(c) - WORD && c.rsp <= s.hi }

  predicate Apart(a: Stack, b: Stack) { a.hi <= b.lo || b.hi <= a.lo }

  /** A task writes to its own stack and to memory that is no stack, and keeps room for a frame;
      an interrupt does what the handler does; a new task gets a stack of its own. */
  ghost predicate Possible(y: System, st: Step)
    requires y.current in y.stacks
  {
    match st
    case Execute(cpu, mem) =>
      && Complete(cpu) && Fits(y.stacks[y.current], cpu)
      && forall t, x :: t in y.stacks && t != y.current && y.stacks[t].lo <= x < y.stacks[t].hi ==>
           Get(mem, x) == Get(y.mem, x)
    case Tick(next, mem, cpu) =>
      && next in y.stacks && (next == y.current || next in y.frames)
      && Switched(y.mem, y.cpu, y.stacks[y.current].lo,
                  if next == y.current then Same else Other(y.frames[next]), mem, cpu)
    case Start(t, entry, stack, mem) =>
      && t !in y.stacks && stack.lo <= Align16(stack.hi) - WORD * (FRAME_WORDS + 1)
      && (forall u :: u in y.stacks ==> Apart(stack, y.stacks[u]))
      && FrameAt(mem, Align16(stack.hi) - WORD * FRAME_WORDS) == Initial(entry, stack.hi)
      && SameOutside(y.mem, mem, Align16(stack.hi) - WORD * FRAME_WORDS, Align16(stack.hi))
    case Remove(t) => t in y.stacks && t != y.current
  }

  function Next(y: System, st: Step): System {
    match st
    case Execute(cpu, mem) => y.(cpu := cpu, mem := mem)
    case Tick(next, mem, cpu) =>
      y.(mem := mem, cpu := cpu, current := next, frames := y.frames[y.current := FrameOf(y.cpu)],
         saved := y.saved[y.current := y.cpu])
    case Start(t, entry, stack, mem) =>
      y.(mem := mem, stacks := y.stacks[t := stack], frames := y.frames[t := Align16(stack.hi) - WORD * FRAME_WORDS],
         saved := y.saved[t := Initial(entry, stack.hi)])
    case Remove(t) => y.(stacks := y.stacks - {t})
  }

  /** A sleeping task has its context in a frame on its own stack. */
  ghost predicate Sleeps(y: System, t: int)
    requires t in y.stacks
  {
    && t in y.frames && t in y.saved
    && y.stacks[t].lo <= y.frames[t] && y.frames[t] + WORD * FRAME_WORDS <= y.stacks[t].hi
    && FrameAt(y.mem, y.frames[t]) == y.saved[t] && Complete(y.saved[t]) && Fits(y.stacks[t], y.saved[t])
  }

  ghost predicate Sound(y: System) {
    && y.current in y.stacks && Complete(y.cpu) && Fits(y.stacks[y.current], y.cpu)
    && (forall t, u :: t in y.stacks && u in y.stacks && t != u ==> Apart(y.stacks[t], y.stacks[u]))
    && (forall t :: t in y.stacks && t != y.current ==> Sleeps(y, t))
  }

  /** The multiple of 16 at or next below a. */
  lemma AlignBelow(a: int)
    ensures Align16(a) % 16 == 0 && a - 16 < Align16(a) <= a
  {}

  lemma ExecuteSound(y: System, st: Step)
    requires Sound(y) && st.Execute? && Possible(y, st)
    ensures Sound(Next(y, st))
  {
    hide FrameAt, Get, Align16;
    var z := Next(y, st);
    forall t | t in z.stacks && t != z.current ensures Sleeps(z, t) {
      assert Sleeps(y, t);
      FrameSame(y.mem, z.mem, y.frames[t]);
    }
  }

  lemma FrameSame(m: Memory, m': Memory, f: int)
    requires forall x :: f <= x < f + WORD * FRAME_WORDS ==> Get(m', x) == Get(m, x)
    ensures FrameAt(m', f) == FrameAt(m, f)
  {
    assert forall r: Reg :: 2 <= Slot(r) <= 16;
  }

  /** A task that is resumed gets back exactly the context it had, and the one that is preempted
      leaves its own. */
  lemma TickSound(y: System, st: Step)
    requires Sound(y) && st.Tick? && Possible(y, st)
    ensures Sound(Next(y, st))
    ensures st.next != y.current ==> Next(y, st).cpu == y.saved[st.next]
    ensures st.next == y.current ==> Next(y, st).cpu == y.cpu
    ensures Next(y, st).saved[y.current] == y.cpu
  {
    hide FrameAt, Get, Align16, SameOutside;
    var z, s := Next(y, st), y.stacks[y.current];
    AlignBelow(y.cpu.rsp);
    forall t | t in y.stacks && t != y.current ensures Sleeps(z, t) {
      assert Sleeps(y, t) && Apart(y.stacks[t], s);
      FrameKept(y.mem, z.mem, s.lo, Align16(y.cpu.rsp), y.frames[t]);
    }
  }

  lemma StartSound(y: System, st: Step)
    requires Sound(y) && st.Start? && Possible(y, st)
    ensures Sound(Next(y, st)) && Next(y, st).saved[st.t] == Initial(st.entry, st.stack.hi)
  {
    hide FrameAt, Get, Align16, SameOutside;
    var z := Next(y, st);
    var f := Align16(st.stack.hi) - WORD * FRAME_WORDS;
    AllCleared();
    AlignBelow(st.stack.hi);
    forall t | t in y.stacks && t != y.current ensures Sleeps(z, t) {
      assert Sleeps(y, t);
      FrameKept(y.mem, z.mem, f, Align16(st.stack.hi), y.frames[t]);
    }
  }

  /** Every step keeps every sleeping context where it is. */
  lemma StepSound(y: System, st: Step)
    requires Sound(y) && Possible(y, st)
    ensures Sound(Next(y, st))
  {
    hide Sound;
    match st
    case Execute(_, _) => ExecuteSound(y, st);
    case Tick(_, _, _) => TickSound(y, st);
    case Start(_, _, _, _) => StartSound(y, st);
    case Remove(t) => RemoveSound(y, t);
  }

  lemma RemoveSound(y: System, t: int)
    requires Sound(y) && t in y.stacks && t != y.current
    ensures Sound(Next(y, Remove(t)))
  {
    hide FrameAt, FrameOf;
    var z := Next(y, Remove(t));
    assert forall u :: u in z.stacks && u != z.current && Sleeps(y, u) ==> Sleeps(z, u);
  }

  /** A run in which task t, once asleep, is neither chosen nor removed nor started anew. */
  ghost predicate Passes(y: System, steps: seq<Step>, t: int)
    requires Sound(y)
    decreases |steps|
  {
    && t in y.stacks && t != y.current
    && (steps == [] || (
      && Possible(y, steps[0]) && !(steps[0].Remove? && steps[0].t == t) && !(steps[0].Tick? && steps[0].next == t)
      && (StepSound(y, steps[0]); Passes(Next(y, steps[0]), steps[1..], t))))
  }

  function End(y: System, steps: seq<Step>): System
    decreases |steps|
  {
    if steps == [] then y else End(Next(y, steps[0]), steps[1..])
  }

  lemma {:induction false} SleepsOn(y: System, steps: seq<Step>, t: int)
    requires Sound(y) && Passes(y, steps, t)
    ensures var z := End(y, steps);
      Sound(z) && t in z.stacks && t != z.current && t in z.saved && z.saved[t] == y.saved[t]
    decreases |steps|
  {
    hide FrameAt, FrameOf, Possible;
    assert Sleeps(y, t);
    if steps != [] {
      StepSound(y, steps[0]);
      SavedKept(y, steps[0], t);
      SleepsOn(Next(y, steps[0]), steps[1..], t);
    }
  }

  lemma SavedKept(y: System, st: Step, t: int)
    requires Sound(y) && Possible(y, st) && t in y.stacks && t != y.current
    ensures t in y.saved && t in Next(y, st).saved && Next(y, st).saved[t] == y.saved[t]
  {
    hide FrameAt, FrameOf, Switched;
    assert Sleeps(y, t);
  }

  /** Task y.current is interrupted by `away`, passes through `steps` and is chosen by `back`. */
  ghost predicate AwayAndBack(y: System, away: Step, steps: seq<Step>, back: Step)
    requires Sound(y)
  {
    && away.Tick? && away.next != y.current && Possible(y, away)
    && (StepSound(y, away); Passes(Next(y, away), steps, y.current))
    && var z := End(Next(y, away), steps);
       z.current in z.stacks && back.Tick? && back.next == y.current && Possible(z, back)
  }

  /** Context transparency: a task that is interrupted, sleeps through any run of other tasks,
      interrupts, creations and removals, and is then chosen, continues in exactly the context in
      which it was interrupted. */
  lemma ResumesWhereLeft(y: System, away: Step, steps: seq<Step>, back: Step)
    requires Sound(y)
    ensures AwayAndBack(y, away, steps, back) ==> Next(End(Next(y, away), steps), back).cpu == y.cpu
  {
    hide FrameAt, FrameOf, Possible, Passes;
    if AwayAndBack(y, away, steps, back) {
      TickSound(y, away);
      SleepsOn(Next(y, away), steps, y.current);
      TickSound(End(Next(y, away), steps), back);
    }
  }

  /** A task is created by `start`, passes through `steps` and is chosen by `back`. */
  ghost predicate StartedAndChosen(y: System, start: Step, steps: seq<Step>, back: Step)
    requires Sound(y)
  {
    && start.Start? && Possible(y, start)
    && (StepSound(y, start); Passes(Next(y, start), steps, start.t))
    && var z := End(Next(y, start), steps);
       z.current in z.stacks && back.Tick? && back.next == start.t && Possible(z, back)
  }

  /** A new task that sleeps through any run starts at its entry point, with cleared registers,
      interrupts enabled and the stack pointer at the top of its stack. */
  lemma FirstResume(y: System, start: Step, steps: seq<Step>, back: Step)
    requires Sound(y)
    ensures StartedAndChosen(y, start, steps, back) ==>
      var c := Next(End(Next(y, start), steps), back).cpu;
      && c.rip == start.entry && c.rsp == start.stack.hi && c.rflags == 0x202 && c.cs == 0x08 && c.ss == 0x10
      && forall r: Reg :: r in c.gpr && c.gpr[r] == 0
  {
    hide FrameAt, FrameOf, Possible, Passes, CLEARED;
    AllCleared();
    if StartedAndChosen(y, start, steps, back) {
      StartSound(y, start);
      SleepsOn(Next(y, start), steps, start.t);
      TickSound(End(Next(y, start), steps), back);
    }
  }

  // ---------------------------------------------------------------------
  // Interrupts and creations are never stuck
  // ---------------------------------------------------------------------

  function FrameWord(c: Cpu, j: int): int
    requires Complete(c)
  {
    if 2 <= j <= 16 then c.gpr[PUSHES[16 - j]]
    else match j
      case 17 => c.rip case 18 => c.cs case 19 => c.rflags case 20 => c.rsp case 21 => c.ss
      case _ => 0
  }

  /** Memory with a context written as a frame. */
  function WithFrame(m: Memory, f: int, c: Cpu): Memory
    requires Complete(c)
  {
    m + map j | 0 <= j < FRAME_WORDS :: f + WORD * j := FrameWord(c, j)
  }

  lemma WithFrameHolds(m: Memory, f: int, c: Cpu)
    requires Complete(c)
    ensures FrameAt(WithFrame(m, f, c), f) == c
    ensures SameOutside(m, WithFrame(m, f, c), f, f + WORD * FRAME_WORDS)
  {
    hide FrameAt, Slot;
    var n := WithFrame(m, f, c);
    forall j | 0 <= j < FRAME_WORDS ensures Get(n, f + WORD * j) == FrameWord(c, j) {}
    forall r: Reg ensures c.gpr[r] == Get(n, f + WORD * Slot(r)) {
      SlotRange(r);
      Slots(16 - Slot(r));
      assert FrameWord(c, Slot(r)) == c.gpr[r];
    }
    assert FrameWord(c, 17) == c.rip && FrameWord(c, 18) == c.cs && FrameWord(c, 19) == c.rflags;
    assert FrameWord(c, 20) == c.rsp && FrameWord(c, 21) == c.ss;
    FrameIs(n, f, c);
  }

  /** In every sound system a tick can resume any task. */
  lemma TickPossible(y: System, next: int) returns (st: Step)
    requires Sound(y) && next in y.stacks
    ensures st.Tick? && st.next == next && Possible(y, st)
  {
    hide FrameAt, Align16, WithFrame;
    var f := FrameOf(y.cpu);
    var mem := WithFrame(y.mem, f, y.cpu);
    WithFrameHolds(y.mem, f, y.cpu);
    if next == y.current {
      st := Tick(next, mem, y.cpu);
    } else {
      assert Sleeps(y, next);
      st := Tick(next, mem, FrameAt(mem, y.frames[next]));
    }
  }

  /** In every sound system a task can be created on any unused stack that holds a frame. */
  lemma StartPossible(y: System, t: int, entry: int, stack: Stack) returns (st: Step)
    requires Sound(y) && t !in y.stacks && stack.lo <= Align16(stack.hi) - WORD * (FRAME_WORDS + 1)
    requires forall u :: u in y.stacks ==> Apart(stack, y.stacks[u])
    ensures st.Start? && st.t == t && st.entry == entry && st.stack == stack && Possible(y, st)
  {
    hide FrameAt, Align16, WithFrame;
    AllCleared();
    var f := Align16(stack.hi) - WORD * FRAME_WORDS;
    WithFrameHolds(y.mem, f, Initial(entry, stack.hi));
    st := Start(t, entry, stack, WithFrame(y.mem, f, Initial(entry, stack.hi)));
  }
}
