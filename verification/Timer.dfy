/** The timer interrupt with its scheduler: the handler on the stack machine calls the scheduler on its
    linked lists, and together they make the steps of a system of tasks with their stacks. */
module Timer {
  import opened Basics
  import C = Context
  import S = Scheduling
  import opened Scheduler

  ghost function Pids(live: set<Task>): set<int> { set t | t in live :: t.pid }

  /** The system that a machine and a scheduler make up: the stacks are those of the live tasks, and the saved
      stack pointers are theirs, except for the task that runs. The initial task goes on running on the stack of
      the boot code, whatever stack it records for system calls. */
  ghost predicate Tied(m: C.Machine, s: Scheduler, y: C.System)
    reads m, s, s.live
  {
    && y.mem == m.mem && y.cpu == m.View() && y.current == s.Interrupted().pid
    && (forall p :: p in y.stacks <==> p in Pids(s.live))
    && (forall t :: t in s.live ==> t.pid in y.stacks && (t != s.init ==> y.stacks[t.pid].hi == t.stackTop))
    && (forall t :: t in s.live && t != s.Interrupted() ==> t.pid in y.frames && y.frames[t.pid] == t.regs)
  }

  /** The boot code runs as the initial task on its own stack: a sound system. */
  lemma BootSound(m: C.Memory, cpu: C.Cpu, stack: C.Stack)
    requires C.Complete(cpu) && C.Fits(stack, cpu)
    ensures C.Sound(C.System(m, cpu, 0, map[0 := stack], map[], map[]))
  {}

  method Boot(m: C.Machine, stack: C.Stack, callStack: int) returns (s: Scheduler, ghost y: C.System)
    requires C.Complete(m.View()) && C.Fits(stack, m.View())
    ensures s.Valid() && Tied(m, s, y) && C.Sound(y) && s.View() == Booted(s.init) && y.stacks == map[0 := stack]
    ensures fresh(s) && fresh(s.live) && fresh(s.interrupts) && s.init.stackTop == callStack
  {
    s := new Scheduler(callStack);
    y := C.System(m.mem, m.View(), 0, map[0 := stack], map[], map[]);
    BootSound(m.mem, m.View(), stack);
    assert Pids(s.live) == {0};
  }

  /** The handler, from the interrupt to iretq. */
  method Handle(m: C.Machine, s: Scheduler, lo: int, scratch1: C.Memory, scratch2: C.Memory, ghost y: C.System)
    requires s.Valid() && Tied(m, s, y) && C.Sound(y) && lo == y.stacks[y.current].lo
    modifies m, s`current, s`kstackTop, s.live`state, s.live`regs
    ensures s.Valid() && s.View() == S.Tick(old(s.View()))
    ensures s.current != null && s.current in s.live && s.kstackTop == s.current.stackTop
    ensures forall t :: t in s.live ==>
      t.regs == (if t == old(s.Interrupted()) then C.FrameOf(y.cpu) else old(t.regs))
    ensures C.Possible(y, C.Tick(s.current.pid, m.mem, m.View()))
  {
    hide Tied, C.FrameAt, C.Align16, C.SameOutside, S.Inv, C.Sleeps, C.Sound, s.Shape, s.View, C.FrameOf, Pids,
      C.Possible;
    SoundFacts(y);
    TiedFacts(m, s, y);
    var frame := m.EnterHandler(lo, scratch1, scratch2);
    ghost var m1 := m.mem;
    var out := s.ScheduleFromIsr(frame);
    RunnerStays(s);
    m.LeaveHandler(out);
    Resumed(y, m1, m.mem, frame, out, s.current.pid, m.View());
  }

  /** A timer interrupt is a tick of the scheduler, and the step of the system that resumes the task that the
      scheduler has chosen. */
  method Isr32(m: C.Machine, s: Scheduler, lo: int, scratch1: C.Memory, scratch2: C.Memory, ghost y: C.System)
    returns (ghost y': C.System)
    requires s.Valid() && Tied(m, s, y) && C.Sound(y) && lo == y.stacks[y.current].lo
    modifies m, s`current, s`kstackTop, s.live`state, s.live`regs
    ensures s.Valid() && s.View() == S.Tick(old(s.View())) && s.current != null && s.kstackTop == s.current.stackTop
    ensures var st := C.Tick(s.current.pid, m.mem, m.View());
      C.Possible(y, st) && y' == C.Next(y, st) && C.Sound(y') && Tied(m, s, y')
  {
    hide S.Inv, C.Sound, s.Shape, s.View, C.FrameOf, Pids, C.Possible;
    SoundFacts(y);
    TiedFacts(m, s, y);
    Handle(m, s, lo, scratch1, scratch2, y);
    ghost var st := C.Tick(s.current.pid, m.mem, m.View());
    C.TickSound(y, st);
    y' := C.Next(y, st);
  }

  /** Storing the result in the slot leaves the frame, and the resumed context is the chosen one. */
  lemma Resumed(y: C.System, m1: C.Memory, m: C.Memory, frame: int, out: int, next: int, cpu: C.Cpu)
    requires C.Sound(y) && frame == C.FrameOf(y.cpu) && C.FrameAt(m1, frame) == y.cpu
    requires C.SameOutside(y.mem, m1, y.stacks[y.current].lo, C.Align16(y.cpu.rsp))
    requires m == m1[frame - C.WORD := out] && cpu == C.FrameAt(m, out)
    requires next in y.stacks && out == (if next == y.current then frame else C.Get(y.frames, next))
    requires next != y.current ==> next in y.frames
    ensures C.Possible(y, C.Tick(next, m, cpu))
  {
    hide C.FrameAt, C.Align16, C.SameOutside, C.Sleeps, C.FrameOf;
    var lo := y.stacks[y.current].lo;
    SoundFacts(y);
    C.Stored(m1, frame - C.WORD, out, lo, frame);
    C.Below(y.mem, m1, m, lo, frame, C.Align16(y.cpu.rsp));
    C.FrameKept(m1, m, lo, frame, frame);
  }

  lemma SoundFacts(y: C.System)
    requires C.Sound(y)
    ensures y.current in y.stacks && C.Complete(y.cpu) && y.stacks[y.current].lo <= C.FrameOf(y.cpu) - C.WORD
    ensures C.FrameOf(y.cpu) <= C.Align16(y.cpu.rsp) == C.FrameOf(y.cpu) + C.WORD * C.FRAME_WORDS
  {}

  lemma TiedFacts(m: C.Machine, s: Scheduler, y: C.System)
    requires s.Shape() && Tied(m, s, y)
    ensures s.Interrupted() in s.live && y.current == s.Interrupted().pid && y.mem == m.mem && y.cpu == m.View()
    ensures forall t :: t in s.live ==> t.pid in y.stacks
    ensures forall t :: t in s.live && t != s.Interrupted() ==> t.pid in y.frames && y.frames[t.pid] == t.regs
    ensures forall t, u :: t in s.live && u in s.live && t.pid == u.pid ==> t == u
  {}

  lemma PidsPlus(live: set<Task>, t: Task)
    ensures Pids(live + {t}) == Pids(live) + {t.pid}
  {}

  lemma PidsFewer(all: set<Task>, live: set<Task>)
    requires live <= all
    ensures Pids(live) <= Pids(all) && forall t :: t in live ==> t.pid in Pids(live)
  {}

  lemma NewPid(s: Scheduler)
    requires s.Shape()
    ensures s.nextPid !in Pids(s.live)
  {}

  lemma RunnerStays(s: Scheduler)
    requires s.Shape()
    ensures s.Interrupted() in s.live && s.Interrupted().pid in Pids(s.live)
  {}

  /** Creating a task: its first frame on a stack of its own, and a new task at the tail of the ring. */
  method CreateTask(m: C.Machine, s: Scheduler, entry: int, stack: C.Stack, userMem: int, memory: bool,
                    ghost y: C.System)
    returns (t: Task?, ghost y': C.System)
    requires s.Valid() && Tied(m, s, y) && C.Sound(y)
    requires stack.lo <= C.Align16(stack.hi) - C.WORD * (C.FRAME_WORDS + 1)
    requires forall u :: u in y.stacks ==> C.Apart(stack, y.stacks[u])
    modifies m`mem, s`taskRing, s`nextPid, s`ring, s`live, s.live`next
    ensures s.Valid() && C.Sound(y') && Tied(m, s, y')
    ensures !memory ==> t == null && y' == y && s.View() == old(s.View())
    ensures memory ==> t != null && t.userMem == userMem && s.View() == S.Create(old(s.View()), t)
    ensures memory ==> var st := C.Start(t.pid, entry, stack, m.mem); C.Possible(y, st) && y' == C.Next(y, st)
  {
    hide C.FrameAt, C.Align16, C.SameOutside, S.Inv, C.Sleeps, C.Initial, s.Shape, s.View, S.Create, C.Sound, Pids;
    y' := y;
    if !memory {
      t := s.TaskCreate(stack.hi, 0, userMem, false);
      return;
    }
    ghost var all := s.live;
    TiedFacts(m, s, y);
    NewPid(s);
    var sp := m.PrepareInitialStack(entry, stack.hi);
    t := s.TaskCreate(stack.hi, sp, userMem, true);
    ghost var st := C.Start(t.pid, entry, stack, m.mem);
    PidsPlus(all, t);
    SoundFacts(y);
    assert C.Possible(y, st);
    C.StartSound(y, st);
    y' := C.Next(y, st);
  }

  /** A run of removals from a sound system, which all tasks that stay sleep through. */
  ghost predicate Removed(y: C.System, steps: seq<C.Step>, y': C.System)
    requires C.Sound(y)
  {
    && C.Sound(y') && C.End(y, steps) == y' && y' == y.(stacks := y'.stacks)
    && (forall p :: p in y'.stacks ==> p in y.stacks && y'.stacks[p] == y.stacks[p])
    && (forall k :: 0 <= k < |steps| ==> steps[k].Remove? && steps[k].t in y.stacks && steps[k].t !in y'.stacks)
    && (forall t :: t in y'.stacks && t != y.current ==> C.Passes(y, steps, t))
  }

  /** Taking away the stacks of all tasks with numbers below n that are not to be kept. */
  lemma {:induction false} Removes(y: C.System, keep: set<int>, n: nat) returns (steps: seq<C.Step>)
    requires C.Sound(y) && y.current in keep
    ensures Removed(y, steps, C.End(y, steps))
    ensures forall p :: p in C.End(y, steps).stacks <==> p in y.stacks && !(0 <= p < n && p !in keep)
    decreases n
  {
    hide C.FrameAt, C.FrameOf, C.Sleeps, C.Sound;
    steps := [];
    if n > 0 {
      var p := n - 1;
      if p in y.stacks && p !in keep {
        var z := C.Next(y, C.Remove(p));
        C.RemoveSound(y, p);
        SoundFacts(y);
        var rest := Removes(z, keep, n - 1);
        steps := [C.Remove(p)] + rest;
        assert steps[1..] == rest;
      } else {
        steps := Removes(y, keep, n - 1);
      }
    } else {
      SoundFacts(y);
    }
  }

  lemma RemovedFacts(y: C.System, steps: seq<C.Step>, y': C.System)
    requires C.Sound(y) && Removed(y, steps, y')
    ensures y' == y.(stacks := y'.stacks) && forall p :: p in y'.stacks ==> p in y.stacks && y'.stacks[p] == y.stacks[p]
  {}

  lemma PidsBelow(s: Scheduler)
    requires s.Shape()
    ensures forall p :: p in Pids(s.live) ==> 0 <= p < s.nextPid
  {}

  /** Reaping: the stacks of the zombies are given back. */
  method Reap(m: C.Machine, s: Scheduler, ghost y: C.System) returns (ghost y': C.System, ghost steps: seq<C.Step>)
    requires s.Valid() && S.Active(s.View()) && Tied(m, s, y) && C.Sound(y)
    modifies s`taskRing, s`ring, s`zombieList, s`zs, s`live, s.live`next, s.interrupts
    ensures s.Valid() && s.View() == S.ReapAll(old(s.View())) && Tied(m, s, y') && Removed(y, steps, y')
  {
    hide C.FrameAt, C.Align16, S.Inv, S.ReapAll, C.Sleeps, C.Sound, s.Shape, Pids, Removed, C.Passes;
    ghost var all := s.live;
    RunnerStays(s);
    PidsBelow(s);
    ghost var below: nat := s.nextPid;
    ghost var ops := S.ReapAllIsRun(s.View());
    s.ReapZombies();
    PidsFewer(all, s.live);
    RunnerStays(s);
    steps := Removes(y, Pids(s.live), below);
    y' := C.End(y, steps);
    RemovedFacts(y, steps, y');
  }

  /** Leaving: the current task keeps its stack until the next tick has taken it off. */
  method Exit(m: C.Machine, s: Scheduler, ghost y: C.System) returns (ghost y': C.System, ghost steps: seq<C.Step>)
    requires s.Valid() && S.Active(s.View()) && Tied(m, s, y) && C.Sound(y)
    modifies s`taskRing, s`ring, s`zombieList, s`zs, s`live, s.live`state, s.live`next, s.live`znext, s.interrupts
    ensures s.Valid() && s.View() == S.Exit(old(s.View())) && Tied(m, s, y') && Removed(y, steps, y')
  {
    hide C.FrameAt, C.Align16, S.Inv, S.Exit, C.Sleeps, C.Sound, s.Shape, Pids, Removed, C.Passes;
    ghost var all, was := s.live, s.Interrupted();
    RunnerStays(s);
    PidsBelow(s);
    ghost var below: nat := s.nextPid;
    s.TaskExit();
    PidsFewer(all, s.live);
    RunnerStays(s);
    steps := Removes(y, Pids(s.live), below);
    y' := C.End(y, steps);
    RemovedFacts(y, steps, y');
  }

  /** Stopping: another task gives back its stack at once, the current one when it is reaped. */
  method Stop(m: C.Machine, s: Scheduler, pid: int, ghost y: C.System)
    returns (r: int, ghost y': C.System, ghost steps: seq<C.Step>)
    requires s.Valid() && S.Active(s.View()) && Tied(m, s, y) && C.Sound(y)
    modifies s`taskRing, s`ring, s`zombieList, s`zs, s`live, s.live`state, s.live`next, s.live`znext, s.interrupts
    ensures s.Valid() && Tied(m, s, y') && Removed(y, steps, y')
    ensures r == 0 ==>
      exists t :: t in S.ReapAll(old(s.View())).ring && t.pid == pid && s.View() == S.Stop(old(s.View()), t)
    ensures r != 0 ==> s.View() == if pid == 0 then old(s.View()) else S.ReapAll(old(s.View()))
  {
    hide C.FrameAt, C.Align16, S.Inv, S.Stop, S.ReapAll, C.Sleeps, C.Sound, s.Shape, Pids, Removed, C.Passes;
    ghost var all, was := s.live, s.Interrupted();
    RunnerStays(s);
    PidsBelow(s);
    ghost var below: nat := s.nextPid;
    ghost var t: Task?;
    r, t := s.TaskStop(pid);
    PidsFewer(all, s.live);
    RunnerStays(s);
    steps := Removes(y, Pids(s.live), below);
    y' := C.End(y, steps);
    RemovedFacts(y, steps, y');
  }
}
