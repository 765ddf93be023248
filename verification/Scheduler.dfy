/** The scheduler with its linked lists: tasks are objects, the ring is closed through `next`
    with `taskRing` at its tail, and zombies are chained through `znext`. */
module Scheduler {
  import opened Basics
  import opened Scheduling
  import S = Scheduling

  class Task {
    const pid: int
    const stackTop: int
    const userMem: int
    var state: TaskState
    var regs: int
    var next: Task?
    var znext: Task?

    constructor (pid: int, stackTop: int, regs: int, userMem: int)
      ensures this.pid == pid && this.stackTop == stackTop && this.regs == regs && this.userMem == userMem
      ensures state == Ready && next == null && znext == null
    {
      this.pid, this.stackTop, this.regs, this.userMem := pid, stackTop, regs, userMem;
      state, next, znext := Ready, null, null;
    }
  }

  /** The next-pointers close the sequence to a ring. */
  ghost predicate Linked(ring: seq<Task>)
    reads ring`next
  {
    |ring| > 0 && forall k {:trigger Succ(ring, k)} :: 0 <= k < |ring| ==> ring[k].next == Succ(ring, k)
  }

  ghost function Succ(ring: seq<Task>, k: int): Task
    requires 0 <= k < |ring|
  {
    ring[Wrap(k + 1, |ring|)]
  }

  /** The znext-pointers chain the sequence from `first`. */
  ghost predicate Chained(first: Task?, zs: seq<Task>)
    reads zs`znext
  {
    && first == (if |zs| == 0 then null else zs[0])
    && forall k {:trigger ChainNext(zs, k)} :: 0 <= k < |zs| ==> zs[k].znext == ChainNext(zs, k)
  }

  ghost function ChainNext(zs: seq<Task>, k: int): Task? {
    if 0 <= k && k + 1 < |zs| then zs[k + 1] else null
  }

  lemma BootInv(init: Task)
    ensures Inv(Booted(init))
  {}

  /** The interrupt flag of the processor. */
  class InterruptFlag {
    var on: bool

    constructor ()
      ensures !on
    {
      on := false;
    }
  }

  function Booted(init: Task): Sched<Task> {
    var state: map<Task, TaskState> := map[init := Running];
    Sched(init, [init], None, init, state, [])
  }

  class Scheduler {
    const init: Task
    const interrupts: InterruptFlag
    var taskRing: Task
    var current: Task?
    var zombieList: Task?
    var nextPid: int
    var kstackTop: int
    ghost var ring: seq<Task>
    ghost var zs: seq<Task>
    ghost var live: set<Task>

    ghost predicate RingOk()
      reads this, ring`next
    {
      Linked(ring) && ring[|ring| - 1] == taskRing
    }

    ghost predicate PidsOk()
      reads this`live, this`nextPid
    {
      && init.pid == 0 && (forall t :: t in live ==> 0 <= t.pid < nextPid)
      && (forall t, u :: t in live && u in live && t.pid == u.pid ==> t == u)
    }

    ghost predicate InLive()
      reads this
    {
      && init in live && (forall t :: t in ring ==> t in live) && (forall t :: t in zs ==> t in live)
      && (current != null ==> current in live)
    }

    ghost predicate Shape()
      reads this, live
    {
      && InLive() && RingOk() && PidsOk() && Chained(zombieList, zs)
      && (current != null && current !in ring ==> current.next != null)
    }

    ghost function View(): Sched<Task>
      requires Shape()
      reads this, live
    {
      var c: Option<Task> := if current == null then None else Some(current);
      var after: Task := if current != null && current !in ring then current.next else init;
      var state: map<Task, TaskState> := map t | t in live :: t.state;
      Sched(init, ring, c, after, state, zs)
    }

    ghost predicate Valid()
      reads this, live
    {
      Shape() && Inv(View())
    }

    constructor (stackTop: int)
      ensures Valid() && fresh(live) && View() == Booted(init) && live == {init} && fresh(interrupts)
      ensures init.stackTop == stackTop
    {
      hide Inv;
      interrupts := new InterruptFlag();
      var t := new Task(0, stackTop, 0, 0);
      init := t;
      taskRing, current, zombieList, nextPid, kstackTop := t, null, null, 1, 0;
      ring, zs, live := [t], [], {t};
      new;
      init.state := Running;
      init.next := init;
      BootInv(init);
      assert View() == Booted(init);
    }

    /** Following next-pointers visits the ring in the order of the search. */
    lemma OrderLinked()
      requires Valid()
      ensures Linked(Order(View())) && Distinct(Order(View()))
      ensures (if current != null then current.next else taskRing.next) == Order(View())[0]
      ensures forall t :: t in Order(View()) ==> t in ring
    {
      RingFacts(View());
      var k := Start(View());
      RotateLinked(ring, k);
      RotateElements(ring, k);
      RotateDistinct(ring, k);
      var j := if current == null then |ring| - 1 else Index(ring, current);
      if j < |ring| { assert ring[j].next == Succ(ring, j); }
    }

    /** The first runnable task behind the current one. */
    method PickNext() returns (t: Task?)
      requires Valid()
      ensures t == null ==> S.PickNext(View()).None?
      ensures t != null ==> S.PickNext(View()) == Some(t)
    {
      hide Inv, Order, S.PickNext, Runnable;
      OrderLinked();
      var start := if current != null then current.next else taskRing.next;
      ghost var s, o := View(), Order(View());
      var it := start;
      ghost var i := 0;
      while true
        invariant 0 <= i < |o| && it == o[i]
        invariant forall j :: 0 <= j < i ==> !Runnable(s, o[j])
        decreases |o| - i
      {
        RunnableIs(s, it);
        if it.state == Ready || it.state == Running {
          PickIs(s, i);
          return it;
        }
        assert it.next == Succ(o, i);
        it := it.next;
        i := i + 1;
        if it == start { break; }
      }
      PickIs(s, i);
      t := null;
    }

    method SetState(t: Task, st: TaskState)
      requires Shape() && t in live
      modifies t`state
      ensures Shape() && View() == old(View()).(state := old(View()).state[t := st])
    {
      t.state := st;
      assert Linked(ring) && Chained(zombieList, zs);
    }

    method SetCurrent(t: Task)
      requires Shape() && t in ring
      modifies this`current, this`kstackTop
      ensures Shape() && View() == old(View()).(current := Some(t), after := init) && kstackTop == t.stackTop
      ensures current == t
    {
      current := t;
      kstackTop := t.stackTop;
    }

    method SaveRegs(t: Task, regs: int)
      requires Shape() && t in live
      modifies t`regs
      ensures Shape() && View() == old(View()) && t.regs == regs
    {
      t.regs := regs;
      assert Linked(ring) && Chained(zombieList, zs);
    }

    /** The task that a tick interrupts. */
    ghost function Interrupted(): Task
      reads this
    {
      if current == null then init else current
    }

    /** The first part of a tick: the interrupted task keeps its frame and stops running. */
    method PreemptCurrent(regs: int)
      requires Valid()
      modifies this`current, this`kstackTop, live`state, live`regs
      ensures Valid() && View() == Preempt(old(View())) && current == old(Interrupted())
      ensures forall t :: t in live ==> t.regs == (if t == old(Interrupted()) then regs else old(t.regs))
    {
      hide Inv, Shape;
      PreemptInv(View());
      ShapeFacts();
      if current == null {
        SaveRegs(init, regs);
        SetState(init, Running);
        SetCurrent(init);
      } else {
        SaveRegs(current, regs);
        if current.state == Running { SetState(current, Ready); }
      }
    }

    /** A timer tick: the current task is preempted, with its frame recorded, and the next one
        made current, with its frame returned. */
    method ScheduleFromIsr(regs: int) returns (out: int)
      requires Valid()
      modifies this`current, this`kstackTop, live`state, live`regs
      ensures Valid() && View() == Tick(old(View()))
      ensures current != null && kstackTop == current.stackTop && out == current.regs
      ensures forall t :: t in live ==> t.regs == (if t == old(Interrupted()) then regs else old(t.regs))
    {
      hide Inv, S.PickNext, Shape, Preempt;
      TickFacts(View());
      ShapeFacts();
      PreemptCurrent(regs);
      var next := PickNext();
      if next == null { return regs; }
      if next == current {
        out := current.regs;
        SetState(current, Running);
        SetCurrent(current);
        return;
      }
      SetCurrent(next);
      SetState(current, Running);
      out := current.regs;
    }

    lemma ShapeFacts()
      requires Valid()
      ensures init in live && init in ring && (current != null ==> current in live)
      ensures taskRing in live && forall t :: t in ring ==> t in live
      ensures forall t :: t in View().state <==> t in live
    {}

    /** A new task with the next process number. */
    method Allocate(stackTop: int, regs: int, userMem: int) returns (t: Task)
      requires Shape()
      modifies this`nextPid, this`live
      ensures Shape() && fresh(t) && live == old(live) + {t}
      ensures t.pid == old(nextPid) && nextPid == old(nextPid) + 1
      ensures t.stackTop == stackTop && t.regs == regs && t.userMem == userMem
      ensures View() == old(View()).(state := old(View()).state[t := Ready])
    {
      t := new Task(nextPid, stackTop, regs, userMem);
      nextPid := nextPid + 1;
      live := live + {t};
      assert PidsOk();
      assert Linked(ring) && Chained(zombieList, zs);
    }

    /** The task becomes the tail of the ring. */
    method InsertTail(t: Task)
      requires Shape() && t in live && t !in ring && current != t && Distinct(ring)
      modifies this`taskRing, this`ring, t`next, taskRing`next
      ensures Shape() && ring == old(ring) + [t]
    {
      hide Distinct;
      LastOnce(ring);
      assert taskRing.next == Succ(ring, |ring| - 1);
      t.next := taskRing.next;
      taskRing.next := t;
      taskRing := t;
      ring := ring + [t];
      forall k | 0 <= k < |ring| ensures ring[k].next == Succ(ring, k) {
        if k < |ring| - 1 {
          ghost var x := old(ring)[k];
          assert ring[k] == x && x in old(ring);
          assert old(x.next) == Succ(old(ring), k);
        }
      }
      assert Linked(ring);
    }

    method LinkTail(t: Task)
      requires Shape() && t in live && t !in ring && current != t && Distinct(ring)
      modifies this`taskRing, this`ring, t`next, taskRing`next
      ensures Shape() && View() == old(View()).(ring := old(ring) + [t])
    {
      hide Distinct, Chained, PidsOk;
      assert taskRing in ring;
      InsertTail(t);
      assert current != null ==> (current in ring <==> current in old(ring));
    }

    /** A new task becomes the tail of the ring, unless memory has run out. A kernel task has no user
        memory. */
    method TaskCreate(stackTop: int, regs: int, userMem: int, memory: bool) returns (t: Task?)
      requires Valid()
      modifies this`taskRing, this`nextPid, this`ring, this`live, live`next
      ensures Valid() && fresh(live - old(live))
      ensures !memory ==> t == null && View() == old(View()) && nextPid == old(nextPid) && live == old(live)
      ensures memory ==> t != null && fresh(t) && View() == Create(old(View()), t)
      ensures memory ==> t.pid == old(nextPid) == nextPid - 1 && live == old(live) + {t}
      ensures memory ==> t.stackTop == stackTop && t.regs == regs && t.userMem == userMem
    {
      hide Inv, Shape;
      if !memory { return null; }
      RingFacts(View());
      ShapeFacts();
      t := Allocate(stackTop, regs, userMem);
      CreateInv(old(View()), t);
      LinkTail(t);
      assert View() == Create(old(View()), t);
    }

    method AddToZombieList(t: Task)
      requires Valid() && t in live && t.state == Zombie && t !in zs
      modifies this`zombieList, this`zs, t`znext
      ensures Valid() && View() == Push(old(View()), t)
    {
      hide Inv;
      PushInv(View(), t);
      t.znext := zombieList;
      zombieList := t;
      zs := [t] + zs;
      forall k | 0 <= k < |zs| ensures zs[k].znext == ChainNext(zs, k) {
        if k > 0 {
          ghost var z := old(zs)[k - 1];
          assert zs[k] == z && z in old(zs);
          assert old(z.znext) == ChainNext(old(zs), k - 1);
        }
      }
      assert RingOk();
      assert InLive();
      assert PidsOk();
      assert Chained(zombieList, zs);
      assert View() == Push(old(View()), t);
    }

    /** Takes ring[i] out: its predecessor now points behind it. */
    method Splice(ghost i: int, prev: Task, it: Task)
      requires Shape() && Distinct(ring) && |ring| > 1 && 0 <= i < |ring| && it == ring[i] && prev == Pred(ring, i)
      modifies this`taskRing, this`ring, prev`next
      ensures Shape() && ring == old(ring)[..i] + old(ring)[i + 1..]
      ensures it.next == old(it.next) == Succ(old(ring), i)
    {
      hide Distinct, PidsOk, Chained;
      CutFacts(ring, i);
      assert it.next == Succ(ring, i);
      prev.next := it.next;
      if taskRing == it { taskRing := prev; }
      ring := ring[..i] + ring[i + 1..];
      forall k | 0 <= k < |ring| ensures ring[k].next == Succ(ring, k) {
        SuccCut(old(ring), i, k);
        ghost var j := if k < i then k else k + 1;
        assert old(ring[j].next) == Succ(old(ring), j);
      }
    }

    method TakeOut(ghost i: int, prev: Task, it: Task)
      requires Shape() && Distinct(ring) && |ring| > 1 && 0 <= i < |ring| && it == ring[i] && prev == Pred(ring, i)
      modifies this`taskRing, this`ring, prev`next
      ensures Shape() && View() == old(View()).(ring := old(ring)[..i] + old(ring)[i + 1..],
        after := if current == it then Succ(old(ring), i) else old(View()).after)
    {
      hide Distinct, Linked, Chained, PidsOk;
      CutFacts(ring, i);
      Splice(i, prev, it);
    }

    /** Looks for a task in the ring, keeping its predecessor at hand. */
    method FindInRing(t: Task) returns (found: bool, prev: Task, ghost i: int)
      requires Valid()
      ensures found <==> t in ring
      ensures found ==> 0 <= i < |ring| && ring[i] == t && prev == Pred(ring, i)
    {
      hide Inv, Shape, Distinct;
      RingStart();
      i := 0;
      prev := taskRing;
      var it := taskRing.next;
      while true
        invariant 0 <= i < |ring| && it == ring[i] && prev == Pred(ring, i)
        invariant forall k :: 0 <= k < i ==> ring[k] != t
        decreases |ring| - i
      {
        RingNext(i);
        if it == t { return true, prev, i; }
        prev, it, i := it, it.next, i + 1;
        if it == taskRing.next { break; }
      }
      return false, prev, i;
    }

    /** Takes a task out of the ring, if it is there. */
    method UnlinkFromRing(t: Task) returns (r: int)
      requires Valid() && t in live && Enabled(View(), OpUnlink(t))
      modifies this`taskRing, this`ring, live`next
      ensures Valid() && View() == S.Unlink(old(View()), t) && live == old(live)
      ensures r == if t in old(ring) then 0 else -1
    {
      // a ring of one task holds init only
      hide Inv, Shape, Distinct, Index, Enabled, S.Unlink;
      ShapeFacts();
      UnlinkMissing(View(), t);
      RingStart();
      if taskRing.next == taskRing { return -1; }
      var found, prev, i := FindInRing(t);
      if !found { return -1; }
      UnlinkIs(View(), t, i);
      TakeOut(i, prev, t);
      return 0;
    }

    /** The memory of a task is given back. */
    method FreeTask(t: Task)
      requires Valid() && t !in ring && current != t && t !in zs
      modifies this`live
      ensures Valid() && live == old(live) - {t} && View() == S.Free(old(View()), t)
    {
      hide Inv;
      FreeInv(View(), t);
      ShapeFacts();
      live := live - {t};
      assert View() == S.Free(old(View()), t);
    }

    /** Takes all zombies off the list, out of the ring and frees them. Interrupts are on afterwards. */
    method ReapZombies()
      requires Valid() && Active(View())
      modifies this`taskRing, this`ring, this`zombieList, this`zs, this`live, live`next, interrupts
      ensures Valid() && View() == ReapAll(old(View())) && live <= old(live) && interrupts.on
    {
      hide Inv, Shape, Reapable, Chained;
      ghost var rest := zs;
      interrupts.on := false;
      var z := zombieList;
      Detach();
      interrupts.on := true;
      while z != null
        invariant Valid() && live <= old(live) && Chained(z, rest) && interrupts.on
        invariant Reapable(View(), rest) && Reap(View(), rest) == ReapAll(old(View()))
        decreases |rest|
      {
        ChainFacts(z, rest);
        ReapOne(View(), rest);
        var nextZ := z.znext;
        ReapFirst(z, rest);
        z, rest := nextZ, rest[1..];
      }
      ChainEnd(rest);
    }

    /** Takes one zombie out of the ring and frees it. */
    method ReapFirst(z: Task, ghost rest: seq<Task>)
      requires Valid() && Reapable(View(), rest) && rest != [] && rest[0] == z
      modifies this`taskRing, this`ring, this`live, live`next, interrupts
      ensures Valid() && View() == S.Free(S.Unlink(old(View()), z), z) && live <= old(live) && interrupts.on
    {
      hide Inv, Shape, Reapable, S.Unlink;
      ReapEnabled(View(), rest);
      ReapOne(View(), rest);
      ReapableLive(z, rest);
      UnlinkedFacts(View(), z);
      interrupts.on := false;
      var _ := UnlinkFromRing(z);
      interrupts.on := true;
      FreeTask(z);
    }

    method Detach()
      requires Valid() && Active(View())
      modifies this`zombieList, this`zs
      ensures Valid() && View() == old(View()).(zombies := [])
      ensures Chained(old(zombieList), old(zs)) && Reapable(View(), old(zs))
    {
      hide Inv;
      ApplyInv(View(), OpDetach);
      DetachReapable(View());
      zombieList := null;
      zs := [];
      assert View() == old(View()).(zombies := []);
    }

    lemma ReapableLive(z: Task, rest: seq<Task>)
      requires Shape() && Reapable(View(), rest) && rest != [] && rest[0] == z
      ensures z in live
    {}

    /** The current task becomes a zombie on the list; it stays in the ring. */
    method TaskExit()
      requires Valid() && Active(View())
      modifies this`taskRing, this`ring, this`zombieList, this`zs, this`live
      modifies live`state, live`next, live`znext, interrupts
      ensures Valid() && View() == Exit(old(View())) && interrupts.on && live <= old(live)
      ensures current != null && current != init ==>
        current.state == Zombie && current in ring && View().zombies == [current]
    {
      hide Inv, Shape, ReapAll;
      ghost var s := View();
      ghost var ops := ReapAllIsRun(s);
      interrupts.on := false;
      ReapZombies();
      ShapeFacts();
      if current == null || current == init { return; }
      MarkInv(View());
      SetState(current, Zombie);
      AddToZombieList(current);
      interrupts.on := true;
    }

    /** Looks for a process number in the ring. */
    method FindPid(pid: int) returns (t: Task?)
      requires Valid()
      ensures t != null ==> t in ring && t.pid == pid
      ensures t == null ==> forall x :: x in ring ==> x.pid != pid
    {
      hide Inv, Shape, Distinct;
      RingStart();
      var it := taskRing.next;
      ghost var i := 0;
      while true
        invariant 0 <= i < |ring| && it == ring[i]
        invariant forall k :: 0 <= k < i ==> ring[k].pid != pid
        decreases |ring| - i
      {
        RingNext(i);
        if it.pid == pid { return it; }
        it, i := it.next, i + 1;
        if it == taskRing.next { break; }
      }
      return null;
    }

    /** Stops the task with the given number: another task is taken out and freed at once, the
        current one becomes a zombie off the ring and waits for the next tick. */
    method TaskStop(pid: int) returns (r: int, ghost t: Task?)
      requires Valid() && Active(View())
      modifies this`taskRing, this`ring, this`zombieList, this`zs, this`live
      modifies live`state, live`next, live`znext, interrupts
      ensures Valid() && interrupts.on == (pid != 0 || old(interrupts.on)) && live <= old(live)
      ensures pid == 0 ==> r == -1 && View() == old(View())
      ensures pid != 0 && t == null ==>
        r == -1 && View() == ReapAll(old(View())) && forall x :: x in ring ==> x.pid != pid
      ensures t != null ==> r == 0 && t.pid == pid && t in ReapAll(old(View())).ring && View() == Stop(old(View()), t)
    {
      hide Inv, Shape, ReapAll;
      t := null;
      if pid == 0 { return -1, null; }
      ghost var s := View();
      ghost var ops := ReapAllIsRun(s);
      interrupts.on := false;
      ReapZombies();
      ShapeFacts();
      PidZero();
      var found := FindPid(pid);
      t := found;
      interrupts.on := true;
      if found == null { return -1, null; }
      if found == current {
        StopSelf(found);
      } else {
        StopOther(found);
      }
      r := 0;
    }

    /** The current task becomes a zombie on the list and leaves the ring. */
    method StopSelf(t: Task)
      requires Valid() && Active(View()) && View().zombies == [] && t == current && t != init && t in ring
      modifies this`taskRing, this`ring, this`zombieList, this`zs, live`state, live`next, live`znext
      ensures Valid() && View() == S.Unlink(Push(Mark(old(View())), t), t) && live == old(live)
    {
      hide Inv, Shape;
      ShapeFacts();
      MarkInv(View());
      SetState(t, Zombie);
      AddToZombieList(t);
      var _ := UnlinkFromRing(t);
    }

    /** Another task leaves the ring and is freed; the list of zombies is reaped once more. */
    method StopOther(t: Task)
      requires Valid() && Active(View()) && View().zombies == [] && t != current && t != init && t in ring
      modifies this`taskRing, this`ring, this`zombieList, this`zs, this`live, live`next, interrupts
      ensures Valid() && View() == S.Free(S.Unlink(old(View()), t), t) && interrupts.on && live <= old(live)
    {
      hide Inv, Shape, ReapAll, S.Unlink;
      ShapeFacts();
      UnlinkOther(View(), t);
      var _ := UnlinkFromRing(t);
      FreeTask(t);
      NothingToReap(View());
      ReapZombies();
    }

    lemma PidZero()
      requires Valid()
      ensures forall t :: t in ring && t.pid == 0 ==> t == init
      ensures init.pid == 0
    {}

    /** Is there a task with this number that is not a zombie? For numbers that are not positive the call
        returns with interrupts off. */
    method TaskIsAlive(pid: int) returns (alive: bool)
      requires Valid() && Active(View())
      modifies this`taskRing, this`ring, this`zombieList, this`zs, this`live, live`next, interrupts
      ensures Valid() && interrupts.on == (pid > 0)
      ensures pid <= 0 ==> (alive <==> pid == 0) && View() == old(View())
      ensures pid > 0 ==> View() == ReapAll(old(View()))
      ensures pid > 0 ==> (alive <==> exists t :: t in ring && t.pid == pid && t.state != Zombie)
    {
      hide Inv, ReapAll, Shape;
      interrupts.on := false;
      if pid <= 0 { return pid == 0; }
      ReapZombies();
      interrupts.on := false;
      var t := FindPid(pid);
      interrupts.on := true;
      if t == null { return false; }
      PidIsTask();
      return t.state != Zombie;
    }

    lemma PidIsTask()
      requires Valid()
      ensures forall x, t :: x in ring && t in ring && x.pid == t.pid ==> x == t
    {}

    lemma RingStart()
      requires Valid()
      ensures Distinct(ring) && |ring| > 0 && taskRing == ring[|ring| - 1] && taskRing.next == ring[0]
      ensures |ring| == 1 ==> ring == [init]
    {
      RingFacts(View());
      assert taskRing.next == Succ(ring, |ring| - 1);
    }

    lemma RingNext(i: int)
      requires Valid() && 0 <= i < |ring|
      ensures ring[i].next == if i + 1 < |ring| then ring[i + 1] else ring[0]
      ensures i + 1 < |ring| ==> ring[i + 1] != ring[0]
    {
      RingFacts(View());
      assert ring[i].next == Succ(ring, i);
    }
  }

  lemma LastOnce(ring: seq<Task>)
    requires Distinct(ring) && |ring| > 0
    ensures forall k :: 0 <= k < |ring| - 1 ==> ring[k] != ring[|ring| - 1]
  {}

  ghost function Pred(ring: seq<Task>, i: int): Task
    requires 0 <= i < |ring|
  {
    ring[if i == 0 then |ring| - 1 else i - 1]
  }

  /** Successors in the ring without element i. */
  lemma SuccCut(ring: seq<Task>, i: int, k: int)
    requires |ring| > 1 && 0 <= i < |ring| && 0 <= k < |ring| - 1
    ensures var w, j := ring[..i] + ring[i + 1..], if k < i then k else k + 1;
      && w[k] == ring[j]
      && (j == (if i == 0 then |ring| - 1 else i - 1) ==> Succ(w, k) == Succ(ring, i))
      && (j != (if i == 0 then |ring| - 1 else i - 1) ==> Succ(w, k) == Succ(ring, j))
  {}

  lemma CutFacts(ring: seq<Task>, i: int)
    requires |ring| > 1 && 0 <= i < |ring| && Distinct(ring)
    ensures forall x :: x in ring[..i] + ring[i + 1..] <==> x in ring && x != ring[i]
    ensures Pred(ring, i) != ring[i] && (ring[|ring| - 1] == ring[i] ==> i == |ring| - 1)
    ensures forall j :: 0 <= j < |ring| && ring[j] == Pred(ring, i) ==> j == if i == 0 then |ring| - 1 else i - 1
  {
    CutMembers(ring, i);
  }

  lemma CutMembers(ring: seq<Task>, i: int)
    requires Distinct(ring) && 0 <= i < |ring|
    ensures forall x :: x in ring[..i] + ring[i + 1..] <==> x in ring && x != ring[i]
  {
    hide Distinct;
    forall x: Task ensures x in ring[..i] + ring[i + 1..] <==> x in ring && x != ring[i] { CutMember(ring, i, x); }
  }

  lemma UnlinkMissing(s: Sched<Task>, t: Task)
    requires Inv(s) && Enabled(s, OpUnlink(t))
    ensures t != s.init && Inv(S.Unlink(s, t)) && (t !in s.ring ==> S.Unlink(s, t) == s)
    ensures Distinct(s.ring) && (|s.ring| > 1 ==> s.ring[0] != s.ring[|s.ring| - 1])
  {
    UnlinkInv(s, t);
  }

  lemma UnlinkIs(s: Sched<Task>, t: Task, i: int)
    requires 1 < |s.ring| && 0 <= i < |s.ring| && s.ring[i] == t && Distinct(s.ring)
    ensures S.Unlink(s, t) == s.(ring := s.ring[..i] + s.ring[i + 1..],
                                 after := if s.current == Some(t) then Succ(s.ring, i) else s.after)
  {
    IndexAt(s.ring, i);
    assert Rotate(s.ring, i)[1] == Succ(s.ring, i);
  }

  lemma RotateLinked(ring: seq<Task>, k: int)
    requires Linked(ring) && 0 <= k < |ring|
    ensures Linked(Rotate(ring, k))
  {
    var o, n := Rotate(ring, k), |ring|;
    forall i | 0 <= i < n ensures o[i].next == Succ(o, i) {
      RotateAgain(ring, k, i);
      RotateAgain(ring, k, Wrap(i + 1, n));
      assert ring[Wrap(k + i, n)].next == Succ(ring, Wrap(k + i, n));
    }
  }

  lemma TickFacts(s: Sched<Task>)
    requires Inv(s)
    ensures Inv(Preempt(s)) && Inv(Tick(s)) && Tick(s).current.Some? && Tick(s).current.value in s.ring
    ensures Preempt(s).ring == s.ring && Preempt(s).init == s.init
    ensures S.PickNext(Preempt(s)) == Tick(s).current
  {
    hide S.PickNext;
    PreemptInv(s);
    TickChooses(s);
    TickInv(s);
  }

  lemma ChainFacts(z: Task, rest: seq<Task>)
    requires Chained(z, rest)
    ensures rest != [] && rest[0] == z && Chained(z.znext, rest[1..])
  {
    assert z.znext == ChainNext(rest, 0);
    forall k | 0 <= k < |rest| - 1 ensures rest[1..][k].znext == ChainNext(rest[1..], k) {
      assert rest[k + 1].znext == ChainNext(rest, k + 1);
    }
  }

  lemma ChainEnd(rest: seq<Task>)
    requires Chained(null, rest)
    ensures rest == []
  {}

  lemma DetachReapable(s: Sched<Task>)
    requires Inv(s) && Active(s)
    ensures Reapable(s.(zombies := []), s.zombies)
  {}

  lemma UnlinkedFacts(s: Sched<Task>, z: Task)
    requires Inv(s) && z != s.init && s.current != Some(z) && (s.current.Some? ==> s.current.value in s.ring)
    ensures var u := S.Unlink(s, z); z !in u.ring && u.current == s.current && u.zombies == s.zombies
  {
    UnlinkInv(s, z);
  }

  lemma NothingToReap(s: Sched<Task>)
    requires s.zombies == []
    ensures ReapAll(s) == s
  {}

  lemma UnlinkOther(s: Sched<Task>, t: Task)
    requires Inv(s) && Active(s) && t != s.init && s.current != Some(t) && s.zombies == [] && t in s.ring
    ensures Enabled(s, OpUnlink(t)) && t !in S.Unlink(s, t).ring && S.Unlink(s, t).zombies == []
    ensures S.Unlink(s, t).current == s.current
  {
    UnlinkInv(s, t);
  }

  lemma RunnableIs(s: Sched<Task>, t: Task)
    requires t in s.state
    ensures Runnable(s, t) <==> s.state[t] == Ready || s.state[t] == Running
  {}

  /** The search result from what has been seen of the ring. */
  lemma PickIs(s: Sched<Task>, i: nat)
    requires i <= |Order(s)| && forall j :: 0 <= j < i ==> !Runnable(s, Order(s)[j])
    requires i < |Order(s)| ==> Runnable(s, Order(s)[i])
    ensures S.PickNext(s) == if i < |Order(s)| then Some(Order(s)[i]) else None
  {
    hide Runnable, Order;
    assert FirstRunnable(s, Order(s)) == i;
  }
}
