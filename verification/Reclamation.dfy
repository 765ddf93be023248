/** Reclaiming zombies under preemption. Reaping detaches the zombie list, takes each zombie out
    of the ring and frees it, with interrupts enabled in between; leaving marks the task and
    then puts it on the list, also with interrupts enabled in between. Ticks may come between
    any two of these steps, and any number of tasks may be reaping. Stopping a task, once the
    zombies have been reaped, is one step. */
module Reclamation {
  import opened Basics
  import opened Scheduling

  /** Where a task is inside exit or reap. `unlinked` says that the first pending zombie has
      been taken out of the ring and is freed next. */
  datatype Phase = Idle | Marked | Reaping(pending: seq<int>, unlinked: bool)

  /** `holder` records, for the argument, which reaper has detached which zombie. */
  datatype World = World(s: Sched<int>, phase: map<int, Phase>, holder: map<int, int>, freed: seq<int>)

  datatype Step =
    | DoTick
    | DoCreate(t: int)
    | DoMark
    | DoPush
    | DoDetach
    | DoUnlink
    | DoFree
    | DoReturn
    | DoStop(t: int)
    | DoStopSelf

  function PhaseOf(w: World, t: int): Phase { if t in w.phase then w.phase[t] else Idle }

  predicate CanDo(w: World, st: Step) {
    var me := PhaseOf(w, Actor(w.s));
    match st
    case DoTick => true
    case DoCreate(t) => Active(w.s) && me.Idle? && t !in w.s.state && t !in w.freed && t !in w.phase
    case DoMark => Active(w.s) && me.Idle? && w.s.current.Some? && w.s.current.value != w.s.init
    case DoPush => w.s.current.Some? && me.Marked?
    case DoDetach => Active(w.s) && me.Idle?
    case DoUnlink => Active(w.s) && me.Reaping? && me.pending != [] && !me.unlinked
    case DoFree => Active(w.s) && me.Reaping? && me.pending != [] && me.unlinked
    case DoReturn => Active(w.s) && me.Reaping? && me.pending == []
    case DoStop(t) => Active(w.s) && me.Idle? && t in w.s.ring && t != w.s.init && t != Actor(w.s)
    case DoStopSelf => Active(w.s) && me.Idle? && w.s.current.Some? && w.s.current.value != w.s.init
  }

  function Do(w: World, st: Step): World
    requires CanDo(w, st)
  {
    var a := Actor(w.s);
    match st
    case DoTick => w.(s := Tick(w.s))
    case DoCreate(t) => w.(s := Create(w.s, t))
    case DoMark => w.(s := Mark(w.s), phase := w.phase[a := Marked])
    case DoPush => w.(s := Push(w.s, a), phase := w.phase[a := Idle])
    case DoDetach =>
      w.(s := w.s.(zombies := []), phase := w.phase[a := Reaping(w.s.zombies, false)],
         holder := w.holder + map z | z in w.s.zombies :: a)
    case DoUnlink =>
      w.(s := Unlink(w.s, w.phase[a].pending[0]), phase := w.phase[a := w.phase[a].(unlinked := true)])
    case DoFree =>
      var z := w.phase[a].pending[0];
      World(Free(w.s, z), w.phase[a := Reaping(w.phase[a].pending[1..], false)], w.holder - {z}, w.freed + [z])
    case DoReturn => w.(phase := w.phase[a := Idle])
    case DoStop(t) =>
      // what t itself was reaping is dropped with it
      World(Free(Unlink(w.s, t), t), w.phase - {t},
            map z | z in w.holder && w.holder[z] != t :: w.holder[z], w.freed + [t])
    case DoStopSelf => w.(s := Unlink(Push(Mark(w.s), a), a))
  }

  /** A stop is careful if its target is on no list: neither waiting to be reaped nor held by a
      reaper. */
  predicate Careful(w: World, st: Step) {
    st.DoStop? ==> st.t !in w.s.zombies && st.t !in w.holder
  }

  // ---------------------------------------------------------------------
  // Safety
  // ---------------------------------------------------------------------

  /** Dead and on no list. */
  predicate Dead(w: World, z: int) { z in w.s.state && w.s.state[z] == Zombie && z !in w.s.zombies }

  /** The lists of the reapers: without repetition, of dead tasks that are not current, each on
      one list only; and a zombie about to be freed is out of the ring. */
  ghost predicate ListsOk(w: World) {
    && (forall r :: r in w.phase && w.phase[r].Reaping? ==> ListOk(w, r))
    && (forall z :: z in w.holder ==> Dead(w, z) && w.s.current != Some(z))
    && (forall z :: z in w.holder ==> var r := w.holder[z];
          r in w.phase && w.phase[r].Reaping? && z in w.phase[r].pending)
  }

  ghost predicate ListOk(w: World, r: int)
    requires r in w.phase && w.phase[r].Reaping?
  {
    var ps := w.phase[r].pending;
    && Distinct(ps)
    && (forall k :: 0 <= k < |ps| ==> ps[k] in w.holder && w.holder[ps[k]] == r)
    && (ps != [] && w.phase[r].unlinked ==> ps[0] !in w.s.ring)
  }

  /** Reapers wait for their turn in the ring. */
  ghost predicate ReapersOk(w: World) {
    forall r :: r in w.phase && w.phase[r].Reaping? ==> r in w.s.ring && r in w.s.state && w.s.state[r] != Zombie
  }

  ghost predicate MarkedOk(w: World) {
    && (forall r :: r in w.phase && w.phase[r].Marked? ==> Dead(w, r) && r !in w.holder)
    && (w.s.current.Some? && !Active(w.s) ==>
          PhaseOf(w, w.s.current.value).Marked? || w.s.current.value in w.s.zombies)
  }

  ghost predicate FreedOk(w: World) {
    Distinct(w.freed) && forall t :: t in w.freed ==> t !in w.s.state
  }

  ghost predicate Safe(w: World) { Inv(w.s) && ListsOk(w) && ReapersOk(w) && MarkedOk(w) && FreedOk(w) }

  /** What is freed was never freed before, is out of the ring and is not current. */
  lemma FreeIsSafe(w: World)
    requires Safe(w) && CanDo(w, DoFree)
    ensures var z := w.phase[Actor(w.s)].pending[0];
      z !in w.freed && z !in w.s.ring && w.s.current != Some(z) && z != Actor(w.s) && Dead(w, z)
  {
    assert ListOk(w, Actor(w.s));
  }

  lemma SafeIs(w: World)
    requires Inv(w.s) && ListsOk(w) && ReapersOk(w) && MarkedOk(w) && FreedOk(w)
    ensures Safe(w)
  {}

  /** A tick makes a runnable task current, and neither makes nor unmakes zombies. */
  lemma TickMoves(s: Sched<int>)
    requires Inv(s)
    ensures Active(Tick(s)) && Tick(s).current.Some? && Tick(s).ring == s.ring && Tick(s).zombies == s.zombies
    ensures Tick(s).init == s.init && Tick(s).state.Keys == s.state.Keys
    ensures forall t :: t in s.state ==> (Tick(s).state[t] == Zombie <==> s.state[t] == Zombie)
    ensures Runnable(s, Tick(s).current.value)
  {
    hide PickNext;
    TickChooses(s);
    RingFacts(s);
  }

  lemma ZombieMembers(s: Sched<int>)
    requires Inv(s)
    ensures forall t :: t in s.zombies ==> t in s.state && s.state[t] == Zombie
    ensures s.init in s.state && s.state[s.init] != Zombie && Distinct(s.zombies)
    ensures Actor(s) in s.state
    ensures Active(s) ==> s.state[Actor(s)] != Zombie && (s.current.Some? ==> Actor(s) in s.ring)
  {}

  lemma TickSafe(w: World)
    requires Safe(w)
    ensures Safe(Do(w, DoTick))
  {
    hide Inv, Tick;
    TickInv(w.s);
    TickMoves(w.s);
    var v := Do(w, DoTick);
    assert forall r :: r in w.phase && w.phase[r].Reaping? && ListOk(w, r) ==> ListOk(v, r);
  }

  lemma CreateSafe(w: World, t: int)
    requires Safe(w) && CanDo(w, DoCreate(t))
    ensures Safe(Do(w, DoCreate(t)))
  {
    hide Inv;
    CreateInv(w.s, t);
    ZombieMembers(w.s);
    var v := Do(w, DoCreate(t));
    assert forall r :: r in w.phase && w.phase[r].Reaping? && ListOk(w, r) ==> ListOk(v, r);
  }

  lemma MarkSafe(w: World)
    requires Safe(w) && CanDo(w, DoMark)
    ensures Safe(Do(w, DoMark))
  {
    hide Inv;
    MarkInv(w.s);
    ZombieMembers(w.s);
    var v := Do(w, DoMark);
    assert forall r :: r in v.phase && v.phase[r].Reaping? && ListOk(w, r) ==> ListOk(v, r);
  }

  lemma PushSafe(w: World)
    requires Safe(w) && CanDo(w, DoPush)
    ensures Safe(Do(w, DoPush))
  {
    hide Inv;
    PushInv(w.s, Actor(w.s));
    var v := Do(w, DoPush);
    assert forall r :: r in v.phase && v.phase[r].Reaping? && ListOk(w, r) ==> ListOk(v, r);
  }

  lemma ReturnSafe(w: World)
    requires Safe(w) && CanDo(w, DoReturn)
    ensures Safe(Do(w, DoReturn))
  {
    hide Inv;
    var v := Do(w, DoReturn);
    assert forall r :: r in v.phase && v.phase[r].Reaping? && ListOk(w, r) ==> ListOk(v, r);
  }

  lemma DetachSafe(w: World)
    requires Safe(w) && CanDo(w, DoDetach)
    ensures Safe(Do(w, DoDetach))
  {
    hide Inv, ListsOk;
    ApplyInv(w.s, OpDetach);
    ZombieMembers(w.s);
    DetachLists(w);
  }

  lemma DetachLists(w: World)
    requires Inv(w.s) && ListsOk(w) && CanDo(w, DoDetach)
    ensures ListsOk(Do(w, DoDetach))
  {
    hide Inv;
    ZombieMembers(w.s);
    var v := Do(w, DoDetach);
    forall r | r in v.phase && v.phase[r].Reaping? ensures ListOk(v, r) {
      if r != Actor(w.s) { assert ListOk(w, r); }
    }
  }

  lemma UnlinkSafe(w: World)
    requires Safe(w) && CanDo(w, DoUnlink)
    ensures Safe(Do(w, DoUnlink))
  {
    hide Inv, Unlink;
    var a, v := Actor(w.s), Do(w, DoUnlink);
    var z := w.phase[a].pending[0];
    assert ListOk(w, a);
    ZombieMembers(w.s);
    UnlinkInv(w.s, z);
    UnlinkKeeps(w.s, z);
    assert forall r :: r in v.phase && v.phase[r].Reaping? && ListOk(w, r) ==> ListOk(v, r);
  }

  lemma UnlinkKeeps(s: Sched<int>, z: int)
    requires s.current != Some(z)
    ensures var u := Unlink(s, z);
      u.current == s.current && u.state == s.state && u.zombies == s.zombies && u.init == s.init
  {}

  lemma FreeSafe(w: World)
    requires Safe(w) && CanDo(w, DoFree)
    ensures Safe(Do(w, DoFree))
  {
    hide Inv, Safe;
    FreeLists(w);
    FreeRest(w);
    SafeIs(Do(w, DoFree));
  }

  lemma FreeRest(w: World)
    requires Safe(w) && CanDo(w, DoFree)
    ensures var v := Do(w, DoFree); Inv(v.s) && ReapersOk(v) && MarkedOk(v) && FreedOk(v)
  {
    hide Inv;
    FreeIsSafe(w);
    assert ListOk(w, Actor(w.s));
    FreeInv(w.s, w.phase[Actor(w.s)].pending[0]);
  }

  lemma FreeLists(w: World)
    requires Safe(w) && CanDo(w, DoFree)
    ensures ListsOk(Do(w, DoFree))
  {
    hide Inv;
    var a, v := Actor(w.s), Do(w, DoFree);
    var ps := w.phase[a].pending;
    assert ListOk(w, a);
    assert ps == [ps[0]] + ps[1..];
    assert forall r :: r in v.phase && v.phase[r].Reaping? && r != a && ListOk(w, r) ==> ListOk(v, r);
  }

  lemma StopSafe(w: World, t: int)
    requires Safe(w) && CanDo(w, DoStop(t)) && Careful(w, DoStop(t))
    ensures Safe(Do(w, DoStop(t)))
  {
    hide Inv, Unlink;
    var v := Do(w, DoStop(t));
    StopInv(w, t);
    UnlinkKeeps(w.s, t);
    assert t !in w.freed;
    forall r | r in v.phase && v.phase[r].Reaping? ensures ListOk(v, r) {
      assert r in w.phase && r != t && ListOk(w, r);
      var ps := w.phase[r].pending;
      forall k | 0 <= k < |ps| ensures ps[k] in v.holder && v.holder[ps[k]] == r {
        assert w.holder[ps[k]] == r;
      }
      if ps != [] { UnlinkRing(w.s, t, ps[0]); }
    }
  }

  /** Stopping another task keeps the scheduler in order if that task is not on the zombie list. */
  lemma StopInv(w: World, t: int)
    requires Inv(w.s) && CanDo(w, DoStop(t)) && t !in w.s.zombies
    ensures var n := Free(Unlink(w.s, t), t);
      Inv(n) && t in w.s.state && forall x :: x in n.ring <==> x in w.s.ring && x != t
  {
    hide Inv, Unlink;
    ZombieMembers(w.s);
    UnlinkInv(w.s, t);
    UnlinkKeeps(w.s, t);
    FreeInv(Unlink(w.s, t), t);
    RingInState(w.s, t);
  }

  lemma StopSelfSafe(w: World)
    requires Safe(w) && CanDo(w, DoStopSelf)
    ensures Safe(Do(w, DoStopSelf))
  {
    hide Inv, Unlink;
    var a := Actor(w.s);
    ZombieMembers(w.s);
    MarkInv(w.s);
    PushInv(Mark(w.s), a);
    var p := Push(Mark(w.s), a);
    UnlinkInv(p, a);
    UnlinkSelf(p, a);
    var v := Do(w, DoStopSelf);
    assert forall r :: r in v.phase && v.phase[r].Reaping? && ListOk(w, r) ==> ListOk(v, r);
  }

  lemma UnlinkSelf(s: Sched<int>, z: int)
    ensures var u := Unlink(s, z);
      u.current == s.current && u.state == s.state && u.zombies == s.zombies && u.init == s.init
  {}

  /** Every step, of whichever task, keeps the world safe, if stops are careful. */
  lemma StepSafe(w: World, st: Step)
    requires Safe(w) && CanDo(w, st) && Careful(w, st)
    ensures Safe(Do(w, st))
  {
    hide Safe;
    match st
    case DoTick => TickSafe(w);
    case DoCreate(t) => CreateSafe(w, t);
    case DoMark => MarkSafe(w);
    case DoPush => PushSafe(w);
    case DoDetach => DetachSafe(w);
    case DoUnlink => UnlinkSafe(w);
    case DoFree => FreeSafe(w);
    case DoReturn => ReturnSafe(w);
    case DoStop(t) => StopSafe(w, t);
    case DoStopSelf => StopSelfSafe(w);
  }

  // ---------------------------------------------------------------------
  // Runs
  // ---------------------------------------------------------------------

  predicate IsRun(w: World, steps: seq<Step>)
    decreases |steps|
  {
    steps == [] || (CanDo(w, steps[0]) && IsRun(Do(w, steps[0]), steps[1..]))
  }

  function After(w: World, steps: seq<Step>): World
    requires IsRun(w, steps)
    decreases |steps|
  {
    if steps == [] then w else After(Do(w, steps[0]), steps[1..])
  }

  const BOOT := World(Sched(0, [0], None, 0, map[0 := Running], []), map[], map[], [])

  lemma BootSafe()
    ensures Safe(BOOT)
  {}

  predicate CarefulRun(w: World, steps: seq<Step>)
    requires IsRun(w, steps)
    decreases |steps|
  {
    steps == [] || (Careful(w, steps[0]) && CarefulRun(Do(w, steps[0]), steps[1..]))
  }

  /** In every interleaving with careful stops no task is freed twice, and none that is current or in
      the ring. */
  lemma {:induction false} RunSafe(w: World, steps: seq<Step>)
    requires Safe(w) && IsRun(w, steps) && CarefulRun(w, steps)
    ensures Safe(After(w, steps)) && Distinct(After(w, steps).freed)
    decreases |steps|
  {
    hide Inv, ListsOk, ReapersOk, MarkedOk, Careful, CanDo;
    if steps != [] {
      StepSafe(w, steps[0]);
      RunSafe(Do(w, steps[0]), steps[1..]);
    }
  }

  /** A stop whose target is not a zombie is careful. */
  lemma NotZombieCareful(w: World, t: int)
    requires Safe(w) && CanDo(w, DoStop(t)) && t in w.s.state && w.s.state[t] != Zombie
    ensures Careful(w, DoStop(t))
  {
    ZombieMembers(w.s);
  }

  lemma {:induction false} RunThen(w: World, a: seq<Step>, b: seq<Step>)
    requires IsRun(w, a) && CarefulRun(w, a) && IsRun(After(w, a), b) && CarefulRun(After(w, a), b)
    ensures IsRun(w, a + b) && CarefulRun(w, a + b) && After(w, a + b) == After(After(w, a), b)
    decreases |a|
  {
    hide CanDo, Do, Careful;
    if a == [] { assert a + b == b; }
    else {
      assert (a + b)[1..] == a[1..] + b && (a + b)[0] == a[0];
      RunThen(Do(w, a[0]), a[1..], b);
    }
  }

  lemma OneStep(w: World, st: Step)
    requires CanDo(w, st) && Careful(w, st)
    ensures IsRun(w, [st]) && CarefulRun(w, [st]) && After(w, [st]) == Do(w, st)
  {
    assert [st][1..] == [];
  }

  // ---------------------------------------------------------------------
  // Interleavings are runs of the scheduler
  // ---------------------------------------------------------------------

  /** The operations of the scheduler that a step performs. */
  function OpsOf(w: World, st: Step): seq<Op<int>>
    requires CanDo(w, st)
  {
    var a := Actor(w.s);
    match st
    case DoTick => [OpTick]
    case DoCreate(t) => [OpCreate(t)]
    case DoMark => [OpMark]
    case DoPush => [OpPush(a)]
    case DoDetach => [OpDetach]
    case DoUnlink => [OpUnlink(w.phase[a].pending[0])]
    case DoFree => [OpFree(w.phase[a].pending[0])]
    case DoReturn => []
    case DoStop(t) => [OpUnlink(t), OpFree(t)]
    case DoStopSelf => [OpMark, OpPush(a), OpUnlink(a)]
  }

  lemma RunOne(s: Sched<int>, op: Op<int>)
    requires Enabled(s, op)
    ensures Follows(s, [op]) && Final(s, [op]) == Apply(s, op)
  {
    assert [op][1..] == [];
  }

  lemma RunTwo(s: Sched<int>, op1: Op<int>, op2: Op<int>)
    requires Enabled(s, op1) && Enabled(Apply(s, op1), op2)
    ensures Follows(s, [op1, op2]) && Final(s, [op1, op2]) == Apply(Apply(s, op1), op2)
  {
    hide Enabled, Apply;
    assert [op1, op2][1..] == [op2];
    RunOne(Apply(s, op1), op2);
  }

  lemma RunThree(s: Sched<int>, op1: Op<int>, op2: Op<int>, op3: Op<int>)
    requires Enabled(s, op1) && Enabled(Apply(s, op1), op2) && Enabled(Apply(Apply(s, op1), op2), op3)
    ensures Follows(s, [op1, op2, op3]) && Final(s, [op1, op2, op3]) == Apply(Apply(Apply(s, op1), op2), op3)
  {
    hide Enabled, Apply;
    assert [op1, op2, op3][1..] == [op2, op3];
    RunTwo(Apply(s, op1), op2, op3);
  }

  /** Every step of an interleaving is a run of operations of the scheduler, so that what holds of all runs of the
      scheduler holds of all interleavings. */
  lemma StepIsRun(w: World, st: Step)
    requires Safe(w) && CanDo(w, st) && Careful(w, st)
    ensures Follows(w.s, OpsOf(w, st)) && Final(w.s, OpsOf(w, st)) == Do(w, st).s
  {
    hide Inv, Follows, Final, Tick, Unlink;
    ZombieMembers(w.s);
    var a := Actor(w.s);
    match st
    case DoTick => RunOne(w.s, OpTick);
    case DoCreate(t) => RunOne(w.s, OpCreate(t));
    case DoMark => RunOne(w.s, OpMark);
    case DoPush => RunOne(w.s, OpPush(a));
    case DoDetach => RunOne(w.s, OpDetach);
    case DoUnlink =>
      assert ListOk(w, a);
      CurrentInRing(w.s);
      RunOne(w.s, OpUnlink(w.phase[a].pending[0]));
    case DoFree =>
      FreeIsSafe(w);
      RunOne(w.s, OpFree(w.phase[a].pending[0]));
    case DoReturn => NoOps(w.s);
    case DoStop(t) =>
      CurrentInRing(w.s);
      StopInv(w, t);
      UnlinkKeeps(w.s, t);
      RunTwo(w.s, OpUnlink(t), OpFree(t));
    case DoStopSelf =>
      CurrentInRing(w.s);
      RunThree(w.s, OpMark, OpPush(a), OpUnlink(a));
  }

  lemma NoOps(s: Sched<int>)
    ensures Follows(s, []) && Final(s, []) == s
  {}

  lemma CurrentInRing(s: Sched<int>)
    requires Inv(s) && Active(s)
    ensures s.current.Some? ==> s.current.value in s.ring
  {}

  function TicksIn(steps: seq<Step>): nat {
    if steps == [] then 0 else (if steps[0].DoTick? then 1 else 0) + TicksIn(steps[1..])
  }

  function CreatesIn(steps: seq<Step>): nat {
    if steps == [] then 0 else (if steps[0].DoCreate? then 1 else 0) + CreatesIn(steps[1..])
  }

  /** Throughout the interleaving t stays runnable in the ring, and no tick chooses it. */
  predicate Waiting(w: World, steps: seq<Step>, t: int)
    requires IsRun(w, steps)
    decreases |steps|
  {
    && t in w.s.ring && Runnable(w.s, t)
    && (steps == [] || (
      var v := Do(w, steps[0]);
      Waiting(v, steps[1..], t) && (steps[0].DoTick? ==> v.s.current != Some(t))))
  }

  lemma StepAhead(w: World, st: Step, t: int)
    requires Safe(w) && CanDo(w, st) && Careful(w, st) && t in w.s.ring && Runnable(w.s, t)
    requires var v := Do(w, st); t in v.s.ring && Runnable(v.s, t) && (st.DoTick? ==> v.s.current != Some(t))
    ensures Ahead(Do(w, st).s, t) + (if st.DoTick? then 1 else 0) <= Ahead(w.s, t) + (if st.DoCreate? then 1 else 0)
  {
    hide Inv, Tick, Unlink, Ahead, ListsOk, MarkedOk, FreedOk, ReapersOk, Follows, Final;
    StepIsRun(w, st);
    var ops := OpsOf(w, st);
    FollowsFirst(w.s, ops);
    if |ops| == 1 {
      ApplyAhead(w.s, ops[0], t);
    } else if |ops| == 2 {
      TwoAhead(w.s, ops[0], ops[1], t);
    } else if |ops| == 3 {
      ThreeAhead(w, t);
    }
  }

  lemma FollowsFirst(s: Sched<int>, ops: seq<Op<int>>)
    requires Follows(s, ops)
    ensures ops != [] ==> Enabled(s, ops[0]) && Follows(Apply(s, ops[0]), ops[1..])
    ensures |ops| > 1 ==> Enabled(Apply(s, ops[0]), ops[1])
  {
    if |ops| > 1 { assert ops[1..][0] == ops[1]; }
  }

  lemma TwoAhead(s: Sched<int>, op1: Op<int>, op2: Op<int>, t: int)
    requires Inv(s) && op1.OpUnlink? && op2 == OpFree(op1.t) && Enabled(s, op1) && Enabled(Apply(s, op1), op2)
    requires t in s.ring && Runnable(s, t)
    requires t in Apply(Apply(s, op1), op2).ring && Runnable(Apply(Apply(s, op1), op2), t)
    ensures Ahead(Apply(Apply(s, op1), op2), t) <= Ahead(s, t)
  {
    hide Inv, Unlink, Ahead;
    UnlinkSelf(s, op1.t);
    ApplyInv(s, op1);
    ApplyAhead(s, op1, t);
    ApplyAhead(Apply(s, op1), op2, t);
  }

  lemma ThreeAhead(w: World, t: int)
    requires Safe(w) && CanDo(w, DoStopSelf) && t in w.s.ring && Runnable(w.s, t)
    requires t in Do(w, DoStopSelf).s.ring && Runnable(Do(w, DoStopSelf).s, t)
    ensures Ahead(Do(w, DoStopSelf).s, t) <= Ahead(w.s, t)
  {
    hide Inv, Unlink, Ahead;
    var a := Actor(w.s);
    var m := Mark(w.s);
    var p := Push(m, a);
    ZombieMembers(w.s);
    CurrentInRing(w.s);
    UnlinkSelf(p, a);
    ApplyAhead(w.s, OpMark, t);
    ApplyInv(w.s, OpMark);
    ApplyAhead(m, OpPush(a), t);
    ApplyInv(m, OpPush(a));
    ApplyAhead(p, OpUnlink(a), t);
  }

  /** Bounded waiting in interleavings: with any number of reapers, exits and careful stops in progress, a runnable
      task that stays in the ring is chosen at the latest when as many ticks have passed as tasks were ahead of it,
      plus tasks created meanwhile, plus one. */
  lemma {:induction false} WaitsBounded(w: World, steps: seq<Step>, t: int)
    requires Safe(w) && IsRun(w, steps) && CarefulRun(w, steps) && Waiting(w, steps, t)
    ensures TicksIn(steps) <= Ahead(w.s, t) + CreatesIn(steps)
    decreases |steps|
  {
    hide Inv, Ahead, ListsOk, MarkedOk, FreedOk, ReapersOk, Do, CanDo, Runnable;
    if steps != [] {
      var v := Do(w, steps[0]);
      StepSafe(w, steps[0]);
      WaitingNow(v, steps[1..], t);
      StepAhead(w, steps[0], t);
      WaitsBounded(v, steps[1..], t);
    }
  }

  lemma WaitingNow(w: World, steps: seq<Step>, t: int)
    requires IsRun(w, steps) && Waiting(w, steps, t)
    ensures t in w.s.ring && Runnable(w.s, t)
  {}

  // ---------------------------------------------------------------------
  // Stopping a task that is on a list
  // ---------------------------------------------------------------------

  /** A task that is reaping and may go on. */
  predicate AtWork(w: World, r: int) {
    && Active(w.s) && Actor(w.s) == r && r in w.phase && w.phase[r].Reaping? && r !in w.phase[r].pending
    && (w.s.current.None? ==> w.s.init in w.s.state)
  }

  lemma FreesOne(w: World, r: int) returns (steps: seq<Step>)
    requires AtWork(w, r) && w.phase[r].pending != []
    ensures IsRun(w, steps) && CarefulRun(w, steps) && AtWork(After(w, steps), r)
    ensures After(w, steps).phase[r].pending == w.phase[r].pending[1..]
    ensures After(w, steps).freed == w.freed + [w.phase[r].pending[0]]
  {
    hide Unlink, IsRun, CarefulRun, After;
    var ps := w.phase[r].pending;
    assert ps[0] in ps && forall x :: x in ps[1..] ==> x in ps;
    UnlinkSelf(w.s, ps[0]);
    if w.phase[r].unlinked {
      OneStep(w, DoFree);
      steps := [DoFree];
    } else {
      var u := Do(w, DoUnlink);
      OneStep(w, DoUnlink);
      OneStep(u, DoFree);
      RunThen(w, [DoUnlink], [DoFree]);
      steps := [DoUnlink] + [DoFree];
    }
  }

  /** What a current reaper has pending it can free to the end. */
  lemma {:induction false} FreesAll(w: World, r: int) returns (steps: seq<Step>)
    requires AtWork(w, r)
    ensures IsRun(w, steps) && CarefulRun(w, steps) && After(w, steps).freed == w.freed + w.phase[r].pending
    decreases |w.phase[r].pending|
  {
    hide Do, CanDo, Active;
    var ps := w.phase[r].pending;
    steps := [];
    if ps != [] {
      assert ps == [ps[0]] + ps[1..];
      var first := FreesOne(w, r);
      var rest := FreesAll(After(w, first), r);
      RunThen(w, first, rest);
      steps := first + rest;
    }
  }

  /** After some ticks a runnable task of the ring is current. */
  lemma {:induction false} TicksTo(w: World, r: int) returns (steps: seq<Step>)
    requires Inv(w.s) && r in w.s.ring && Runnable(w.s, r)
    ensures IsRun(w, steps) && CarefulRun(w, steps)
    ensures var v := After(w, steps); v.s.current == Some(r) && Active(v.s) && v == w.(s := v.s)
    decreases Ahead(w.s, r)
  {
    hide Inv, Tick, Ahead, Runnable;
    OneStep(w, DoTick);
    TickInv(w.s);
    TickMoves(w.s);
    RingFacts(w.s);
    var v := Do(w, DoTick);
    steps := [DoTick];
    if v.s.current != Some(r) {
      TickAhead(w.s, r);
      var rest := TicksTo(v, r);
      RunThen(w, [DoTick], rest);
      steps := [DoTick] + rest;
    }
  }

  lemma Twice(s: seq<int>, a: seq<int>, t: int)
    requires t in a
    ensures !Distinct(s + [t] + a)
  {
    var k :| 0 <= k < |a| && a[k] == t;
    var all := s + [t] + a;
    assert all[|s|] == t && all[|s| + 1 + k] == t;
  }

  /** A task stopped while a reaper holds it is freed a second time when the reaper goes on. */
  lemma HeldFreedTwice(w: World, t: int) returns (steps: seq<Step>)
    requires Safe(w) && CanDo(w, DoStop(t)) && t in w.holder
    ensures var v := Do(w, DoStop(t));
      IsRun(v, steps) && CarefulRun(v, steps) && !Distinct(After(v, steps).freed)
  {
    hide Inv, Unlink;
    var r, v := w.holder[t], Do(w, DoStop(t));
    assert ListOk(w, r);
    StopInv(w, t);
    UnlinkKeeps(w.s, t);
    ReaperRuns(w, r);
    var ticks := TicksTo(v, r);
    var u := After(v, ticks);
    var rest := FreesAll(u, r);
    RunThen(v, ticks, rest);
    Twice(w.freed, w.phase[r].pending, t);
    steps := ticks + rest;
  }

  lemma ReaperRuns(w: World, r: int)
    requires Inv(w.s) && ReapersOk(w) && r in w.phase && w.phase[r].Reaping?
    ensures Runnable(w.s, r)
  {}

  /** A task stopped while it is on the zombie list is freed a second time when the list is reaped. */
  lemma ListedFreedTwice(w: World, t: int) returns (steps: seq<Step>)
    requires Safe(w) && CanDo(w, DoStop(t)) && t in w.s.zombies
    ensures var v := Do(w, DoStop(t));
      IsRun(v, steps) && CarefulRun(v, steps) && !Distinct(After(v, steps).freed)
  {
    hide Inv, Unlink;
    var v, a := Do(w, DoStop(t)), Actor(w.s);
    ZombieMembers(w.s);
    UnlinkKeeps(w.s, t);
    OneStep(v, DoDetach);
    var u := Do(v, DoDetach);
    var rest := FreesAll(u, a);
    RunThen(v, [DoDetach], rest);
    Twice(w.freed, w.s.zombies, t);
    steps := [DoDetach] + rest;
  }

  /** Some run of careful steps frees a task twice. */
  ghost predicate DoubleFree(w: World) {
    exists steps :: IsRun(w, steps) && CarefulRun(w, steps) && !Distinct(After(w, steps).freed)
  }

  /** Stopping a task leads to a double free if and only if the task is on the zombie list or held by a
      reaper. That is, if and only if it is a zombie that is not lost. */
  lemma StopExactly(w: World, t: int)
    requires Safe(w) && CanDo(w, DoStop(t))
    ensures DoubleFree(Do(w, DoStop(t))) <==> t in w.s.zombies || t in w.holder
    ensures DoubleFree(Do(w, DoStop(t))) <==> t in w.s.state && w.s.state[t] == Zombie && !Lost(w, t)
  {
    hide Inv, ListOk, ReapersOk, MarkedOk, FreedOk, Do;
    var v := Do(w, DoStop(t));
    ZombieMembers(w.s);
    if t in w.s.zombies {
      var steps := ListedFreedTwice(w, t);
      assert DoubleFree(v);
    } else if t in w.holder {
      var steps := HeldFreedTwice(w, t);
      assert DoubleFree(v);
    } else {
      StepSafe(w, DoStop(t));
      forall steps | IsRun(v, steps) && CarefulRun(v, steps) ensures Distinct(After(v, steps).freed) {
        RunSafe(v, steps);
      }
      RingInState(w.s, t);
    }
  }

  // ---------------------------------------------------------------------
  // Lost zombies
  // ---------------------------------------------------------------------

  /** A zombie that is on no list, held by no reaper, and will not run again. */
  predicate Lost(w: World, z: int) { Dead(w, z) && w.s.current != Some(z) && z !in w.holder }

  /** A zombie gets lost exactly when a tick comes between its being marked and being listed, or
      when the reaper that holds it is stopped. */
  lemma LostExactly(w: World, st: Step, z: int)
    requires Safe(w) && CanDo(w, st) && !Lost(w, z)
    ensures Lost(Do(w, st), z) <==>
      || (st.DoTick? && w.s.current == Some(z) && PhaseOf(w, z).Marked?)
      || (st.DoStop? && z in w.holder && w.holder[z] == st.t && z != st.t)
  {
    hide Inv, Unlink, Tick, FreedOk, ReapersOk;
    ZombieMembers(w.s);
    var a := Actor(w.s);
    match st
    case DoTick => TickMoves(w.s);
    case DoUnlink =>
      assert ListOk(w, a);
      UnlinkKeeps(w.s, w.phase[a].pending[0]);
    case DoFree => assert ListOk(w, a);
    case DoStop(t) => UnlinkKeeps(w.s, t);
    case DoStopSelf => UnlinkSelf(Push(Mark(w.s), a), a);
    case _ =>
  }

  /** A lost zombie stays lost, and is not freed, exactly until it is itself stopped. */
  lemma LostUntilStopped(w: World, st: Step, z: int)
    requires Safe(w) && CanDo(w, st) && Lost(w, z)
    ensures Lost(Do(w, st), z) <==> st != DoStop(z)
    ensures z in Do(w, st).freed <==> st == DoStop(z)
    ensures z !in w.s.ring ==> z !in Do(w, st).s.ring
  {
    hide Inv, Unlink, Tick, ReapersOk;
    ZombieMembers(w.s);
    var a := Actor(w.s);
    match st
    case DoTick => TickMoves(w.s);
    case DoUnlink =>
      assert ListOk(w, a);
      UnlinkKeeps(w.s, w.phase[a].pending[0]);
      UnlinkRing(w.s, w.phase[a].pending[0], z);
    case DoFree => assert ListOk(w, a);
    case DoStop(t) =>
      UnlinkKeeps(w.s, t);
      UnlinkRing(w.s, t, z);
    case DoStopSelf =>
      UnlinkSelf(Push(Mark(w.s), a), a);
      UnlinkRing(Push(Mark(w.s), a), a, z);
    case _ =>
  }

  lemma UnlinkRing(s: Sched<int>, t: int, z: int)
    ensures z in Unlink(s, t).ring ==> z in s.ring
  {}

  /** Over whole runs: a lost zombie that is not stopped, and in particular one that has left the ring,
      is never freed. */
  lemma {:induction false} LostForGood(w: World, steps: seq<Step>, z: int)
    requires Safe(w) && IsRun(w, steps) && CarefulRun(w, steps) && Lost(w, z)
    requires DoStop(z) !in steps || z !in w.s.ring
    ensures Lost(After(w, steps), z) && z !in After(w, steps).freed
    decreases |steps|
  {
    hide Inv, ListsOk, ReapersOk, MarkedOk, Do;
    if steps != [] {
      StepSafe(w, steps[0]);
      LostUntilStopped(w, steps[0], z);
      LostForGood(Do(w, steps[0]), steps[1..], z);
    }
  }

  lemma RingInState(s: Sched<int>, t: int)
    requires Inv(s) && t in s.ring
    ensures t in s.state
  {}

  // ---------------------------------------------------------------------
  // Runs from the start in which this happens
  // ---------------------------------------------------------------------

  /** A tick, by the order of the search and the place of the first runnable task in it. */
  lemma TickIs(s: Sched<int>, o: seq<int>, i: nat)
    requires Order(Preempt(s)) == o && i < |o| && Runnable(Preempt(s), o[i])
    requires forall j :: 0 <= j < i ==> !Runnable(Preempt(s), o[j])
    ensures var p := Preempt(s);
      Tick(s) == p.(current := Some(o[i]), after := p.init, state := p.state[o[i] := Running])
  {
    hide Order;
    assert FirstRunnable(Preempt(s), o) == i;
  }

  lemma Then(w: World, steps: seq<Step>, u: World, st: Step, v: World)
    requires IsRun(w, steps) && CarefulRun(w, steps) && After(w, steps) == u
    requires CanDo(u, st) && Careful(u, st) && Do(u, st) == v
    ensures IsRun(w, steps + [st]) && CarefulRun(w, steps + [st]) && After(w, steps + [st]) == v
  {
    hide CanDo, Careful, Do;
    OneStep(u, st);
    RunThen(w, steps, [st]);
  }

  function States(s0: TaskState, s1: TaskState, s2: TaskState): map<int, TaskState> {
    map[0 := s0, 1 := s1, 2 := s2]
  }

  /** Three tasks, of which c is current. */
  function Three(c: int, states: map<int, TaskState>, zombies: seq<int>): Sched<int> {
    Sched(0, [0, 1, 2], Some(c), 0, states, zombies)
  }

  /** A tick of three tasks: the first runnable one behind the current one. */
  lemma TickThree(c: int, n: int, states: map<int, TaskState>, zombies: seq<int>)
    requires 0 <= c < 3 && 0 <= n < 3 && states.Keys == {0, 1, 2}
    requires n == (c + 1) % 3 && (states[n] == Ready || states[n] == Running)
    ensures Tick(Three(c, states, zombies)) ==
      Three(n, (if states[c] == Running then states[c := Ready] else states)[n := Running], zombies)
  {
    hide Tick, Order;
    OrderThree(Preempt(Three(c, states, zombies)), c);
    TickIs(Three(c, states, zombies), Order(Preempt(Three(c, states, zombies))), 0);
  }

  lemma OrderThree(p: Sched<int>, c: int)
    requires 0 <= c < 3 && p.ring == [0, 1, 2] && p.current == Some(c)
    ensures |Order(p)| == 3 && Order(p)[0] == (c + 1) % 3
  {
    assert p.ring[c] == c && Index(p.ring, c) == c;
  }

  /** Two tasks are created, and the first one runs. */
  const RUNS := [DoTick] + [DoCreate(1)] + [DoCreate(2)] + [DoTick]
  const RUNNING := World(Three(1, States(Ready, Running, Ready), []), map[], map[], [])

  lemma Runs()
    ensures IsRun(BOOT, RUNS) && CarefulRun(BOOT, RUNS) && After(BOOT, RUNS) == RUNNING
  {
    hide IsRun, CarefulRun, After, Tick, Order;
    Started();
    var w1 := BOOT.(s := BOOT.s.(current := Some(0)));
    var w2 := w1.(s := Create(w1.s, 1));
    var w3 := w1.(s := Three(0, States(Running, Ready, Ready), []));
    assert Create(w2.s, 2) == w3.s;
    OneStep(BOOT, DoTick);
    Then(BOOT, [DoTick], w1, DoCreate(1), w2);
    Then(BOOT, [DoTick] + [DoCreate(1)], w2, DoCreate(2), w3);
    TickThree(0, 1, States(Running, Ready, Ready), []);
    Then(BOOT, [DoTick] + [DoCreate(1)] + [DoCreate(2)], w3, DoTick, RUNNING);
  }

  lemma Started()
    ensures Tick(BOOT.s) == BOOT.s.(current := Some(0))
  {
    TickIs(BOOT.s, [0], 0);
  }

  /** It leaves, and a tick comes too early: it is lost, though still in the ring. */
  const LOSES := RUNS + [DoMark] + [DoTick]
  const MARKED := World(Three(1, States(Ready, Zombie, Ready), []), map[1 := Marked], map[], [])
  const LOST := World(Three(2, States(Ready, Zombie, Running), []), map[1 := Marked], map[], [])

  lemma LostReachable()
    ensures IsRun(BOOT, LOSES) && CarefulRun(BOOT, LOSES) && After(BOOT, LOSES) == LOST
    ensures Lost(LOST, 1) && 1 in LOST.s.ring
  {
    hide IsRun, CarefulRun, After, Tick;
    Runs();
    Then(BOOT, RUNS, RUNNING, DoMark, MARKED);
    TickThree(1, 2, States(Ready, Zombie, Ready), []);
    Then(BOOT, RUNS + [DoMark], MARKED, DoTick, LOST);
    assert LOST.s.ring[1] == 1;
  }

  /** It leaves in time, the second one detaches it and is preempted: the first task may stop either. */
  const HOLDS := RUNS + [DoMark] + [DoPush] + [DoTick] + [DoDetach] + [DoTick]
  const LISTED := World(Three(1, States(Ready, Zombie, Ready), [1]), map[1 := Idle], map[], [])
  const REAPS := World(Three(2, States(Ready, Zombie, Running), [1]), map[1 := Idle], map[], [])
  const DETACHED :=
    World(Three(2, States(Ready, Zombie, Running), []), map[1 := Idle, 2 := Reaping([1], false)], map[1 := 2], [])
  const HOLDING :=
    World(Three(0, States(Running, Zombie, Ready), []), map[1 := Idle, 2 := Reaping([1], false)], map[1 := 2], [])

  lemma Holds()
    ensures IsRun(BOOT, HOLDS) && CarefulRun(BOOT, HOLDS) && After(BOOT, HOLDS) == HOLDING
  {
    hide IsRun, CarefulRun, After, Tick;
    Runs();
    Then(BOOT, RUNS, RUNNING, DoMark, MARKED);
    Then(BOOT, RUNS + [DoMark], MARKED, DoPush, LISTED);
    TickThree(1, 2, States(Ready, Zombie, Ready), [1]);
    Then(BOOT, RUNS + [DoMark] + [DoPush], LISTED, DoTick, REAPS);
    Then(BOOT, RUNS + [DoMark] + [DoPush] + [DoTick], REAPS, DoDetach, DETACHED);
    TickThree(2, 0, States(Ready, Zombie, Running), []);
    Then(BOOT, RUNS + [DoMark] + [DoPush] + [DoTick] + [DoDetach], DETACHED, DoTick, HOLDING);
  }

  /** Stopping the zombie then leads to a double free; stopping the reaper loses the zombie. */
  lemma StopsReachable()
    ensures CanDo(HOLDING, DoStop(1)) && DoubleFree(Do(HOLDING, DoStop(1)))
    ensures CanDo(HOLDING, DoStop(2)) && Careful(HOLDING, DoStop(2)) && Lost(Do(HOLDING, DoStop(2)), 1)
  {
    hide IsRun, CarefulRun, After, Tick, Do, DoubleFree, Safe;
    Holds();
    BootSafe();
    RunSafe(BOOT, HOLDS);
    assert HOLDING.s.ring[1] == 1 && HOLDING.s.ring[2] == 2;
    StopExactly(HOLDING, 1);
    LostExactly(HOLDING, DoStop(2), 1);
  }
}
