/** Round-robin scheduling on values. The ring is the sequence of tasks from task_ring->next
    to task_ring; the scheduler looks for the next task in the order that starts after the
    current one. Tasks are of any type. */
module Scheduling {
  import opened Basics

  datatype TaskState = Running | Ready | Blocked | Zombie

  /** `after` is the task that the next-pointer of the current task points to while that task has
      left the ring, and otherwise `init`. `state` holds the tasks not yet freed. */
  datatype Sched<T(==)> =
    Sched(init: T, ring: seq<T>, current: Option<T>, after: T, state: map<T, TaskState>, zombies: seq<T>)

  function Index<T(==)>(s: seq<T>, t: T): (i: nat)
    ensures i <= |s| && (i < |s| <==> t in s) && (i < |s| ==> s[i] == t)
    ensures forall j :: 0 <= j < i ==> s[j] != t
  {
    if s == [] || s[0] == t then 0 else 1 + Index(s[1..], t)
  }

  function Without<T(==)>(s: seq<T>, t: T): seq<T> {
    if t in s then s[..Index(s, t)] + s[Index(s, t) + 1..] else s
  }

  function Rotate<T>(s: seq<T>, k: int): seq<T>
    requires 0 <= k <= |s|
  {
    s[k..] + s[..k]
  }

  predicate Runnable<T(==)>(s: Sched<T>, t: T) {
    t in s.state && (s.state[t] == Ready || s.state[t] == Running)
  }

  /** Position in the ring where the search for the next task starts. */
  function Start<T(==)>(s: Sched<T>): (k: nat)
    ensures k <= |s.ring|
  {
    if s.current.None? then 0
    else if s.current.value in s.ring then
      var k := Index(s.ring, s.current.value) + 1;
      if k == |s.ring| then 0 else k
    else Index(s.ring, s.after)
  }

  /** The ring in the order in which the scheduler looks at it. */
  function Order<T(==)>(s: Sched<T>): seq<T> { Rotate(s.ring, Start(s)) }

  function FirstRunnable<T(==)>(s: Sched<T>, order: seq<T>): (i: nat)
    ensures i <= |order| && (i < |order| ==> Runnable(s, order[i]))
    ensures forall j :: 0 <= j < i ==> !Runnable(s, order[j])
  {
    if order == [] || Runnable(s, order[0]) then 0 else 1 + FirstRunnable(s, order[1..])
  }

  function PickNext<T(==)>(s: Sched<T>): Option<T> {
    var order := Order(s);
    var i := FirstRunnable(s, order);
    if i < |order| then Some(order[i]) else None
  }

  // ---------------------------------------------------------------------
  // Steps
  // ---------------------------------------------------------------------

  /** What a tick does before it looks for the next task. */
  function Preempt<T(==)>(s: Sched<T>): Sched<T> {
    if s.current.None? then s.(current := Some(s.init), state := s.state[s.init := Running])
    else if s.current.value in s.state && s.state[s.current.value] == Running then
      s.(state := s.state[s.current.value := Ready])
    else s
  }

  function Tick<T(==)>(s: Sched<T>): Sched<T> {
    var p := Preempt(s);
    var next := PickNext(p);
    if next.None? then p else p.(current := next, after := p.init, state := p.state[next.value := Running])
  }

  function Create<T(==)>(s: Sched<T>, t: T): Sched<T> {
    s.(ring := s.ring + [t], state := s.state[t := Ready])
  }

  /** The current task becomes a zombie. */
  function Mark<T(==)>(s: Sched<T>): Sched<T> {
    if s.current.None? || s.current.value == s.init then s
    else s.(state := s.state[s.current.value := Zombie])
  }

  function Push<T(==)>(s: Sched<T>, t: T): Sched<T> { s.(zombies := [t] + s.zombies) }

  /** Takes a task out of the ring. The next-pointer of the task itself stays. */
  function Unlink<T(==)>(s: Sched<T>, t: T): Sched<T> {
    if t !in s.ring || |s.ring| == 1 then s
    else s.(ring := Without(s.ring, t),
            after := if s.current == Some(t) then Rotate(s.ring, Index(s.ring, t))[1] else s.after)
  }

  function Free<T(==)>(s: Sched<T>, t: T): Sched<T> { s.(state := s.state - {t}) }

  /** Takes out and frees the given zombies. */
  function Reap<T(==)>(s: Sched<T>, zs: seq<T>): Sched<T>
    decreases |zs|
  {
    if zs == [] then s else Reap(Free(Unlink(s, zs[0]), zs[0]), zs[1..])
  }

  function ReapAll<T(==)>(s: Sched<T>): Sched<T> { Reap(s.(zombies := []), s.zombies) }

  function Exit<T(==)>(s: Sched<T>): Sched<T> {
    var r := ReapAll(s);
    if r.current.None? || r.current.value == r.init then r else Push(Mark(r), r.current.value)
  }

  /** Stopping a task t that is not the first one. */
  function Stop<T(==)>(s: Sched<T>, t: T): Sched<T> {
    var r := ReapAll(s);
    if t !in r.ring then r
    else if r.current == Some(t) then Unlink(Push(Mark(r), t), t)
    else Free(Unlink(r, t), t)
  }

  // ---------------------------------------------------------------------
  // What every step keeps
  // ---------------------------------------------------------------------

  ghost predicate Inv<T>(s: Sched<T>) {
    && Distinct(s.ring) && s.init in s.ring
    && (forall t :: t in s.ring ==> t in s.state)
    && s.init in s.state && s.state[s.init] in {Running, Ready}
    && (forall t :: t in s.state ==> s.state[t] != Blocked)
    && (forall t :: t in s.state && s.state[t] == Running ==> s.current == Some(t) || t == s.init)
    && (s.current.Some? ==> s.current.value in s.state)
    && (s.current.Some? && s.current.value !in s.ring ==> s.state[s.current.value] == Zombie && s.after in s.ring)
    && Distinct(s.zombies)
    && (forall t :: t in s.zombies ==> t in s.state && s.state[t] == Zombie)
  }

  /** The current task may act: it is not a zombie that only waits for the next tick. */
  predicate Active<T(==)>(s: Sched<T>) {
    s.current.Some? ==> s.current.value in s.state && s.state[s.current.value] != Zombie
  }

  lemma RotateElements<T>(s: seq<T>, k: int)
    requires 0 <= k <= |s|
    ensures |Rotate(s, k)| == |s| && forall t :: t in Rotate(s, k) <==> t in s
  {
    assert s == s[..k] + s[k..];
  }

  /** A tick always finds a task: one of the ring that is not a zombie. */
  lemma TickChooses<T>(s: Sched<T>)
    requires Inv(s)
    ensures var n := Tick(s);
      && n.current.Some? && n.current.value in s.ring
      && Runnable(n, n.current.value) && n.state[n.current.value] == Running
    ensures PickNext(Preempt(s)) == Tick(s).current && Runnable(Preempt(s), Tick(s).current.value)
  {
    hide Inv, Order, Preempt, Runnable, FirstRunnable;
    var p := Preempt(s);
    InitRuns(s);
    OrderElements(p);
    Finds(p, Order(p), s.init);
    NowRuns(p, PickNext(p).value);
  }

  lemma OrderElements<T>(s: Sched<T>)
    ensures |Order(s)| == |s.ring| && forall t :: t in Order(s) <==> t in s.ring
  {
    hide Start, Rotate;
    RotateElements(s.ring, Start(s));
  }

  lemma InitRuns<T>(s: Sched<T>)
    requires Inv(s)
    ensures Preempt(s).ring == s.ring && s.init in s.ring && Runnable(Preempt(s), s.init)
  {}

  lemma Finds<T>(s: Sched<T>, order: seq<T>, t: T)
    requires t in order && Runnable(s, t)
    ensures var i := FirstRunnable(s, order); i < |order| && order[i] in order && Runnable(s, order[i])
  {
    hide Runnable, FirstRunnable;
    var k :| 0 <= k < |order| && order[k] == t;
  }

  lemma NowRuns<T>(s: Sched<T>, t: T)
    ensures Runnable(s.(current := Some(t), after := s.init, state := s.state[t := Running]), t)
  {}

  lemma TickInv<T>(s: Sched<T>)
    requires Inv(s)
    ensures Inv(Tick(s))
  {
    hide PickNext;
    TickChooses(s);
  }

  lemma PreemptInv<T>(s: Sched<T>)
    requires Inv(s)
    ensures Inv(Preempt(s))
  {}

  lemma CreateInv<T>(s: Sched<T>, t: T)
    requires Inv(s) && t !in s.state
    ensures Inv(Create(s, t))
  {
    var n := Create(s, t);
    assert forall x :: x in n.ring <==> x in s.ring || x == t;
  }

  lemma CutDistinct<T>(s: seq<T>, i: int)
    requires Distinct(s) && 0 <= i < |s|
    ensures Distinct(s[..i] + s[i + 1..])
  {
    var w := s[..i] + s[i + 1..];
    forall a, b | 0 <= a < b < |w| ensures w[a] != w[b] {
      assert w[a] == s[if a < i then a else a + 1];
      assert w[b] == s[if b < i then b else b + 1];
    }
  }

  lemma CutMember<T>(s: seq<T>, i: int, x: T)
    requires Distinct(s) && 0 <= i < |s|
    ensures x in s[..i] + s[i + 1..] <==> x in s && x != s[i]
  {
    var w := s[..i] + s[i + 1..];
    if x in s && x != s[i] {
      var k :| 0 <= k < |s| && s[k] == x;
      assert w[if k < i then k else k - 1] == x;
    }
    if x in w {
      var k :| 0 <= k < |w| && w[k] == x;
      assert s[if k < i then k else k + 1] == x;
    }
  }

  lemma WithoutElements<T>(s: seq<T>, t: T)
    requires Distinct(s)
    ensures Distinct(Without(s, t)) && forall x :: x in Without(s, t) <==> x in s && x != t
  {
    hide Index, Distinct;
    if t in s {
      CutDistinct(s, Index(s, t));
      forall x ensures x in Without(s, t) <==> x in s && x != t { CutMember(s, Index(s, t), x); }
    }
  }

  lemma UnlinkInv<T>(s: Sched<T>, t: T)
    requires Inv(s) && t != s.init && (s.current == Some(t) ==> s.state[t] == Zombie)
    requires t == s.after ==> s.current.None? || s.current.value in s.ring
    ensures Inv(Unlink(s, t)) && t !in Unlink(s, t).ring
    ensures forall x :: x in Unlink(s, t).ring <==> x in s.ring && x != t
  {
    WithoutElements(s.ring, t);
    if t in s.ring {
      var i := Index(s.ring, t);
      RotateElements(s.ring, i);
      assert Rotate(s.ring, i)[1] == if i + 1 < |s.ring| then s.ring[i + 1] else s.ring[0];
    }
  }

  lemma MarkInv<T>(s: Sched<T>)
    requires Inv(s) && Active(s)
    ensures Inv(Mark(s))
  {}

  lemma PushInv<T>(s: Sched<T>, t: T)
    requires Inv(s) && t in s.state && s.state[t] == Zombie && t !in s.zombies
    ensures Inv(Push(s, t))
  {}

  lemma FreeInv<T>(s: Sched<T>, t: T)
    requires Inv(s) && t !in s.ring && s.current != Some(t) && t !in s.zombies
    ensures Inv(Free(s, t))
  {}

  // ---------------------------------------------------------------------
  // Runs and bounded waiting
  // ---------------------------------------------------------------------

  datatype Op<T> =
    OpTick | OpCreate(t: T) | OpMark | OpPush(t: T) | OpDetach | OpUnlink(t: T) | OpFree(t: T)

  function Apply<T(==)>(s: Sched<T>, op: Op<T>): Sched<T> {
    match op
    case OpTick => Tick(s)
    case OpCreate(t) => Create(s, t)
    case OpMark => Mark(s)
    case OpPush(t) => Push(s, t)
    case OpDetach => s.(zombies := [])
    case OpUnlink(t) => Unlink(s, t)
    case OpFree(t) => Free(s, t)
  }

  ghost predicate Enabled<T>(s: Sched<T>, op: Op<T>) {
    match op
    case OpTick => true
    case OpCreate(t) => t !in s.state
    case OpMark => Active(s)
    case OpPush(t) => t in s.state && s.state[t] == Zombie && t !in s.zombies
    case OpDetach => true
    case OpUnlink(t) =>
      && t != s.init && (s.current == Some(t) ==> t in s.state && s.state[t] == Zombie)
      && (t == s.after ==> s.current.None? || s.current.value in s.ring)
    case OpFree(t) => t !in s.ring && s.current != Some(t) && t !in s.zombies
  }

  /** Every step keeps the ring, the states and the zombie list in order. */
  lemma ApplyInv<T>(s: Sched<T>, op: Op<T>)
    requires Inv(s) && Enabled(s, op)
    ensures Inv(Apply(s, op))
  {
    match op
    case OpTick => TickInv(s);
    case OpCreate(t) => CreateInv(s, t);
    case OpMark => MarkInv(s);
    case OpPush(t) => PushInv(s, t);
    case OpDetach =>
    case OpUnlink(t) => UnlinkInv(s, t);
    case OpFree(t) => FreeInv(s, t);
  }

  function Count<T(==)>(s: Sched<T>, q: seq<T>): nat {
    if q == [] then 0 else (if Runnable(s, q[0]) then 1 else 0) + Count(s, q[1..])
  }

  lemma {:induction false} CountAppend<T>(s: Sched<T>, a: seq<T>, b: seq<T>)
    ensures Count(s, a + b) == Count(s, a) + Count(s, b)
  {
    if a == [] { assert a + b == b; }
    else {
      assert (a + b)[1..] == a[1..] + b;
      CountAppend(s, a[1..], b);
    }
  }

  lemma {:induction false} CountFewer<T>(s: Sched<T>, s': Sched<T>, q: seq<T>)
    requires forall t :: t in q && Runnable(s', t) ==> Runnable(s, t)
    ensures Count(s', q) <= Count(s, q)
  {
    if q != [] { CountFewer(s, s', q[1..]); }
  }

  lemma {:induction false} CountNone<T>(s: Sched<T>, q: seq<T>)
    requires forall i :: 0 <= i < |q| ==> !Runnable(s, q[i])
    ensures Count(s, q) == 0
  {
    if q != [] { CountNone(s, q[1..]); }
  }

  /** The order in which the next tick will look at the ring. */
  function Turns<T(==)>(s: Sched<T>): seq<T> { Order(Preempt(s)) }

  /** Number of tasks that the scheduler prefers to t at the next tick. */
  function Ahead<T(==)>(s: Sched<T>, t: T): nat {
    Count(s, Turns(s)[..Index(Turns(s), t)])
  }

  lemma IndexIs<T>(s: seq<T>, t: T, a: seq<T>, b: seq<T>)
    requires s == a + [t] + b && t !in a
    ensures Index(s, t) == |a| && s[..Index(s, t)] == a
  {
    assert s[|a|] == t;
    assert forall j :: 0 <= j < |a| ==> s[j] == a[j];
  }

  lemma RotateDistinct<T>(s: seq<T>, k: int)
    requires Distinct(s) && 0 <= k <= |s|
    ensures Distinct(Rotate(s, k))
  {}

  lemma IndexAt<T>(s: seq<T>, i: int)
    requires Distinct(s) && 0 <= i < |s|
    ensures Index(s, s[i]) == i
  {}

  function Wrap(j: int, n: int): int { if j >= n then j - n else j }

  lemma RotateAgain<T>(s: seq<T>, k: int, i: int)
    requires 0 <= k < |s| && 0 <= i < |s|
    ensures Rotate(s, k)[i] == s[Wrap(k + i, |s|)]
    ensures Rotate(s, Wrap(k + i + 1, |s|)) == Rotate(s, k)[i + 1..] + Rotate(s, k)[..i + 1]
  {
    var r := Rotate(s, k);
    if k + i + 1 < |s| {
      assert r[i + 1..] == s[k + i + 1..] + s[..k] && r[..i + 1] == s[k..k + i + 1];
    } else {
      var j := k + i + 1 - |s|;
      assert r[i + 1..] == s[j..k] && r[..i + 1] == s[k..] + s[..j];
    }
  }

  lemma RingFacts<T>(s: Sched<T>)
    requires Inv(s)
    ensures Distinct(s.ring) && |s.ring| > 0 && Start(s) < |s.ring| && Start(Preempt(s)) < |s.ring|
    ensures Preempt(s).ring == s.ring
    ensures forall t :: Runnable(Preempt(s), t) <==> Runnable(s, t)
    ensures forall t :: Runnable(Tick(s), t) <==> Runnable(s, t)
  {
    hide PickNext;
    TickChooses(s);
  }

  /** The task behind which the next tick starts to look. */
  function Actor<T(==)>(s: Sched<T>): T { if s.current.None? then s.init else s.current.value }

  function Begin<T(==)>(r: seq<T>, c: T, after: T): (k: nat)
    ensures k <= |r|
  {
    if c in r then Wrap(Index(r, c) + 1, |r|) else Index(r, after)
  }

  lemma TurnsIs<T>(s: Sched<T>)
    ensures Turns(s) == Rotate(s.ring, Begin(s.ring, Actor(s), s.after))
  {}

  lemma TickPicks<T>(s: Sched<T>)
    requires Inv(s)
    ensures var o := Turns(s);
      var i := FirstRunnable(Preempt(s), o);
      i < |o| == |s.ring| && Tick(s).current == Some(o[i]) && Tick(s).ring == s.ring && o[i] in s.ring
  {
    hide FirstRunnable, Rotate;
    TickChooses(s);
    RotateElements(s.ring, Start(Preempt(s)));
  }

  lemma RotateAfter<T>(r: seq<T>, k: int, i: int)
    requires Distinct(r) && 0 <= k < |r| && 0 <= i < |r|
    ensures var o := Rotate(r, k);
      o[i] in r && Rotate(r, Wrap(Index(r, o[i]) + 1, |r|)) == o[i + 1..] + o[..i + 1]
  {
    hide Index, Distinct, Rotate;
    RotateElements(r, k);
    RotateAgain(r, k, i);
    IndexAt(r, Wrap(k + i, |r|));
    assert Wrap(Wrap(k + i, |r|) + 1, |r|) == Wrap(k + i + 1, |r|);
  }

  /** After a tick the search starts behind the task just chosen. */
  lemma TickTurns<T>(s: Sched<T>)
    requires Inv(s)
    ensures var o := Turns(s);
      var i := FirstRunnable(Preempt(s), o);
      i < |o| && Tick(s).current == Some(o[i]) && Turns(Tick(s)) == o[i + 1..] + o[..i + 1]
  {
    hide FirstRunnable, Inv, Distinct, Index, Tick, Preempt, Turns, Rotate, Start;
    RingFacts(s);
    TickPicks(s);
    BeginInRing(s);
    TurnsIs(s);
    TurnsIs(Tick(s));
    RotateAfter(s.ring, Begin(s.ring, Actor(s), s.after), FirstRunnable(Preempt(s), Turns(s)));
  }

  lemma BeginInRing<T>(s: Sched<T>)
    requires Inv(s)
    ensures Begin(s.ring, Actor(s), s.after) < |s.ring|
  {}

  /** The count ahead of t when the first runnable task of o, which is not t, moves to the end. */
  lemma CountDrops<T>(s: Sched<T>, n: Sched<T>, o: seq<T>, i: int, t: T)
    requires Distinct(o) && t in o && Runnable(s, t) && (forall x :: Runnable(n, x) <==> Runnable(s, x))
    requires 0 <= i < |o| && o[i] != t && Runnable(s, o[i]) && forall j :: 0 <= j < i ==> !Runnable(s, o[j])
    ensures var o' := o[i + 1..] + o[..i + 1];
      Count(n, o'[..Index(o', t)]) == Count(s, o[..Index(o, t)]) - 1
  {
    hide Runnable, Count, Index;
    var o', m := o[i + 1..] + o[..i + 1], Index(o, t);
    var mid, rest := o[i + 1..m], o[m + 1..] + o[..i + 1];
    assert o' == mid + [t] + rest;
    IndexIs(o', t, mid, rest);
    assert o[..m] == o[..i] + ([o[i]] + mid);
    CountAppend(s, o[..i], [o[i]] + mid);
    CountAppend(s, [o[i]], mid);
    CountOne(s, o[i]);
    CountNone(s, o[..i]);
    CountFewer(s, n, mid);
    CountFewer(n, s, mid);
  }

  /** A tick that does not choose t uses up one of the tasks ahead of t. */
  lemma TickAhead<T>(s: Sched<T>, t: T)
    requires Inv(s) && t in s.ring && Runnable(s, t) && Tick(s).current != Some(t)
    ensures Ahead(Tick(s), t) == Ahead(s, t) - 1
  {
    hide Inv, Tick, Preempt, Order, Index, Count, Runnable;
    TickTurns(s);
    TurnsElements(s);
    RingFacts(s);
    CountDrops(s, Tick(s), Turns(s), FirstRunnable(Preempt(s), Turns(s)), t);
  }

  lemma CountOne<T>(s: Sched<T>, t: T)
    ensures Count(s, [t]) == if Runnable(s, t) then 1 else 0
  {}

  lemma TurnsElements<T>(s: Sched<T>)
    requires Inv(s)
    ensures Distinct(Turns(s)) && |Turns(s)| == |s.ring| && forall t :: t in Turns(s) <==> t in s.ring
  {
    RotateElements(s.ring, Start(Preempt(s)));
    RotateDistinct(s.ring, Start(Preempt(s)));
  }

  /** One more element x in the order puts at most one more task ahead of t. */
  lemma CountInserted<T>(s: Sched<T>, n: Sched<T>, a: seq<T>, b: seq<T>, x: T, t: T)
    requires t in a + b && t != x && forall y :: y in a + b ==> (Runnable(n, y) <==> Runnable(s, y))
    ensures var less := Count(s, (a + b)[..Index(a + b, t)]);
      less <= Count(n, (a + [x] + b)[..Index(a + [x] + b, t)]) <= less + 1
  {
    hide Runnable, Count, Index;
    if t in a {
      var i := Index(a, t);
      var u, v := a[..i], a[i + 1..];
      assert a + b == u + [t] + (v + b) && a + [x] + b == u + [t] + (v + [x] + b);
      IndexIs(a + b, t, u, v + b);
      IndexIs(a + [x] + b, t, u, v + [x] + b);
      CountSame(s, n, u);
    } else {
      var i := Index(b, t);
      var u, v := b[..i], b[i + 1..];
      assert a + b == (a + u) + [t] + v && a + [x] + b == (a + [x] + u) + [t] + v;
      IndexIs(a + b, t, a + u, v);
      IndexIs(a + [x] + b, t, a + [x] + u, v);
      CountAppend(s, a, u);
      CountAppend(n, a + [x], u);
      CountAppend(n, a, [x]);
      CountOne(n, x);
      CountSame(s, n, a);
      CountSame(s, n, u);
    }
  }

  lemma CountSame<T>(s: Sched<T>, n: Sched<T>, q: seq<T>)
    requires forall y :: y in q ==> (Runnable(n, y) <==> Runnable(s, y))
    ensures Count(n, q) == Count(s, q)
  {
    CountFewer(s, n, q);
    CountFewer(n, s, q);
  }

  lemma IndexPrefix<T>(r: seq<T>, x: T, t: T)
    requires t in r
    ensures Index(r + [x], t) == Index(r, t)
  {
    assert (r + [x])[Index(r, t)] == t;
    assert forall j :: 0 <= j < Index(r, t) ==> (r + [x])[j] == r[j];
  }

  /** A new element at the end of the ring is put somewhere into the order; the rest stays. */
  lemma InsertedRotation<T>(r: seq<T>, c: T, after: T, x: T) returns (a: seq<T>, b: seq<T>)
    requires c in r || after in r
    requires x !in r && c != x
    ensures Rotate(r, Begin(r, c, after)) == a + b
    ensures Rotate(r + [x], Begin(r + [x], c, after)) == a + [x] + b
  {
    hide Index;
    IndexPrefix(r, x, if c in r then c else after);
    assert c in r + [x] <==> c in r;
    var k := Begin(r, c, after);
    if c in r && k == 0 {
      a, b := [], r;
      assert Rotate(r + [x], |r|) == [x] + r;
    } else {
      a, b := r[k..], r[..k];
      assert Rotate(r + [x], k) == r[k..] + [x] + r[..k];
    }
  }

  lemma ActorFacts<T>(s: Sched<T>)
    requires Inv(s)
    ensures Actor(s) in s.state && (Actor(s) in s.ring || s.after in s.ring)
  {}

  lemma CreateTurns<T>(s: Sched<T>, x: T) returns (a: seq<T>, b: seq<T>)
    requires Inv(s) && x !in s.state
    ensures Turns(s) == a + b && Turns(Create(s, x)) == a + [x] + b
  {
    hide Index, Begin, Turns;
    ActorFacts(s);
    TurnsIs(s);
    TurnsIs(Create(s, x));
    a, b := InsertedRotation(s.ring, Actor(s), s.after, x);
  }

  lemma CreateAhead<T>(s: Sched<T>, x: T, t: T)
    requires Inv(s) && x !in s.state && t in s.ring
    ensures Ahead(Create(s, x), t) <= Ahead(s, t) + 1
  {
    hide Turns, Index, Count;
    var a, b := CreateTurns(s, x);
    TurnsElements(s);
    CountInserted(s, Create(s, x), a, b, x, t);
  }

  lemma IndexWithout<T>(r: seq<T>, i: int, c: T)
    requires Distinct(r) && 0 <= i < |r| && c in r && c != r[i]
    ensures var w := r[..i] + r[i + 1..];
      c in w && Index(w, c) == if Index(r, c) < i then Index(r, c) else Index(r, c) - 1
  {
    var w, j := r[..i] + r[i + 1..], Index(r, c);
    var m := if j < i then j else j - 1;
    assert w[m] == c;
    WithoutAt(r, i);
    WithoutElements(r, r[i]);
    IndexAt(w, m);
  }

  lemma WithoutAt<T>(r: seq<T>, i: int)
    requires Distinct(r) && 0 <= i < |r|
    ensures Without(r, r[i]) == r[..i] + r[i + 1..]
  {
    IndexAt(r, i);
  }

  lemma RemovedRotation<T>(r: seq<T>, i: int, k: int) returns (a: seq<T>, b: seq<T>)
    requires 0 <= i < |r| && 0 <= k <= |r|
    ensures Rotate(r, k) == a + [r[i]] + b
    ensures Rotate(r[..i] + r[i + 1..], if k <= i then k else k - 1) == a + b
  {
    if k <= i {
      a, b := r[k..i], r[i + 1..] + r[..k];
    } else {
      a, b := r[k..] + r[..i], r[i + 1..k];
    }
  }

  lemma WrapRotation<T>(w: seq<T>, k: int)
    requires 0 <= k <= |w|
    ensures Rotate(w, Wrap(k, |w|)) == Rotate(w, k)
  {}

  /** Taking element i out of the ring leaves the order of the others. */
  lemma RemovedOrder<T>(r: seq<T>, i: int, c: T, after: T, after': T) returns (a: seq<T>, b: seq<T>)
    requires Distinct(r) && |r| > 1 && 0 <= i < |r| && (c in r || (after in r && after != r[i]))
    requires after' == if c == r[i] then r[Wrap(i + 1, |r|)] else after
    ensures Rotate(r, Begin(r, c, after)) == a + [r[i]] + b
    ensures var w := r[..i] + r[i + 1..]; Rotate(w, Begin(w, c, after')) == a + b
  {
    hide Index, Rotate, Distinct, Without;
    var w, z := r[..i] + r[i + 1..], r[i];
    WithoutAt(r, i);
    WithoutElements(r, z);
    if c == z {
      IndexAt(r, i);
      IndexAt(r, Wrap(i + 1, |r|));
      IndexWithout(r, i, after');
      a, b := RemovedRotation(r, i, i + 1);
      WrapRotation(r, i + 1);
      WrapRotation(w, i);
    } else if c in r {
      IndexWithout(r, i, c);
      a, b := RemovedRotation(r, i, Index(r, c) + 1);
      WrapRotation(r, Index(r, c) + 1);
      WrapRotation(w, Index(w, c) + 1);
    } else {
      IndexWithout(r, i, after);
      IndexAt(r, i);
      a, b := RemovedRotation(r, i, Index(r, after));
    }
  }

  lemma UnlinkFacts<T>(s: Sched<T>, z: T)
    requires Inv(s) && Enabled(s, OpUnlink(z)) && z in s.ring
    ensures var i := Index(s.ring, z);
      && Distinct(s.ring) && |s.ring| > 1 && Unlink(s, z).ring == s.ring[..i] + s.ring[i + 1..]
      && Unlink(s, z).after == (if Actor(s) == z then s.ring[Wrap(i + 1, |s.ring|)] else s.after)
      && (Actor(s) in s.ring || (s.after in s.ring && s.after != z))
  {}

  lemma UnlinkTurns<T>(s: Sched<T>, z: T) returns (a: seq<T>, b: seq<T>)
    requires Inv(s) && Enabled(s, OpUnlink(z)) && z in s.ring
    ensures Turns(s) == a + [z] + b && Turns(Unlink(s, z)) == a + b
  {
    hide Index, Begin, Turns, Unlink, Inv, Distinct;
    UnlinkFacts(s, z);
    TurnsIs(s);
    TurnsIs(Unlink(s, z));
    UnlinkRest(s, z);
    a, b := RemovedOrder(s.ring, Index(s.ring, z), Actor(s), s.after, Unlink(s, z).after);
  }

  lemma UnlinkRest<T>(s: Sched<T>, z: T)
    ensures Actor(Unlink(s, z)) == Actor(s) && Unlink(s, z).state == s.state
  {}

  lemma UnlinkAhead<T>(s: Sched<T>, z: T, t: T)
    requires Inv(s) && Enabled(s, OpUnlink(z)) && t in s.ring && t != z
    ensures Ahead(Unlink(s, z), t) <= Ahead(s, t)
  {
    hide Turns, Index, Count, Inv;
    UnlinkRest(s, z);
    if z in s.ring {
      var a, b := UnlinkTurns(s, z);
      TurnsElements(s);
      CountInserted(Unlink(s, z), s, a, b, z, t);
    }
  }

  /** Steps that leave the ring: fewer tasks may be runnable, none moves ahead. */
  lemma StateAhead<T>(s: Sched<T>, n: Sched<T>, t: T)
    requires Turns(n) == Turns(s) && forall x :: Runnable(n, x) ==> Runnable(s, x)
    ensures Ahead(n, t) <= Ahead(s, t)
  {
    CountFewer(s, n, Turns(s)[..Index(Turns(s), t)]);
  }

  lemma MarkTurns<T>(s: Sched<T>)
    ensures Turns(Mark(s)) == Turns(s) && forall x :: Runnable(Mark(s), x) ==> Runnable(s, x)
  {
    TurnsIs(s);
    TurnsIs(Mark(s));
  }

  lemma FreeTurns<T>(s: Sched<T>, z: T)
    ensures Turns(Free(s, z)) == Turns(s) && forall x :: Runnable(Free(s, z), x) ==> Runnable(s, x)
    ensures Turns(Push(s, z)) == Turns(s) && forall x :: Runnable(Push(s, z), x) ==> Runnable(s, x)
  {
    TurnsIs(s);
    TurnsIs(Free(s, z));
    TurnsIs(Push(s, z));
  }

  lemma DetachTurns<T>(s: Sched<T>)
    ensures Turns(s.(zombies := [])) == Turns(s) && forall x :: Runnable(s.(zombies := []), x) ==> Runnable(s, x)
  {
    TurnsIs(s);
    TurnsIs(s.(zombies := []));
  }

  // Runs

  ghost predicate Follows<T>(s: Sched<T>, ops: seq<Op<T>>)
    decreases |ops|
  {
    ops == [] || (Enabled(s, ops[0]) && Follows(Apply(s, ops[0]), ops[1..]))
  }

  function Final<T(==)>(s: Sched<T>, ops: seq<Op<T>>): Sched<T>
    decreases |ops|
  {
    if ops == [] then s else Final(Apply(s, ops[0]), ops[1..])
  }

  /** In every reachable state the ring, the states and the zombie list are in order. */
  lemma {:induction false} RunInv<T>(s: Sched<T>, ops: seq<Op<T>>)
    requires Inv(s) && Follows(s, ops)
    ensures Inv(Final(s, ops))
    decreases |ops|
  {
    if ops != [] {
      ApplyInv(s, ops[0]);
      RunInv(Apply(s, ops[0]), ops[1..]);
    }
  }

  function Ticks<T>(ops: seq<Op<T>>): nat {
    if ops == [] then 0 else (if ops[0].OpTick? then 1 else 0) + Ticks(ops[1..])
  }

  function Creates<T>(ops: seq<Op<T>>): nat {
    if ops == [] then 0 else (if ops[0].OpCreate? then 1 else 0) + Creates(ops[1..])
  }

  /** Throughout the run t stays runnable in the ring, and no tick chooses it. */
  ghost predicate Waits<T>(s: Sched<T>, ops: seq<Op<T>>, t: T)
    decreases |ops|
  {
    && t in s.ring && Runnable(s, t)
    && (ops == [] || (
      var n := Apply(s, ops[0]);
      Waits(n, ops[1..], t) && (ops[0].OpTick? ==> n.current != Some(t))))
  }

  lemma ApplyAhead<T>(s: Sched<T>, op: Op<T>, t: T)
    requires Inv(s) && Enabled(s, op) && t in s.ring && Runnable(s, t)
    requires t in Apply(s, op).ring && (op.OpTick? ==> Apply(s, op).current != Some(t))
    ensures Ahead(Apply(s, op), t) + (if op.OpTick? then 1 else 0) <= Ahead(s, t) + (if op.OpCreate? then 1 else 0)
  {
    hide Ahead, Turns;
    match op
    case OpTick => TickAhead(s, t);
    case OpCreate(x) => CreateAhead(s, x, t);
    case OpMark => MarkTurns(s); StateAhead(s, Mark(s), t);
    case OpPush(z) => FreeTurns(s, z); StateAhead(s, Push(s, z), t);
    case OpDetach => DetachTurns(s); StateAhead(s, s.(zombies := []), t);
    case OpUnlink(z) =>
      if z in s.ring { UnlinkInv(s, z); }
      if t != z { UnlinkAhead(s, z, t); }
    case OpFree(z) => FreeTurns(s, z); StateAhead(s, Free(s, z), t);
  }

  /** Bounded waiting: a runnable task that stays in the ring is chosen at the latest when as many
      ticks have passed as tasks were ahead of it, plus tasks created meanwhile, plus one;
      whatever exits, stops and reaps occur. */
  lemma {:induction false} BoundedWaiting<T>(s: Sched<T>, ops: seq<Op<T>>, t: T)
    requires Inv(s) && Follows(s, ops) && Waits(s, ops, t)
    ensures Ticks(ops) <= Ahead(s, t) + Creates(ops)
    decreases |ops|
  {
    hide Ahead, Inv, Enabled, Runnable;
    if ops != [] {
      var n := Apply(s, ops[0]);
      ApplyAhead(s, ops[0], t);
      ApplyInv(s, ops[0]);
      BoundedWaiting(n, ops[1..], t);
    }
  }

  // Exits, stops and reaps are runs of these steps without ticks and creations.

  ghost predicate Quiet<T>(ops: seq<Op<T>>) { Ticks(ops) == 0 && Creates(ops) == 0 }

  lemma {:induction false} RunAppend<T>(s: Sched<T>, a: seq<Op<T>>, b: seq<Op<T>>)
    requires Follows(s, a) && Follows(Final(s, a), b) && Quiet(a) && Quiet(b)
    ensures Follows(s, a + b) && Final(s, a + b) == Final(Final(s, a), b) && Quiet(a + b)
    decreases |a|
  {
    hide Enabled, Apply;
    if a == [] { assert a + b == b; }
    else {
      assert (a + b)[1..] == a[1..] + b && (a + b)[0] == a[0];
      RunAppend(Apply(s, a[0]), a[1..], b);
    }
  }

  lemma OneStep<T>(s: Sched<T>, op: Op<T>)
    requires Enabled(s, op) && !op.OpTick? && !op.OpCreate?
    ensures Follows(s, [op]) && Final(s, [op]) == Apply(s, op) && Quiet([op])
  {
    assert [op][1..] == [];
  }

  /** Zombies that can be reaped: detached from the list and not current. */
  ghost predicate Reapable<T>(s: Sched<T>, zs: seq<T>) {
    && Distinct(zs) && Active(s)
    && forall z :: z in zs ==> z in s.state && s.state[z] == Zombie && z !in s.zombies
  }

  lemma {:induction false} ReapIsRun<T>(s: Sched<T>, zs: seq<T>) returns (ops: seq<Op<T>>)
    requires Inv(s) && Reapable(s, zs)
    ensures Follows(s, ops) && Quiet(ops) && Final(s, ops) == Reap(s, zs)
    ensures Inv(Reap(s, zs)) && Active(Reap(s, zs)) && Reap(s, zs).current == s.current
    ensures Reap(s, zs).zombies == s.zombies && Reap(s, zs).init == s.init
    ensures forall t :: t in Reap(s, zs).ring <==> t in s.ring && t !in zs
    decreases |zs|
  {
    hide Inv, Reapable, Follows, Final;
    ops := [];
    FollowsNone(s);
    ReapableActive(s, zs);
    if zs != [] {
      var z := zs[0];
      var n := Free(Unlink(s, z), z);
      ReapOne(s, zs);
      var rest := ReapIsRun(n, zs[1..]);
      RunAppend(s, [OpUnlink(z)] + [OpFree(z)], rest);
      ops := [OpUnlink(z)] + [OpFree(z)] + rest;
    }
  }

  lemma FollowsNone<T>(s: Sched<T>)
    ensures Follows(s, []) && Final(s, []) == s
  {}

  lemma ReapableActive<T>(s: Sched<T>, zs: seq<T>)
    requires Reapable(s, zs)
    ensures Active(s)
  {}

  lemma ReapOne<T>(s: Sched<T>, zs: seq<T>)
    requires Inv(s) && Reapable(s, zs) && zs != []
    ensures var n := Free(Unlink(s, zs[0]), zs[0]);
      var ops := [OpUnlink(zs[0])] + [OpFree(zs[0])];
      && Inv(n) && Reapable(n, zs[1..]) && n.current == s.current && n.zombies == s.zombies && n.init == s.init
      && Follows(s, ops) && Quiet(ops) && Final(s, ops) == n
      && (forall t :: t in n.ring <==> t in s.ring && t != zs[0])
      && (forall t :: t in zs <==> t == zs[0] || t in zs[1..])
  {
    hide Follows, Final, Inv, Reapable, Unlink;
    var z := zs[0];
    var u := Unlink(s, z);
    ReapEnabled(s, zs);
    UnlinkInv(s, z);
    ReapRest(s, zs);
    FreeInv(u, z);
    OneStep(s, OpUnlink(z));
    OneStep(u, OpFree(z));
    RunAppend(s, [OpUnlink(z)], [OpFree(z)]);
    assert zs == [z] + zs[1..];
  }

  lemma ReapEnabled<T>(s: Sched<T>, zs: seq<T>)
    requires Inv(s) && Reapable(s, zs) && zs != []
    ensures var z := zs[0];
      z != s.init && s.current != Some(z) && z !in s.zombies && (s.current.Some? ==> s.current.value in s.ring)
  {}

  lemma ReapRest<T>(s: Sched<T>, zs: seq<T>)
    requires Reapable(s, zs) && zs != [] && s.current != Some(zs[0])
    ensures var u := Unlink(s, zs[0]);
      && Reapable(Free(u, zs[0]), zs[1..]) && u.current == s.current && u.zombies == s.zombies && u.init == s.init
  {}

  lemma ReapAllIsRun<T>(s: Sched<T>) returns (ops: seq<Op<T>>)
    requires Inv(s) && Active(s)
    ensures Follows(s, ops) && Quiet(ops) && Final(s, ops) == ReapAll(s)
    ensures Inv(ReapAll(s)) && Active(ReapAll(s)) && ReapAll(s).current == s.current && ReapAll(s).zombies == []
    ensures ReapAll(s).init == s.init
    ensures forall t :: t in ReapAll(s).ring <==> t in s.ring && t !in s.zombies
  {
    var d := s.(zombies := []);
    var rest := ReapIsRun(d, s.zombies);
    OneStep(s, OpDetach);
    RunAppend(s, [OpDetach], rest);
    ops := [OpDetach] + rest;
  }

  lemma ExitIsRun<T>(s: Sched<T>) returns (ops: seq<Op<T>>)
    requires Inv(s) && Active(s)
    ensures Follows(s, ops) && Quiet(ops) && Final(s, ops) == Exit(s) && Inv(Exit(s))
  {
    hide Follows, Final;
    ops := ReapAllIsRun(s);
    var r := ReapAll(s);
    if r.current.Some? && r.current.value != r.init {
      var c := r.current.value;
      OneStep(r, OpMark);
      MarkInv(r);
      OneStep(Mark(r), OpPush(c));
      PushInv(Mark(r), c);
      RunAppend(r, [OpMark], [OpPush(c)]);
      RunAppend(s, ops, [OpMark] + [OpPush(c)]);
      ops := ops + ([OpMark] + [OpPush(c)]);
    }
  }

  lemma StopIsRun<T>(s: Sched<T>, t: T) returns (ops: seq<Op<T>>)
    requires Inv(s) && Active(s) && t != s.init
    ensures Follows(s, ops) && Quiet(ops) && Final(s, ops) == Stop(s, t) && Inv(Stop(s, t))
    ensures t !in Stop(s, t).ring
  {
    hide Follows, Final, Inv;
    ops := ReapAllIsRun(s);
    var r := ReapAll(s);
    var more := StopTail(r, t);
    RunAppend(s, ops, more);
    ops := ops + more;
  }

  lemma StopTail<T>(r: Sched<T>, t: T) returns (ops: seq<Op<T>>)
    requires Inv(r) && Active(r) && t != r.init && r.zombies == []
    ensures var n := if t !in r.ring then r
              else if r.current == Some(t) then Unlink(Push(Mark(r), t), t) else Free(Unlink(r, t), t);
      Follows(r, ops) && Quiet(ops) && Final(r, ops) == n && Inv(n) && t !in n.ring
  {
    ops := [];
    if t in r.ring && r.current == Some(t) {
      MarkInv(r);
      var p := Push(Mark(r), t);
      PushInv(Mark(r), t);
      UnlinkInv(p, t);
      OneStep(r, OpMark);
      OneStep(Mark(r), OpPush(t));
      OneStep(p, OpUnlink(t));
      RunAppend(r, [OpMark], [OpPush(t)]);
      RunAppend(r, [OpMark] + [OpPush(t)], [OpUnlink(t)]);
      ops := [OpMark] + [OpPush(t)] + [OpUnlink(t)];
    } else if t in r.ring {
      UnlinkInv(r, t);
      FreeInv(Unlink(r, t), t);
      OneStep(r, OpUnlink(t));
      OneStep(Unlink(r, t), OpFree(t));
      RunAppend(r, [OpUnlink(t)], [OpFree(t)]);
      ops := [OpUnlink(t)] + [OpFree(t)];
    }
  }
}
