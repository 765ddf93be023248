/** What the operations of the scheduler do to each task: who runs next, who is left in the ring, who becomes a
    zombie and who is freed. */
module Lifecycle {
  import opened Basics
  import opened Scheduling

  /** The ring without the given tasks, in its order. */
  function Others<T(==)>(r: seq<T>, out: seq<T>): seq<T> {
    if r == [] then [] else (if r[0] in out then [] else [r[0]]) + Others(r[1..], out)
  }

  lemma {:induction false} OthersAre<T>(r: seq<T>, out: seq<T>)
    ensures forall t :: t in Others(r, out) <==> t in r && t !in out
  {
    if r != [] { OthersAre(r[1..], out); }
  }

  lemma {:induction false} OthersAppend<T>(a: seq<T>, b: seq<T>, out: seq<T>)
    ensures Others(a + b, out) == Others(a, out) + Others(b, out)
  {
    if a == [] {
      assert a + b == b;
    } else {
      assert (a + b)[1..] == a[1..] + b;
      OthersAppend(a[1..], b, out);
    }
  }

  lemma {:induction false} OthersAll<T>(r: seq<T>, out: seq<T>)
    requires forall t :: t in r ==> t !in out
    ensures Others(r, out) == r
  {
    if r != [] {
      OthersAll(r[1..], out);
      assert r[0] in r;
    }
  }

  lemma {:induction false} OthersTwice<T>(r: seq<T>, z: T, zs: seq<T>)
    ensures Others(Others(r, [z]), zs) == Others(r, [z] + zs)
  {
    if r != [] {
      OthersTwice(r[1..], z, zs);
      OthersAppend(if r[0] == z then [] else [r[0]], Others(r[1..], [z]), zs);
    }
  }

  lemma OthersHead<T>(t: T, b: seq<T>)
    ensures Others([t] + b, [t]) == Others(b, [t])
  {
    assert ([t] + b)[1..] == b;
  }

  lemma OthersCut<T>(a: seq<T>, t: T, b: seq<T>)
    requires t !in a && t !in b
    ensures Others(a + ([t] + b), [t]) == a + b
  {
    hide Others;
    OthersAppend(a, [t] + b, [t]);
    OthersHead(t, b);
    OthersAll(a, [t]);
    OthersAll(b, [t]);
  }

  lemma AroundIndex<T>(r: seq<T>, t: T)
    requires Distinct(r) && t in r
    ensures var i := Index(r, t);
      r == r[..i] + ([t] + r[i + 1..]) && t !in r[..i] && t !in r[i + 1..]
  {}

  lemma WithoutIsOthers<T>(r: seq<T>, t: T)
    requires Distinct(r)
    ensures Without(r, t) == Others(r, [t])
  {
    hide Distinct, Others, Index;
    if t in r {
      var i := Index(r, t);
      AroundIndex(r, t);
      OthersCut(r[..i], t, r[i + 1..]);
    } else {
      OthersAll(r, [t]);
    }
  }

  /** Taking one task out of a ring that holds more than it. */
  lemma UnlinkMeans<T>(s: Sched<T>, t: T)
    requires Distinct(s.ring) && s.init in s.ring && t != s.init
    ensures var n := Unlink(s, t);
      && n.ring == Others(s.ring, [t]) && Distinct(n.ring) && n.init in n.ring
      && n.state == s.state && n.current == s.current && n.init == s.init && n.zombies == s.zombies
  {
    hide Distinct, Without, Others;
    WithoutElements(s.ring, t);
    WithoutIsOthers(s.ring, t);
    if |s.ring| == 1 && t in s.ring { OnlyInit(s, t); }
    OthersAll(s.ring, if t in s.ring then [] else [t]);
  }

  lemma OnlyInit<T>(s: Sched<T>, t: T)
    requires |s.ring| == 1 && s.init in s.ring && t in s.ring
    ensures t == s.init
  {}

  lemma {:induction false} ReapEach<T>(s: Sched<T>, zs: seq<T>)
    requires Distinct(s.ring) && s.init in s.ring && s.init !in zs
    ensures var n := Reap(s, zs);
      && n.ring == Others(s.ring, zs) && n.current == s.current && n.init == s.init && n.zombies == s.zombies
      && Distinct(n.ring) && n.init in n.ring
    decreases |zs|
  {
    hide Distinct, Unlink, Others;
    if zs == [] {
      OthersAll(s.ring, []);
    } else {
      UnlinkMeans(s, zs[0]);
      ReapEach(Free(Unlink(s, zs[0]), zs[0]), zs[1..]);
      OthersTwice(s.ring, zs[0], zs[1..]);
      assert zs == [zs[0]] + zs[1..];
    }
  }

  lemma {:induction false} ReapTask<T>(s: Sched<T>, zs: seq<T>, t: T)
    ensures var n := Reap(s, zs);
      (t in n.state <==> t in s.state && t !in zs) && (t in n.state ==> n.state[t] == s.state[t])
    decreases |zs|
  {
    if zs != [] {
      var n := Free(Unlink(s, zs[0]), zs[0]);
      ReapTask(n, zs[1..], t);
      assert t in n.state <==> t in s.state && t != zs[0];
    }
  }

  /** Reaping takes exactly the listed zombies out of the ring and frees exactly them; nobody else changes
      state or place. */
  lemma ReapMeans<T>(s: Sched<T>)
    requires Inv(s)
    ensures var n := ReapAll(s);
      && n.zombies == [] && n.current == s.current && n.init == s.init && n.ring == Others(s.ring, s.zombies)
      && (forall t :: t in n.state <==> t in s.state && t !in s.zombies)
      && (forall t :: t in n.state ==> n.state[t] == s.state[t])
  {
    hide Others, Distinct;
    ReapEach(s.(zombies := []), s.zombies);
    forall t { ReapTask(s.(zombies := []), s.zombies, t); }
  }

  /** A task that leaves becomes the one zombie on the list. It stays current and in the ring until the next
      tick and the next reaping; the zombies listed before it are freed, and nobody else changes. For init,
      or when nothing is current yet, only the reaping happens. */
  lemma ExitMeans<T>(s: Sched<T>)
    requires Inv(s) && Active(s)
    ensures var n := Exit(s);
      && n.current == s.current && n.init == s.init && n.ring == Others(s.ring, s.zombies)
      && (forall t :: t in n.state <==> t in s.state && t !in s.zombies)
      && (s.current.None? || s.current.value == s.init ==>
          n.zombies == [] && forall t :: t in n.state ==> n.state[t] == s.state[t])
      && (s.current.Some? && s.current.value != s.init ==>
          var c := s.current.value;
          && n.zombies == [c] && c in n.ring && c in n.state && n.state[c] == Zombie
          && forall t :: t in n.state && t != c ==> n.state[t] == s.state[t])
  {
    hide Others, ReapAll;
    ReapMeans(s);
    OthersAre(s.ring, s.zombies);
  }

  /** Stopping a task of the ring: another one leaves the ring and is freed; the current one leaves the ring,
      becomes the one zombie on the list, and stays current until the next tick. The zombies listed before
      are freed either way, and a task that is not in the ring is left alone. */
  lemma StopMeans<T>(s: Sched<T>, t: T)
    requires Inv(s) && Active(s) && t != s.init
    ensures var n, here := Stop(s, t), t in s.ring && t !in s.zombies;
      && n.current == s.current && n.init == s.init && n.ring == Others(s.ring, s.zombies + [t])
      && (forall x :: x in n.state <==>
            x in s.state && x !in s.zombies && (here && x == t ==> s.current == Some(t)))
      && (forall x :: x in n.state && x != t ==> n.state[x] == s.state[x])
      && (here && s.current == Some(t) ==> n.zombies == [t] && t in n.state && n.state[t] == Zombie)
      && (!(here && s.current == Some(t)) ==> n.zombies == [])
      && (!here && t in n.state ==> n.state[t] == s.state[t])
  {
    hide Others, ReapAll, Unlink, Distinct;
    var r := ReapAll(s);
    ReapKeeps(s);
    ReapMeans(s);
    OthersAre(s.ring, s.zombies);
    OthersBoth(s.ring, s.zombies, t);
    if t in r.ring {
      UnlinkMeans(r, t);
      UnlinkMeans(Push(Mark(r), t), t);
    } else {
      OthersAll(r.ring, [t]);
    }
  }

  lemma ReapKeeps<T>(s: Sched<T>)
    requires Inv(s)
    ensures Distinct(ReapAll(s).ring) && ReapAll(s).init in ReapAll(s).ring
  {
    hide Distinct;
    ReapEach(s.(zombies := []), s.zombies);
  }

  lemma {:induction false} OthersBoth<T>(r: seq<T>, zs: seq<T>, t: T)
    ensures Others(Others(r, zs), [t]) == Others(r, zs + [t])
  {
    if r != [] {
      OthersBoth(r[1..], zs, t);
      OthersAppend(if r[0] in zs then [] else [r[0]], Others(r[1..], zs), [t]);
    }
  }

  /** How many places t lies behind place k, around the end of the ring. */
  function Behind<T(==)>(r: seq<T>, k: nat, t: T): int {
    if Index(r, t) >= k then Index(r, t) - k else Index(r, t) - k + |r|
  }

  lemma BehindAt<T>(r: seq<T>, k: nat, t: T)
    requires k < |r| && t in r
    ensures 0 <= Behind(r, k, t) < |r| && Rotate(r, k)[Behind(r, k, t)] == t
  {}

  lemma FirstIsNearest<T>(s: Sched<T>, k: nat, t: T, u: T)
    requires Distinct(s.ring) && k < |s.ring| && t in s.ring && u in s.ring && Runnable(s, u)
    requires var o := Rotate(s.ring, k); FirstRunnable(s, o) < |o| && o[FirstRunnable(s, o)] == t
    ensures Behind(s.ring, k, t) <= Behind(s.ring, k, u)
  {
    hide Index, Runnable, Rotate, Behind, FirstRunnable;
    BehindAt(s.ring, k, t);
    BehindAt(s.ring, k, u);
    var o := Rotate(s.ring, k);
    var i := FirstRunnable(s, o);
    RotateElements(s.ring, k);
    RotateDistinct(s.ring, k);
    assert i <= Behind(s.ring, k, u);
    assert o[i] == o[Behind(s.ring, k, t)];
  }

  /** A tick makes a task of the ring current, which runs; the one that ran is ready again, and nobody else
      changes state or place. */
  lemma TickMeans<T>(s: Sched<T>)
    requires Inv(s)
    ensures var n := Tick(s);
      && n.ring == s.ring && n.init == s.init && n.zombies == s.zombies
      && n.current.Some? && n.current.value in s.ring
      && (forall t :: t in n.state <==> t in s.state)
      && n.current.value in n.state && n.state[n.current.value] == Running
      && (forall t :: t in n.state && Some(t) != n.current ==>
            n.state[t] == (if s.current == Some(t) && s.state[t] == Running then Ready
                           else if s.current == None && t == s.init then Running else s.state[t]))
  {
    hide PickNext;
    TickChooses(s);
  }

  /** A tick chooses the ready or running task that comes first behind the current one, or behind the place
      that the current one points to when it has left the ring. */
  lemma TickNearest<T>(s: Sched<T>)
    requires Inv(s)
    ensures var a := if s.current.Some? then s.current.value else s.init;
            var k := if a !in s.ring then Index(s.ring, s.after)
                     else if Index(s.ring, a) + 1 == |s.ring| then 0 else Index(s.ring, a) + 1;
      && Tick(s).current.Some?
      && (forall t :: t in s.ring && s.state[t] in {Ready, Running} ==>
            Behind(s.ring, k, Tick(s).current.value) <= Behind(s.ring, k, t))
  {
    hide Behind, FirstRunnable, Rotate, Order, Turns, Tick, Index;
    var k := Begin(s.ring, Actor(s), s.after);
    TurnsIs(s);
    TickPicks(s);
    RingFacts(s);
    BeginInRing(s);
    forall t | t in s.ring && s.state[t] in {Ready, Running}
      ensures Behind(s.ring, k, Tick(s).current.value) <= Behind(s.ring, k, t)
    {
      FirstIsNearest(Preempt(s), k, Tick(s).current.value, t);
    }
  }

  /** A new task is ready and comes last in the ring. */
  lemma CreateMeans<T>(s: Sched<T>, t: T)
    requires Inv(s) && t !in s.state
    ensures var n := Create(s, t);
      && n.ring == s.ring + [t] && t !in s.ring && t in n.state && n.state[t] == Ready
      && n.current == s.current && n.zombies == s.zombies && n.init == s.init
      && (forall x :: x in n.state <==> x in s.state || x == t)
      && (forall x :: x in s.state ==> n.state[x] == s.state[x])
  {}
}
