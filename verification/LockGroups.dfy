/** Objects that lock several groups at once (Lockable.cpp, SyncGroup.cpp). A Lockable takes
    the mutex of every group it belongs to, in the order of the group ids, under a mutex of
    its own. Threads are interleaved one mutex operation at a time; a group is named by its
    id, which the factory never gives out twice. */
module LockGroups {
  import opened Wrappers

  type GroupId = nat

  predicate Sorted(gs: seq<GroupId>) {
    forall i, j :: 0 <= i < j < |gs| ==> gs[i] <= gs[j]
  }

  // ------------------------------------------------------------ mutexes

  datatype MutexId = Self(lockable: nat) | Group(id: GroupId)

  /** cvgMutex is recursive: its owner may take it again. */
  datatype Mutex = Free | Owned(owner: nat, depth: nat)

  function Get(ms: map<MutexId, Mutex>, m: MutexId): Mutex {
    if m in ms then ms[m] else Free
  }

  predicate CanTake(x: Mutex, t: nat) { x == Free || x.owner == t }

  function Taken(x: Mutex, t: nat): Mutex
    requires CanTake(x, t)
  {
    if x == Free then Owned(t, 1) else Owned(t, x.depth + 1)
  }

  function Released(x: Mutex): Mutex {
    if x == Free || x.depth <= 1 then Free else Owned(x.owner, x.depth - 1)
  }

  /** How many times thread t holds the mutex. */
  function Depth(x: Mutex, t: nat): nat { if x.Owned? && x.owner == t then x.depth else 0 }

  // ------------------------------------------------------------ threads

  /** Where a thread is in Lockable::lock or unlock: before the Lockable's own mutex, or
      holding it with k groups done. */
  datatype Phase = Idle | EnterLock | Locking(k: nat) | Holding | EnterUnlock | Unlocking(k: nat)

  /** The group list of every Lockable, and the Lockable each thread uses. */
  datatype Config = Config(groups: seq<seq<GroupId>>, uses: seq<nat>) {
    predicate Valid() {
      && (forall t :: 0 <= t < |uses| ==> uses[t] < |groups|)
      && forall l :: 0 <= l < |groups| ==> Sorted(groups[l])
    }

    function Of(t: nat): seq<GroupId>
      requires Valid() && t < |uses|
    {
      groups[uses[t]]
    }
  }

  datatype State = State(phases: seq<Phase>, mutexes: map<MutexId, Mutex>)

  predicate Fits(c: Config, s: State) {
    && c.Valid() && |s.phases| == |c.uses|
    && forall t :: 0 <= t < |c.uses| ==> InRange(c.Of(t), s.phases[t])
  }

  predicate InRange(gs: seq<GroupId>, p: Phase) { p.Locking? || p.Unlocking? ==> p.k <= |gs| }

  /** The mutex a thread is about to take, if its next step takes one. */
  function Takes(gs: seq<GroupId>, l: nat, p: Phase): Option<MutexId> {
    match p
    case EnterLock | EnterUnlock => Some(Self(l))
    case Locking(k) => if k < |gs| then Some(Group(gs[k])) else None
    case _ => None
  }

  /** The mutex its next step gives back, if any. */
  function Returns(gs: seq<GroupId>, l: nat, p: Phase): Option<MutexId> {
    match p
    case Locking(k) => if k < |gs| then None else Some(Self(l))
    case Unlocking(k) => if k < |gs| then Some(Group(gs[k])) else Some(Self(l))
    case _ => None
  }

  function Next(gs: seq<GroupId>, p: Phase): Phase {
    match p
    case Idle => EnterLock
    case EnterLock => Locking(0)
    case Locking(k) => if k < |gs| then Locking(k + 1) else Holding
    case Holding => EnterUnlock
    case EnterUnlock => Unlocking(0)
    case Unlocking(k) => if k < |gs| then Unlocking(k + 1) else Idle
  }

  function Wants(c: Config, s: State, t: nat): Option<MutexId>
    requires Fits(c, s) && t < |c.uses|
  {
    Takes(c.Of(t), c.uses[t], s.phases[t])
  }

  predicate Blocked(c: Config, s: State, t: nat)
    requires Fits(c, s) && t < |c.uses|
  {
    var w := Wants(c, s, t);
    w.Some? && !CanTake(Get(s.mutexes, w.value), t)
  }

  function Step(c: Config, s: State, t: nat): State
    requires Fits(c, s) && t < |c.uses| && !Blocked(c, s, t)
  {
    var w, r, ms := Wants(c, s, t), Returns(c.Of(t), c.uses[t], s.phases[t]), s.mutexes;
    State(s.phases[t := Next(c.Of(t), s.phases[t])],
          if w.Some? then ms[w.value := Taken(Get(ms, w.value), t)]
          else if r.Some? then ms[r.value := Released(Get(ms, r.value))]
          else ms)
  }

  /** A schedule names the thread of each step. */
  predicate Legal(c: Config, s: State, schedule: seq<nat>)
    requires Fits(c, s)
    decreases schedule
  {
    schedule == [] || (
      schedule[0] < |c.uses| && !Blocked(c, s, schedule[0]) && Legal(c, Step(c, s, schedule[0]), schedule[1..]))
  }

  function Run(c: Config, s: State, schedule: seq<nat>): (r: State)
    requires Fits(c, s) && Legal(c, s, schedule)
    ensures Fits(c, r)
    decreases schedule
  {
    if schedule == [] then s else Run(c, Step(c, s, schedule[0]), schedule[1..])
  }

  function Start(c: Config): State { State(seq(|c.uses|, _ => Idle), map[]) }

  // ------------------------------------------------------------ ownership

  /** How many times a thread holds a mutex in a phase. A list may name a group twice. */
  function Holds(gs: seq<GroupId>, l: nat, p: Phase, m: MutexId): nat
    requires InRange(gs, p)
  {
    match m
    case Self(j) => if j == l && (p.Locking? || p.Unlocking?) then 1 else 0
    case Group(g) =>
      match p
      case Idle | EnterLock => 0
      case Locking(k) => multiset(gs[..k])[g]
      case Holding | EnterUnlock => multiset(gs)[g]
      case Unlocking(k) => multiset(gs[k..])[g]
  }

  function HoldCount(c: Config, s: State, t: nat, m: MutexId): nat
    requires Fits(c, s) && t < |c.uses|
  {
    Holds(c.Of(t), c.uses[t], s.phases[t], m)
  }

  /** Every mutex is owned exactly by the thread whose progress says so, as deep as it says. */
  ghost predicate Inv(c: Config, s: State) {
    && Fits(c, s)
    && (forall t, m: MutexId :: 0 <= t < |c.uses| ==> HoldCount(c, s, t, m) == Depth(Get(s.mutexes, m), t))
    && (forall m: MutexId :: Get(s.mutexes, m).Owned? ==>
      Get(s.mutexes, m).depth > 0 && Get(s.mutexes, m).owner < |c.uses|)
  }

  lemma HeldStep(gs: seq<GroupId>, k: nat)
    requires k < |gs|
    ensures multiset(gs[..k + 1]) == multiset(gs[..k])[gs[k] := multiset(gs[..k])[gs[k]] + 1]
    ensures multiset(gs[k..]) == multiset(gs[k + 1..])[gs[k] := multiset(gs[k + 1..])[gs[k]] + 1]
  {
    assert gs[..k + 1] == gs[..k] + [gs[k]];
    assert gs[k..] == [gs[k]] + gs[k + 1..];
  }

  lemma HeldEnds(gs: seq<GroupId>)
    ensures multiset(gs[..0]) == multiset{} && multiset(gs[|gs|..]) == multiset{}
    ensures multiset(gs[..|gs|]) == multiset(gs) && multiset(gs[0..]) == multiset(gs)
  {
    assert gs[..|gs|] == gs && gs[0..] == gs;
  }

  /** A step changes what its thread holds by the one mutex it takes or gives back. */
  lemma HoldsStep(gs: seq<GroupId>, l: nat, p: Phase, m: MutexId)
    requires InRange(gs, p)
    ensures InRange(gs, Next(gs, p))
    ensures Takes(gs, l, p) == None || Returns(gs, l, p) == None
    ensures Holds(gs, l, Next(gs, p), m) == Holds(gs, l, p, m)
      + if Takes(gs, l, p) == Some(m) then 1 else if Returns(gs, l, p) == Some(m) then -1 else 0
  {
    HeldEnds(gs);
    if (p.Locking? || p.Unlocking?) && p.k < |gs| {
      HeldStep(gs, p.k);
    }
  }

  lemma StepKeepsInv(c: Config, s: State, t: nat)
    requires Inv(c, s) && t < |c.uses| && !Blocked(c, s, t)
    ensures Inv(c, Step(c, s, t))
  {
    hide Holds, Takes, Returns, Next;
    HoldsStep(c.Of(t), c.uses[t], s.phases[t], Self(0));
    var r := Step(c, s, t);
    forall u, m: MutexId | 0 <= u < |c.uses|
      ensures HoldCount(c, r, u, m) == Depth(Get(r.mutexes, m), u)
    {
      HoldsStep(c.Of(t), c.uses[t], s.phases[t], m);
      assert HoldCount(c, s, u, m) == Depth(Get(s.mutexes, m), u);
      assert HoldCount(c, s, t, m) == Depth(Get(s.mutexes, m), t);
    }
    forall m: MutexId | Get(r.mutexes, m).Owned?
      ensures Get(r.mutexes, m).depth > 0 && Get(r.mutexes, m).owner < |c.uses|
    {
      assert Get(s.mutexes, m).Owned? ==> Get(s.mutexes, m).depth > 0 && Get(s.mutexes, m).owner < |c.uses|;
    }
  }

  lemma {:induction false} RunKeepsInv(c: Config, s: State, schedule: seq<nat>)
    requires Inv(c, s) && Legal(c, s, schedule)
    ensures Inv(c, Run(c, s, schedule))
    decreases schedule
  {
    if schedule != [] {
      StepKeepsInv(c, s, schedule[0]);
      RunKeepsInv(c, Step(c, s, schedule[0]), schedule[1..]);
    }
  }

  lemma StartInv(c: Config)
    requires c.Valid()
    ensures Inv(c, Start(c))
  {}

  /** A thread has its whole Lockable from the end of lock to the start of the first release. */
  predicate HasAll(p: Phase) { p == Holding || p == EnterUnlock || p == Unlocking(0) }

  /** Mutual exclusion: in no reachable state do two threads hold Lockables that have a group
      in common. */
  lemma {:induction false} MutualExclusion(c: Config, schedule: seq<nat>, t: nat, u: nat, g: GroupId)
    requires c.Valid() && Legal(c, Start(c), schedule) && t < u < |c.uses|
    requires g in c.Of(t) && g in c.Of(u)
    ensures var s := Run(c, Start(c), schedule); !(HasAll(s.phases[t]) && HasAll(s.phases[u]))
  {
    StartInv(c);
    RunKeepsInv(c, Start(c), schedule);
    var s := Run(c, Start(c), schedule);
    HeldEnds(c.Of(t));
    HeldEnds(c.Of(u));
    assert HoldCount(c, s, t, Group(g)) == Depth(Get(s.mutexes, Group(g)), t);
    assert HoldCount(c, s, u, Group(g)) == Depth(Get(s.mutexes, Group(g)), u);
  }

  // ------------------------------------------------------------ deadlock

  /** Thread t waits for a mutex that a thread of D has. */
  predicate WaitsFor(c: Config, s: State, D: set<nat>, t: nat)
    requires Fits(c, s)
  {
    t < |c.uses| && Blocked(c, s, t) && Get(s.mutexes, Wants(c, s, t).value).owner in D
  }

  /** Every thread of D waits for another thread of D. */
  ghost predicate Deadlocked(c: Config, s: State, D: set<nat>)
    requires Fits(c, s)
  {
    D != {} && forall t {:trigger WaitsFor(c, s, D, t)} :: t in D ==> WaitsFor(c, s, D, t)
  }

  /** Two threads use one Lockable, and it belongs to some group. */
  predicate Shared(c: Config)
    requires c.Valid()
  {
    exists t, u :: 0 <= t < u < |c.uses| && c.uses[t] == c.uses[u] && c.Of(t) != []
  }

  lemma OwnerHolds(c: Config, s: State, m: MutexId)
    requires Inv(c, s) && Get(s.mutexes, m).Owned?
    ensures var u := Get(s.mutexes, m).owner; u < |c.uses| && HoldCount(c, s, u, m) > 0
  {
    var x := Get(s.mutexes, m);
    assert HoldCount(c, s, x.owner, m) == Depth(x, x.owner);
  }

  lemma NotShared(c: Config, t: nat, u: nat)
    requires c.Valid() && !Shared(c) && t < |c.uses| && u < |c.uses| && t != u && c.uses[t] == c.uses[u]
    ensures c.Of(u) == []
  {}

  lemma HeldBelowWanted(gs: seq<GroupId>, l: nat, p: Phase, g: GroupId)
    requires Sorted(gs) && p.Locking? && p.k < |gs| && Holds(gs, l, p, Group(g)) > 0
    ensures g <= gs[p.k]
  {
    assert g in multiset(gs[..p.k]);
    assert g in gs[..p.k];
  }

  predicate AtGroup(c: Config, s: State, t: nat)
    requires Fits(c, s)
  {
    t < |c.uses| && s.phases[t].Locking? && s.phases[t].k < |c.Of(t)|
  }

  /** The group a thread waits for. */
  function Awaited(c: Config, s: State, t: nat): GroupId
    requires Fits(c, s) && AtGroup(c, s, t)
  {
    c.Of(t)[s.phases[t].k]
  }

  lemma WaitsForGroup(c: Config, s: State, D: set<nat>, t: nat)
    requires Inv(c, s) && !Shared(c) && Deadlocked(c, s, D) && t in D
    ensures AtGroup(c, s, t)
  {
    hide Shared;
    assert WaitsFor(c, s, D, t);
    var m := Wants(c, s, t).value;
    OwnerHolds(c, s, m);
    var u := Get(s.mutexes, m).owner;
    assert WaitsFor(c, s, D, u) && u != t;
    if m.Self? {
      NotShared(c, t, u);
    }
  }

  /** Along a chain of waiting threads the group ids only grow. */
  lemma WaitsHigher(c: Config, s: State, D: set<nat>, t: nat) returns (u: nat)
    requires Inv(c, s) && !Shared(c) && Deadlocked(c, s, D) && t in D
    ensures u in D && AtGroup(c, s, t) && AtGroup(c, s, u) && Awaited(c, s, t) < Awaited(c, s, u)
  {
    hide Shared, Holds;
    assert WaitsFor(c, s, D, t);
    WaitsForGroup(c, s, D, t);
    var g := Awaited(c, s, t);
    OwnerHolds(c, s, Group(g));
    u := Get(s.mutexes, Group(g)).owner;
    WaitsForGroup(c, s, D, u);
    HeldBelowWanted(c.Of(u), c.uses[u], s.phases[u], g);
    assert WaitsFor(c, s, D, u);
  }

  function MaxId(gs: seq<GroupId>): (r: nat)
    ensures forall i :: 0 <= i < |gs| ==> gs[i] <= r
  {
    if gs == [] then 0 else
      var r := MaxId(gs[1..]);
      if r < gs[0] then gs[0] else r
  }

  function Ceiling(groups: seq<seq<GroupId>>): (r: nat)
    ensures forall l :: 0 <= l < |groups| ==> MaxId(groups[l]) <= r
  {
    if groups == [] then 0 else
      var r := Ceiling(groups[1..]);
      if r < MaxId(groups[0]) then MaxId(groups[0]) else r
  }

  lemma {:induction false} ChainEnds(c: Config, s: State, D: set<nat>, t: nat)
    requires Inv(c, s) && !Shared(c) && Deadlocked(c, s, D) && t in D
    requires AtGroup(c, s, t)
    ensures false
    decreases Ceiling(c.groups) - Awaited(c, s, t)
  {
    var u := WaitsHigher(c, s, D, t);
    assert MaxId(c.groups[c.uses[u]]) <= Ceiling(c.groups);
    ChainEnds(c, s, D, u);
  }

  /** Ordered acquisition: if no Lockable is shared, no set of threads is ever deadlocked. */
  lemma NoDeadlock(c: Config, s: State, D: set<nat>)
    requires Inv(c, s) && !Shared(c)
    ensures !Deadlocked(c, s, D)
  {
    if Deadlocked(c, s, D) {
      var t :| t in D;
      WaitsForGroup(c, s, D, t);
      ChainEnds(c, s, D, t);
    }
  }

  /** Then some unfinished call can always take a step, unless all calls are done. */
  lemma Progress(c: Config, s: State)
    requires Inv(c, s) && !Shared(c)
    requires exists t :: 0 <= t < |c.uses| && s.phases[t] != Idle
    ensures exists t :: 0 <= t < |c.uses| && s.phases[t] != Idle && !Blocked(c, s, t)
  {
    if forall t :: 0 <= t < |c.uses| && s.phases[t] != Idle ==> Blocked(c, s, t) {
      var D := set t | 0 <= t < |c.uses| && s.phases[t] != Idle;
      forall t | t in D
        ensures WaitsFor(c, s, D, t)
      {
        OwnerHolds(c, s, Wants(c, s, t).value);
      }
      var t :| 0 <= t < |c.uses| && s.phases[t] != Idle;
      assert t in D;
      NoDeadlock(c, s, D);
    }
  }

  /** A step leaves alone what another thread holds. */
  lemma OthersKeepTheirMutexes(c: Config, s: State, t: nat, m: MutexId)
    requires Inv(c, s) && t < |c.uses| && !Blocked(c, s, t)
    requires Get(s.mutexes, m).Owned? && Get(s.mutexes, m).owner != t
    ensures Get(Step(c, s, t).mutexes, m) == Get(s.mutexes, m)
  {
    hide Holds, Takes, Returns, Next;
    HoldsStep(c.Of(t), c.uses[t], s.phases[t], m);
    assert HoldCount(c, s, t, m) == Depth(Get(s.mutexes, m), t) == 0;
  }

  lemma StillBlocked(c: Config, s: State, t: nat, d: nat)
    requires Inv(c, s) && t < |c.uses| && !Blocked(c, s, t) && d < |c.uses| && Blocked(c, s, d)
    requires Get(s.mutexes, Wants(c, s, d).value).owner != t
    ensures var r := Step(c, s, t); Fits(c, r) && Wants(c, r, d) == Wants(c, s, d) && Blocked(c, r, d)
    ensures Get(Step(c, s, t).mutexes, Wants(c, s, d).value) == Get(s.mutexes, Wants(c, s, d).value)
  {
    StepKeepsInv(c, s, t);
    hide Inv, Takes, Returns, Next;
    OthersKeepTheirMutexes(c, s, t, Wants(c, s, d).value);
  }

  lemma DeadlockStep(c: Config, s: State, D: set<nat>, t: nat)
    requires Inv(c, s) && Deadlocked(c, s, D) && t < |c.uses| && !Blocked(c, s, t)
    ensures t !in D && Fits(c, Step(c, s, t)) && Deadlocked(c, Step(c, s, t), D)
    ensures forall d :: d in D ==> d < |c.uses| && Step(c, s, t).phases[d] == s.phases[d]
  {
    StepKeepsInv(c, s, t);
    hide Inv, Wants, Blocked;
    forall d | d in D
      ensures WaitsFor(c, Step(c, s, t), D, d) && d < |c.uses| && d != t
    {
      assert WaitsFor(c, s, D, d);
      assert WaitsFor(c, s, D, Get(s.mutexes, Wants(c, s, d).value).owner);
      StillBlocked(c, s, t, d);
    }
  }

  /** A deadlock is final: whatever the other threads do, its threads never move again. */
  lemma {:induction false} DeadlockStays(c: Config, s: State, D: set<nat>, schedule: seq<nat>)
    requires Inv(c, s) && Deadlocked(c, s, D) && Legal(c, s, schedule)
    ensures var r := Run(c, s, schedule);
      Deadlocked(c, r, D) && forall t :: t in D ==> t < |c.uses| && r.phases[t] == s.phases[t]
    decreases schedule
  {
    if schedule != [] {
      hide Step, Deadlocked;
      StepKeepsInv(c, s, schedule[0]);
      DeadlockStep(c, s, D, schedule[0]);
      DeadlockStays(c, Step(c, s, schedule[0]), D, schedule[1..]);
    } else {
      assert forall t :: t in D ==> WaitsFor(c, s, D, t);
    }
  }

  // ------------------------------------------------------------ sharing deadlocks

  lemma {:induction false} RunConcat(c: Config, s: State, a: seq<nat>, b: seq<nat>)
    requires Fits(c, s) && Legal(c, s, a) && Legal(c, Run(c, s, a), b)
    ensures Legal(c, s, a + b) && Run(c, s, a + b) == Run(c, Run(c, s, a), b)
    decreases a
  {
    if a == [] {
      assert a + b == b;
    } else {
      hide Step;
      assert (a + b)[1..] == a[1..] + b;
      RunConcat(c, Step(c, s, a[0]), a[1..], b);
    }
  }

  lemma RunOne(c: Config, s: State, t: nat)
    requires Fits(c, s) && t < |c.uses| && !Blocked(c, s, t)
    ensures Legal(c, s, [t]) && Run(c, s, [t]) == Step(c, s, t)
  {
    hide Step;
    assert [t][1..] == [];
  }

  lemma FreeIfNobodyHolds(c: Config, s: State, t: nat)
    requires Inv(c, s) && t < |c.uses|
    requires var w := Wants(c, s, t);
      w.Some? ==> forall u :: 0 <= u < |c.uses| && u != t ==> HoldCount(c, s, u, w.value) == 0
    ensures !Blocked(c, s, t)
  {
    var w := Wants(c, s, t);
    if w.Some? && Get(s.mutexes, w.value).Owned? {
      OwnerHolds(c, s, w.value);
    }
  }

  /** A thread that is alone gets all its groups. */
  lemma {:induction false} LocksAlone(c: Config, s: State, t: nat) returns (schedule: seq<nat>)
    requires Inv(c, s) && t < |c.uses| && s.phases[t].Locking?
    requires forall u :: 0 <= u < |c.uses| && u != t ==> s.phases[u] == Idle
    ensures Legal(c, s, schedule) && Run(c, s, schedule).phases == s.phases[t := Holding]
    decreases |c.Of(t)| - s.phases[t].k
  {
    FreeIfNobodyHolds(c, s, t);
    StepKeepsInv(c, s, t);
    RunOne(c, s, t);
    var k := s.phases[t].k;
    if k == |c.Of(t)| {
      schedule := [t];
    } else {
      var rest := LocksAlone(c, Step(c, s, t), t);
      RunConcat(c, s, [t], rest);
      schedule := [t] + rest;
    }
  }

  lemma TakesStep(c: Config, s: State, t: nat)
    requires Inv(c, s) && t < |c.uses|
    requires var w := Wants(c, s, t);
      w.Some? ==> forall u :: 0 <= u < |c.uses| && u != t ==> HoldCount(c, s, u, w.value) == 0
    ensures Legal(c, s, [t]) && Inv(c, Run(c, s, [t]))
    ensures Run(c, s, [t]).phases == s.phases[t := Next(c.Of(t), s.phases[t])]
  {
    FreeIfNobodyHolds(c, s, t);
    StepKeepsInv(c, s, t);
    RunOne(c, s, t);
  }

  /** Two threads that share a Lockable of at least one group can deadlock: the second has the
      Lockable's own mutex while it waits for the group, and the first needs it to unlock. */
  lemma SharingDeadlocks(c: Config, t: nat, u: nat) returns (schedule: seq<nat>)
    requires c.Valid() && t < |c.uses| && u < |c.uses| && t != u && c.uses[t] == c.uses[u] && c.Of(t) != []
    ensures Legal(c, Start(c), schedule) && Deadlocked(c, Run(c, Start(c), schedule), {t, u})
  {
    var s := Start(c);
    StartInv(c);
    TakesStep(c, s, t);
    var s1 := Run(c, s, [t]);
    TakesStep(c, s1, t);
    var s2 := Run(c, s1, [t]);
    RunConcat(c, s, [t], [t]);
    var all := LocksAlone(c, s2, t);
    RunKeepsInv(c, s2, all);
    var s3 := Run(c, s2, all);
    RunConcat(c, s, [t] + [t], all);
    var rest := SecondBlocks(c, s3, t, u);
    RunConcat(c, s, [t] + [t] + all, rest);
    schedule := [t] + [t] + all + rest;
  }

  lemma SecondBlocks(c: Config, s: State, t: nat, u: nat) returns (schedule: seq<nat>)
    requires Inv(c, s) && t < |c.uses| && u < |c.uses| && t != u && c.uses[t] == c.uses[u] && c.Of(t) != []
    requires s.phases == seq(|c.uses|, i => if i == t then Holding else Idle)
    ensures Legal(c, s, schedule) && Deadlocked(c, Run(c, s, schedule), {t, u})
  {
    TakesStep(c, s, u);
    var s1 := Run(c, s, [u]);
    TakesStep(c, s1, u);
    var s2 := Run(c, s1, [u]);
    RunConcat(c, s, [u], [u]);
    TakesStep(c, s2, t);
    var s3 := Run(c, s2, [t]);
    RunConcat(c, s, [u] + [u], [t]);
    schedule := [u] + [u] + [t];
    BothBlocked(c, s3, t, u);
  }

  lemma BothBlocked(c: Config, s: State, t: nat, u: nat)
    requires Inv(c, s) && t < |c.uses| && u < |c.uses| && t != u && c.uses[t] == c.uses[u] && c.Of(t) != []
    requires s.phases[t] == EnterUnlock && s.phases[u] == Locking(0)
    ensures Deadlocked(c, s, {t, u})
  {
    var own, group := Self(c.uses[t]), Group(c.Of(t)[0]);
    assert HoldCount(c, s, u, own) == 1 == Depth(Get(s.mutexes, own), u);
    assert c.Of(t)[0] in c.Of(t);
    assert HoldCount(c, s, t, group) > 0 && HoldCount(c, s, t, group) == Depth(Get(s.mutexes, group), t);
    assert WaitsFor(c, s, {t, u}, t) && WaitsFor(c, s, {t, u}, u);
  }

  ghost predicate CanDeadlock(c: Config)
    requires c.Valid()
  {
    exists schedule, D :: Legal(c, Start(c), schedule) && Deadlocked(c, Run(c, Start(c), schedule), D)
  }

  /** Deadlock freedom, exactly: a system of any number of threads and groups can deadlock if
      and only if two threads use one Lockable that belongs to a group. */
  lemma {:induction false} DeadlocksIffShared(c: Config)
    requires c.Valid()
    ensures CanDeadlock(c) <==> Shared(c)
  {
    if Shared(c) {
      var t, u :| 0 <= t < u < |c.uses| && c.uses[t] == c.uses[u] && c.Of(t) != [];
      var schedule := SharingDeadlocks(c, t, u);
    } else {
      forall schedule, D | Legal(c, Start(c), schedule)
        ensures !Deadlocked(c, Run(c, Start(c), schedule), D)
      {
        StartInv(c);
        RunKeepsInv(c, Start(c), schedule);
        NoDeadlock(c, Run(c, Start(c), schedule), D);
      }
    }
  }

  // ------------------------------------------------------------ every call finishes

  /** Steps a thread has before it, if it goes on to unlock and then stays idle. */
  function Remaining(gs: seq<GroupId>, p: Phase): nat
    requires InRange(gs, p)
  {
    match p
    case Idle => 0
    case EnterLock => 2 * |gs| + 5
    case Locking(k) => 2 * |gs| + 4 - k
    case Holding => |gs| + 3
    case EnterUnlock => |gs| + 2
    case Unlocking(k) => |gs| + 1 - k
  }

  function TotalRemaining(c: Config, s: State, n: nat): nat
    requires Fits(c, s) && n <= |c.uses|
  {
    if n == 0 then 0 else TotalRemaining(c, s, n - 1) + Remaining(c.Of(n - 1), s.phases[n - 1])
  }

  lemma {:induction false} TotalStep(c: Config, s: State, t: nat, n: nat)
    requires Fits(c, s) && t < |c.uses| && !Blocked(c, s, t) && s.phases[t] != Idle && n <= |c.uses|
    ensures TotalRemaining(c, Step(c, s, t), n) == TotalRemaining(c, s, n) - if t < n then 1 else 0
    decreases n
  {
    if n > 0 {
      TotalStep(c, s, t, n - 1);
    }
  }

  lemma {:induction false} TotalZero(c: Config, s: State, n: nat)
    requires Fits(c, s) && n <= |c.uses|
    ensures TotalRemaining(c, s, n) == 0 <==> forall t :: 0 <= t < n ==> s.phases[t] == Idle
  {
    if n > 0 {
      TotalZero(c, s, n - 1);
    }
  }

  /** No thread starts a new call. */
  predicate Draining(c: Config, s: State, schedule: seq<nat>)
    requires Fits(c, s) && Legal(c, s, schedule)
    decreases schedule
  {
    schedule == [] || (s.phases[schedule[0]] != Idle && Draining(c, Step(c, s, schedule[0]), schedule[1..]))
  }

  /** Whatever the scheduler does, without new calls it runs out of steps, and then, if no
      Lockable is shared, every call has finished. */
  lemma {:induction false} EveryCallFinishes(c: Config, s: State, schedule: seq<nat>)
    requires Inv(c, s) && !Shared(c) && Legal(c, s, schedule) && Draining(c, s, schedule)
    ensures var r, n := Run(c, s, schedule), |c.uses|;
      && |schedule| + TotalRemaining(c, r, n) == TotalRemaining(c, s, n)
      && ((forall t :: 0 <= t < n ==> r.phases[t] == Idle || Blocked(c, r, t)) ==> forall t :: 0 <= t < n ==> r.phases[t] == Idle)
    decreases schedule
  {
    if schedule == [] {
      if exists t :: 0 <= t < |c.uses| && s.phases[t] != Idle {
        Progress(c, s);
      }
    } else {
      StepKeepsInv(c, s, schedule[0]);
      TotalStep(c, s, schedule[0], |c.uses|);
      hide Step, Shared, Inv;
      EveryCallFinishes(c, Step(c, s, schedule[0]), schedule[1..]);
    }
  }

  // ------------------------------------------------------------ the objects

  class SyncGroupFactory {
    var currentId: nat
    ghost var issued: set<GroupId>

    ghost predicate Valid()
      reads this
    {
      forall i :: i in issued ==> i < currentId
    }

    constructor ()
      ensures Valid() && issued == {}
    {
      currentId, issued := 0, {};
    }

    /** No id is given out twice. */
    method GenerateSyncGroupId() returns (id: GroupId)
      requires Valid()
      modifies this
      ensures Valid() && id !in old(issued) && issued == old(issued) + {id}
      ensures forall i :: i in old(issued) ==> i < id
    {
      id := currentId;
      currentId := currentId + 1;
      issued := issued + {id};
    }
  }

  class SyncGroup {
    const groupId: GroupId
    var mutex: Mutex

    constructor (factory: SyncGroupFactory)
      requires factory.Valid()
      modifies factory
      ensures factory.Valid() && groupId !in old(factory.issued) && factory.issued == old(factory.issued) + {groupId}
      ensures mutex == Free
    {
      var id := factory.GenerateSyncGroupId();
      groupId, mutex := id, Free;
    }
  }

  /** The ids of a group list. */
  function Ids(gs: seq<SyncGroup>): (ids: seq<GroupId>)
    ensures |ids| == |gs| && forall i :: 0 <= i < |gs| ==> ids[i] == gs[i].groupId
  {
    seq(|gs|, i requires 0 <= i < |gs| => gs[i].groupId)
  }

  predicate SortedById(gs: seq<SyncGroup>) {
    forall i, j :: 0 <= i < j < |gs| ==> gs[i].groupId <= gs[j].groupId
  }

  lemma AppendSorted(gs: seq<SyncGroup>, g: SyncGroup)
    requires SortedById(gs) && forall x :: x in gs ==> x.groupId <= g.groupId
    ensures SortedById(gs + [g])
  {}

  lemma LastIsGreatest(gs: seq<SyncGroup>)
    requires SortedById(gs) && gs != []
    ensures SortedById(gs[..|gs| - 1]) && forall x :: x in gs ==> x.groupId <= gs[|gs| - 1].groupId
    ensures gs == gs[..|gs| - 1] + [gs[|gs| - 1]]
  {}

  /** Behind every group whose id is not greater. */
  function Insert(gs: seq<SyncGroup>, g: SyncGroup): (r: seq<SyncGroup>)
    requires SortedById(gs)
    ensures SortedById(r) && multiset(r) == multiset(gs) + multiset{g}
    ensures forall x :: x in r ==> x == g || x in gs
  {
    if gs == [] then [g] else
      LastIsGreatest(gs);
      var n := |gs| - 1;
      if gs[n].groupId <= g.groupId then
        AppendSorted(gs, g);
        gs + [g]
      else
        var r := Insert(gs[..n], g);
        AppendSorted(r, gs[n]);
        r + [gs[n]]
  }

  /** std::list::sort with groupCompare. */
  function SortGroups(gs: seq<SyncGroup>): (r: seq<SyncGroup>)
    ensures SortedById(r) && multiset(r) == multiset(gs)
  {
    if gs == [] then [] else
      var n := |gs| - 1;
      assert gs == gs[..n] + [gs[n]];
      Insert(SortGroups(gs[..n]), gs[n])
  }

  function Removed(gs: seq<SyncGroup>, g: SyncGroup): (r: seq<SyncGroup>)
    requires SortedById(gs)
    ensures SortedById(r) && multiset(r) == multiset(gs)[g := 0]
    ensures forall x :: x in r ==> x in gs
  {
    if gs == [] then [] else
      LastIsGreatest(gs);
      var n := |gs| - 1;
      var r := Removed(gs[..n], g);
      AppendSorted(r, gs[n]);
      if gs[n] == g then r else r + [gs[n]]
  }

  class Lockable {
    var groups: seq<SyncGroup>

    /** The order on which deadlock freedom rests. */
    ghost predicate Valid()
      reads this
    {
      SortedById(groups)
    }

    constructor ()
      ensures Valid() && groups == []
    {
      groups := [];
    }

    method JoinGroup(group: SyncGroup)
      requires Valid()
      modifies this
      ensures Valid() && Sorted(Ids(groups))
      ensures multiset(groups) == multiset(old(groups)) + multiset{group}
    {
      groups := SortGroups(groups + [group]);
    }

    method LeaveGroup(group: SyncGroup)
      requires Valid()
      modifies this
      ensures Valid() && Sorted(Ids(groups))
      ensures multiset(groups) == multiset(old(groups))[group := 0]
    {
      groups := Removed(groups, group);
    }

    /** lock, when no other thread is in the way: afterwards the thread has every group as
        many times more as the list names it. */
    method Lock(t: nat)
      requires forall g :: g in groups ==> CanTake(g.mutex, t)
      modifies groups
      ensures forall g :: g in groups ==>
        CanTake(g.mutex, t) && Depth(g.mutex, t) == old(Depth(g.mutex, t)) + multiset(groups)[g]
    {
      var k := 0;
      while k < |groups|
        invariant 0 <= k <= |groups|
        invariant forall g :: g in groups ==>
          CanTake(g.mutex, t) && Depth(g.mutex, t) == old(Depth(g.mutex, t)) + multiset(groups[..k])[g]
      {
        assert groups[..k + 1] == groups[..k] + [groups[k]];
        groups[k].mutex := Taken(groups[k].mutex, t);
        k := k + 1;
      }
      assert groups[..k] == groups;
    }

    /** unlock by the thread that has the groups gives back exactly what lock took. */
    method Unlock(t: nat)
      requires forall g :: g in groups ==>
        g.mutex.Owned? && g.mutex.owner == t && g.mutex.depth >= multiset(groups)[g]
      modifies groups
      ensures forall g :: g in groups ==>
        CanTake(g.mutex, t) && Depth(g.mutex, t) == old(Depth(g.mutex, t)) - multiset(groups)[g]
    {
      var k := 0;
      while k < |groups|
        invariant 0 <= k <= |groups|
        invariant forall g :: g in groups ==>
          CanTake(g.mutex, t) && Depth(g.mutex, t) == old(Depth(g.mutex, t)) - multiset(groups[..k])[g]
      {
        assert groups[..k + 1] == groups[..k] + [groups[k]];
        assert groups == groups[..k + 1] + groups[k + 1..];
        assert multiset(groups)[groups[k]] > multiset(groups[..k])[groups[k]];
        groups[k].mutex := Released(groups[k].mutex);
        k := k + 1;
      }
      assert groups[..k] == groups;
    }
  }
}
