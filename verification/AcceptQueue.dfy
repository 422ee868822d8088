/** The accept queue of RdcpServer (RdcpServer.hh, RdcpServer.h). Clients that are not known
    yet wait in a map until accept takes them. The queue is announced with a cvgCondition,
    whose signals do not add up; the module also runs the same code with a counting
    cvgSemaphore, and compares. Addresses are integers in the order of the C++ map. */
module AcceptQueue {
  import opened Wrappers
  import Rdcp

  /** `counting` tells a cvgSemaphore from a cvgCondition; `signals` is the count, or 1 for a
      fired condition. A negative queue length means no limit. */
  datatype Server = Server(counting: bool, queueLength: int, pending: map<int, nat>, accepted: map<int, nat>,
                           signals: nat, nextId: nat)

  lemma Pick<T>(keys: set<T>) returns (k: T)
    requires keys != {}
    ensures k in keys
  {
    k :| k in keys;
  }

  lemma {:induction false} LeastExists(keys: set<int>)
    requires keys != {}
    ensures exists k :: k in keys && forall j :: j in keys ==> k <= j
    decreases |keys|
  {
    var k := Pick(keys);
    var rest := keys - {k};
    var l := k;
    if rest != {} {
      LeastExists(rest);
      var m :| m in rest && forall j :: j in rest ==> m <= j;
      l := if k <= m then k else m;
    }
    assert l in keys;
    forall j | j in keys
      ensures l <= j
    {
      assert j == k || j in rest;
    }
  }

  /** begin() of an ordered map. */
  function Least(keys: set<int>): (k: int)
    requires keys != {}
    ensures k in keys && forall j :: j in keys ==> k <= j
  {
    LeastExists(keys);
    var k :| k in keys && forall j :: j in keys ==> k <= j;
    k
  }

  function Signal(s: Server): Server {
    s.(signals := if s.counting then s.signals + 1 else 1)
  }

  predicate Admits(s: Server, address: int) {
    address !in s.accepted && address !in s.pending && (s.queueLength < 0 || |s.pending| < s.queueLength)
  }

  /** The locked part of run, for a valid packet from `address`. */
  function Arrive(s: Server, address: int, port: nat): Server {
    if Admits(s, address) then Signal(s.(pending := s.pending[address := port])) else s
  }

  /** Whom accept takes, if anybody. Without a signal it times out. */
  function Served(s: Server): Option<int> {
    if s.signals > 0 && s.pending != map[] then Some(Least(s.pending.Keys)) else None
  }

  function AfterAccept(s: Server): Server {
    var t := s.(signals := if s.signals > 0 then s.signals - 1 else 0);
    match Served(s)
    case None => t
    case Some(a) => t.(pending := s.pending - {a}, accepted := s.accepted[a := s.nextId], nextId := s.nextId + 1)
  }

  /** gotEvent for a socket that faulted or disconnected. The socket's identity is ignored. */
  function Gone(s: Server, address: int): Server { s.(accepted := s.accepted - {address}) }

  datatype Step = Arrival(address: int, port: nat) | AcceptCall | Event(address: int, id: nat)

  function Apply(s: Server, step: Step): Server {
    match step
    case Arrival(a, p) => Arrive(s, a, p)
    case AcceptCall => AfterAccept(s)
    case Event(a, _) => Gone(s, a)
  }

  function Run(s: Server, steps: seq<Step>): Server
    decreases steps
  {
    if steps == [] then s else Run(Apply(s, steps[0]), steps[1..])
  }

  // ------------------------------------------------------------ invariant

  ghost predicate Inv(s: Server) {
    && s.pending.Keys !! s.accepted.Keys
    && (s.queueLength >= 0 ==> |s.pending| <= s.queueLength)
    && (s.counting ==> s.signals == |s.pending|)
    && (!s.counting ==> s.signals <= 1 && s.signals <= |s.pending|)
    && (!s.counting && s.queueLength > 0 && s.signals == 0 ==> |s.pending| < s.queueLength)
  }

  lemma PendingGrows(s: Server, address: int, port: nat)
    requires address !in s.pending
    ensures |s.pending[address := port]| == |s.pending| + 1
    ensures s.pending[address := port].Keys == s.pending.Keys + {address}
  {
    assert s.pending[address := port].Keys == s.pending.Keys + {address};
  }

  lemma PendingShrinks(s: Server, address: int)
    requires address in s.pending
    ensures |s.pending - {address}| == |s.pending| - 1
    ensures (s.pending - {address}).Keys == s.pending.Keys - {address}
  {
    var m := s.pending - {address};
    assert s.pending.Keys == m.Keys + {address};
  }

  lemma EmptyPending(s: Server)
    ensures |s.pending| == 0 <==> s.pending == map[]
  {
    if |s.pending| == 0 {
      assert s.pending.Keys == {};
    }
  }

  lemma StepKeepsInv(s: Server, step: Step)
    requires Inv(s)
    ensures Inv(Apply(s, step))
    ensures |Apply(s, step).pending| == |s.pending| + (if step.Arrival? && Admits(s, step.address) then 1 else 0)
      - (if step.AcceptCall? && Served(s).Some? then 1 else 0)
  {
    match step {
      case Arrival(a, p) =>
        if Admits(s, a) {
          PendingGrows(s, a, p);
        }
      case AcceptCall =>
        EmptyPending(s);
        if Served(s).Some? {
          PendingShrinks(s, Served(s).value);
        }
      case Event(a, _) =>
    }
  }

  /** In every run from an empty server: no address is pending and accepted at once, the
      queue keeps its limit, and the signals agree with the queue as far as their kind can. */
  lemma {:induction false} InvOverRuns(s: Server, steps: seq<Step>)
    requires Inv(s)
    ensures Inv(Run(s, steps))
    decreases steps
  {
    if steps != [] {
      StepKeepsInv(s, steps[0]);
      InvOverRuns(Apply(s, steps[0]), steps[1..]);
    }
  }

  // ------------------------------------------------------------ conservation

  /** Clients admitted while the condition is already fired: their signal is lost. */
  function Coalesced(s: Server, steps: seq<Step>): nat
    decreases steps
  {
    if steps == [] then 0 else
      var lost := steps[0].Arrival? && Admits(s, steps[0].address) && !s.counting && s.signals == 1;
      (if lost then 1 else 0) + Coalesced(Apply(s, steps[0]), steps[1..])
  }

  function Admitted(s: Server, steps: seq<Step>): nat
    decreases steps
  {
    if steps == [] then 0
    else (if steps[0].Arrival? && Admits(s, steps[0].address) then 1 else 0) + Admitted(Apply(s, steps[0]), steps[1..])
  }

  function AllServed(s: Server, steps: seq<Step>): seq<int>
    decreases steps
  {
    if steps == [] then []
    else (if steps[0].AcceptCall? && Served(s).Some? then [Served(s).value] else []) + AllServed(Apply(s, steps[0]), steps[1..])
  }

  /** Clients that wait without a signal that will announce them. */
  function Stranded(s: Server): int { |s.pending| - s.signals }

  /** Every client admitted is served or still waiting, and those stranded are exactly as many
      as the signals that fell together. */
  lemma {:induction false} Conservation(s: Server, steps: seq<Step>)
    requires Inv(s)
    ensures var t := Run(s, steps);
      && |s.pending| + Admitted(s, steps) == |AllServed(s, steps)| + |t.pending|
      && Stranded(t) == Stranded(s) + Coalesced(s, steps)
    decreases steps
  {
    if steps != [] {
      StepKeepsInv(s, steps[0]);
      EmptyPending(s);
      Conservation(Apply(s, steps[0]), steps[1..]);
    }
  }

  /** When accept comes back empty-handed, over every run of a server that has just been
      opened. With a counting semaphore: only if nobody waits. With the condition: although
      somebody waits, exactly if as many signals were lost as clients are waiting. */
  lemma {:induction false} EmptyHanded(counting: bool, queueLength: int, steps: seq<Step>)
    ensures var s := OpenServer(counting, queueLength); var t := Run(s, steps);
      && (counting ==> (Served(t) == None <==> t.pending == map[]))
      && (!counting ==> (Served(t) == None && t.pending != map[] <==> 0 < |t.pending| == Coalesced(s, steps)))
  {
    var s := OpenServer(counting, queueLength);
    Conservation(s, steps);
    InvOverRuns(s, steps);
    QueueLengthFixed(s, steps);
    EmptyPending(Run(s, steps));
  }

  lemma StrandedStep(s: Server, step: Step)
    requires s.signals == 0 && (step.Arrival? ==> !Admits(s, step.address))
    ensures var t := Apply(s, step); t.pending == s.pending && t.signals == 0
    ensures Served(s) == None
  {}

  /** A stranded queue stays put: the clients in it repeat their packets, the application calls
      accept, connections end, but nobody is served until somebody new is admitted. */
  lemma {:induction false} StrandedStay(s: Server, steps: seq<Step>)
    requires s.signals == 0
    requires forall i :: 0 <= i < |steps| && steps[i].Arrival? ==> !Admits(Run(s, steps[..i]), steps[i].address)
    ensures var t := Run(s, steps); t.pending == s.pending && t.signals == 0 && AllServed(s, steps) == []
    decreases steps
  {
    hide Apply, Admits, Served;
    if steps != [] {
      var t, rest := Apply(s, steps[0]), steps[1..];
      assert steps[..0] == [];
      assert Run(s, steps[..0]) == s;
      StrandedStep(s, steps[0]);
      forall i | 0 <= i < |rest| && rest[i].Arrival?
        ensures !Admits(Run(t, rest[..i]), rest[i].address)
      {
        assert steps[..i + 1][1..] == rest[..i];
        assert !Admits(Run(s, steps[..i + 1]), steps[i + 1].address);
      }
      StrandedStay(t, rest);
    }
  }

  /** A limited queue never strands as many as it holds, so there is always room for the
      client whose signal will free one more. */
  lemma {:induction false} StrandedBelowLimit(s: Server, steps: seq<Step>)
    requires Inv(s) && !s.counting && s.queueLength > 0
    ensures Run(s, steps).queueLength == s.queueLength && Stranded(Run(s, steps)) < s.queueLength
  {
    InvOverRuns(s, steps);
    QueueLengthFixed(s, steps);
  }

  lemma {:induction false} QueueLengthFixed(s: Server, steps: seq<Step>)
    ensures Run(s, steps).queueLength == s.queueLength && Run(s, steps).counting == s.counting
    decreases steps
  {
    if steps != [] {
      QueueLengthFixed(Apply(s, steps[0]), steps[1..]);
    }
  }

  function OpenServer(counting: bool, queueLength: int): Server { Server(counting, queueLength, map[], map[], 0, 0) }

  function Arrivals(from: int, n: nat): seq<Step> { seq(n, i requires 0 <= i => Arrival(from + i, 0)) }

  lemma {:induction false} Burst(s: Server, from: int, n: nat)
    requires Inv(s) && !s.counting && s.accepted == map[]
    requires forall a :: a in s.pending ==> a < from
    requires s.queueLength < 0 || |s.pending| + n <= s.queueLength
    ensures var t := Run(s, Arrivals(from, n));
      && |t.pending| == |s.pending| + n && Inv(t) && !t.counting && (n > 0 ==> t.signals == 1)
      && (n == 0 ==> t == s) && t.queueLength == s.queueLength
    decreases n
  {
    if n > 0 {
      var t := Apply(s, Arrival(from, 0));
      PendingGrows(s, from, 0);
      StepKeepsInv(s, Arrival(from, 0));
      assert Arrivals(from, n)[1..] == Arrivals(from + 1, n - 1);
      Burst(t, from + 1, n - 1);
    }
  }

  lemma {:induction false} RunConcat(s: Server, a: seq<Step>, b: seq<Step>)
    ensures Run(s, a + b) == Run(Run(s, a), b)
    decreases a
  {
    if a == [] {
      assert a + b == b;
    } else {
      assert (a + b)[1..] == a[1..] + b;
      RunConcat(Apply(s, a[0]), a[1..], b);
    }
  }

  /** The bound is reached, and without a limit there is none: n clients that come together
      leave n - 1 stranded behind the one that is served. */
  lemma BurstStrands(queueLength: int, n: nat)
    requires n > 0 && (queueLength < 0 || n <= queueLength)
    ensures var t := Run(OpenServer(false, queueLength), Arrivals(0, n) + [AcceptCall]);
      t.signals == 0 && |t.pending| == Stranded(t) == n - 1
  {
    var s := OpenServer(false, queueLength);
    Burst(s, 0, n);
    RunConcat(s, Arrivals(0, n), [AcceptCall]);
    var t := Run(s, Arrivals(0, n));
    EmptyPending(t);
    StepKeepsInv(t, AcceptCall);
    assert Run(t, [AcceptCall]) == Apply(t, AcceptCall);
  }

  // ------------------------------------------------------------ who is admitted, and when served

  /** A client that is not known is admitted exactly if the queue has room, whoever else is
      connected; any other packet changes nothing. */
  lemma ArrivalExactly(s: Server, a: int, port: nat)
    requires Inv(s)
    ensures var t := Apply(s, Arrival(a, port)); var room := s.queueLength < 0 || |s.pending| < s.queueLength;
      if a !in s.accepted && a !in s.pending && room
      then t == s.(pending := s.pending[a := port], signals := t.signals) && t.signals > 0
      else t == s
  {}

  function Calls(k: nat): (steps: seq<Step>)
    ensures |steps| == k
  {
    seq(k, _ => AcceptCall)
  }

  /** How many of the keys come before a. */
  function Below(keys: set<int>, a: int): nat { |set b | b in keys && b < a| }

  lemma BelowAtMostAll(keys: set<int>, a: int)
    ensures Below(keys, a) <= |keys|
    ensures Below(keys, a) == 0 <==> forall b :: b in keys ==> a <= b
  {
    var below := set b | b in keys && b < a;
    var rest := keys - below;
    assert keys == below + rest;
    if below == {} {
      forall b | b in keys
        ensures a <= b
      {
        assert b !in below;
      }
    }
  }

  lemma BelowWithout(keys: set<int>, a: int, m: int)
    requires m in keys && m < a
    ensures Below(keys - {m}, a) == Below(keys, a) - 1
  {
    var below := set b | b in keys && b < a;
    assert (set b | b in keys - {m} && b < a) == below - {m};
  }

  lemma FirstCall(s: Server, k: nat)
    requires k > 0
    ensures Run(s, Calls(k)) == Run(Apply(s, AcceptCall), Calls(k - 1))
  {
    assert Calls(k)[1..] == Calls(k - 1);
  }

  lemma {:induction false} AcceptedStay(s: Server, k: nat, a: int)
    requires a in s.accepted
    ensures a in Run(s, Calls(k)).accepted
    decreases k
  {
    if k > 0 {
      FirstCall(s, k);
      AcceptedStay(Apply(s, AcceptCall), k - 1, a);
    }
  }

  lemma {:induction false} NoSignalNoService(s: Server, k: nat)
    requires s.signals == 0
    ensures Run(s, Calls(k)) == s
  {
    if k > 0 {
      FirstCall(s, k);
      NoSignalNoService(s, k - 1);
    }
  }

  /** With a counting semaphore a client is served when those before it have been. */
  lemma {:induction false} ServedByRank(s: Server, k: nat, a: int)
    requires Inv(s) && s.counting && a in s.pending
    ensures a in Run(s, Calls(k)).accepted <==> Below(s.pending.Keys, a) < k
    decreases k
  {
    hide Below;
    if k > 0 {
      FirstCall(s, k);
      StepKeepsInv(s, AcceptCall);
      EmptyPending(s);
      var m := Least(s.pending.Keys);
      BelowAtMostAll(s.pending.Keys, a);
      if m == a {
        AcceptedStay(Apply(s, AcceptCall), k - 1, a);
      } else {
        PendingShrinks(s, m);
        BelowWithout(s.pending.Keys, a, m);
        ServedByRank(Apply(s, AcceptCall), k - 1, a);
      }
    }
  }

  /** With the condition one signal serves one client, the first. */
  lemma FirstIsServed(s: Server, k: nat, a: int)
    requires Inv(s) && !s.counting && a in s.pending && s.signals > 0
    ensures a in Run(s, Calls(k)).accepted <==> 0 < k && forall b :: b in s.pending ==> a <= b
  {
    if k > 0 {
      FirstCall(s, k);
      NoSignalNoService(Apply(s, AcceptCall), k - 1);
    }
  }

  lemma ServedAfterArrival(s: Server, a: int, port: nat, k: nat)
    requires Inv(s) && a !in s.accepted && a !in s.pending && (s.queueLength < 0 || |s.pending| < s.queueLength)
    ensures var t := Run(Apply(s, Arrival(a, port)), Calls(k));
      && (s.counting ==> (a in t.accepted <==> Below(s.pending.Keys, a) < k))
      && (!s.counting ==> (a in t.accepted <==> 0 < k && forall b :: b in s.pending ==> a < b))
  {
    hide Run;
    var u := Apply(s, Arrival(a, port));
    StepKeepsInv(s, Arrival(a, port));
    ArrivalExactly(s, a, port);
    hide Inv, Apply;
    assert forall b :: b in u.pending <==> b in s.pending || b == a;
    if s.counting {
      assert (set b | b in u.pending.Keys && b < a) == set b | b in s.pending.Keys && b < a;
      ServedByRank(u, k, a);
    } else {
      FirstIsServed(u, k, a);
    }
  }

  /** In every run from an open server, when a client that is not known arrives and the queue
      has room: with a counting semaphore it is accepted by the k-th call that follows exactly
      if fewer than k of those waiting come before it, so the calls need only be as many as the
      clients. With the condition it is accepted exactly if all of them come after it, however
      often accept is called. */
  lemma {:induction false} WaitsItsTurn(counting: bool, queueLength: int, steps: seq<Step>, a: int, port: nat, k: nat)
    requires var s := Run(OpenServer(counting, queueLength), steps);
      a !in s.accepted && a !in s.pending && (queueLength < 0 || |s.pending| < queueLength)
    ensures var s := Run(OpenServer(counting, queueLength), steps);
      var t := Run(OpenServer(counting, queueLength), steps + [Arrival(a, port)] + Calls(k));
      && (counting ==> (a in t.accepted <==> |set b | b in s.pending && b < a| < k))
      && (counting && |s.pending| < k ==> a in t.accepted)
      && (!counting ==> (a in t.accepted <==> 0 < k && forall b :: b in s.pending ==> a < b))
  {
    var start := OpenServer(counting, queueLength);
    var s := Run(start, steps);
    InvOverRuns(start, steps);
    QueueLengthFixed(start, steps);
    RunConcat(start, steps + [Arrival(a, port)], Calls(k));
    RunConcat(start, steps, [Arrival(a, port)]);
    RunOne(s, Arrival(a, port));
    hide Run, Apply;
    ServedAfterArrival(s, a, port, k);
    BelowAtMostAll(s.pending.Keys, a);
    assert (set b | b in s.pending.Keys && b < a) == set b | b in s.pending && b < a;
  }

  lemma RunOne(s: Server, step: Step)
    ensures Run(s, [step]) == Apply(s, step)
  {
    assert Run(s, [step]) == Run(Apply(s, step), [step][1..]);
  }

  // ------------------------------------------------------------ whose entry an event erases

  /** The server before step k. */
  function StateAt(s: Server, steps: seq<Step>, k: nat): Server
    requires k <= |steps|
  {
    Run(s, steps[..k])
  }

  lemma NextState(s: Server, steps: seq<Step>, k: nat)
    requires k < |steps|
    ensures StateAt(s, steps, k + 1) == Apply(StateAt(s, steps, k), steps[k])
  {
    assert steps[..k + 1] == steps[..k] + [steps[k]];
    RunConcat(s, steps[..k], [steps[k]]);
    var t := Run(s, steps[..k]);
    assert [steps[k]][1..] == [];
    assert Run(t, [steps[k]]) == Run(Apply(t, steps[k]), []);
  }

  lemma InvAt(s: Server, steps: seq<Step>, k: nat)
    requires Inv(s) && k <= |steps|
    ensures Inv(StateAt(s, steps, k))
  {
    InvOverRuns(s, steps[..k]);
  }

  /** Step j accepts a client from address a; its socket gets the next id. */
  predicate Accepts(s: Server, steps: seq<Step>, j: nat, a: int) {
    j < |steps| && steps[j].AcceptCall? && Served(StateAt(s, steps, j)) == Some(a)
  }

  function SocketId(s: Server, steps: seq<Step>, j: nat): nat
    requires j <= |steps|
  {
    StateAt(s, steps, j).nextId
  }

  predicate EventOn(steps: seq<Step>, m: nat, a: int) {
    m < |steps| && steps[m].Event? && steps[m].address == a
  }

  /** Address a is accepted in step j, and has no event from there to step k. */
  predicate AcceptedSince(s: Server, steps: seq<Step>, j: nat, k: nat, a: int) {
    Accepts(s, steps, j, a) && j < k && forall m :: j < m < k ==> !EventOn(steps, m, a)
  }

  /** Every event comes from a socket that was accepted at its address before. */
  ghost predicate Genuine(s: Server, steps: seq<Step>) {
    forall k :: 0 <= k < |steps| && steps[k].Event? ==> exists i :: IsSocketOf(s, steps, i, k)
  }

  /** Step k is an event of the socket that step i accepted. */
  predicate IsSocketOf(s: Server, steps: seq<Step>, i: nat, k: nat) {
    && i < k < |steps| && steps[k].Event?
    && Accepts(s, steps, i, steps[k].address) && steps[k].id == SocketId(s, steps, i)
  }

  /** An event that erases the entry of a socket other than its own. */
  predicate Evicts(s: Server, e: Step) {
    e.Event? && e.address in s.accepted && s.accepted[e.address] != e.id
  }

  lemma IdStep(t: Server, step: Step)
    ensures Apply(t, step).nextId == t.nextId + if step.AcceptCall? && Served(t).Some? then 1 else 0
  {
    hide Served;
  }

  lemma {:induction false} IdsGrow(s: Server, steps: seq<Step>, i: nat, k: nat)
    requires i <= k <= |steps|
    ensures SocketId(s, steps, i) <= SocketId(s, steps, k)
    ensures i < k && steps[i].AcceptCall? && Served(StateAt(s, steps, i)).Some? ==>
      SocketId(s, steps, i) < SocketId(s, steps, k)
    decreases k
  {
    hide StateAt, Served, Apply;
    if i < k {
      IdsGrow(s, steps, i, k - 1);
      NextState(s, steps, k - 1);
      IdStep(StateAt(s, steps, k - 1), steps[k - 1]);
    }
  }

  lemma EntryKept(t: Server, step: Step, a: int)
    requires Inv(t) && a in t.accepted && !(step.Event? && step.address == a)
    ensures a in Apply(t, step).accepted && Apply(t, step).accepted[a] == t.accepted[a]
  {}

  lemma EntryMade(t: Server, a: int)
    requires Served(t) == Some(a)
    ensures a in Apply(t, AcceptCall).accepted && Apply(t, AcceptCall).accepted[a] == t.nextId
  {
    hide Served;
  }

  lemma {:induction false} EntryStays(s: Server, steps: seq<Step>, j: nat, k: nat, a: int)
    requires Inv(s) && k <= |steps| && AcceptedSince(s, steps, j, k, a)
    ensures a in StateAt(s, steps, k).accepted && StateAt(s, steps, k).accepted[a] == SocketId(s, steps, j)
    decreases k
  {
    hide StateAt, Served, Apply, Inv;
    NextState(s, steps, k - 1);
    InvAt(s, steps, k - 1);
    var t := StateAt(s, steps, k - 1);
    if j < k - 1 {
      EntryStays(s, steps, j, k - 1, a);
      assert !EventOn(steps, k - 1, a);
      EntryKept(t, steps[k - 1], a);
    } else {
      EntryMade(t, a);
    }
  }

  lemma EntryStep(t: Server, step: Step, a: int)
    requires a in Apply(t, step).accepted
    ensures var u := Apply(t, step);
      if step.AcceptCall? && Served(t) == Some(a) then u.accepted[a] == t.nextId
      else a in t.accepted && u.accepted[a] == t.accepted[a] && !(step.Event? && step.address == a)
  {
    hide Served;
  }

  lemma {:induction false} EntryComesFrom(s: Server, steps: seq<Step>, k: nat, a: int) returns (j: nat)
    requires s.accepted == map[] && k <= |steps| && a in StateAt(s, steps, k).accepted
    ensures AcceptedSince(s, steps, j, k, a) && StateAt(s, steps, k).accepted[a] == SocketId(s, steps, j)
    decreases k
  {
    assert steps[..0] == [];
    if k == 0 {
      assert false;
    } else {
      hide StateAt, Apply, Served;
      NextState(s, steps, k - 1);
      var t := StateAt(s, steps, k - 1);
      EntryStep(t, steps[k - 1], a);
      if steps[k - 1].AcceptCall? && Served(t) == Some(a) {
        j := k - 1;
      } else {
        j := EntryComesFrom(s, steps, k - 1, a);
        assert !EventOn(steps, k - 1, a);
      }
    }
  }

  /** Step k erases the entry of another socket exactly if it is an event of a socket whose
      address has been accepted again since, with no event at that address after. */
  lemma {:induction false} EvictsIff(counting: bool, queueLength: int, steps: seq<Step>, k: nat)
    requires k < |steps|
    requires Genuine(OpenServer(counting, queueLength), steps)
    ensures var s := OpenServer(counting, queueLength);
      Evicts(StateAt(s, steps, k), steps[k])
      <==> exists i, j :: IsSocketOf(s, steps, i, k) && i < j && AcceptedSince(s, steps, j, k, steps[k].address)
  {
    hide StateAt, Served;
    var s := OpenServer(counting, queueLength);
    if Evicts(StateAt(s, steps, k), steps[k]) {
      var a := steps[k].address;
      var i :| IsSocketOf(s, steps, i, k);
      var j := EntryComesFrom(s, steps, k, a);
      if j < i {
        AcceptedOnceAtATime(s, steps, j, i, k, a);
      }
    }
    if i, j :| IsSocketOf(s, steps, i, k) && i < j && AcceptedSince(s, steps, j, k, steps[k].address) {
      EntryStays(s, steps, j, k, steps[k].address);
      IdsGrow(s, steps, i, j);
    }
  }

  lemma {:induction false} AcceptedOnceAtATime(s: Server, steps: seq<Step>, j: nat, i: nat, k: nat, a: int)
    requires Inv(s) && i < k <= |steps| && AcceptedSince(s, steps, j, k, a) && Accepts(s, steps, i, a)
    ensures i <= j
  {
    if j < i {
      EntryStays(s, steps, j, i, a);
      InvAt(s, steps, i);
    }
  }

  /** The sockets of an address do not overlap: no socket has an event after its address was
      accepted again. */
  ghost predicate LastEventsFirst(s: Server, steps: seq<Step>) {
    forall i: nat, j: nat, k: nat :: IsSocketOf(s, steps, i, k) && i < j && Accepts(s, steps, j, steps[k].address) ==> k < j
  }

  /** So if the application disconnects a faulted socket before it accepts its client again,
      every accepted entry is erased by its own socket alone. */
  lemma {:induction false} EntriesSafe(counting: bool, queueLength: int, steps: seq<Step>, k: nat)
    requires var s := OpenServer(counting, queueLength); Genuine(s, steps) && LastEventsFirst(s, steps)
    requires k < |steps|
    ensures var s := StateAt(OpenServer(counting, queueLength), steps, k);
      var t := StateAt(OpenServer(counting, queueLength), steps, k + 1);
      forall a :: a in s.accepted && a !in t.accepted ==> steps[k] == Event(a, s.accepted[a])
  {
    hide StateAt, Served;
    var s := OpenServer(counting, queueLength);
    NextState(s, steps, k);
    EvictsIff(counting, queueLength, steps, k);
    forall i: nat, j: nat | IsSocketOf(s, steps, i, k) && i < j && Accepts(s, steps, j, steps[k].address)
      ensures k < j
    {}
  }

  /** gotEvent goes by address. A socket that first faults and is disconnected later sends two
      events; if its client has been accepted again in between, the second one erases the new
      connection, and the client can be accepted a third time. */
  lemma SecondEventEvictsSuccessor(counting: bool, a: int)
    ensures var once := [Arrival(a, 0), AcceptCall, Event(a, 0)];
      var again := [Arrival(a, 0), AcceptCall];
      var s := OpenServer(counting, -1);
      && Run(s, once + again).accepted == map[a := 1]
      && Run(s, once + again + [Event(a, 0)]).accepted == map[]
      && Run(s, once + again + [Event(a, 0)] + again).accepted == map[a := 2]
  {
    var event := [Event(a, 0)];
    var again, s := [Arrival(a, 0), AcceptCall], OpenServer(counting, -1);
    var once := [Arrival(a, 0), AcceptCall, Event(a, 0)];
    AcceptFresh(s, a);
    var t := s.(nextId := 1);
    assert s.accepted[a := 0] - {a} == map[];
    assert once == again + event;
    RunConcat(s, again, event);
    EventAfter(s.(accepted := map[a := 0], nextId := 1), a);
    RunConcat(s, once, again);
    AcceptFresh(t, a);
    RunConcat(s, once + again, event);
    EventAfter(t.(accepted := map[a := 1], nextId := 2), a);
    RunConcat(s, once + again + event, again);
    AcceptFresh(t.(nextId := 2), a);
  }

  lemma EventAfter(s: Server, a: int)
    requires s.accepted.Keys == {a}
    ensures Run(s, [Event(a, 0)]) == s.(accepted := map[])
  {
    assert Run(s, [Event(a, 0)]) == Apply(s, Event(a, 0));
    assert s.accepted - {a} == map[];
  }

  lemma AcceptFresh(s: Server, a: int)
    requires s.pending == map[] && s.accepted == map[] && s.signals == 0 && s.queueLength < 0
    ensures Run(s, [Arrival(a, 0), AcceptCall]) == s.(accepted := map[a := s.nextId], nextId := s.nextId + 1)
  {
    var steps := [Arrival(a, 0), AcceptCall];
    var t := Apply(s, Arrival(a, 0));
    assert t.pending == map[a := 0] && t.signals == 1;
    assert a in t.pending.Keys && Least(t.pending.Keys) == a;
    assert t.pending - {a} == map[];
    assert steps[1..] == [AcceptCall];
    assert Run(t, [AcceptCall]) == Apply(t, AcceptCall);
  }

  // ------------------------------------------------------------ the objects

  class CvgCondition {
    var conditionFired: bool

    constructor ()
      ensures !conditionFired
    {
      conditionFired := false;
    }

    method Signal()
      modifies this
      ensures conditionFired
    {
      conditionFired := true;
    }

    /** wait with a timeout. `wakes` tells, for each time the thread wakes up before the
        timeout, whether another thread has fired the condition. */
    method TimedWait(wakes: seq<bool>) returns (result: bool)
      modifies this
      ensures result <==> old(conditionFired) || true in wakes
      ensures !conditionFired
    {
      var i := 0;
      while !conditionFired && i < |wakes|
        invariant 0 <= i <= |wakes|
        invariant conditionFired <==> old(conditionFired) || true in wakes[..i]
      {
        conditionFired := wakes[i];
        i := i + 1;
      }
      result := conditionFired;
      conditionFired := false;
    }
  }

  function Sum(s: seq<nat>): nat {
    if s == [] then 0 else Sum(s[..|s| - 1]) + s[|s| - 1]
  }

  class CvgSemaphore {
    var count: nat

    constructor ()
      ensures count == 0
    {
      count := 0;
    }

    method Signal()
      modifies this
      ensures count == old(count) + 1
    {
      count := count + 1;
    }

    /** wait with a timeout. `wakes` has the number of signals that came in before each time
        the thread woke up; `n` of them happened before the wait was over. No signal is lost. */
    method TimedWait(wakes: seq<nat>) returns (result: bool, n: nat)
      modifies this
      ensures n <= |wakes|
      ensures count == old(count) + Sum(wakes[..n]) - if result then 1 else 0
      ensures result <==> old(count) + Sum(wakes) > 0
    {
      n := 0;
      while count == 0 && n < |wakes|
        invariant 0 <= n <= |wakes|
        invariant count == old(count) + Sum(wakes[..n])
      {
        assert wakes[..n + 1][..n] == wakes[..n];
        count := count + wakes[n];
        n := n + 1;
      }
      assert wakes[..|wakes|] == wakes;
      SumMonotone(wakes, n);
      result := count > 0;
      if count > 0 {
        count := count - 1;
      }
    }
  }

  lemma {:induction false} SumMonotone(s: seq<nat>, n: nat)
    requires n <= |s|
    ensures Sum(s[..n]) <= Sum(s)
    decreases |s|
  {
    if n < |s| {
      SumMonotone(s[..|s| - 1], n);
      assert s[..|s| - 1][..n] == s[..n];
    } else {
      assert s[..n] == s;
    }
  }

  class RdcpServer {
    const clientQueueLength: int
    const acceptSemaphore: CvgCondition
    var pendingAccepts: map<int, nat>
    var acceptedSockets: map<int, nat>
    var created: nat
    var isOpen: bool

    ghost function View(): Server
      reads this, acceptSemaphore
    {
      Server(false, clientQueueLength, pendingAccepts, acceptedSockets, if acceptSemaphore.conditionFired then 1 else 0, created)
    }

    ghost predicate Valid()
      reads this, acceptSemaphore
    {
      Inv(View())
    }

    constructor (clientQueueLength: int)
      ensures Valid() && View() == OpenServer(false, clientQueueLength) && isOpen
      ensures fresh(acceptSemaphore)
    {
      this.clientQueueLength := clientQueueLength;
      acceptSemaphore := new CvgCondition();
      pendingAccepts, acceptedSockets, created, isOpen := map[], map[], 0, true;
    }

    /** accept from the end of its wait to the release of the mutex; a signal before that is
        an earlier step of some other thread. None for an exception. */
    method Accept() returns (result: Option<Option<int>>)
      requires Valid()
      modifies this`pendingAccepts, this`acceptedSockets, this`created, acceptSemaphore
      ensures Valid()
      ensures !isOpen ==> result == None && View() == old(View())
      ensures isOpen ==> result == Some(Served(old(View()))) && View() == AfterAccept(old(View()))
      ensures isOpen ==> !acceptSemaphore.conditionFired
      ensures isOpen && (!old(acceptSemaphore.conditionFired) || old(pendingAccepts) == map[]) ==>
        result == Some(None) && pendingAccepts == old(pendingAccepts) && acceptedSockets == old(acceptedSockets)
      ensures isOpen && old(acceptSemaphore.conditionFired) && old(pendingAccepts) != map[] ==>
        exists a :: a in old(pendingAccepts) && (forall b :: b in old(pendingAccepts) ==> a <= b)
          && result == Some(Some(a)) && pendingAccepts == old(pendingAccepts) - {a}
          && acceptedSockets == old(acceptedSockets)[a := old(created)]
    {
      if !isOpen {
        return None;
      }
      StepKeepsInv(View(), AcceptCall);
      var signalled := acceptSemaphore.TimedWait([]);
      if signalled && |pendingAccepts| > 0 {
        EmptyPending(View());
        var connectionAddress := Least(pendingAccepts.Keys);
        pendingAccepts := pendingAccepts - {connectionAddress};
        acceptedSockets := acceptedSockets[connectionAddress := created];
        created := created + 1;
        return Some(Some(connectionAddress));
      }
      return Some(None);
    }

    /** run, on a datagram of which at most a header's length has been read. */
    method RunOnce(d: seq<Rdcp.Byte>, address: int)
      requires Valid() && |d| <= Rdcp.HEADER_SIZE
      modifies this`pendingAccepts, acceptSemaphore
      ensures Valid()
      ensures View() == if |d| == Rdcp.HEADER_SIZE && Rdcp.Decode(d).signature == Rdcp.CLIENT_TO_SERVER
        then Arrive(old(View()), address, Rdcp.Decode(d).responsePort) else old(View())
      ensures var valid := |d| == Rdcp.HEADER_SIZE && Rdcp.Decode(d).signature == Rdcp.CLIENT_TO_SERVER;
        var room := clientQueueLength < 0 || |old(pendingAccepts)| < clientQueueLength;
        if valid && address !in acceptedSockets && address !in old(pendingAccepts) && room
        then pendingAccepts == old(pendingAccepts)[address := Rdcp.Decode(d).responsePort] && acceptSemaphore.conditionFired
        else View() == old(View())
    {
      if |d| != Rdcp.HEADER_SIZE {
        return;
      }
      var header := Rdcp.Decode(d);
      if header.signature != Rdcp.CLIENT_TO_SERVER {
        return;
      }
      StepKeepsInv(View(), Arrival(address, header.responsePort));
      if address !in acceptedSockets {
        if address !in pendingAccepts && (clientQueueLength < 0 || |pendingAccepts| < clientQueueLength) {
          pendingAccepts := pendingAccepts[address := header.responsePort];
          acceptSemaphore.Signal();
        }
      }
    }

    /** gotEvent for the socket `id` that was accepted at `address`. */
    method GotEvent(oldState: Rdcp.Conn, newState: Rdcp.Conn, address: int, id: nat)
      requires Valid()
      modifies this`acceptedSockets
      ensures Valid()
      ensures forall a :: a in acceptedSockets <==>
        && a in old(acceptedSockets)
        && !(a == address && newState != oldState && (newState == Rdcp.DISCONNECTED || newState == Rdcp.FAULT))
      ensures forall a :: a in acceptedSockets ==> acceptedSockets[a] == old(acceptedSockets)[a]
      ensures View() == if newState != oldState && (newState == Rdcp.DISCONNECTED || newState == Rdcp.FAULT)
        then Apply(old(View()), Event(address, id)) else old(View())
    {
      StepKeepsInv(View(), Event(address, id));
      if newState != oldState && (newState == Rdcp.DISCONNECTED || newState == Rdcp.FAULT) {
        acceptedSockets := acceptedSockets - {address};
      }
    }
  }
}
