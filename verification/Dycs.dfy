/** Commander arbitration of the DYCS session layer (DycsServer.hh, DycsServerConn.hh) and
    the command gate of NavigationServer.hh. Of all connected clients at most one, the
    commander, may steer the vehicle; a lower priority number outranks a higher one. */
module Dycs {
  import opened Memory
  import opened Wrappers

  /** The three-bit access mode of the header; only the value 0 asks for command. */
  datatype AccessMode = COMMANDER | LISTENER | UNKNOWN_MODE | OTHER(code: nat)

  /** What a client last asked for. */
  datatype Wish = Wish(mode: AccessMode, priority: nat)

  const CVG_INT_MAX := 0x7FFF_FFFF

  function ModeCode(m: AccessMode): nat {
    match m
    case COMMANDER => 0
    case LISTENER => 1
    case UNKNOWN_MODE => 2
    case OTHER(code) => code
  }

  /** The one-byte header of a client packet: mode in the low three bits, priority above. */
  function ParseHeader(b: nat): (w: Wish)
    requires b < 256
    ensures w.priority * 8 + ModeCode(w.mode) == b && ModeCode(w.mode) < 8
    ensures w.mode == COMMANDER <==> b % 8 == 0
    ensures w.priority < CVG_INT_MAX
  {
    var m := b % 8;
    Wish(if m == 0 then COMMANDER else if m == 1 then LISTENER else if m == 2 then UNKNOWN_MODE else OTHER(m), b / 8)
  }

  // ------------------------------------------------------------ arbitration on values

  datatype Arbiter<C> = Arbiter(clients: seq<C>, record: map<C, Wish>, commander: Option<C>, stored: int)

  predicate Wants<C(==)>(record: map<C, Wish>, c: C) {
    c in record && record[c].mode == COMMANDER
  }

  /** Who findAnotherCommander may pick. */
  predicate Eligible<C(==)>(record: map<C, Wish>, skip: Option<C>, c: C) {
    skip != Some(c) && Wants(record, c) && record[c].priority < CVG_INT_MAX
  }

  /** The pick of findAnotherCommander: least priority number, the earliest accepted client
      on a tie. */
  function Best<C(==)>(clients: seq<C>, record: map<C, Wish>, skip: Option<C>): (r: Option<C>)
    ensures r == None ==> forall c :: c in clients ==> !Eligible(record, skip, c)
    ensures r.Some? ==> r.value in clients && Eligible(record, skip, r.value)
    ensures r.Some? ==> forall c :: c in clients && Eligible(record, skip, c) ==>
      record[r.value].priority <= record[c].priority
  {
    if clients == [] then None
    else
      var n := |clients| - 1;
      var r := Best(clients[..n], record, skip);
      var c := clients[n];
      assert clients == clients[..n] + [c];
      if Eligible(record, skip, c) && (r == None || record[c].priority < record[r.value].priority) then Some(c) else r
  }

  lemma BestStep<C>(clients: seq<C>, i: nat, record: map<C, Wish>, skip: Option<C>)
    requires i < |clients|
    ensures var r, c := Best(clients[..i], record, skip), clients[i];
      Best(clients[..i + 1], record, skip)
      == if Eligible(record, skip, c) && (r == None || record[c].priority < record[r.value].priority) then Some(c) else r
  {
    hide Eligible;
    assert clients[..i + 1][..i] == clients[..i];
  }

  lemma {:induction false} BestIsFirst<C>(clients: seq<C>, record: map<C, Wish>, skip: Option<C>, i: nat)
    requires i < |clients| && Eligible(record, skip, clients[i])
    requires forall j :: 0 <= j < |clients| && Eligible(record, skip, clients[j]) ==>
      record[clients[i]].priority <= record[clients[j]].priority
    requires forall j :: 0 <= j < i && Eligible(record, skip, clients[j]) ==>
      record[clients[i]].priority < record[clients[j]].priority
    ensures Best(clients, record, skip) == Some(clients[i])
    decreases |clients|
  {
    hide Eligible;
    var n := |clients| - 1;
    assert clients[..n + 1] == clients;
    BestStep(clients, n, record, skip);
    if i < n {
      BestIsFirst(clients[..n], record, skip, i);
    } else {
      var r := Best(clients[..n], record, skip);
      if r.Some? {
        var j :| 0 <= j < n && clients[..n][j] == r.value;
        assert clients[j] == r.value;
      }
    }
  }

  function Admit<C>(s: Arbiter<C>, c: C): Arbiter<C> {
    s.(clients := s.clients + [c], record := s.record[c := Wish(UNKNOWN_MODE, 0)])
  }

  /** Who takes over from the commander. */
  function Successor<C(==)>(s: Arbiter<C>): Option<C> { Best(s.clients, s.record, s.commander) }

  /** notifyAccessModeRequest, once the connection has recorded the request. */
  function Arbitrate<C(==)>(s: Arbiter<C>, c: C, w: Wish): Arbiter<C> {
    if w.mode == COMMANDER then
      if s.commander == None || (s.commander != Some(c) && w.priority < s.stored) then
        s.(commander := Some(c), stored := w.priority)
      else if s.commander == Some(c) && w.priority != s.stored then
        s.(stored := w.priority)
      else s
    else if s.commander == Some(c) then
      s.(commander := Successor(s))
    else s
  }

  function Recorded<C>(s: Arbiter<C>, c: C, w: Wish): Arbiter<C> {
    s.(record := s.record[c := w])
  }

  function Request<C(==)>(s: Arbiter<C>, c: C, w: Wish): Arbiter<C> {
    Arbitrate(Recorded(s, c, w), c, w)
  }

  /** A request from any connection. What one that has been lost in the meantime asks for is
      recorded where nobody looks for it, but arbitrated all the same. */
  function Asked<C(==)>(s: Arbiter<C>, c: C, w: Wish): Arbiter<C> {
    if c in s.clients then Request(s, c, w) else Arbitrate(s, c, w)
  }

  /** The request takes the command for its sender. */
  predicate Takes<C>(s: Arbiter<C>, w: Wish) {
    w.mode == COMMANDER && (s.commander == None || w.priority < s.stored)
  }

  function Without<C(==)>(clients: seq<C>, c: C): (r: seq<C>)
    ensures forall d :: d in r ==> d in clients && d != c
    ensures forall d :: d in clients && d != c ==> d in r
  {
    if clients == [] then []
    else
      var n := |clients| - 1;
      assert clients == clients[..n] + [clients[n]];
      Without(clients[..n], c) + if clients[n] == c then [] else [clients[n]]
  }

  /** The others stay in their order. */
  lemma {:induction false} WithoutConcat<C>(a: seq<C>, b: seq<C>, c: C)
    ensures Without(a + b, c) == Without(a, c) + Without(b, c)
    decreases |b|
  {
    if b == [] {
      assert a + b == a;
    } else {
      var n := |b| - 1;
      assert (a + b)[..|a + b| - 1] == a + b[..n];
      WithoutConcat(a, b[..n], c);
    }
  }

  function Dropped<C(==)>(s: Arbiter<C>, c: C): Arbiter<C> {
    s.(clients := Without(s.clients, c), record := s.record - {c})
  }

  function Disconnect<C(==)>(s: Arbiter<C>, c: C): Arbiter<C> {
    var t := Dropped(s, c);
    if s.commander == Some(c) then t.(commander := Successor(t)) else t
  }

  function Start<C>(): Arbiter<C> { Arbiter([], map[], None, 0) }

  // ------------------------------------------------------------ invariant over runs

  predicate Distinct<C(==)>(s: seq<C>) {
    forall i, j :: 0 <= i < j < |s| ==> s[i] != s[j]
  }

  /** There is a commander exactly when some connected client has asked for command, and
      then the commander is such a client. */
  ghost predicate Inv<C>(s: Arbiter<C>) {
    && Distinct(s.clients)
    && (forall c :: c in s.record ==> c in s.clients)
    && (forall c :: c in s.clients ==> c in s.record)
    && (forall c :: c in s.record ==> s.record[c].priority < CVG_INT_MAX)
    && (s.commander == None <==> forall c :: c in s.clients ==> !Wants(s.record, c))
    && (s.commander.Some? ==> s.commander.value in s.clients && Wants(s.record, s.commander.value))
  }

  datatype Step<C> = Join(c: C) | Ask(c: C, wish: Wish, payload: seq<nat>) | Leave(c: C)

  predicate Enabled<C(==)>(s: Arbiter<C>, step: Step<C>) {
    match step
    case Join(c) => c !in s.clients
    case Ask(c, w, _) => c in s.clients && w.priority < CVG_INT_MAX
    case Leave(c) => c in s.clients
  }

  function Apply<C(==)>(s: Arbiter<C>, step: Step<C>): Arbiter<C> {
    match step
    case Join(c) => Admit(s, c)
    case Ask(c, w, _) => Request(s, c, w)
    case Leave(c) => Disconnect(s, c)
  }

  function Run<C(==)>(s: Arbiter<C>, steps: seq<Step<C>>): Arbiter<C>
    decreases steps
  {
    if steps == [] then s else Run(Apply(s, steps[0]), steps[1..])
  }

  predicate Legal<C(==)>(s: Arbiter<C>, steps: seq<Step<C>>)
    decreases steps
  {
    steps == [] || (Enabled(s, steps[0]) && Legal(Apply(s, steps[0]), steps[1..]))
  }

  lemma {:induction false} WithoutDistinct<C>(s: seq<C>, c: C)
    requires Distinct(s)
    ensures Distinct(Without(s, c))
    decreases |s|
  {
    if s != [] {
      var n := |s| - 1;
      WithoutDistinct(s[..n], c);
      var t := Without(s[..n], c);
      forall i | 0 <= i < |t|
        ensures t[i] != s[n]
      {
        assert t[i] in s[..n];
      }
    }
  }

  lemma RequestKeepsInv<C>(s: Arbiter<C>, c: C, w: Wish)
    requires Inv(s) && c in s.clients && w.priority < CVG_INT_MAX
    ensures Inv(Request(s, c, w)) && Request(s, c, w).clients == s.clients
    ensures Request(s, c, w).record == s.record[c := w]
  {}

  lemma DroppedFacts<C>(s: Arbiter<C>, c: C)
    requires Inv(s)
    ensures var t := Dropped(s, c); Distinct(t.clients) && c !in t.clients && t.commander == s.commander
    ensures var t := Dropped(s, c); forall d :: d in t.clients <==> d in s.clients && d != c
    ensures var t := Dropped(s, c); forall d :: d in t.clients ==> Wants(t.record, d) == Wants(s.record, d)
    ensures var t := Dropped(s, c);
      forall d :: d in t.clients ==> d in t.record && t.record[d] == s.record[d] && t.record[d].priority < CVG_INT_MAX
    ensures var t := Dropped(s, c); forall d :: d in t.record ==> d in t.clients
  {
    hide Distinct;
    WithoutDistinct(s.clients, c);
  }

  /** The others keep the invariant when the best of them succeeds one who is gone. */
  lemma SuccessorFits<C>(t: Arbiter<C>, c: C)
    requires t.commander == Some(c) && c !in t.clients
    requires forall d :: d in t.clients ==> d in t.record && t.record[d].priority < CVG_INT_MAX
    ensures Successor(t) == None <==> forall d :: d in t.clients ==> !Wants(t.record, d)
    ensures Successor(t).Some? ==> Successor(t).value in t.clients && Wants(t.record, Successor(t).value)
  {
    forall d | d in t.clients
      ensures Eligible(t.record, t.commander, d) <==> Wants(t.record, d)
    {}
  }

  lemma {:induction false} DisconnectKeepsInv<C>(s: Arbiter<C>, c: C)
    requires Inv(s)
    ensures Inv(Disconnect(s, c))
  {
    hide Distinct, Dropped, Eligible;
    DroppedFacts(s, c);
    var t := Dropped(s, c);
    assert Disconnect(s, c).clients == t.clients && Disconnect(s, c).record == t.record;
    if s.commander == Some(c) {
      SuccessorFits(t, c);
    }
  }

  lemma AdmitKeepsInv<C>(s: Arbiter<C>, c: C)
    requires Inv(s) && c !in s.clients
    ensures Inv(Admit(s, c))
  {}

  /** A request that races with the loss of its own connection does harm exactly if it takes
      the command: then the commander is no connected client. */
  lemma {:induction false} LateRequest<C>(s: Arbiter<C>, c: C, w: Wish)
    requires Inv(s) && c !in s.clients
    ensures Inv(Asked(s, c, w)) <==> !Takes(s, w)
    ensures Asked(s, c, w).commander == Some(c) <==> Takes(s, w)
    ensures !Takes(s, w) ==> Asked(s, c, w) == s
  {
    hide Distinct;
    var t := Asked(s, c, w);
    if Takes(s, w) {
      assert t.commander == Some(c) && t.clients == s.clients;
    } else {
      assert t == s;
    }
  }

  lemma AskedKeepsInv<C>(s: Arbiter<C>, c: C, w: Wish)
    requires w.priority < CVG_INT_MAX
    ensures Inv(s) && (c in s.clients || Asked(s, c, w).commander != Some(c)) ==> Inv(Asked(s, c, w))
  {
    hide Inv, Request, Arbitrate;
    if Inv(s) {
      if c in s.clients {
        RequestKeepsInv(s, c, w);
      } else {
        LateRequest(s, c, w);
      }
    }
  }

  /** Such a lost commander stays, and shuts out everybody, until a client asks with a lower
      number than its own; for number 0 that is for good. */
  lemma {:induction false} LostCommanderStays<C>(s: Arbiter<C>, steps: seq<Step<C>>, c: C)
    requires c !in s.clients && s.commander == Some(c) && Legal(s, steps)
    requires forall i :: 0 <= i < |steps| ==> steps[i] != Join(c)
    requires forall i :: 0 <= i < |steps| && steps[i].Ask? && steps[i].wish.mode == COMMANDER ==>
      steps[i].wish.priority >= s.stored
    ensures Run(s, steps).commander == Some(c) && c !in Run(s, steps).clients && Deliveries(s, steps) == []
    decreases steps
  {
    hide Best, Successor;
    if steps != [] {
      var t := Apply(s, steps[0]);
      assert steps[0] != Join(c);
      assert t.commander == Some(c) && t.stored == s.stored && c !in t.clients;
      forall i | 0 <= i < |steps[1..]|
        ensures steps[1..][i] == steps[i + 1]
      {}
      LostCommanderStays(t, steps[1..], c);
    }
  }

  lemma {:induction false} InvOverRuns<C>(s: Arbiter<C>, steps: seq<Step<C>>)
    requires Inv(s) && Legal(s, steps)
    ensures Inv(Run(s, steps))
    decreases steps
  {
    if steps != [] {
      InvStep(s, steps[0]);
      InvOverRuns(Apply(s, steps[0]), steps[1..]);
    }
  }

  // ------------------------------------------------------------ failover

  /** Client j of the list comes first among those, other than c, that ask for command: nobody
      has a lower priority number, and nobody listed before it an equal one. */
  predicate Heads<C(==)>(clients: seq<C>, record: map<C, Wish>, c: C, j: nat) {
    && j < |clients| && clients[j] != c && Wants(record, clients[j])
    && forall i :: 0 <= i < |clients| && clients[i] != c && Wants(record, clients[i]) ==>
      && record[clients[j]].priority <= record[clients[i]].priority
      && (i < j ==> record[clients[j]].priority < record[clients[i]].priority)
  }

  /** Who takes over from c: the first of the others that ask for command, or nobody if none
      of them does. */
  ghost predicate Inherits<C>(clients: seq<C>, record: map<C, Wish>, c: C, heir: Option<C>) {
    match heir
    case None => forall d :: d in clients && d != c ==> !Wants(record, d)
    case Some(m) => exists j: nat :: Heads(clients, record, c, j) && clients[j] == m
  }

  predicate Ahead<C(==)>(record: map<C, Wish>, skip: Option<C>, x: C, y: C) {
    Eligible(record, skip, x) && (Eligible(record, skip, y) ==> record[x].priority < record[y].priority)
  }

  lemma LastAhead<C>(clients: seq<C>, record: map<C, Wish>, skip: Option<C>, x: C, i: nat)
    requires i < |clients| && Eligible(record, skip, x)
    requires var r := Best(clients, record, skip); r.Some? ==> record[x].priority < record[r.value].priority
    ensures Ahead(record, skip, x, clients[i])
  {
    assert clients[i] in clients;
  }

  lemma {:induction false} BestHeads<C>(clients: seq<C>, record: map<C, Wish>, c: C, n: nat) returns (j: nat)
    requires n <= |clients| && Best(clients[..n], record, Some(c)).Some?
    ensures j < n && clients[j] == Best(clients[..n], record, Some(c)).value
    ensures forall i :: 0 <= i < j ==> Ahead(record, Some(c), clients[j], clients[i])
    decreases n
  {
    hide Ahead;
    var r := Best(clients[..n - 1], record, Some(c));
    BestStep(clients, n - 1, record, Some(c));
    if Best(clients[..n], record, Some(c)) == r {
      j := BestHeads(clients, record, c, n - 1);
    } else {
      j := n - 1;
      forall i | 0 <= i < j
        ensures Ahead(record, Some(c), clients[j], clients[i])
      {
        LastAhead(clients[..n - 1], record, Some(c), clients[j], i);
      }
    }
  }

  lemma {:induction false} BestInherits<C>(clients: seq<C>, record: map<C, Wish>, c: C)
    requires forall d :: d in clients && d in record ==> record[d].priority < CVG_INT_MAX
    ensures Inherits(clients, record, c, Best(clients, record, Some(c)))
  {
    var n := |clients|;
    assert clients[..n] == clients;
    forall d | d in clients && d != c && Wants(record, d)
      ensures Eligible(record, Some(c), d)
    {}
    if Best(clients, record, Some(c)).Some? {
      var j := BestHeads(clients, record, c, n);
      assert Heads(clients, record, c, j);
    }
  }

  lemma EligibleOthers<C>(record: map<C, Wish>, c: C, d: C)
    ensures Eligible(record - {c}, Some(c), d) == Eligible(record, Some(c), d)
    ensures Eligible(record, Some(c), d) ==> d != c && record[d] == (record - {c})[d]
  {}

  lemma {:induction false} BestOfOthers<C>(clients: seq<C>, record: map<C, Wish>, c: C)
    ensures Best(Without(clients, c), record - {c}, Some(c)) == Best(clients, record, Some(c))
    decreases |clients|
  {
    hide Eligible;
    if clients != [] {
      var n := |clients| - 1;
      var last := clients[n];
      BestOfOthers(clients[..n], record, c);
      EligibleOthers(record, c, last);
      var t := Without(clients[..n], c);
      var r := Best(clients[..n], record, Some(c));
      BestStep(clients, n, record, Some(c));
      assert clients[..n + 1] == clients;
      if last == c {
        assert Without(clients, c) == t;
      } else {
        assert Without(clients, c) == t + [last];
        assert (t + [last])[..|t|] == t && (t + [last])[..|t| + 1] == t + [last];
        BestStep(t + [last], |t|, record - {c}, Some(c));
        if r.Some? {
          EligibleOthers(record, c, r.value);
        }
      }
    }
  }

  /** When the commander is lost, the best of the other clients takes over, exactly if one of
      them asks for command. The loss of anybody else changes nothing. */
  lemma {:induction false} FailoverOnLoss<C>(s: Arbiter<C>, c: C)
    requires Inv(s)
    ensures s.commander == Some(c) ==> Inherits(s.clients, s.record, c, Disconnect(s, c).commander)
    ensures s.commander != Some(c) ==> Disconnect(s, c).commander == s.commander
    ensures Disconnect(s, c).stored == s.stored
  {
    hide Inherits;
    BestInherits(s.clients, s.record, c);
    BestOfOthers(s.clients, s.record, c);
  }

  lemma InheritsRegardless<C>(clients: seq<C>, record: map<C, Wish>, c: C, w: Wish, heir: Option<C>)
    requires Inherits(clients, record[c := w], c, heir)
    ensures Inherits(clients, record, c, heir)
  {
    if heir.Some? {
      var j: nat :| Heads(clients, record[c := w], c, j) && clients[j] == heir.value;
      assert Heads(clients, record, c, j);
    }
  }

  /** The same when the commander resigns. */
  lemma {:induction false} FailoverOnResignation<C>(s: Arbiter<C>, c: C, w: Wish)
    requires Inv(s) && w.mode != COMMANDER && w.priority < CVG_INT_MAX
    ensures s.commander == Some(c) ==> Inherits(s.clients, s.record, c, Request(s, c, w).commander)
    ensures s.commander != Some(c) ==> Request(s, c, w).commander == s.commander
    ensures Request(s, c, w).stored == s.stored
  {
    hide Inherits;
    if s.commander == Some(c) {
      BestInherits(s.clients, s.record[c := w], c);
      InheritsRegardless(s.clients, s.record, c, w, Request(s, c, w).commander);
    }
  }

  // ------------------------------------------------------------ stabilisation

  /** Every client in `round`, in that order, sends the request it keeps repeating. */
  function Sends<C(==)>(s: Arbiter<C>, wishes: map<C, Wish>, round: seq<C>): Arbiter<C>
    requires forall c :: c in round ==> c in wishes
    decreases round
  {
    if round == [] then s else Sends(Request(s, round[0], wishes[round[0]]), wishes, round[1..])
  }

  /** Everybody sends at least once, in any order, with any repetitions. */
  predicate Complete<C(==)>(s: Arbiter<C>, round: seq<C>) {
    && (forall c :: c in round ==> c in s.clients)
    && (forall c :: c in s.clients ==> c in round)
  }

  ghost predicate Fixed<C>(s: Arbiter<C>, wishes: map<C, Wish>) {
    && Inv(s)
    && (forall c :: c in s.clients ==> c in wishes && wishes[c].priority < CVG_INT_MAX)
  }

  /** Every recorded request is the current one. */
  predicate Settled<C(==)>(s: Arbiter<C>, wishes: map<C, Wish>) {
    forall c :: c in s.clients ==> c in wishes && c in s.record && s.record[c] == wishes[c]
  }

  /** The stored priority is the commander's own. A failover breaks this. */
  predicate Synced<C(==)>(s: Arbiter<C>) {
    s.commander.Some? ==> s.commander.value in s.record && s.stored == s.record[s.commander.value].priority
  }

  predicate LeastWanted<C(==)>(clients: seq<C>, wishes: map<C, Wish>, m: C) {
    && m in clients && Wants(wishes, m)
    && forall c :: c in clients && Wants(wishes, c) ==> wishes[m].priority <= wishes[c].priority
  }

  /** The commander is a client that wants command with the least priority number, or there
      is neither. */
  predicate BestCommands<C(==)>(s: Arbiter<C>, wishes: map<C, Wish>) {
    match s.commander
    case None => forall c :: c in s.clients ==> !Wants(wishes, c)
    case Some(m) => LeastWanted(s.clients, wishes, m)
  }

  lemma {:induction false} SendsConcat<C>(s: Arbiter<C>, wishes: map<C, Wish>, a: seq<C>, b: seq<C>)
    requires forall c :: c in a + b ==> c in wishes
    requires forall c :: c in a ==> c in wishes
    requires forall c :: c in b ==> c in wishes
    ensures Sends(s, wishes, a + b) == Sends(Sends(s, wishes, a), wishes, b)
    decreases a
  {
    if a == [] {
      assert a + b == b;
    } else {
      assert (a + b)[1..] == a[1..] + b;
      SendsConcat(Request(s, a[0], wishes[a[0]]), wishes, a[1..], b);
    }
  }

  lemma {:induction false} SendsKeepsInv<C>(s: Arbiter<C>, wishes: map<C, Wish>, round: seq<C>)
    requires Fixed(s, wishes) && forall c :: c in round ==> c in s.clients
    ensures var t := Sends(s, wishes, round); Fixed(t, wishes) && t.clients == s.clients
    decreases round
  {
    hide Request;
    if round != [] {
      RequestKeepsInv(s, round[0], wishes[round[0]]);
      SendsKeepsInv(Request(s, round[0], wishes[round[0]]), wishes, round[1..]);
    }
  }

  /** Round one: what is recorded becomes what is wanted. */
  lemma {:induction false} RoundSettles<C>(s: Arbiter<C>, wishes: map<C, Wish>, round: seq<C>)
    requires Fixed(s, wishes) && forall c :: c in round ==> c in s.clients
    requires forall c :: c in s.clients && c !in round ==> s.record[c] == wishes[c]
    ensures Settled(Sends(s, wishes, round), wishes)
    decreases round
  {
    hide Request;
    if round != [] {
      RequestKeepsInv(s, round[0], wishes[round[0]]);
      RoundSettles(Request(s, round[0], wishes[round[0]]), wishes, round[1..]);
    }
  }

  lemma RequestWhenSettled<C>(s: Arbiter<C>, wishes: map<C, Wish>, c: C)
    requires Fixed(s, wishes) && Settled(s, wishes) && c in s.clients
    ensures var t := Request(s, c, wishes[c]);
      && Fixed(t, wishes) && Settled(t, wishes) && t.clients == s.clients && t.record == s.record
      && (Synced(s) ==> Synced(t))
      && (s.commander == Some(c) || t.commander != s.commander || s.commander == None ==> Synced(t))
      && (Synced(s) && s.commander.Some? ==> t.commander.Some? && t.stored <= s.stored)
      && (Synced(s) && Wants(wishes, c) ==> t.commander.Some? && t.stored <= wishes[c].priority)
  {
    RequestKeepsInv(s, c, wishes[c]);
    assert s.record[c := wishes[c]] == s.record;
  }

  /** Round two: once the commander has sent or been replaced, the stored priority is the
      commander's own. */
  lemma {:induction false} RoundSyncs<C>(s: Arbiter<C>, wishes: map<C, Wish>, round: seq<C>)
    requires Fixed(s, wishes) && Settled(s, wishes) && forall c :: c in round ==> c in s.clients
    requires Synced(s) || s.commander.value in round
    ensures var t := Sends(s, wishes, round); Settled(t, wishes) && Synced(t)
    decreases round
  {
    if round != [] {
      RequestWhenSettled(s, wishes, round[0]);
      RoundSyncs(Request(s, round[0], wishes[round[0]]), wishes, round[1..]);
    }
  }

  /** Round three: the stored priority falls to the least one wanted. */
  lemma {:induction false} RoundMinimises<C>(s: Arbiter<C>, wishes: map<C, Wish>, round: seq<C>)
    requires Fixed(s, wishes) && Settled(s, wishes) && Synced(s)
    requires forall c :: c in round ==> c in s.clients
    ensures var t := Sends(s, wishes, round);
      && Settled(t, wishes) && Synced(t) && t.clients == s.clients
      && (s.commander.Some? ==> t.commander.Some? && t.stored <= s.stored)
      && (forall c :: c in round && Wants(wishes, c) ==> t.commander.Some? && t.stored <= wishes[c].priority)
    decreases round
  {
    if round != [] {
      RequestWhenSettled(s, wishes, round[0]);
      RoundMinimises(Request(s, round[0], wishes[round[0]]), wishes, round[1..]);
    }
  }

  lemma {:induction false} StableOnceBest<C>(s: Arbiter<C>, wishes: map<C, Wish>, more: seq<C>)
    requires Fixed(s, wishes) && Settled(s, wishes) && Synced(s) && BestCommands(s, wishes)
    requires forall c :: c in more ==> c in s.clients
    ensures Sends(s, wishes, more) == s
    decreases more
  {
    if more != [] {
      assert s.record[more[0] := wishes[more[0]]] == s.record;
      StableOnceBest(s, wishes, more[1..]);
    }
  }

  /** From every reachable state, if membership and wishes stay fixed, three complete rounds
      put the best candidate in command, and nothing that is sent later changes the server. */
  lemma {:induction false} Stabilises<C>(s: Arbiter<C>, wishes: map<C, Wish>, r1: seq<C>, r2: seq<C>, r3: seq<C>, more: seq<C>)
    requires Fixed(s, wishes)
    requires Complete(s, r1) && Complete(s, r2) && Complete(s, r3)
    requires forall c :: c in more ==> c in s.clients
    ensures var t := Sends(s, wishes, r1 + r2 + r3);
      BestCommands(t, wishes) && Sends(t, wishes, more) == t
  {
    var s1 := Sends(s, wishes, r1);
    SendsKeepsInv(s, wishes, r1);
    RoundSettles(s, wishes, r1);
    var s2 := Sends(s1, wishes, r2);
    SendsKeepsInv(s1, wishes, r2);
    RoundSyncs(s1, wishes, r2);
    SendsConcat(s, wishes, r1, r2);
    SendsConcat(s, wishes, r1 + r2, r3);
    LastRound(s2, wishes, r3, more);
  }

  lemma {:induction false} LastRound<C>(s: Arbiter<C>, wishes: map<C, Wish>, round: seq<C>, more: seq<C>)
    requires Fixed(s, wishes) && Settled(s, wishes) && Synced(s) && Complete(s, round)
    requires forall c :: c in more ==> c in s.clients
    ensures var t := Sends(s, wishes, round); BestCommands(t, wishes) && Sends(t, wishes, more) == t
  {
    SendsKeepsInv(s, wishes, round);
    RoundMinimises(s, wishes, round);
    StableOnceBest(Sends(s, wishes, round), wishes, more);
  }

  // The counterexample to two rounds: clients 0, 1, 2 with client 0 in command.
  const WISHES := map[0 := Wish(LISTENER, 0), 1 := Wish(COMMANDER, 9), 2 := Wish(COMMANDER, 5)]

  function Trio(zero: Wish, two: nat, commander: int, stored: int): Arbiter<int> {
    Arbiter([0, 1, 2], map[0 := zero, 1 := Wish(COMMANDER, 9), 2 := Wish(COMMANDER, two)], Some(commander), stored)
  }

  function TrioJoined(): Arbiter<int> {
    var u := Wish(UNKNOWN_MODE, 0);
    Arbiter([0, 1, 2], map[0 := u, 1 := u, 2 := u], None, 0)
  }

  lemma TrioJoins()
    ensures Admit(Admit(Admit(Start(), 0), 1), 2) == TrioJoined()
  {}

  lemma TrioAsks()
    ensures Request(Request(Request(TrioJoined(), 0, Wish(COMMANDER, 0)), 1, Wish(COMMANDER, 9)), 2, Wish(COMMANDER, 20))
      == Trio(Wish(COMMANDER, 0), 20, 0, 0)
  {
    var s4 := Request(TrioJoined(), 0, Wish(COMMANDER, 0));
    assert s4.commander == Some(0) && s4.stored == 0;
  }

  lemma TrioReachable()
    ensures Run(Start(), [Join(0), Join(1), Join(2),
        Ask(0, Wish(COMMANDER, 0), []), Ask(1, Wish(COMMANDER, 9), []), Ask(2, Wish(COMMANDER, 20), [])])
      == Trio(Wish(COMMANDER, 0), 20, 0, 0)
  {
    hide Request, Admit, Start, Trio, TrioJoined;
    TrioJoins();
    TrioAsks();
    var a, b, c: Step<int> := Ask(0, Wish(COMMANDER, 0), []), Ask(1, Wish(COMMANDER, 9), []), Ask(2, Wish(COMMANDER, 20), []);
    var s3 := TrioJoined();
    var s4 := Request(s3, 0, Wish(COMMANDER, 0));
    RunStep(Start(), Join(0), [Join(1), Join(2), a, b, c]);
    RunStep(Admit(Start(), 0), Join(1), [Join(2), a, b, c]);
    RunStep(Admit(Admit(Start(), 0), 1), Join(2), [a, b, c]);
    RunStep(s3, a, [b, c]);
    RunStep(s4, b, [c]);
    RunStep(Request(s4, 1, Wish(COMMANDER, 9)), c, []);
  }

  lemma RunStep<C>(s: Arbiter<C>, step: Step<C>, rest: seq<Step<C>>)
    ensures Run(s, [step] + rest) == Run(Apply(s, step), rest)
  {
    assert ([step] + rest)[1..] == rest;
  }

  lemma SendsStep<C>(s: Arbiter<C>, wishes: map<C, Wish>, c: C, rest: seq<C>)
    requires c in wishes && forall d :: d in rest ==> d in wishes
    ensures Sends(s, wishes, [c] + rest) == Sends(Request(s, c, wishes[c]), wishes, rest)
  {
    assert ([c] + rest)[1..] == rest;
  }

  lemma TrioFailover(s: Arbiter<int>)
    requires s == Trio(Wish(COMMANDER, 0), 20, 0, 0)
    ensures Request(s, 1, WISHES[1]) == s
    ensures Request(s, 0, WISHES[0]) == Trio(Wish(LISTENER, 0), 20, 1, 0)
  {
    var t := Recorded(s, 0, WISHES[0]);
    BestIsFirst([0, 1, 2], t.record, Some(0), 1);
    assert s.record[1 := WISHES[1]] == s.record;
  }

  lemma TrioStale(two: nat)
    requires two == 20 || two == 5
    ensures var s := Trio(Wish(LISTENER, 0), two, 1, 0);
      && Request(s, 0, WISHES[0]) == s
      && Request(s, 2, WISHES[2]) == Trio(Wish(LISTENER, 0), 5, 1, 0)
      && Request(s, 1, WISHES[1]) == Trio(Wish(LISTENER, 0), two, 1, 9)
  {
    var s := Trio(Wish(LISTENER, 0), two, 1, 0);
    assert s.record[0 := WISHES[0]] == s.record && s.record[1 := WISHES[1]] == s.record;
  }

  lemma TrioSends()
    ensures Sends(Trio(Wish(COMMANDER, 0), 20, 0, 0), WISHES, [1, 0, 2] + [0, 2, 1]) == Trio(Wish(LISTENER, 0), 5, 1, 9)
  {
    hide Request, Trio;
    var s := Trio(Wish(COMMANDER, 0), 20, 0, 0);
    var l := Wish(LISTENER, 0);
    TrioFailover(s);
    TrioStale(20);
    TrioStale(5);
    SendsStep(s, WISHES, 1, [0, 2, 0, 2, 1]);
    SendsStep(s, WISHES, 0, [2, 0, 2, 1]);
    SendsStep(Trio(l, 20, 1, 0), WISHES, 2, [0, 2, 1]);
    SendsStep(Trio(l, 5, 1, 0), WISHES, 0, [2, 1]);
    SendsStep(Trio(l, 5, 1, 0), WISHES, 2, [1]);
    SendsStep(Trio(l, 5, 1, 0), WISHES, 1, []);
    assert [1, 0, 2] + [0, 2, 1] == [1] + [0, 2, 0, 2, 1];
    assert [0, 2, 0, 2, 1] == [0] + [2, 0, 2, 1];
    assert [2, 0, 2, 1] == [2] + [0, 2, 1];
    assert [0, 2, 1] == [0] + [2, 1];
    assert [2, 1] == [2] + [1];
    assert [1] == [1] + [];
  }

  lemma TrioFixed(s: Arbiter<int>)
    requires s == Trio(Wish(COMMANDER, 0), 20, 0, 0)
    ensures Fixed(s, WISHES) && Complete(s, [1, 0, 2]) && Complete(s, [0, 2, 1])
  {}

  lemma TrioNotBest(t: Arbiter<int>)
    requires t == Trio(Wish(LISTENER, 0), 5, 1, 9)
    ensures t.commander == Some(1) && !BestCommands(t, WISHES)
  {
    assert Wants(WISHES, 2) && WISHES[2].priority < WISHES[1].priority && 2 in t.clients;
  }

  /** Three rounds are needed: from this reachable state two complete rounds leave client 1
      in command although client 2 outranks it. Client 0 resigns in the first round, and the
      failover to client 1 keeps client 0's stored priority. */
  lemma TwoRoundsDoNotSuffice()
    ensures var s := Trio(Wish(COMMANDER, 0), 20, 0, 0);
      && Fixed(s, WISHES) && Complete(s, [1, 0, 2]) && Complete(s, [0, 2, 1])
      && !BestCommands(Sends(s, WISHES, [1, 0, 2] + [0, 2, 1]), WISHES)
  {
    hide *;
    TrioSends();
    TrioFixed(Trio(Wish(COMMANDER, 0), 20, 0, 0));
    TrioNotBest(Trio(Wish(LISTENER, 0), 5, 1, 9));
  }

  // ------------------------------------------------------------ command isolation

  /** The commands that get through: those whose own arbitration leaves the sender in command. */
  function Deliveries<C(==)>(s: Arbiter<C>, steps: seq<Step<C>>): seq<(C, seq<nat>)>
    decreases steps
  {
    if steps == [] then []
    else
      var t := Apply(s, steps[0]);
      (if steps[0].Ask? && t.commander == Some(steps[0].c) then [(steps[0].c, steps[0].payload)] else [])
      + Deliveries(t, steps[1..])
  }

  predicate Commands<C(==)>(step: Step<C>, entry: (C, seq<nat>)) {
    step.Ask? && step.c == entry.0 && step.payload == entry.1 && step.wish.mode == COMMANDER
  }

  lemma GrantNeedsRequest<C>(s: Arbiter<C>, c: C, w: Wish)
    requires Inv(s) && c in s.clients && w.priority < CVG_INT_MAX
    ensures Request(s, c, w).commander == Some(c) ==> w.mode == COMMANDER
  {
    RequestKeepsInv(s, c, w);
    hide Request;
    assert Request(s, c, w).record[c] == w;
  }

  /** Nothing gets through, in any run, but what came in a request for command. */
  lemma {:induction false} OnlyRequestsForCommand<C>(s: Arbiter<C>, steps: seq<Step<C>>, k: nat)
    requires Inv(s) && Legal(s, steps) && k < |Deliveries(s, steps)|
    ensures exists i :: 0 <= i < |steps| && Commands(steps[i], Deliveries(s, steps)[k])
    decreases steps
  {
    hide Inv, Request, Disconnect;
    var t, step := Apply(s, steps[0]), steps[0];
    InvStep(s, step);
    if step.Ask? {
      GrantNeedsRequest(s, step.c, step.wish);
    }
    var first := if step.Ask? && t.commander == Some(step.c) then 1 else 0;
    if k < first {
      assert Commands(steps[0], Deliveries(s, steps)[k]);
    } else {
      OnlyRequestsForCommand(t, steps[1..], k - first);
      var i :| 0 <= i < |steps| - 1 && Commands(steps[1..][i], Deliveries(t, steps[1..])[k - first]);
      assert Commands(steps[i + 1], Deliveries(s, steps)[k]);
    }
  }

  lemma InvStep<C>(s: Arbiter<C>, step: Step<C>)
    requires Inv(s) && Enabled(s, step)
    ensures Inv(Apply(s, step))
  {
    match step {
      case Join(c) => AdmitKeepsInv(s, c);
      case Ask(c, w, _) => RequestKeepsInv(s, c, w);
      case Leave(c) => DisconnectKeepsInv(s, c);
    }
  }

  function SentBy<C(==)>(c: C, steps: seq<Step<C>>): seq<(C, seq<nat>)>
    decreases steps
  {
    if steps == [] then []
    else (if steps[0].Ask? && steps[0].c == c then [(c, steps[0].payload)] else []) + SentBy(c, steps[1..])
  }

  /** A step that gives client c no reason to lose command: c keeps asking with a number of
      at most `limit`, nobody else asks with a lower one, and c stays connected. */
  predicate Respects<C(==)>(step: Step<C>, c: C, limit: nat) {
    match step
    case Join(d) => true
    case Ask(d, w, _) =>
      if d == c then w.mode == COMMANDER && w.priority <= limit
      else w.mode == COMMANDER ==> w.priority >= limit
    case Leave(d) => d != c
  }

  /** Command isolation over runs: until somebody outranks it, it resigns or it leaves, the
      commander's commands all get through, in order, and nobody else's do. */
  lemma {:induction false} CommandHeld<C>(s: Arbiter<C>, steps: seq<Step<C>>, c: C, limit: nat)
    requires Inv(s) && Legal(s, steps)
    requires s.commander == Some(c) && s.stored <= limit
    requires forall i :: 0 <= i < |steps| ==> Respects(steps[i], c, limit)
    ensures Run(s, steps).commander == Some(c)
    ensures Deliveries(s, steps) == SentBy(c, steps)
    decreases steps
  {
    if steps != [] {
      var t := Apply(s, steps[0]);
      assert Respects(steps[0], c, limit);
      assert t.commander == Some(c) && t.stored <= limit;
      InvStep(s, steps[0]);
      CommandHeld(t, steps[1..], c, limit);
    }
  }

  // ------------------------------------------------------------ the objects

  /** A possibly null pointer as an optional connection. */
  function AsOption(c: DycsServerConn?): Option<DycsServerConn> {
    if c == null then None else Some(c)
  }

  class DycsServerConn {
    const server: DycsServer
    var requestedAccessMode: AccessMode
    var requestedPriority: nat

    constructor (server: DycsServer)
      ensures this.server == server && requestedAccessMode == UNKNOWN_MODE && requestedPriority == 0
    {
      this.server := server;
      requestedAccessMode, requestedPriority := UNKNOWN_MODE, 0;
    }

    /** The request of a packet is recorded, then arbitrated. */
    method TakeRequest(w: Wish) returns (mode: AccessMode)
      requires w.priority < CVG_INT_MAX
      modifies this, server
      ensures server.clients == old(server.clients)
      ensures server.View() == Asked<DycsServerConn>(old(server.View()), this, w)
      ensures mode == if server.View().commander == Some(this) then COMMANDER else LISTENER
      ensures old(server.Valid()) && (this in server.clients || server.View().commander != Some(this)) ==> server.Valid()
    {
      hide Inv, Arbitrate;
      ghost var before := server.View();
      AskedKeepsInv<DycsServerConn>(before, this, w);
      requestedAccessMode, requestedPriority := w.mode, w.priority;
      assert server.View() == if this in server.clients then Recorded<DycsServerConn>(before, this, w) else before;
      mode := server.NotifyAccessModeRequest(this, w.mode, w.priority);
    }

    /** readOrPeek on what the socket delivered: header byte, then payload. Only a packet of
        the full length counts as a request, and only the commander's payload is released. */
    method ReadOrPeek(received: seq<nat>, inBuffer: array<nat>, lengthBytes: nat, offsetBytes: nat) returns (count: nat)
      requires |received| <= lengthBytes + 1 && (received != [] ==> received[0] < 256)
      requires offsetBytes + lengthBytes <= inBuffer.Length
      modifies this, server, inBuffer
      ensures server.clients == old(server.clients)
      ensures old(server.Valid()) && (this in server.clients || server.View().commander != Some(this)) ==> server.Valid()
      ensures |received| == lengthBytes + 1 ==>
        server.View() == Asked<DycsServerConn>(old(server.View()), this, ParseHeader(received[0]))
      ensures |received| == lengthBytes + 1 && server.View().commander == Some(this) ==>
        count == lengthBytes && inBuffer[..] ==
          old(inBuffer[..offsetBytes]) + received[1..] + old(inBuffer[offsetBytes + lengthBytes..])
      ensures |received| == lengthBytes + 1 && server.View().commander != Some(this) ==>
        count == 0 && inBuffer[..] == old(inBuffer[..])
      ensures |received| <= lengthBytes ==>
        server.View() == old(server.View()) && inBuffer[..] == old(inBuffer[..])
        && count == if |received| > 1 then |received| - 1 else 0
    {
      hide Inv, Asked;
      if |received| == lengthBytes + 1 {
        var mode := TakeRequest(ParseHeader(received[0]));
        if mode != COMMANDER {
          return 0;
        }
        MemCopy(inBuffer, offsetBytes, received[1..]);
        return lengthBytes;
      } else if |received| > 1 {
        return |received| - 1;
      } else {
        return 0;
      }
    }
  }

  class DycsServer {
    var currentCommander: DycsServerConn?
    var currentCommanderPriority: int
    var clients: seq<DycsServerConn>

    ghost function Record(): map<DycsServerConn, Wish>
      reads this`clients, clients`requestedAccessMode, clients`requestedPriority
    {
      map c | c in clients :: Wish(c.requestedAccessMode, c.requestedPriority)
    }

    ghost function View(): Arbiter<DycsServerConn>
      reads this, clients
    {
      Arbiter(clients, Record(), AsOption(currentCommander), currentCommanderPriority)
    }

    ghost predicate Valid()
      reads this, clients
    {
      Inv(View())
    }

    constructor ()
      ensures Valid() && View() == Start()
    {
      currentCommander, currentCommanderPriority, clients := null, 0, [];
    }

    /** accept; without a new socket from the transport nothing changes. */
    method Accept(socketArrived: bool) returns (newClient: DycsServerConn?)
      requires Valid()
      modifies this
      ensures newClient == null <==> !socketArrived
      ensures newClient == null ==> View() == old(View())
      ensures newClient != null ==> fresh(newClient) && newClient.server == this && View() == Admit(old(View()), newClient)
      ensures newClient != null ==> clients == old(clients) + [newClient] && currentCommander == old(currentCommander)
      ensures newClient != null ==> newClient.requestedAccessMode == UNKNOWN_MODE
      ensures Valid()
    {
      hide Inv;
      if !socketArrived {
        return null;
      }
      var client := new DycsServerConn(this);
      ghost var v := View();
      AdmitKeepsInv<DycsServerConn>(v, client);
      clients := clients + [client];
      assert View().record == v.record[client := Wish(UNKNOWN_MODE, 0)];
      return client;
    }

    method IsCommander(c: DycsServerConn?) returns (result: bool)
      ensures result <==> c != null && View().commander == Some(c)
    {
      result := c != null && c == currentCommander;
    }

    lemma EligibleIs(c: DycsServerConn)
      requires c in clients
      ensures c in Record() && Record()[c].priority == c.requestedPriority
      ensures Eligible<DycsServerConn>(Record(), AsOption(currentCommander), c) <==>
        c != currentCommander && c.requestedAccessMode == COMMANDER && c.requestedPriority < CVG_INT_MAX
    {}

    method FindAnotherCommander() returns (best: DycsServerConn?)
      ensures AsOption(best) == Best<DycsServerConn>(clients, Record(), AsOption(currentCommander))
    {
      hide Eligible, Record;
      ghost var record: map<DycsServerConn, Wish>, skip: Option<DycsServerConn> := Record(), AsOption(currentCommander);
      best := null;
      var highestPriority := CVG_INT_MAX;
      var i := 0;
      while i < |clients|
        invariant 0 <= i <= |clients|
        invariant record == Record() && skip == AsOption(currentCommander)
        invariant AsOption(best) == Best<DycsServerConn>(clients[..i], record, skip)
        invariant highestPriority <= CVG_INT_MAX && (best == null ==> highestPriority == CVG_INT_MAX)
        invariant best != null ==> best in record && highestPriority == record[best].priority
      {
        var c := clients[i];
        EligibleIs(c);
        BestStep<DycsServerConn>(clients, i, record, skip);
        if c != currentCommander && c.requestedAccessMode == COMMANDER && c.requestedPriority < highestPriority {
          best, highestPriority := c, c.requestedPriority;
        }
        i := i + 1;
      }
      assert clients[..|clients|] == clients;
    }

    method NotifyAccessModeRequest(client: DycsServerConn, mode: AccessMode, priority: nat) returns (granted: AccessMode)
      modifies this`currentCommander, this`currentCommanderPriority
      ensures View() == Arbitrate(old(View()), client, Wish(mode, priority))
      ensures granted == if View().commander == Some(client) then COMMANDER else LISTENER
      ensures mode == COMMANDER ==>
        currentCommander == if old(currentCommander) == null || priority < old(currentCommanderPriority) then client
                            else old(currentCommander)
      ensures currentCommanderPriority
        == if mode == COMMANDER && currentCommander == client then priority else old(currentCommanderPriority)
      ensures mode != COMMANDER && old(currentCommander) != client ==> currentCommander == old(currentCommander)
      ensures mode != COMMANDER && old(currentCommander) == client && InRange() ==>
        Inherits<DycsServerConn>(clients, Record(), client, AsOption(currentCommander))
    {
      hide Successor, Inherits;
      if mode != COMMANDER && client == currentCommander && InRange() {
        BestInherits<DycsServerConn>(clients, Record(), client);
        assert Successor<DycsServerConn>(View()) == Best<DycsServerConn>(clients, Record(), Some(client)) by {
          SuccessorIs();
        }
      }
      if mode == COMMANDER {
        if currentCommander == null || (currentCommander != client && priority < currentCommanderPriority) {
          currentCommander, currentCommanderPriority := client, priority;
        } else if currentCommander == client && priority != currentCommanderPriority {
          currentCommanderPriority := priority;
        }
      } else if client == currentCommander {
        FailOver();
      }
      granted := if client == currentCommander then COMMANDER else LISTENER;
    }

    /** Every recorded priority is one that a failover can beat. */
    ghost predicate InRange()
      reads this`clients, clients
    {
      forall c :: c in clients ==> c.requestedPriority < CVG_INT_MAX
    }

    lemma SuccessorIs()
      ensures Successor<DycsServerConn>(View()) == Best<DycsServerConn>(clients, Record(), AsOption(currentCommander))
    {}

    /** gotEvent for a connection that leaves CONNECTED. */
    method GotDisconnected(client: DycsServerConn)
      requires Valid()
      modifies this
      ensures View() == Disconnect(old(View()), client)
      ensures Valid()
      ensures clients == Without(old(clients), client) && currentCommanderPriority == old(currentCommanderPriority)
      ensures old(currentCommander) == client ==>
        Inherits<DycsServerConn>(old(clients), old(Record()), client, AsOption(currentCommander))
      ensures old(currentCommander) != client ==> currentCommander == old(currentCommander)
    {
      hide Inv, Dropped, Successor, Inherits;
      FailoverOnLoss<DycsServerConn>(View(), client);
      DisconnectKeepsInv<DycsServerConn>(View(), client);
      Remove(client);
      if client == currentCommander {
        FailOver();
      }
    }

    method FailOver()
      modifies this`currentCommander
      ensures View() == old(View()).(commander := Successor<DycsServerConn>(old(View())))
    {
      hide Successor, Eligible;
      SuccessorIs();
      currentCommander := FindAnotherCommander();
    }

    /** clients.remove. */
    method Remove(client: DycsServerConn)
      modifies this`clients
      ensures clients == Without(old(clients), client)
      ensures View() == Dropped(old(View()), client)
    {
      ghost var v := View();
      clients := Without(clients, client);
      assert View().record == v.record - {client};
    }
  }

  class NavigationServer {
    const server: DycsServer
    const commandSize: nat
    /** The calls of gotCommandData so far. */
    var commands: seq<(DycsServerConn, seq<nat>)>

    constructor (server: DycsServer, commandSize: nat)
      ensures this.server == server && this.commandSize == commandSize && commands == []
    {
      this.server, this.commandSize, commands := server, commandSize, [];
    }

    /** manageClient: a command is passed on only if the read returns its full length, that
        is exactly if a complete packet leaves its sender in command. */
    method ManageClient(socket: DycsServerConn, connected: bool, received: seq<nat>)
      requires socket.server == server
      requires |received| <= commandSize + 1 && (received != [] ==> received[0] < 256)
      requires commandSize > 0
      modifies this`commands, server, socket
      ensures old(server.Valid()) && (socket in server.clients || server.View().commander != Some(socket)) ==> server.Valid()
      ensures server.clients == old(server.clients)
      ensures server.View() == if connected && |received| == commandSize + 1
        then Asked<DycsServerConn>(old(server.View()), socket, ParseHeader(received[0])) else old(server.View())
      ensures commands == old(commands)
        + if connected && |received| == commandSize + 1 && server.View().commander == Some(socket)
          then [(socket, received[1..])] else []
    {
      hide Inv, Asked;
      if !connected {
        return;
      }
      var buffer := new nat[commandSize](_ => 0);
      var count := socket.ReadOrPeek(received, buffer, commandSize, 0);
      if count == commandSize {
        assert buffer[..] == received[1..];
        commands := commands + [(socket, buffer[..])];
      }
    }
  }
}
