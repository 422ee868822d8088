/** The waypoint search of the example trajectory follower (Trajectory.cpp). Which waypoints
    count as near is an input: one flag each, for the position and speed at hand. */
module Trajectory {

  import Masks

  /** The waypoint `i` advances from the first, in a list of n. */
  function Slot(i: nat, n: nat): (s: nat)
    requires n > 0
    ensures s < n
  {
    i % n
  }

  predicate NearAt(near: seq<bool>, i: nat) {
    near != [] && near[Slot(i, |near|)]
  }

  /** The first waypoint in cyclic order that is not near, `k` advances after `from`; a whole
      turn if there is none. */
  predicate FirstFar(near: seq<bool>, from: nat, k: nat) {
    && near != [] && k <= |near|
    && (forall i :: from <= i < from + k ==> NearAt(near, i))
    && (k < |near| ==> !NearAt(near, from + k))
  }

  lemma FirstFarUnique(near: seq<bool>, from: nat, k: nat, l: nat)
    requires FirstFar(near, from, k) && FirstFar(near, from, l)
    ensures k == l
  {}

  lemma WrapStep(a: nat, n: nat)
    requires n > 0
    ensures Slot(a + 1, n) == if Slot(a, n) + 1 >= n then 0 else Slot(a, n) + 1
  {
    var q, r := a / n, a % n;
    assert a == q * n + r;
    if r + 1 >= n {
      assert (q + 1) * n == q * n + n;
      Masks.DivUnique(a + 1, q + 1, 0, n);
    } else {
      Masks.DivUnique(a + 1, q, r + 1, n);
    }
  }

  lemma WrapTurn(from: nat, k: nat, n: nat)
    requires from < n && k <= n
    ensures Slot(from + k, n) == from <==> k == 0 || k == n
  {
    if from + k < n {
      Masks.DivUnique(from + k, 0, from + k, n);
    } else {
      Masks.DivUnique(from + k, 1, from + k - n, n);
    }
  }

  datatype Waypoint = Waypoint(position: (real, real, real), forwardSpeed: real)

  function OnCircle(direction: (real, real), center: (real, real, real), radius: real, forwardSpeed: real): Waypoint {
    Waypoint((center.0 + radius * direction.0, center.1 + radius * direction.1, center.2), forwardSpeed)
  }

  /** For the cosine and sine of any angle the waypoint is level with the center, at a distance
      of radius from it. */
  lemma DistanceIsRadius(direction: (real, real), center: (real, real, real), radius: real, forwardSpeed: real)
    requires direction.0 * direction.0 + direction.1 * direction.1 == 1.0
    ensures var p := OnCircle(direction, center, radius, forwardSpeed).position;
      && p.2 == center.2
      && (p.0 - center.0) * (p.0 - center.0) + (p.1 - center.1) * (p.1 - center.1) == radius * radius
  {
    var x, y := direction.0, direction.1;
    Square(radius, x);
    Square(radius, y);
    assert radius * radius * (x * x) + radius * radius * (y * y) == radius * radius * (x * x + y * y);
  }

  lemma Square(r: real, x: real)
    ensures (r * x) * (r * x) == r * r * (x * x)
  {}

  class Trajectory {
    var waypoints: seq<Waypoint>
    var currentWaypointIndex: nat

    ghost predicate Valid()
      reads this
    {
      currentWaypointIndex < |waypoints|
    }

    constructor ()
      ensures waypoints == [] && currentWaypointIndex == 0
    {
      waypoints, currentWaypointIndex := [], 0;
    }

    method AppendWaypoint(position: (real, real, real), forwardSpeed: real) returns (size: nat)
      modifies this`waypoints
      ensures waypoints == old(waypoints) + [Waypoint(position, forwardSpeed)] && size == |waypoints|
    {
      waypoints := waypoints + [Waypoint(position, forwardSpeed)];
      size := |waypoints|;
    }

    method ResetCurrentWaypoint()
      modifies this`currentWaypointIndex
      ensures currentWaypointIndex == 0
    {
      currentWaypointIndex := 0;
    }

    /** The index is not reset with the list. */
    method Clear()
      modifies this`waypoints
      ensures waypoints == []
    {
      waypoints := [];
    }

    /** generateXYCircle; `directions` has the cosine and sine of each angle. The current index
        is kept, and update may be called again exactly if the circle has a waypoint there. */
    method GenerateXYCircle(directions: seq<(real, real)>, center: (real, real, real), radius: real, forwardSpeed: real)
      modifies this`waypoints
      ensures |waypoints| == |directions|
      ensures forall i :: 0 <= i < |directions| ==> waypoints[i] == OnCircle(directions[i], center, radius, forwardSpeed)
      ensures forall i :: 0 <= i < |directions| ==> waypoints[i].position.2 == center.2 && waypoints[i].forwardSpeed == forwardSpeed
      ensures forall i :: 0 <= i < |directions| ==> waypoints[i].position.0 == center.0 + radius * directions[i].0
      ensures forall i :: 0 <= i < |directions| ==> waypoints[i].position.1 == center.1 + radius * directions[i].1
      ensures Valid() <==> old(currentWaypointIndex) < |directions|
    {
      Clear();
      var i := 0;
      while i < |directions|
        invariant 0 <= i <= |directions| && |waypoints| == i
        invariant forall j :: 0 <= j < i ==> waypoints[j] == OnCircle(directions[j], center, radius, forwardSpeed)
      {
        var w := OnCircle(directions[i], center, radius, forwardSpeed);
        var size := AppendWaypoint(w.position, w.forwardSpeed);
        i := i + 1;
      }
    }

    /** update: at most one turn, to the first waypoint that is not near. The previous waypoint
        is never set, so the speed is the new waypoint's own. */
    method Update(near: seq<bool>) returns (wp: Waypoint, ghost k: nat)
      requires Valid() && |near| == |waypoints|
      modifies this`currentWaypointIndex
      ensures Valid() && wp == waypoints[currentWaypointIndex]
      ensures FirstFar(near, old(currentWaypointIndex), k)
      ensures currentWaypointIndex == Slot(old(currentWaypointIndex) + k, |near|)
      ensures currentWaypointIndex == old(currentWaypointIndex) <==> k == 0 || k == |near|
      ensures near[currentWaypointIndex] <==> k == |near|
    {
      hide Slot;
      var curWpIndex0, n := currentWaypointIndex, |near|;
      k := 0;
      WrapTurn(curWpIndex0, 0, n);
      while near[currentWaypointIndex]
        invariant k < n && currentWaypointIndex == Slot(curWpIndex0 + k, n)
        invariant forall i :: curWpIndex0 <= i < curWpIndex0 + k ==> NearAt(near, i)
        decreases n - k
      {
        assert NearAt(near, curWpIndex0 + k);
        WrapStep(curWpIndex0 + k, n);
        WrapTurn(curWpIndex0, k + 1, n);
        currentWaypointIndex := currentWaypointIndex + 1;
        if currentWaypointIndex >= |waypoints| {
          currentWaypointIndex := 0;
        }
        k := k + 1;
        if currentWaypointIndex == curWpIndex0 {
          assert NearAt(near, curWpIndex0);
          break;
        }
      }
      WrapTurn(curWpIndex0, k, n);
      wp := waypoints[currentWaypointIndex];
    }

    /** A mission: one update for each view. */
    method Fly(views: seq<seq<bool>>) returns (ghost advances: seq<nat>)
      requires Valid() && forall u :: 0 <= u < |views| ==> |views[u]| == |waypoints|
      modifies this`currentWaypointIndex
      ensures Valid() && Follows(views, old(currentWaypointIndex), advances)
      ensures currentWaypointIndex == Slot(old(currentWaypointIndex) + Total(advances), |waypoints|)
    {
      hide Slot, FirstFar;
      advances := [];
      ghost var start, n := currentWaypointIndex, |waypoints|;
      WrapTurn(start, 0, n);
      var u := 0;
      while u < |views|
        invariant 0 <= u == |advances| <= |views| && Valid()
        invariant Follows(views[..u], start, advances)
        invariant currentWaypointIndex == Slot(start + Total(advances), n)
      {
        var wp;
        ghost var k;
        wp, k := Update(views[u]);
        FarFromSlot(views[u], start + Total(advances), k);
        SlotOfSlot(start + Total(advances), k, n);
        FollowsAppend(views[..u], start, advances, views[u], k);
        assert views[..u + 1] == views[..u] + [views[u]];
        advances := advances + [k];
        u := u + 1;
      }
      assert views[..u] == views;
    }
  }

  // ------------------------------------------------------------ over a whole mission

  /** How far a series of updates gets, counted without wrapping. `views` has the flags at
      each update, `advances` how far each one went. */
  predicate Follows(views: seq<seq<bool>>, from: nat, advances: seq<nat>)
    decreases views
  {
    && |views| == |advances|
    && (views != [] ==> FirstFar(views[0], from, advances[0]) && Follows(views[1..], from + advances[0], advances[1..]))
  }

  function Total(advances: seq<nat>): nat {
    if advances == [] then 0 else advances[0] + Total(advances[1..])
  }

  lemma SlotOfSlot(from: nat, k: nat, n: nat)
    requires n > 0
    ensures Slot(Slot(from, n) + k, n) == Slot(from + k, n)
  {
    var q, r := from / n, from % n;
    var p, t := (r + k) / n, (r + k) % n;
    assert from + k == (q + p) * n + t by {
      assert from == q * n + r && r + k == p * n + t;
      assert (q + p) * n == q * n + p * n;
    }
    Masks.DivUnique(from + k, q + p, t, n);
  }

  lemma FarFromSlot(near: seq<bool>, from: nat, k: nat)
    requires near != [] && FirstFar(near, Slot(from, |near|), k)
    ensures FirstFar(near, from, k)
  {
    var n := |near|;
    hide Slot;
    forall i | from <= i < from + k
      ensures NearAt(near, i)
    {
      SlotOfSlot(from, i - from, n);
      assert NearAt(near, Slot(from, n) + (i - from));
    }
    SlotOfSlot(from, k, n);
  }

  lemma {:induction false} FollowsAppend(views: seq<seq<bool>>, from: nat, advances: seq<nat>, view: seq<bool>, k: nat)
    requires Follows(views, from, advances) && FirstFar(view, from + Total(advances), k)
    ensures Follows(views + [view], from, advances + [k]) && Total(advances + [k]) == Total(advances) + k
    decreases |views|
  {
    hide FirstFar;
    if views == [] {
      assert advances == [] && (views + [view])[1..] == [] && (advances + [k])[1..] == [];
    } else {
      assert (views + [view])[1..] == views[1..] + [view] && (advances + [k])[1..] == advances[1..] + [k];
      FollowsAppend(views[1..], from + advances[0], advances[1..], view, k);
    }
  }

  /** The views determine the whole mission. */
  lemma {:induction false} FollowsUnique(views: seq<seq<bool>>, from: nat, a: seq<nat>, b: seq<nat>)
    requires Follows(views, from, a) && Follows(views, from, b)
    ensures a == b
    decreases |views|
  {
    if views != [] {
      FirstFarUnique(views[0], from, a[0], b[0]);
      FollowsUnique(views[1..], from + a[0], a[1..], b[1..]);
      assert a == [a[0]] + a[1..] && b == [b[0]] + b[1..];
    }
  }

  /** No waypoint is skipped: each one passed was near during the very update that passed it. */
  lemma {:induction false} NothingSkipped(views: seq<seq<bool>>, from: nat, advances: seq<nat>, t: nat)
    requires Follows(views, from, advances) && t < Total(advances)
    ensures exists u :: 0 <= u < |views| && NearAt(views[u], from + t)
    decreases |views|
  {
    if t < advances[0] {
      assert NearAt(views[0], from + t);
    } else {
      NothingSkipped(views[1..], from + advances[0], advances[1..], t - advances[0]);
      var u :| 0 <= u < |views| - 1 && NearAt(views[1..][u], from + advances[0] + (t - advances[0]));
      assert views[u + 1] == views[1..][u];
    }
  }
}
