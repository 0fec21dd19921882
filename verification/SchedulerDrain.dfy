/** What repeated completion of runnable cards leaves behind. */
module SchedulerDrain {
  import opened Common
  import opened Cards
  import opened Scheduler

  /** Completing a card sets its status; nothing else in the list moves. */
  function Complete(ts: seq<Card>, id: string): seq<Card>
  {
    seq(|ts|, i requires 0 <= i < |ts| => if ts[i].id == id then ts[i].(status := Some("done")) else ts[i])
  }

  ghost predicate RunnableId(ts: seq<Card>, id: string)
  {
    exists i :: 0 <= i < |ts| && ts[i].id == id && Runnable(ts, ts[i])
  }

  /** A run completes, one after another, cards that are runnable at that point. */
  ghost predicate Run(ts: seq<Card>, ids: seq<string>)
    decreases |ids|
  {
    ids != [] ==> RunnableId(ts, ids[0]) && Run(Complete(ts, ids[0]), ids[1..])
  }

  ghost function After(ts: seq<Card>, ids: seq<string>): seq<Card>
    decreases |ids|
  {
    if ids == [] then ts else After(Complete(ts, ids[0]), ids[1..])
  }

  ghost predicate Stuck(ts: seq<Card>)
  {
    forall id :: !RunnableId(ts, id)
  }

  // --- the waiting graph --------------------------------------------------

  /** The ids whose cards are still open. */
  ghost function OpenIds(ts: seq<Card>): set<string>
  {
    set i | 0 <= i < |ts| && Open(ts, ts[i].id) :: ts[i].id
  }

  ghost predicate Waits(ts: seq<Card>, a: string, b: string)
  {
    exists i :: 0 <= i < |ts| && ts[i].id == a && WaitsFor(ts, ts[i], b)
  }

  /** An open card nobody may start: failed, cancelled, blocked, or gated. */
  ghost predicate Unstartable(ts: seq<Card>, a: string)
  {
    exists i :: 0 <= i < |ts| && ts[i].id == a && !PassesBaseFilter(ts[i])
  }

  /** A walk along waits-for edges between open cards. */
  ghost predicate Walk(ts: seq<Card>, p: seq<string>)
  {
    && p != []
    && (forall i :: 0 <= i < |p| ==> p[i] in OpenIds(ts))
    && (forall i :: 0 <= i < |p| - 1 ==> Waits(ts, p[i], p[i + 1]))
  }

  /** The walk comes back to a card it has visited: it enters a cycle. */
  ghost predicate EntersCycle(p: seq<string>)
  {
    exists i, j :: 0 <= i < j < |p| && p[i] == p[j]
  }

  /** A walk from `a` into a cycle, or to a card that cannot be started. */
  ghost predicate Dooms(ts: seq<Card>, a: string, p: seq<string>)
  {
    Walk(ts, p) && p[0] == a && (EntersCycle(p) || Unstartable(ts, p[|p| - 1]))
  }

  /** From `a` one can walk into a cycle, or to a card that cannot be started. */
  ghost predicate Doomed(ts: seq<Card>, a: string)
  {
    exists p :: Dooms(ts, a, p)
  }

  // --- completing one card ------------------------------------------------

  lemma {:induction false} OpenAfterComplete(ts: seq<Card>, id: string, z: string)
    requires ValidIds(ts)
    ensures ValidIds(Complete(ts, id))
    ensures Open(Complete(ts, id), z) <==> Open(ts, z) && z != id
  {
    var us := Complete(ts, id);
    if i: nat :| i < |ts| && ts[i].id == z {
      StatusAt(ts, i);
      assert us[i].id == z;
      StatusAt(us, i);
    } else {
      StatusUnknown(ts, z);
      StatusUnknown(us, z);
    }
  }

  lemma {:induction false} WaitsForAfterComplete(ts: seq<Card>, id: string, t: Card, u: Card, z: string)
    requires t.id == u.id && t.dependsOn == u.dependsOn
    ensures WaitsFor(Complete(ts, id), t, z) <==> WaitsFor(ts, u, z)
  {
    var us := Complete(ts, id);
    forall i | 0 <= i < |ts| ensures us[i].id == ts[i].id && us[i].blocks == ts[i].blocks {}
  }

  /** Completion closes exactly the completed card. */
  lemma {:induction false} CompleteCloses(ts: seq<Card>, id: string)
    requires ValidIds(ts)
    ensures ValidIds(Complete(ts, id))
    ensures OpenIds(Complete(ts, id)) == OpenIds(ts) - {id}
  {
    var us := Complete(ts, id);
    OpenAfterComplete(ts, id, "");
    forall z ensures z in OpenIds(us) <==> z in OpenIds(ts) && z != id {
      OpenAfterComplete(ts, id, z);
      if z in OpenIds(us) {
        var i :| 0 <= i < |us| && Open(us, us[i].id) && us[i].id == z;
        assert ts[i].id == z;
      }
      if z in OpenIds(ts) && z != id {
        var i :| 0 <= i < |ts| && Open(ts, ts[i].id) && ts[i].id == z;
        assert us[i].id == z;
      }
    }
  }

  /** Completion leaves every waits-for edge in place. */
  lemma {:induction false} CompleteKeepsWaits(ts: seq<Card>, id: string, a: string, b: string)
    ensures Waits(Complete(ts, id), a, b) <==> Waits(ts, a, b)
  {
    var us := Complete(ts, id);
    if i :| 0 <= i < |us| && us[i].id == a && WaitsFor(us, us[i], b) {
      WaitsForAfterComplete(ts, id, us[i], ts[i], b);
      assert ts[i].id == a && WaitsFor(ts, ts[i], b);
    }
    if i :| 0 <= i < |ts| && ts[i].id == a && WaitsFor(ts, ts[i], b) {
      WaitsForAfterComplete(ts, id, us[i], ts[i], b);
      assert us[i].id == a && WaitsFor(us, us[i], b);
    }
  }

  lemma {:induction false} CompleteKeepsUnstartable(ts: seq<Card>, id: string, a: string)
    requires a != id
    ensures Unstartable(Complete(ts, id), a) <==> Unstartable(ts, a)
  {
    var us := Complete(ts, id);
    forall i | 0 <= i < |ts| && ts[i].id == a ensures us[i] == ts[i] {}
  }

  /** The walks that survive a completion are those that avoid the card. */
  lemma {:induction false} WalkAfterComplete(ts: seq<Card>, id: string, p: seq<string>)
    requires ValidIds(ts)
    ensures Walk(Complete(ts, id), p) <==> Walk(ts, p) && id !in p
  {
    CompleteCloses(ts, id);
    forall i | 0 <= i < |p| - 1 ensures Waits(Complete(ts, id), p[i], p[i + 1]) <==> Waits(ts, p[i], p[i + 1]) {
      CompleteKeepsWaits(ts, id, p[i], p[i + 1]);
    }
    if Walk(Complete(ts, id), p) {
      assert forall i :: 0 <= i < |p| ==> p[i] in OpenIds(ts) && p[i] != id;
    }
    if Walk(ts, p) && id !in p {
      assert forall i :: 0 <= i < |p| ==> p[i] in OpenIds(Complete(ts, id));
    }
  }

  /** Runnable ids are open, startable and wait for nothing open. */
  lemma {:induction false} RunnableIdMeans(ts: seq<Card>, a: string)
    requires ValidIds(ts)
    ensures RunnableId(ts, a)
       <==> a in OpenIds(ts) && !Unstartable(ts, a) && forall b :: Waits(ts, a, b) ==> b !in OpenIds(ts)
  {
    if RunnableId(ts, a) {
      var i :| 0 <= i < |ts| && ts[i].id == a && Runnable(ts, ts[i]);
      StatusAt(ts, i);
      assert forall k :: 0 <= k < |ts| && ts[k].id == a ==> k == i;
      forall b | Waits(ts, a, b) ensures b !in OpenIds(ts) {
        assert WaitsFor(ts, ts[i], b);
      }
    } else if a in OpenIds(ts) && !Unstartable(ts, a) {
      var i :| 0 <= i < |ts| && Open(ts, ts[i].id) && ts[i].id == a;
      assert !Runnable(ts, ts[i]);
      var z :| WaitsFor(ts, ts[i], z) && Open(ts, z);
      var k := OpenHasRow(ts, z);
      assert ts[k].id in OpenIds(ts);
      assert Waits(ts, a, z);
    }
  }

  // --- termination --------------------------------------------------------

  /** Every run is shorter than the number of open cards: draining terminates. */
  lemma {:induction false} DrainTerminates(ts: seq<Card>, ids: seq<string>)
    requires ValidIds(ts) && Run(ts, ids)
    ensures ValidIds(After(ts, ids))
    ensures OpenIds(After(ts, ids)) == OpenIds(ts) - Elements(ids)
    ensures |OpenIds(After(ts, ids))| == |OpenIds(ts)| - |ids|
    decreases |ids|
  {
    if ids != [] {
      var us := Complete(ts, ids[0]);
      RunnableIdMeans(ts, ids[0]);
      CompleteCloses(ts, ids[0]);
      DrainTerminates(us, ids[1..]);
      assert |OpenIds(us)| == |OpenIds(ts)| - 1;
      ElementsCons(ids);
    }
  }

  lemma {:induction false} ElementsCons(ids: seq<string>)
    requires ids != []
    ensures Elements(ids) == {ids[0]} + Elements(ids[1..])
  {
    assert ids == [ids[0]] + ids[1..];
  }

  // --- what is left -------------------------------------------------------

  /** A doomed card is never runnable: it is unstartable or waits for a doomed one. */
  lemma {:induction false} DoomedHasDoomedSuccessor(ts: seq<Card>, a: string)
    requires Doomed(ts, a)
    ensures a in OpenIds(ts)
    ensures Unstartable(ts, a) || exists b :: Waits(ts, a, b) && Doomed(ts, b)
  {
    var p :| Dooms(ts, a, p);
    if |p| == 1 {
      return;
    }
    var b := p[1];
    assert Waits(ts, a, b);
    var q := p[1..];
    assert Walk(ts, q) by {
      forall i | 0 <= i < |q| ensures q[i] in OpenIds(ts) { assert q[i] == p[i + 1]; }
      forall i | 0 <= i < |q| - 1 ensures Waits(ts, q[i], q[i + 1]) {
        assert q[i] == p[i + 1] && q[i + 1] == p[i + 2];
      }
    }
    if EntersCycle(p) {
      var i, j :| 0 <= i < j < |p| && p[i] == p[j];
      if i > 0 {
        assert q[i - 1] == q[j - 1];
        assert Dooms(ts, b, q);
      } else {
        RotateCycle(ts, p, j);
      }
    } else {
      assert q[|q| - 1] == p[|p| - 1];
      assert Dooms(ts, b, q);
    }
  }

  /** A cycle through `p[0]` is also a cycle through `p[1]`. */
  lemma {:induction false} RotateCycle(ts: seq<Card>, p: seq<string>, j: nat)
    requires Walk(ts, p) && 0 < j < |p| && p[0] == p[j]
    ensures Doomed(ts, p[1])
  {
    var q := p[1..j + 1] + [p[1]];
    assert |q| == j + 1 && q[0] == p[1] && q[j] == p[1] && q[j - 1] == p[j];
    forall i | 0 <= i < |q| ensures q[i] in OpenIds(ts) {
      if i < j { assert q[i] == p[i + 1]; }
    }
    forall i | 0 <= i < |q| - 1 ensures Waits(ts, q[i], q[i + 1]) {
      if i < j - 1 {
        assert q[i] == p[i + 1] && q[i + 1] == p[i + 2];
      } else {
        assert Waits(ts, p[0], p[1]);
      }
    }
    assert q[0] == q[j] && EntersCycle(q) && Dooms(ts, p[1], q);
  }

  /** A runnable card can only be the last card of a walk. */
  lemma {:induction false} RunnableEndsWalk(ts: seq<Card>, id: string, p: seq<string>)
    requires ValidIds(ts) && RunnableId(ts, id) && Walk(ts, p)
    ensures forall i :: 0 <= i < |p| - 1 ==> p[i] != id
  {
    RunnableIdMeans(ts, id);
    forall i | 0 <= i < |p| - 1 ensures p[i] != id {
      assert Waits(ts, p[i], p[i + 1]) && p[i + 1] in OpenIds(ts);
    }
  }

  /** A witness never needs the runnable card: nothing open leads on from it. */
  lemma {:induction false} DoomAvoidsRunnable(ts: seq<Card>, id: string, a: string, p: seq<string>)
    returns (q: seq<string>)
    requires ValidIds(ts) && RunnableId(ts, id) && Dooms(ts, a, p)
    ensures Dooms(ts, a, q) && id !in q
  {
    RunnableEndsWalk(ts, id, p);
    RunnableIdMeans(ts, id);
    if p[|p| - 1] == id {
      var i, j :| 0 <= i < j < |p| && p[i] == p[j];
      q := p[..|p| - 1];
      assert q[i] == q[j];
      assert Walk(ts, q) by {
        forall k | 0 <= k < |q| - 1 ensures Waits(ts, q[k], q[k + 1]) {
          assert q[k] == p[k] && q[k + 1] == p[k + 1];
        }
      }
    } else {
      q := p;
    }
  }

  /** Completing a runnable card neither dooms nor saves any card. */
  lemma {:induction false} CompleteKeepsDoomed(ts: seq<Card>, id: string, a: string)
    requires ValidIds(ts) && RunnableId(ts, id)
    ensures Doomed(ts, a) <==> Doomed(Complete(ts, id), a)
  {
    var us := Complete(ts, id);
    if Doomed(us, a) {
      var p :| Dooms(us, a, p);
      WalkAfterComplete(ts, id, p);
      assert p[|p| - 1] in p;
      CompleteKeepsUnstartable(ts, id, p[|p| - 1]);
      assert Dooms(ts, a, p);
    }
    if Doomed(ts, a) {
      var p :| Dooms(ts, a, p);
      var q := DoomAvoidsRunnable(ts, id, a, p);
      WalkAfterComplete(ts, id, q);
      assert q[|q| - 1] in q;
      CompleteKeepsUnstartable(ts, id, q[|q| - 1]);
      assert Dooms(us, a, q);
    }
  }

  /** In a stuck state every open card can be followed into a cycle or to an
      unstartable card: extend the walk until it ends or must repeat. */
  lemma {:induction false} StuckWalk(ts: seq<Card>, a: string, n: nat) returns (p: seq<string>)
    requires ValidIds(ts) && Stuck(ts) && a in OpenIds(ts)
    ensures Walk(ts, p) && p[0] == a
    ensures Unstartable(ts, p[|p| - 1]) || |p| == n + 1
  {
    if n == 0 {
      p := [a];
    } else {
      p := StuckWalk(ts, a, n - 1);
      var last := p[|p| - 1];
      if !Unstartable(ts, last) {
        RunnableIdMeans(ts, last);
        assert !RunnableId(ts, last);
        var b :| Waits(ts, last, b) && b in OpenIds(ts);
        p := p + [b];
      }
    }
  }

  lemma {:induction false} StuckMeansDoomed(ts: seq<Card>, a: string)
    requires ValidIds(ts) && Stuck(ts) && a in OpenIds(ts)
    ensures Doomed(ts, a)
  {
    var p := StuckWalk(ts, a, |OpenIds(ts)|);
    if !Unstartable(ts, p[|p| - 1]) {
      if Distinct(p) {
        DistinctFits(p, OpenIds(ts));
        assert false;
      }
      var i, j :| 0 <= i < j < |p| && p[i] == p[j];
      assert EntersCycle(p);
    }
    assert Dooms(ts, a, p);
  }

  lemma {:induction false} RunKeepsDoomed(ts: seq<Card>, ids: seq<string>, a: string)
    requires ValidIds(ts) && Run(ts, ids)
    ensures Doomed(ts, a) <==> Doomed(After(ts, ids), a)
    decreases |ids|
  {
    if ids != [] {
      CompleteKeepsDoomed(ts, ids[0], a);
      CompleteCloses(ts, ids[0]);
      RunKeepsDoomed(Complete(ts, ids[0]), ids[1..], a);
    }
  }

  /** Main result. Whatever runnable cards are completed and in whatever order,
      the open cards left when none is runnable are exactly those that could,
      in the original list, reach a waiting cycle or an unstartable card. */
  lemma {:induction false} DrainLeavesExactlyDoomed(ts: seq<Card>, ids: seq<string>, a: string)
    requires ValidIds(ts) && Run(ts, ids) && Stuck(After(ts, ids))
    ensures a in OpenIds(After(ts, ids)) <==> Doomed(ts, a)
  {
    var us := After(ts, ids);
    DrainTerminates(ts, ids);
    RunKeepsDoomed(ts, ids, a);
    if a in OpenIds(us) {
      StuckMeansDoomed(us, a);
    } else if Doomed(us, a) {
      DoomedHasDoomedSuccessor(us, a);
    }
  }

  /** Corollary: when every open card can be started and the waiting graph has no
      cycle, a stuck state has no open card at all, so work that remains always
      offers something runnable. */
  lemma {:induction false} AcyclicDrainsFully(ts: seq<Card>, ids: seq<string>)
    requires ValidIds(ts) && Run(ts, ids)
    requires forall a :: a in OpenIds(ts) ==> !Unstartable(ts, a)
    requires forall p :: Walk(ts, p) ==> !EntersCycle(p)
    ensures Stuck(After(ts, ids)) <==> OpenIds(After(ts, ids)) == {}
  {
    var us := After(ts, ids);
    DrainTerminates(ts, ids);
    forall p | Walk(ts, p) ensures !Unstartable(ts, p[|p| - 1]) {
      assert p[|p| - 1] in OpenIds(ts);
    }
    if Stuck(us) {
      forall a ensures a !in OpenIds(us) {
        DrainLeavesExactlyDoomed(ts, ids, a);
      }
    } else {
      var a :| RunnableId(us, a);
      RunnableIdMeans(us, a);
    }
  }
}
