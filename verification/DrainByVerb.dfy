/** The completion verb drains a board exactly as the scheduler's model of it. */
module DrainByVerb {
  import opened Common
  import opened Cards
  import opened Scheduler
  import D = SchedulerDrain
  import V = CardVerbs

  /** The cards agree on everything the scheduler looks at. */
  ghost predicate SameGraph(ts: seq<Card>, us: seq<Card>)
  {
    |ts| == |us| && forall k :: 0 <= k < |ts| ==> SameLinks(ts[k], us[k])
  }

  predicate SameLinks(t: Card, u: Card)
  {
    t.id == u.id && t.status == u.status && t.blocker == u.blocker && t.dependsOn == u.dependsOn && t.blocks == u.blocks
  }

  /** A removed card is closed, as its removal leaves it. */
  ghost predicate RemovedAreClosed(ts: seq<Card>)
  {
    forall i :: 0 <= i < |ts| && Tombstoned(ts[i]) ==> ts[i].status == Some("cancelled")
  }

  /** The verb called on each listed id in turn. */
  ghost function CompleteEach(ts: seq<Card>, ids: seq<string>, actor: string, now: string): seq<Card>
    decreases |ids|
  {
    if ids == [] then ts else CompleteEach(V.CompleteOne(ts, ids[0], actor, now), ids[1..], actor, now)
  }

  lemma {:induction false} SameStatus(ts: seq<Card>, us: seq<Card>, id: string)
    requires SameGraph(ts, us)
    ensures StatusOf(ts, id) == StatusOf(us, id)
    decreases |ts|
  {
    if ts != [] {
      var n := |ts| - 1;
      assert SameLinks(ts[n], us[n]);
      forall k | 0 <= k < n ensures SameLinks(ts[..n][k], us[..n][k]) {
        assert SameLinks(ts[k], us[k]);
      }
      SameStatus(ts[..n], us[..n], id);
    }
  }

  lemma {:induction false} SameWaits(ts: seq<Card>, us: seq<Card>, t: Card, u: Card, z: string)
    requires SameGraph(ts, us) && SameLinks(t, u)
    ensures WaitsFor(ts, t, z) <==> WaitsFor(us, u, z)
  {
    forall k | 0 <= k < |ts| ensures ts[k].id == us[k].id && ts[k].blocks == us[k].blocks {
      assert SameLinks(ts[k], us[k]);
    }
  }

  lemma {:induction false} SameRunnable(ts: seq<Card>, us: seq<Card>, k: nat)
    requires SameGraph(ts, us) && k < |ts|
    ensures Runnable(ts, ts[k]) <==> Runnable(us, us[k])
  {
    assert SameLinks(ts[k], us[k]);
    forall z ensures WaitsFor(ts, ts[k], z) && Open(ts, z) <==> WaitsFor(us, us[k], z) && Open(us, z) {
      SameWaits(ts, us, ts[k], us[k], z);
      SameStatus(ts, us, z);
    }
  }

  /** Lists that agree on the graph have the same open and the same runnable ids. */
  lemma {:induction false} SameIds(ts: seq<Card>, us: seq<Card>)
    requires SameGraph(ts, us)
    ensures ValidIds(ts) <==> ValidIds(us)
    ensures D.OpenIds(ts) == D.OpenIds(us)
    ensures forall id :: D.RunnableId(ts, id) <==> D.RunnableId(us, id)
  {
    forall k | 0 <= k < |ts| ensures ts[k].id == us[k].id {
      assert SameLinks(ts[k], us[k]);
    }
    forall z ensures Open(ts, z) <==> Open(us, z) {
      SameStatus(ts, us, z);
    }
    forall k | 0 <= k < |ts| ensures Runnable(ts, ts[k]) <==> Runnable(us, us[k]) {
      SameRunnable(ts, us, k);
    }
  }

  lemma {:induction false} SameComplete(ts: seq<Card>, us: seq<Card>, id: string)
    requires SameGraph(ts, us)
    ensures SameGraph(D.Complete(ts, id), D.Complete(us, id))
  {
    forall k | 0 <= k < |ts| ensures SameLinks(D.Complete(ts, id)[k], D.Complete(us, id)[k]) {
      assert SameLinks(ts[k], us[k]);
    }
  }

  /** Runs carry over between lists that agree on the graph. */
  lemma {:induction false} SameRun(ts: seq<Card>, us: seq<Card>, ids: seq<string>)
    requires SameGraph(ts, us) && D.Run(ts, ids)
    ensures D.Run(us, ids) && SameGraph(D.After(ts, ids), D.After(us, ids))
    decreases |ids|
  {
    if ids != [] {
      SameIds(ts, us);
      SameComplete(ts, us, ids[0]);
      SameRun(D.Complete(ts, ids[0]), D.Complete(us, ids[0]), ids[1..]);
    }
  }

  /** On a runnable card the verb changes what the scheduler sees exactly as the model of
      a completion does; the stamps it adds are invisible there. */
  lemma {:induction false} VerbCompletes(ts: seq<Card>, id: string, actor: string, now: string)
    requires ValidIds(ts) && RemovedAreClosed(ts) && D.RunnableId(ts, id)
    ensures SameGraph(V.CompleteOne(ts, id, actor, now), D.Complete(ts, id))
    ensures RemovedAreClosed(V.CompleteOne(ts, id, actor, now))
  {
    var m :| 0 <= m < |ts| && ts[m].id == id && Runnable(ts, ts[m]);
    assert !Tombstoned(ts[m]);
    forall k | 0 <= k < |ts| && ts[k].id == id ensures k == m {
    }
  }

  /** Calling the verb along any run of runnable ids follows the model's run. */
  lemma {:induction false} VerbFollowsRun(ts: seq<Card>, ids: seq<string>, actor: string, now: string)
    requires ValidIds(ts) && RemovedAreClosed(ts) && D.Run(ts, ids)
    ensures SameGraph(CompleteEach(ts, ids, actor, now), D.After(ts, ids))
    decreases |ids|
  {
    if ids != [] {
      var us, vs := V.CompleteOne(ts, ids[0], actor, now), D.Complete(ts, ids[0]);
      VerbCompletes(ts, ids[0], actor, now);
      D.CompleteCloses(ts, ids[0]);
      SameGraphBack(us, vs);
      SameIds(us, vs);
      SameRun(vs, us, ids[1..]);
      VerbFollowsRun(us, ids[1..], actor, now);
      Agree(CompleteEach(us, ids[1..], actor, now), D.After(us, ids[1..]), D.After(vs, ids[1..]));
    } else {
      assert forall k :: 0 <= k < |ts| ==> SameLinks(ts[k], ts[k]);
    }
  }

  lemma {:induction false} SameGraphBack(ts: seq<Card>, us: seq<Card>)
    requires SameGraph(ts, us)
    ensures SameGraph(us, ts)
  {
    forall k | 0 <= k < |ts| ensures SameLinks(us[k], ts[k]) {
      assert SameLinks(ts[k], us[k]);
    }
  }

  lemma {:induction false} Agree(ts: seq<Card>, us: seq<Card>, vs: seq<Card>)
    requires SameGraph(ts, us) && SameGraph(vs, us)
    ensures SameGraph(ts, vs)
  {
    forall k | 0 <= k < |ts| ensures SameLinks(ts[k], vs[k]) {
      assert SameLinks(ts[k], us[k]) && SameLinks(vs[k], us[k]);
    }
  }

  /** Main result. Draining a board by the completion verb, in whatever order, leaves open
      exactly the cards that could, at the start, reach a waiting cycle or a card nobody
      may start. */
  lemma {:induction false} VerbDrainLeavesExactlyDoomed(ts: seq<Card>, ids: seq<string>, actor: string, now: string,
                                                        a: string)
    requires ValidIds(ts) && RemovedAreClosed(ts) && D.Run(ts, ids)
    requires D.Stuck(CompleteEach(ts, ids, actor, now))
    ensures a in D.OpenIds(CompleteEach(ts, ids, actor, now)) <==> D.Doomed(ts, a)
  {
    VerbFollowsRun(ts, ids, actor, now);
    SameIds(CompleteEach(ts, ids, actor, now), D.After(ts, ids));
    D.DrainLeavesExactlyDoomed(ts, ids, a);
  }
}
