/** The active-unblock drive: which cards a completion is said to have freed. */
module StoreEvents {
  import opened Common
  import opened Cards
  import opened Scheduler

  /** The first card of that id, as the drive looks it up after the save. */
  function FirstWith(ts: seq<Card>, id: string): Option<Card>
  {
    if ts == [] then None
    else if ts[0].id == id then Some(ts[0])
    else FirstWith(ts[1..], id)
  }

  /** Cards that name the completed one in `depends_on`, or that it `blocks`. */
  function DirectDependents(ts: seq<Card>, done: string): set<string>
  {
    var freed := if FirstWith(ts, done).Some? then FirstWith(ts, done).value.blocks else [];
    set t | t in ts && t.id != "" && (done in t.dependsOn || t.id in freed) :: t.id
  }

  ghost function RunnableIds(ts: seq<Card>): set<string>
  {
    set t | t in ts && Runnable(ts, t) :: t.id
  }

  ghost function Announced(ts: seq<Card>, done: string): set<string>
  {
    DirectDependents(ts, done) * RunnableIds(ts)
  }

  /** Computes the announcement from the saved list. */
  method UnblockedBy(ts: seq<Card>, done: string) returns (unblocked: set<string>)
    ensures unblocked == Announced(ts, done)
  {
    var dependents := DirectDependents(ts, done);
    if dependents == {} {
      return {};
    }
    var runnable, _, _ := RunnableTasks(ts, None, None);
    FilterMembers(ts, IsRunnable(ts, None, None));
    unblocked := dependents * set t | t in runnable :: t.id;
    forall x ensures x in RunnableIds(ts) <==> x in set t | t in runnable :: t.id {
      if x in RunnableIds(ts) {
        var t :| t in ts && Runnable(ts, t) && t.id == x;
        assert t in runnable;
      }
    }
  }

  /** The saved list after a card is resolved: that card is done, its links are
      as they were, and no other card changed. */
  ghost predicate Resolves(ts: seq<Card>, i: nat, us: seq<Card>)
    requires i < |ts|
  {
    && |us| == |ts|
    && us[i].id == ts[i].id && us[i].status == Some("done")
    && us[i].dependsOn == ts[i].dependsOn && us[i].blocks == ts[i].blocks
    && forall k :: 0 <= k < |ts| && k != i ==> us[k] == ts[k]
  }

  lemma {:induction false} ResolvesCloses(ts: seq<Card>, i: nat, us: seq<Card>, z: string)
    requires ValidIds(ts) && i < |ts| && Resolves(ts, i, us)
    ensures ValidIds(us)
    ensures Open(us, z) <==> Open(ts, z) && z != ts[i].id
  {
    if k: nat :| k < |ts| && ts[k].id == z {
      StatusAt(ts, k);
      assert us[k].id == z;
      StatusAt(us, k);
    } else {
      StatusUnknown(ts, z);
      StatusUnknown(us, z);
    }
  }

  lemma {:induction false} ResolvesKeepsWaits(ts: seq<Card>, i: nat, us: seq<Card>, k: nat, z: string)
    requires i < |ts| && k < |ts| && Resolves(ts, i, us)
    ensures WaitsFor(us, us[k], z) <==> WaitsFor(ts, ts[k], z)
  {
    assert forall j :: 0 <= j < |ts| ==> us[j].id == ts[j].id && us[j].blocks == ts[j].blocks;
  }

  /** Waiting on the resolved card is being one of its direct dependents. */
  lemma {:induction false} DependentsWait(ts: seq<Card>, i: nat, k: nat)
    requires ValidIds(ts) && i < |ts| && k < |ts|
    ensures ts[k].id in DirectDependents(ts, ts[i].id) <==> WaitsFor(ts, ts[k], ts[i].id)
  {
    FirstWithAt(ts, i);
    if ts[k].id in DirectDependents(ts, ts[i].id) {
      var t :| t in ts && t.id == ts[k].id && (ts[i].id in t.dependsOn || t.id in ts[i].blocks);
      var m :| 0 <= m < |ts| && ts[m] == t;
      assert m == k;
    }
    if BlocksInto(ts, ts[i].id, ts[k].id) {
      var m :| 0 <= m < |ts| && ts[m].id == ts[i].id && ts[k].id in ts[m].blocks;
      assert m == i;
    }
    assert ts[k] in ts;
  }

  lemma {:induction false} FirstWithAt(ts: seq<Card>, i: nat)
    requires ValidIds(ts) && i < |ts|
    ensures FirstWith(ts, ts[i].id) == Some(ts[i])
  {
    if i > 0 {
      assert ts[0].id != ts[i].id;
      assert ts[1..][i - 1] == ts[i];
      FirstWithAt(ts[1..], i - 1);
    }
  }

  /** What resolving card `i` does to whether card `k` is runnable. */
  lemma {:induction false} RunnableAfterResolve(ts: seq<Card>, i: nat, us: seq<Card>, k: nat)
    requires ValidIds(ts) && i < |ts| && k < |ts| && Resolves(ts, i, us)
    ensures k == i ==> !Runnable(us, us[k])
    ensures k != i && !(Open(ts, ts[i].id) && WaitsFor(ts, ts[k], ts[i].id))
            ==> (Runnable(us, us[k]) <==> Runnable(ts, ts[k]))
    ensures Open(ts, ts[i].id) && WaitsFor(ts, ts[k], ts[i].id) ==> !Runnable(ts, ts[k])
  {
    forall z ensures WaitsFor(us, us[k], z) <==> WaitsFor(ts, ts[k], z) {
      ResolvesKeepsWaits(ts, i, us, k, z);
    }
    forall z ensures Open(us, z) <==> Open(ts, z) && z != ts[i].id {
      ResolvesCloses(ts, i, us, z);
    }
  }

  lemma {:induction false} RunnableIdAt(ts: seq<Card>, k: nat)
    requires ValidIds(ts) && k < |ts|
    ensures ts[k].id in RunnableIds(ts) <==> Runnable(ts, ts[k])
  {
    if ts[k].id in RunnableIds(ts) {
      var t :| t in ts && Runnable(ts, t) && t.id == ts[k].id;
      var m :| 0 <= m < |ts| && ts[m] == t;
      assert m == k;
    }
    assert ts[k] in ts;
  }

  /** The other cards that wait for this one and could be started all along: what the
      announcement of a card that was not open consists of. */
  ghost function AlreadyFree(ts: seq<Card>, id: string): set<string>
  {
    DirectDependents(ts, id) * RunnableIds(ts) - {id}
  }

  /** Which ids are announced, read off the list before the card was resolved. */
  lemma {:induction false} AnnouncedAt(ts: seq<Card>, i: nat, us: seq<Card>, k: nat)
    requires ValidIds(ts) && i < |ts| && k < |ts| && Resolves(ts, i, us)
    ensures !Open(ts, ts[i].id) ==> (ts[k].id in Announced(us, ts[i].id) <==> ts[k].id in AlreadyFree(ts, ts[i].id))
    ensures Open(ts, ts[i].id) ==>
      (ts[k].id in Announced(us, ts[i].id) <==> ts[k].id in RunnableIds(us) - RunnableIds(ts))
    ensures !Open(ts, ts[i].id) ==> ts[k].id !in RunnableIds(us) - RunnableIds(ts)
  {
    var x := ts[i].id;
    ResolvesCloses(ts, i, us, x);
    assert us[k].id == ts[k].id && us[i].id == x;
    DependentsWait(ts, i, k);
    DependentsWait(us, i, k);
    ResolvesKeepsWaits(ts, i, us, k, x);
    RunnableIdAt(ts, k);
    RunnableIdAt(us, k);
    RunnableAfterResolve(ts, i, us, k);
  }

  lemma {:induction false} IdsHaveRows(ts: seq<Card>, i: nat, us: seq<Card>, z: string) returns (k: nat)
    requires i < |ts| && Resolves(ts, i, us)
    requires z in RunnableIds(us) || z in RunnableIds(ts)
    ensures k < |ts| && ts[k].id == z
  {
    if z in RunnableIds(us) {
      var t :| t in us && Runnable(us, t) && t.id == z;
      k :| 0 <= k < |us| && us[k] == t;
      assert us[k].id == ts[k].id;
    } else {
      var t :| t in ts && Runnable(ts, t) && t.id == z;
      k :| 0 <= k < |ts| && ts[k] == t;
    }
  }

  /** The announcement, exactly, in both cases; in neither does it miss a freed card or
      name one that is not runnable. */
  lemma {:induction false} AnnouncedExactly(ts: seq<Card>, i: nat, us: seq<Card>)
    requires ValidIds(ts) && i < |ts| && Resolves(ts, i, us)
    ensures ValidIds(us)
    ensures Announced(us, ts[i].id)
      == if Open(ts, ts[i].id) then RunnableIds(us) - RunnableIds(ts) else AlreadyFree(ts, ts[i].id)
    ensures !Open(ts, ts[i].id) ==> RunnableIds(us) <= RunnableIds(ts)
    ensures RunnableIds(us) - RunnableIds(ts) <= Announced(us, ts[i].id) <= RunnableIds(us)
  {
    ResolvesCloses(ts, i, us, "");
    forall z | z in RunnableIds(us) || z in RunnableIds(ts)
      ensures !Open(ts, ts[i].id) ==> (z in Announced(us, ts[i].id) <==> z in AlreadyFree(ts, ts[i].id))
      ensures Open(ts, ts[i].id) ==> (z in Announced(us, ts[i].id) <==> z in RunnableIds(us) - RunnableIds(ts))
      ensures !Open(ts, ts[i].id) ==> z !in RunnableIds(us) - RunnableIds(ts)
    {
      var k := IdsHaveRows(ts, i, us, z);
      AnnouncedAt(ts, i, us, k);
    }
  }

  /** Main result. The announcement is exactly the set of cards that became runnable if
      and only if, before the call, the card was open, or no other card that waits for
      it was runnable. Otherwise the card was already resolved (`goal`) or had no
      status, and the cards announced as freed were free all along. */
  lemma {:induction false} AnnouncementExactIff(ts: seq<Card>, i: nat, us: seq<Card>)
    requires ValidIds(ts) && i < |ts| && Resolves(ts, i, us)
    ensures Announced(us, ts[i].id) == RunnableIds(us) - RunnableIds(ts)
       <==> Open(ts, ts[i].id) || DirectDependents(ts, ts[i].id) * RunnableIds(ts) <= {ts[i].id}
  {
    AnnouncedExactly(ts, i, us);
    if !Open(ts, ts[i].id) {
      assert RunnableIds(us) - RunnableIds(ts) == {};
    }
  }

  /** A concrete over-report: completing a `goal` announces a card that was
      already runnable. */
  lemma {:induction false} GoalOverReports() returns (ts: seq<Card>, us: seq<Card>)
    ensures ValidIds(ts) && |ts| == 2 && ts[0].status == Some("goal") && Resolves(ts, 0, us)
    ensures ts[1].id in RunnableIds(ts) && ts[1].id in Announced(us, ts[0].id)
  {
    var blank := Card("g", Some("goal"), "", "", "", "", "", "", [], [], [], [], [], "", "", "", "", map[]);
    ts := [blank, blank.(id := "w", status := Some("deferred"), dependsOn := ["g"])];
    us := ts[0 := blank.(status := Some("done"))];
    StatusAt(ts, 0);
    assert !BlocksInto(ts, "g", "w");
    forall z | WaitsFor(ts, ts[1], z) ensures !Open(ts, z) {
      assert z == "g";
    }
    RunnableIdAt(ts, 1);
    RunnableAfterResolve(ts, 0, us, 1);
    ResolvesCloses(ts, 0, us, "g");
    RunnableIdAt(us, 1);
    DependentsWait(us, 0, 1);
    assert us[1] == ts[1];
  }
}
