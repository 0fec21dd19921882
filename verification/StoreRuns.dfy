/** Interleaved writers: no stored card disappears unless a write names it. */
module StoreRuns {
  import opened Common
  import opened StoreTables
  import opened StoreMirror
  import opened StoreLaws

  /** A write as its caller asked for it; the document may be arbitrarily stale. */
  datatype Request = Request(doc: Doc, deletedIds: seq<string>, allowShrink: bool)

  /** The database, and the writers that passed the shrink check but have not yet
      mirrored. */
  datatype System = System(db: Db, checked: map<nat, Request>)

  /** The check and the mirror of one write are separate steps; a mirror that fails
      is rolled back. */
  datatype Event = Check(writer: nat, req: Request) | Mirror(writer: nat, ok: bool)

  ghost predicate Step(s: System, e: Event, t: System)
  {
    match e
    case Check(w, req) =>
      && ValidDoc(req.doc)
      && t == if w !in s.checked && NoShrink(s.db.tasks.Keys, req.doc, req.deletedIds, req.allowShrink)
              then s.(checked := s.checked[w := req]) else s
    case Mirror(w, ok) =>
      if w !in s.checked then t == s else
      && t.checked == s.checked - {w}
      && if ok then Mirrored(s.db, s.checked[w].doc, Elements(s.checked[w].deletedIds), t.db) else t.db == s.db
  }

  ghost predicate Run(states: seq<System>, events: seq<Event>)
  {
    && |states| == |events| + 1
    && forall k :: 0 <= k < |events| ==> Step(states[k], events[k], states[k + 1])
  }

  /** While the database has no hashes, no mirror has run since the check, so what
      a waiting writer was checked against is still what is stored. */
  ghost predicate CheckedHolds(s: System)
  {
    forall w :: w in s.checked && s.db.hashes == map[] ==>
      var req := s.checked[w];
      NoShrink(s.db.tasks.Keys, req.doc, req.deletedIds, req.allowShrink)
  }

  /** The step commits a write that names `id` for removal or allows shrinking. */
  ghost predicate Licenses(s: System, e: Event, id: string)
  {
    && e.Mirror? && e.ok && e.writer in s.checked
    && (id in s.checked[e.writer].deletedIds || s.checked[e.writer].allowShrink)
  }

  /** One step keeps the invariant, and loses a stored id only with a licence. */
  lemma {:induction false} StepKeepsCards(s: System, e: Event, t: System)
    requires CheckedHolds(s) && Step(s, e, t)
    ensures CheckedHolds(t)
    ensures s.db.hashes != map[] ==> t.db.hashes != map[]
    ensures forall id :: id in s.db.tasks && id !in t.db.tasks ==> Licenses(s, e, id)
  {
    if e.Mirror? && e.ok && e.writer in s.checked {
      var req := s.checked[e.writer];
      EveryWriteRecordsSections(s.db, req.doc, Elements(req.deletedIds), t.db);
      forall id | id in s.db.tasks && id !in t.db.tasks ensures Licenses(s, e, id) {
        if s.db.hashes == map[] && !req.allowShrink {
          assert id !in s.db.tasks.Keys - DocCards(req.doc).Keys - Elements(req.deletedIds);
        }
      }
    }
  }

  lemma {:induction false} InvariantAlong(states: seq<System>, events: seq<Event>, k: nat)
    requires Run(states, events) && CheckedHolds(states[0]) && k <= |events|
    ensures CheckedHolds(states[k])
  {
    if k > 0 {
      InvariantAlong(states, events, k - 1);
      StepKeepsCards(states[k - 1], events[k - 1], states[k]);
    }
  }

  /** Main result. Over every interleaving of writers, whatever documents they
      hold, an id that is stored at one point and missing at a later one was
      removed by a committed write between the two that named it or allowed
      shrinking. */
  lemma {:induction false} NoCardDisappears(states: seq<System>, events: seq<Event>, i: nat, j: nat, id: string)
    requires Run(states, events) && CheckedHolds(states[0]) && i <= j <= |events|
    requires id in states[i].db.tasks && id !in states[j].db.tasks
    ensures exists k :: i <= k < j && Licenses(states[k], events[k], id)
    decreases j - i
  {
    InvariantAlong(states, events, i);
    StepKeepsCards(states[i], events[i], states[i + 1]);
    if id in states[i + 1].db.tasks {
      NoCardDisappears(states, events, i + 1, j, id);
    }
  }

  /** The destructive rebuild happens at most once: after any committed mirror the
      database has hashes for good. */
  lemma {:induction false} RebuildAtMostOnce(states: seq<System>, events: seq<Event>, i: nat, j: nat)
    requires Run(states, events) && CheckedHolds(states[0]) && i < j <= |events|
    requires events[i].Mirror? && events[i].ok && events[i].writer in states[i].checked
    ensures states[j].db.hashes != map[]
    decreases j
  {
    InvariantAlong(states, events, j - 1);
    if i < j - 1 {
      RebuildAtMostOnce(states, events, i, j - 1);
      StepKeepsCards(states[j - 1], events[j - 1], states[j]);
    } else {
      var req := states[i].checked[events[i].writer];
      EveryWriteRecordsSections(states[i].db, req.doc, Elements(req.deletedIds), states[j].db);
    }
  }

  /** The check is what protects a database that has no hashes yet, and no more than
      that: the rebuild keeps every stored id the write did not name if and only if the
      check passes. */
  lemma {:induction false} CheckIsExactOnRebuild(before: Db, doc: Doc, deletedIds: seq<string>, after: Db)
    requires before.hashes == map[] && Mirrored(before, doc, Elements(deletedIds), after)
    ensures NoShrink(before.tasks.Keys, doc, deletedIds, false)
      <==> forall id :: id in before.tasks && id !in deletedIds ==> id in after.tasks
  {
    var missing := before.tasks.Keys - DocCards(doc).Keys - Elements(deletedIds);
    if missing == {} {
      forall id | id in before.tasks && id !in deletedIds ensures id in after.tasks {
        assert id !in missing;
      }
    } else {
      var id :| id in missing;
      assert id in before.tasks && id !in deletedIds && id !in after.tasks;
    }
  }

  // --- agreement along a run ----------------------------------------------

  /** The tables of a database some mirror has committed to are in full agreement. */
  ghost predicate Settled(db: Db)
  {
    db.hashes != map[] ==> Agrees(db) && HashesComplete(db) && SectionsRecorded(db.hashes)
  }

  ghost predicate DocsValid(s: System)
  {
    forall w :: w in s.checked ==> ValidDoc(s.checked[w].doc)
  }

  /** The step commits an ordinary write that keeps a card pointing at an id it removes. */
  ghost predicate LeavesDangling(s: System, e: Event)
  {
    && e.Mirror? && e.ok && e.writer in s.checked && s.db.hashes != map[]
    && !Scrubbed(s.db, s.checked[e.writer].doc, Elements(s.checked[e.writer].deletedIds))
  }

  lemma {:induction false} StepSettlesIff(s: System, e: Event, t: System)
    requires Settled(s.db) && DocsValid(s) && Step(s, e, t)
    ensures DocsValid(t)
    ensures Settled(t.db) <==> !LeavesDangling(s, e)
  {
    if e.Mirror? && e.ok && e.writer in s.checked {
      var req := s.checked[e.writer];
      var gone := Elements(req.deletedIds);
      EveryWriteRecordsSections(s.db, req.doc, gone, t.db);
      if s.db.hashes == map[] {
        RebuildAgrees(req.doc, t.db);
      } else {
        UpdateKeepsAgreementIff(s.db, req.doc, gone, t.db);
      }
    }
  }

  /** In full agreement at every point up to the n-th. */
  ghost predicate SettledUpTo(states: seq<System>, n: nat)
    requires n < |states|
  {
    if n == 0 then Settled(states[0].db) else SettledUpTo(states, n - 1) && Settled(states[n].db)
  }

  /** No event before the n-th leaves a dangling link. */
  ghost predicate NoneDangles(states: seq<System>, events: seq<Event>, n: nat)
    requires n <= |events| < |states|
  {
    n > 0 ==> NoneDangles(states, events, n - 1) && !LeavesDangling(states[n - 1], events[n - 1])
  }

  /** Main result. Along every interleaving of writers, up to any point, the tables have
      been in full agreement since the first committed mirror if and only if no committed
      write left a link to an id it removed. */
  lemma {:induction false} SettledIff(states: seq<System>, events: seq<Event>, n: nat)
    requires Run(states, events) && n <= |events| && Settled(states[0].db) && DocsValid(states[0])
    ensures SettledUpTo(states, n) <==> NoneDangles(states, events, n)
  {
    if n > 0 {
      SettledIff(states, events, n - 1);
      if SettledUpTo(states, n - 1) {
        DocsStayValid(states, events, n - 1);
        StepSettlesIff(states[n - 1], events[n - 1], states[n]);
      }
    }
  }

  lemma {:induction false} DocsStayValid(states: seq<System>, events: seq<Event>, n: nat)
    requires Run(states, events) && n <= |events| && DocsValid(states[0])
    ensures DocsValid(states[n])
  {
    if n > 0 {
      DocsStayValid(states, events, n - 1);
      assert Step(states[n - 1], events[n - 1], states[n]);
    }
  }

  /** So at any such point an export written back unmodified changes nothing. */
  lemma {:induction false} WriteBackAlong(states: seq<System>, events: seq<Event>, n: nat, out: Doc, after: Db)
    requires Run(states, events) && n <= |events| && Settled(states[0].db) && DocsValid(states[0])
    requires NoneDangles(states, events, n)
    requires states[n].db.hashes != map[] && Exports(states[n].db, out) && Mirrored(states[n].db, out, {}, after)
    ensures SameCards(states[n].db, after) && after.tasks == states[n].db.tasks
    ensures |ChangedCards(states[n].db.hashes, out)| == 0 <==> forall id :: id in states[n].db.tasks ==> !Reserved(id)
  {
    SettledIff(states, events, n);
    WriteBackChangesNothing(states[n].db, out, after);
  }

  /** A write nobody interrupts is the write call: it commits when shrinking is allowed or
      every stored id is mentioned in the document or named, and changes nothing
      otherwise. */
  lemma {:induction false} QuietWrite(s: System, t: System, u: System, w: nat, req: Request)
    requires w !in s.checked && Step(s, Check(w, req), t) && Step(t, Mirror(w, true), u)
    ensures
      var licensed :=
        req.allowShrink || forall id :: id in s.db.tasks ==> Mentions(req.doc, id) || id in req.deletedIds;
      if licensed then Mirrored(s.db, req.doc, Elements(req.deletedIds), u.db) && u.checked == s.checked else u == s
  {
    NoShrinkMeans(s.db.tasks.Keys, req.doc, req.deletedIds, req.allowShrink);
  }
}
