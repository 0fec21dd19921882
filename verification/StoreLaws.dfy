/** What the mirror guarantees: it refines the full rebuild, it never forgets a
    card, and writing an export back changes nothing. */
module StoreLaws {
  import opened Common
  import opened Cards
  import opened StoreTables
  import opened StoreMirror

  // --- agreement of the tables --------------------------------------------

  /** One card's rows are exactly what its stored content calls for. */
  ghost predicate RowsAgreeAt(db: Db, id: string)
  {
    RowsOf(db, id) == if id in db.tasks then Derive(db.tasks[id].card) else NO_ROWS
  }

  ghost predicate RowsAgree(db: Db)
  {
    KeyedByOwnId(db.tasks) && forall id :: RowsAgreeAt(db, id)
  }

  /** A recorded card hash is the hash of the stored card. */
  ghost predicate HashesSound(db: Db)
  {
    forall id :: id in db.hashes && db.hashes[id].CardHash? ==> StoresCard(db.tasks, id, db.hashes[id].card)
  }

  ghost predicate StoresExactly(tasks: map<string, Payload>, p: Payload)
  {
    p.card.id in tasks && tasks[p.card.id] == p
  }

  ghost predicate StoresCard(tasks: map<string, Payload>, id: string, c: Card)
  {
    id in tasks && tasks[id].card == c
  }

  /** Every stored card has its hash recorded, unless its id is a section key. */
  ghost predicate HashesComplete(db: Db)
  {
    forall id :: id in db.tasks && !Reserved(id) ==> HashIs(db.hashes, id, CardHash(db.tasks[id].card))
  }

  /** A recorded section hash is the hash of the stored section. */
  ghost predicate SectionsSound(db: Db)
  {
    && (forall s :: HashIs(db.hashes, USERS_KEY, SectionHash(s)) ==> db.users == s)
    && (forall s :: HashIs(db.hashes, INBOXES_KEY, SectionHash(s)) ==> db.notifications == s)
  }

  /** Both section hashes are on record, as every write leaves them. */
  ghost predicate SectionsRecorded(hashes: map<string, Hash>)
  {
    && USERS_KEY in hashes && hashes[USERS_KEY].SectionHash?
    && INBOXES_KEY in hashes && hashes[INBOXES_KEY].SectionHash?
  }

  lemma {:induction false} EveryWriteRecordsSections(before: Db, doc: Doc, gone: set<string>, after: Db)
    requires Mirrored(before, doc, gone, after)
    ensures SectionsRecorded(after.hashes) && after.hashes != map[]
  {
    assert USERS_KEY != INBOXES_KEY;
  }

  ghost predicate Agrees(db: Db)
  {
    RowsAgree(db) && HashesSound(db) && SectionsSound(db)
  }

  /** Two databases hold the same card and derived rows, apart from key layout. */
  ghost predicate SameAt(a: Db, b: Db, id: string)
  {
    && (id in a.tasks <==> id in b.tasks)
    && (id in a.tasks && id in b.tasks ==> a.tasks[id].card == b.tasks[id].card)
    && RowsOf(a, id) == RowsOf(b, id)
  }

  ghost predicate SameCards(a: Db, b: Db)
  {
    forall id :: SameAt(a, b, id)
  }

  // --- the incremental write in terms of content ---------------------------

  /** Content after an incremental write: the document's cards over the stored
      ones, minus the named removals. Unchanged cards keep their stored layout. */
  lemma {:induction false} UpdatedContent(before: Db, doc: Doc, gone: set<string>, after: Db, id: string)
    requires ValidDoc(doc) && HashesSound(before) && Updated(before, doc, gone, after)
    ensures id in after.tasks <==> (id in before.tasks || id in DocCards(doc)) && id !in gone
    ensures id in after.tasks ==>
      after.tasks[id].card == if id in DocCards(doc) then DocCards(doc)[id].card else before.tasks[id].card
    ensures id in after.tasks && id !in DocCards(doc) ==> after.tasks[id] == before.tasks[id]
  {
    if id in DocCards(doc) && id !in ChangedCards(before.hashes, doc) {
      assert before.hashes[id].CardHash?;
      assert StoresCard(before.tasks, id, before.hashes[id].card);
    }
  }

  /** Before the removals, every card's rows are those of its new content. */
  ghost function Target(before: Db, doc: Doc, id: string): Rows
  {
    if id in DocCards(doc) then Derive(DocCards(doc)[id].card)
    else if id in before.tasks then Derive(before.tasks[id].card)
    else NO_ROWS
  }

  lemma {:induction false} UpdatedRows(before: Db, doc: Doc, gone: set<string>, after: Db, id: string)
    requires ValidDoc(doc) && RowsAgree(before) && HashesSound(before) && Updated(before, doc, gone, after)
    ensures RowsOf(after, id) == if id in gone then NO_ROWS else WithoutTargets(Target(before, doc, id), gone)
  {
    var w := ChangedCards(before.hashes, doc);
    if id in DocCards(doc) && id !in w {
      assert before.hashes[id].CardHash?;
      assert StoresCard(before.tasks, id, before.hashes[id].card);
    }
    assert RowsAgreeAt(before, id);
  }

  /** What a write asks to keep points at nothing it asks to remove: neither a card of
      the document nor a stored card the document does not mention. */
  ghost predicate Scrubbed(before: Db, doc: Doc, gone: set<string>)
  {
    forall id :: id !in gone ==> ScrubbedAt(before, doc, gone, id)
  }

  ghost predicate ScrubbedAt(before: Db, doc: Doc, gone: set<string>, id: string)
  {
    && (id in DocCards(doc) ==> PointsAway(DocCards(doc)[id].card, gone))
    && (id !in DocCards(doc) && id in before.tasks ==> PointsAway(before.tasks[id].card, gone))
  }

  ghost predicate PointsAway(c: Card, gone: set<string>)
  {
    forall e :: e in EdgesOf(c) ==> e.dst !in gone
  }

  lemma {:induction false} WithoutTargetsIff(c: Card, gone: set<string>)
    ensures WithoutTargets(Derive(c), gone) == Derive(c) <==> PointsAway(c, gone)
  {
    if PointsAway(c, gone) {
      assert WithoutTargets(Derive(c), gone).edges == EdgesOf(c);
    } else {
      var e :| e in EdgesOf(c) && e.dst in gone;
      assert e !in WithoutTargets(Derive(c), gone).edges;
    }
  }

  /** A card the write accounts for: a stored card is in the document or removed
      by name, and a card of the document is not removed and points at nothing
      removed. */
  ghost predicate CleanAt(before: Db, doc: Doc, gone: set<string>, id: string)
  {
    && (id in before.tasks ==> id in DocCards(doc) || id in gone)
    && (id in DocCards(doc) ==> id !in gone && PointsAway(DocCards(doc)[id].card, gone))
  }

  lemma {:induction false} SameAtIffClean(before: Db, doc: Doc, gone: set<string>, after: Db, full: Db, id: string)
    requires ValidDoc(doc) && Agrees(before) && Updated(before, doc, gone, after) && Rebuilt(doc, full)
    ensures SameAt(after, full, id) <==> CleanAt(before, doc, gone, id)
  {
    UpdatedContent(before, doc, gone, after, id);
    UpdatedRows(before, doc, gone, after, id);
    if id in DocCards(doc) {
      WithoutTargetsIff(DocCards(doc)[id].card, gone);
    } else {
      NothingToTarget(gone);
    }
  }

  lemma {:induction false} NothingToTarget(gone: set<string>)
    ensures WithoutTargets(NO_ROWS, gone) == NO_ROWS
  {
    assert WithoutTargets(NO_ROWS, gone).edges == {};
  }

  /** Main result. From tables that agree, the incremental write leaves exactly the
      cards, comments, edges and roles the full rebuild would, if and only if it
      accounts for every card. */
  lemma {:induction false} IncrementalIsRebuildIff(before: Db, doc: Doc, gone: set<string>, after: Db, full: Db)
    requires ValidDoc(doc) && Agrees(before) && Updated(before, doc, gone, after) && Rebuilt(doc, full)
    ensures SameCards(after, full) <==> forall id :: CleanAt(before, doc, gone, id)
  {
    forall id ensures SameAt(after, full, id) <==> CleanAt(before, doc, gone, id) {
      SameAtIffClean(before, doc, gone, after, full, id);
    }
  }

  lemma {:induction false} UpdatedAgreesAt(before: Db, doc: Doc, gone: set<string>, after: Db, id: string)
    requires ValidDoc(doc) && Agrees(before) && Updated(before, doc, gone, after)
    ensures id in after.tasks ==> after.tasks[id].card.id == id && id != ""
    ensures RowsAgreeAt(after, id) <==> (id in after.tasks ==> PointsAway(after.tasks[id].card, gone))
  {
    LastByIdKeyed(doc.tasks);
    UpdatedContent(before, doc, gone, after, id);
    UpdatedRows(before, doc, gone, after, id);
    if id in after.tasks {
      WithoutTargetsIff(after.tasks[id].card, gone);
    } else {
      NothingToTarget(gone);
    }
  }

  /** Main result. An incremental write re-establishes full agreement if and only
      if nothing it asks to keep points at an id it asks to remove; the hashes are
      right always. */
  lemma {:induction false} UpdateKeepsAgreementIff(before: Db, doc: Doc, gone: set<string>, after: Db)
    requires ValidDoc(doc) && Agrees(before) && Updated(before, doc, gone, after)
    ensures HashesSound(after) && SectionsSound(after)
    ensures after.users == doc.users && after.notifications == doc.inboxes
    ensures HashesComplete(before) ==> HashesComplete(after)
    ensures RowsAgree(after) <==> Scrubbed(before, doc, gone)
  {
    UpdatedSections(before, doc, gone, after);
    UpdatedHashes(before, doc, gone, after);
    forall id
      ensures id in after.tasks ==> after.tasks[id].card.id == id && id != ""
      ensures RowsAgreeAt(after, id) <==> (id !in gone ==> ScrubbedAt(before, doc, gone, id))
    {
      UpdatedAgreesAt(before, doc, gone, after, id);
      UpdatedContent(before, doc, gone, after, id);
    }
  }

  lemma {:induction false} UpdatedSections(before: Db, doc: Doc, gone: set<string>, after: Db)
    requires Agrees(before) && Updated(before, doc, gone, after)
    ensures SectionsSound(after) && after.users == doc.users && after.notifications == doc.inboxes
  {
    var hashes := (before.hashes + HashesOf(ChangedCards(before.hashes, doc))) - gone;
    forall key, s | HashIs(hashes, key, SectionHash(s)) ensures HashIs(before.hashes, key, SectionHash(s)) {}
  }

  lemma {:induction false} UpdatedHashes(before: Db, doc: Doc, gone: set<string>, after: Db)
    requires ValidDoc(doc) && Agrees(before) && Updated(before, doc, gone, after)
    ensures HashesSound(after) && (HashesComplete(before) ==> HashesComplete(after))
  {
    var w := ChangedCards(before.hashes, doc);
    forall id
      ensures id in after.hashes && after.hashes[id].CardHash? ==> StoresCard(after.tasks, id, after.hashes[id].card)
      ensures HashesComplete(before) && id in after.tasks && !Reserved(id)
        ==> HashIs(after.hashes, id, CardHash(after.tasks[id].card))
    {
      UpdatedContent(before, doc, gone, after, id);
      if id in before.hashes && before.hashes[id].CardHash? {
        assert StoresCard(before.tasks, id, before.hashes[id].card);
      }
    }
  }

  /** The full rebuild always ends in agreement. */
  lemma {:induction false} RebuildAgrees(doc: Doc, full: Db)
    requires ValidDoc(doc) && Rebuilt(doc, full)
    ensures Agrees(full) && HashesComplete(full)
  {
    LastByIdKeyed(doc.tasks);
    forall id ensures RowsAgreeAt(full, id) {}
    RebuildHashes(doc, full);
  }

  lemma {:induction false} RebuildHashes(doc: Doc, full: Db)
    requires full.tasks == DocCards(doc) && full.hashes == WithSections(HashesOf(DocCards(doc)), doc)
    requires full.users == doc.users && full.notifications == doc.inboxes
    ensures HashesSound(full) && HashesComplete(full) && SectionsSound(full)
  {
    assert USERS_KEY != INBOXES_KEY;
  }

  // --- export -------------------------------------------------------------

  /** The exported card list names every stored card exactly once; its order is
      not specified, because incremental writes do not maintain it. */
  ghost predicate Exports(db: Db, out: Doc)
  {
    && (forall i :: 0 <= i < |out.tasks| ==> StoresExactly(db.tasks, out.tasks[i]))
    && (forall id :: id in db.tasks ==> Listed(out.tasks, id))
    && (forall i, j :: 0 <= i < j < |out.tasks| ==> out.tasks[i].card.id != out.tasks[j].card.id)
    && out.users == db.users && out.inboxes == db.notifications
  }

  ghost predicate Listed(cards: seq<Payload>, id: string)
  {
    exists i :: 0 <= i < |cards| && cards[i].card.id == id
  }

  lemma {:induction false} ListedSnoc(cards: seq<Payload>, p: Payload)
    ensures forall id :: Listed(cards + [p], id) <==> Listed(cards, id) || id == p.card.id
  {
    forall id ensures Listed(cards + [p], id) <==> Listed(cards, id) || id == p.card.id {
      if i :| 0 <= i < |cards| && cards[i].card.id == id {
        assert (cards + [p])[i].card.id == id;
      }
      assert (cards + [p])[|cards|] == p;
    }
  }

  /** Reads every row of one snapshot. The count check against the table passes. */
  method ExportDoc(db: CardTables) returns (doc: Doc, inTable: nat)
    requires KeyedByOwnId(db.tasks)
    ensures Exports(db.State(), doc) && |doc.tasks| == inTable == |db.tasks|
  {
    var todo := db.tasks.Keys;
    var out: seq<Payload> := [];
    while todo != {}
      invariant todo <= db.tasks.Keys && |out| + |todo| == |db.tasks|
      invariant forall i :: 0 <= i < |out| ==> StoresExactly(db.tasks, out[i]) && out[i].card.id !in todo
      invariant forall id :: id in db.tasks.Keys - todo ==> Listed(out, id)
      invariant forall i, j :: 0 <= i < j < |out| ==> out[i].card.id != out[j].card.id
      decreases todo
    {
      var id :| id in todo;
      ListedSnoc(out, db.tasks[id]);
      out := out + [db.tasks[id]];
      todo := todo - {id};
    }
    doc, inTable := Doc(out, db.users, db.notifications), |db.tasks|;
  }

  lemma {:induction false} ExportIsTheStore(db: Db, out: Doc)
    requires KeyedByOwnId(db.tasks) && Exports(db, out)
    ensures ValidDoc(out) && DocCards(out) == db.tasks
  {
    forall i | 0 <= i < |out.tasks| ensures out.tasks[i].card.id != "" {
      assert StoresExactly(db.tasks, out.tasks[i]);
    }
    LastByIdKeyed(out.tasks);
    forall id | id in db.tasks || id in DocCards(out)
      ensures id in db.tasks && id in DocCards(out) && DocCards(out)[id] == db.tasks[id]
    {
      assert Listed(out.tasks, id);
      var i: nat :| i < |out.tasks| && out.tasks[i].card.id == id;
      assert StoresExactly(db.tasks, out.tasks[i]);
      LastByIdAt(out.tasks, i);
    }
  }

  /** Main result. Writing an export back unmodified leaves cards, comments, edges,
      roles and sections as they were, and rewrites exactly the cards whose id is a
      section key: it reports zero changed if and only if there is no such card. */
  lemma {:induction false} WriteBackChangesNothing(db: Db, out: Doc, after: Db)
    requires Agrees(db) && HashesComplete(db) && SectionsRecorded(db.hashes)
    requires Exports(db, out) && Mirrored(db, out, {}, after)
    ensures SameCards(db, after) && after.tasks == db.tasks
    ensures after.users == db.users && after.notifications == db.notifications
    ensures |ChangedCards(db.hashes, out)| == 0
       <==> forall id :: id in db.tasks ==> !Reserved(id)
    ensures forall s :: Counts(db, out, [], s) ==> !s.full && s.removed == 0 && s.changed + s.kept == |db.tasks|
  {
    ExportIsTheStore(db, out);
    ExportedOnce(db, out);
    UpdatedSections(db, out, {}, after);
    WriteBackTouches(db, out);
    WriteBackKeepsTasks(db, out, after);
    WriteBackSame(db, out, after);
  }

  lemma {:induction false} ExportedOnce(db: Db, out: Doc)
    requires KeyedByOwnId(db.tasks) && Exports(db, out)
    ensures |out.tasks| == |db.tasks|
  {
    var ids := seq(|out.tasks|, i requires 0 <= i < |out.tasks| => out.tasks[i].card.id);
    forall id ensures id in ids <==> id in db.tasks {
      if i :| 0 <= i < |ids| && ids[i] == id {
        assert StoresExactly(db.tasks, out.tasks[i]);
      }
      if id in db.tasks {
        assert Listed(out.tasks, id);
        var i: nat :| i < |out.tasks| && out.tasks[i].card.id == id;
        assert ids[i] == id;
      }
    }
    DistinctCount(ids);
    assert Elements(ids) == db.tasks.Keys;
  }

  /** Every recorded hash but the two sections' is a card's. */
  ghost predicate OnlyCardsHashed(db: Db)
  {
    forall id :: id in db.hashes && !Reserved(id) ==> db.hashes[id].CardHash?
  }

  predicate NoneReserved(ids: set<string>)
  {
    "__section__:users" !in ids && "__section__:inboxes" !in ids
  }

  function StoredIn(tasks: map<string, Payload>): string -> bool
  {
    (id: string) => id in tasks
  }

  /** The reported counts in terms of content: changed are the document's cards that are
      not stored or are stored with other content, removed the named ids that are
      stored. */
  lemma {:induction false} CountsAreContent(before: Db, doc: Doc, deletedIds: seq<string>, s: Summary)
    requires HashesSound(before) && HashesComplete(before) && OnlyCardsHashed(before) && before.hashes != map[]
    requires NoneReserved(DocCards(doc).Keys) && NoneReserved(Elements(deletedIds))
    requires Counts(before, doc, deletedIds, s)
    ensures s.changed
         == |set id | id in DocCards(doc) && !(id in before.tasks && before.tasks[id].card == DocCards(doc)[id].card)|
    ensures s.removed == |Filter(deletedIds, StoredIn(before.tasks))|
  {
    var moved := set id | id in DocCards(doc)
                          && !(id in before.tasks && before.tasks[id].card == DocCards(doc)[id].card);
    forall id | id in DocCards(doc) ensures id in ChangedCards(before.hashes, doc) <==> id in moved {
      KnownIsStored(before, id);
    }
    assert ChangedCards(before.hashes, doc).Keys == moved;
    forall id | id in deletedIds ensures KnownIn(before.hashes)(id) == StoredIn(before.tasks)(id) {
      assert id in Elements(deletedIds);
      KnownIsStored(before, id);
    }
    FilterSame(deletedIds, KnownIn(before.hashes), StoredIn(before.tasks));
  }

  lemma {:induction false} KnownIsStored(db: Db, id: string)
    requires HashesSound(db) && HashesComplete(db) && OnlyCardsHashed(db) && !Reserved(id)
    ensures id in db.hashes <==> id in db.tasks
    ensures id in db.hashes ==> db.hashes[id] == CardHash(db.tasks[id].card)
  {
    if id in db.hashes {
      assert StoresCard(db.tasks, id, db.hashes[id].card);
    }
  }

  lemma {:induction false} WriteBackKeepsTasks(db: Db, out: Doc, after: Db)
    requires db.tasks + ChangedCards(db.hashes, out) == db.tasks && Updated(db, out, {}, after)
    ensures after.tasks == db.tasks
  {
  }

  lemma {:induction false} WriteBackSame(db: Db, out: Doc, after: Db)
    requires Agrees(db) && ValidDoc(out) && DocCards(out) == db.tasks && Updated(db, out, {}, after)
    ensures SameCards(db, after)
  {
    forall id ensures SameAt(db, after, id) {
      WriteBackAt(db, out, after, id);
    }
  }

  const RESERVED_CARD :=
    Card(USERS_KEY, Some("deferred"), "", "", "", "", "", "", [], [], [], [], [], "", "", "", "", map[])
  const RESERVED_DOC := Doc([Payload(RESERVED_CARD, 0)], [], [])
  const RESERVED_CARDS := map[USERS_KEY := Payload(RESERVED_CARD, 0)]
  const RESERVED_DB :=
    Db(RESERVED_CARDS, [], {}, {}, WithSections(HashesOf(RESERVED_CARDS), RESERVED_DOC), [], [])

  lemma {:induction false} ReservedDocCards()
    ensures DocCards(RESERVED_DOC) == RESERVED_CARDS
  {
    var tasks := RESERVED_DOC.tasks;
    assert tasks[..0] == [] && LastById(tasks[..0]) == map[];
    assert RESERVED_CARD.id == USERS_KEY;
  }

  lemma {:induction false} ReservedRebuilt()
    ensures Rebuilt(RESERVED_DOC, RESERVED_DB)
  {
    ReservedDocCards();
    assert CommentRows(RESERVED_CARD) == [];
    assert Derive(RESERVED_CARD) == NO_ROWS;
    forall id ensures RowsOf(RESERVED_DB, id) == NO_ROWS {
    }
  }

  /** The exception is real: a card whose id is a section's key is rewritten by an
      untouched write-back, on tables that agree in every respect. */
  lemma {:induction false} ReservedIdIsRewritten()
    ensures Agrees(RESERVED_DB) && HashesComplete(RESERVED_DB) && SectionsRecorded(RESERVED_DB.hashes)
    ensures Exports(RESERVED_DB, RESERVED_DOC)
    ensures |ChangedCards(RESERVED_DB.hashes, RESERVED_DOC)| != 0
  {
    ReservedDocCards();
    ReservedRebuilt();
    RebuildAgrees(RESERVED_DOC, RESERVED_DB);
    EveryWriteRecordsSections(RESERVED_DB.(hashes := map[]), RESERVED_DOC, {}, RESERVED_DB);
    assert StoresExactly(RESERVED_DB.tasks, RESERVED_DOC.tasks[0]);
    assert Listed(RESERVED_DOC.tasks, USERS_KEY);
    WriteBackTouches(RESERVED_DB, RESERVED_DOC);
    assert Reserved(USERS_KEY) && USERS_KEY in RESERVED_DB.tasks;
  }

  /** The only cards a write-back rewrites are those with a section's key as id. */
  lemma {:induction false} WriteBackTouches(db: Db, out: Doc)
    requires HashesComplete(db) && SectionsRecorded(db.hashes) && DocCards(out) == db.tasks
    ensures db.tasks + ChangedCards(db.hashes, out) == db.tasks
    ensures |ChangedCards(db.hashes, out)| == 0 <==> forall id :: id in db.tasks ==> !Reserved(id)
  {
    var w := ChangedCards(db.hashes, out);
    if w != map[] {
      var id :| id in w;
      assert Reserved(id);
      assert w.Keys != {} && |w.Keys| == |w|;
    }
    forall id | id in db.tasks && Reserved(id) ensures id in w {}
  }

  lemma {:induction false} WriteBackAt(db: Db, out: Doc, after: Db, id: string)
    requires Agrees(db) && ValidDoc(out) && DocCards(out) == db.tasks && Updated(db, out, {}, after)
    ensures SameAt(db, after, id)
  {
    UpdatedContent(db, out, {}, after, id);
    UpdatedRows(db, out, {}, after, id);
    assert RowsAgreeAt(db, id);
    if id in db.tasks {
      assert PointsAway(db.tasks[id].card, {});
      WithoutTargetsIff(db.tasks[id].card, {});
    } else {
      NothingToTarget({});
    }
  }

  /** Main result. After a write that goes through, the store returns every card of
      the document that was not removed by name with its written content, and,
      unless the write allowed shrinking, every other stored card unchanged. */
  lemma {:induction false} WriteThenRead(before: Db, doc: Doc, deletedIds: seq<string>, allowShrink: bool, after: Db,
                                         id: string)
    requires ValidDoc(doc) && HashesSound(before)
    requires NoShrink(before.tasks.Keys, doc, deletedIds, allowShrink)
    requires Mirrored(before, doc, Elements(deletedIds), after)
    ensures id in DocCards(doc) && id !in deletedIds ==> StoresCard(after.tasks, id, DocCards(doc)[id].card)
    ensures !allowShrink && id in before.tasks && id !in DocCards(doc) && id !in deletedIds
      ==> id in after.tasks && after.tasks[id] == before.tasks[id]
  {
    if before.hashes != map[] {
      UpdatedContent(before, doc, Elements(deletedIds), after, id);
    } else {
      assert allowShrink || id !in before.tasks.Keys - DocCards(doc).Keys - Elements(deletedIds);
    }
  }
}
