/** Writing a whole document to the tables: the full rebuild, the incremental
    mirror that touches only changed cards, and the shrink guard in front. */
module StoreMirror {
  import opened Common
  import opened Cards
  import opened StoreTables

  datatype Summary = Summary(changed: nat, removed: nat, kept: int, full: bool)

  /** What the validator in front of every save guarantees. Duplicate ids would be
      refused there too; the mirror below does not rely on it. */
  ghost predicate ValidDoc(doc: Doc)
  {
    forall i :: 0 <= i < |doc.tasks| ==> doc.tasks[i].card.id != ""
  }

  function DocCards(doc: Doc): map<string, Payload>
  {
    LastById(doc.tasks)
  }

  function HashesOf(cards: map<string, Payload>): map<string, Hash>
  {
    map id | id in cards :: CardHash(cards[id].card)
  }

  predicate HashIs(hashes: map<string, Hash>, key: string, h: Hash)
  {
    key in hashes && hashes[key] == h
  }

  /** The document's cards whose recorded hash is missing or different. */
  function ChangedCards(prior: map<string, Hash>, doc: Doc): map<string, Payload>
  {
    map id | id in DocCards(doc) && !HashIs(prior, id, CardHash(DocCards(doc)[id].card)) :: DocCards(doc)[id]
  }

  function WithSections(hashes: map<string, Hash>, doc: Doc): map<string, Hash>
  {
    hashes[USERS_KEY := SectionHash(doc.users)][INBOXES_KEY := SectionHash(doc.inboxes)]
  }

  // --- the meaning of the two write paths ---------------------------------

  /** The tables hold exactly the document's cards and what they derive. */
  ghost predicate Rebuilt(doc: Doc, after: Db)
  {
    && after.tasks == DocCards(doc)
    && (forall id :: RowsOf(after, id) == if id in DocCards(doc) then Derive(DocCards(doc)[id].card) else NO_ROWS)
    && after.hashes == WithSections(HashesOf(DocCards(doc)), doc)
    && after.users == doc.users && after.notifications == doc.inboxes
  }

  /** The changed cards replaced, the named cards removed, nothing else moved. */
  ghost predicate Updated(before: Db, doc: Doc, gone: set<string>, after: Db)
  {
    var w := ChangedCards(before.hashes, doc);
    var hashes := (before.hashes + HashesOf(w)) - gone;
    && after.tasks == (before.tasks + w) - gone
    && (forall id :: RowsOf(after, id) == if id in gone then NO_ROWS else
          WithoutTargets(if id in w then Derive(w[id].card) else RowsOf(before, id), gone))
    && after.hashes == WithSections(hashes, doc)
    && after.users == (if HashIs(hashes, USERS_KEY, SectionHash(doc.users)) then before.users else doc.users)
    && after.notifications
       == (if HashIs(hashes, INBOXES_KEY, SectionHash(doc.inboxes)) then before.notifications else doc.inboxes)
  }

  ghost predicate Mirrored(before: Db, doc: Doc, gone: set<string>, after: Db)
  {
    if before.hashes == map[] then Rebuilt(doc, after) else Updated(before, doc, gone, after)
  }

  /** What the mirror reports: everything rewritten by a rebuild; otherwise how many of
      the document's entries were written or not, and how many of the named ids were on
      record. */
  ghost predicate Counts(before: Db, doc: Doc, deletedIds: seq<string>, s: Summary)
  {
    if before.hashes == map[] then s == Summary(|doc.tasks|, 0, 0, true)
    else
      && !s.full && s.changed + s.kept == |doc.tasks|
      && s.changed == |ChangedCards(before.hashes, doc)|
      && s.removed == |Filter(deletedIds, KnownIn(before.hashes))|
  }

  // --- the full rebuild ---------------------------------------------------

  ghost predicate LastAt(tasks: seq<Payload>, k: nat)
    requires k < |tasks|
  {
    forall j :: k < j < |tasks| ==> tasks[j].card.id != tasks[k].card.id
  }

  /** The cards with duplicate ids collapsed: one entry per id, the last
      occurrence, in document order. */
  ghost predicate Deduped(tasks: seq<Payload>, winners: seq<nat>)
  {
    && (forall a :: 0 <= a < |winners| ==> winners[a] < |tasks|)
    && (forall a, b :: 0 <= a < b < |winners| ==> winners[a] < winners[b])
    && (forall k: nat :: k in winners <==> k < |tasks| && LastAt(tasks, k))
  }

  method DedupeLastWins(tasks: seq<Payload>) returns (winners: seq<nat>)
    ensures Deduped(tasks, winners)
  {
    var lastAt: map<string, nat> := map[];
    for i := 0 to |tasks|
      invariant forall id :: id in lastAt <==> exists k :: 0 <= k < i && tasks[k].card.id == id
      invariant forall id :: id in lastAt ==> lastAt[id] < i && tasks[lastAt[id]].card.id == id
      invariant forall id :: id in lastAt ==> forall k :: lastAt[id] < k < i ==> tasks[k].card.id != id
    {
      lastAt := lastAt[tasks[i].card.id := i];
    }
    winners := [];
    for i := 0 to |tasks|
      invariant forall k: nat :: k in winners <==> k < i && LastAt(tasks, k)
      invariant forall a :: 0 <= a < |winners| ==> winners[a] < i
      invariant forall a, b :: 0 <= a < b < |winners| ==> winners[a] < winners[b]
    {
      assert tasks[i].card.id in lastAt;
      if lastAt[tasks[i].card.id] == i {
        winners := winners + [i];
      }
    }
  }

  lemma {:induction false} LastByIdAt(tasks: seq<Payload>, k: nat)
    requires k < |tasks| && LastAt(tasks, k)
    ensures tasks[k].card.id in LastById(tasks) && LastById(tasks)[tasks[k].card.id] == tasks[k]
    decreases |tasks|
  {
    var n := |tasks| - 1;
    if k < n {
      assert tasks[..n][k] == tasks[k];
      assert forall j :: k < j < n ==> tasks[..n][j] == tasks[j];
      LastByIdAt(tasks[..n], k);
      assert tasks[n].card.id != tasks[k].card.id;
    }
  }

  lemma {:induction false} LastOccurrence(tasks: seq<Payload>, i: nat) returns (k: nat)
    requires i < |tasks|
    ensures i <= k < |tasks| && tasks[k].card.id == tasks[i].card.id && LastAt(tasks, k)
    decreases |tasks| - i
  {
    k := i;
    if j: nat :| i < j < |tasks| && tasks[j].card.id == tasks[i].card.id {
      k := LastOccurrence(tasks, j);
    }
  }

  function Pick(tasks: seq<Payload>, at: seq<nat>): seq<Payload>
    requires forall a :: 0 <= a < |at| ==> at[a] < |tasks|
  {
    seq(|at|, a requires 0 <= a < |at| => tasks[at[a]])
  }

  /** Collapsing duplicates loses nothing: the winners are the document map, and
      no two of them share an id. */
  lemma {:induction false} WinnersAreTheDocument(tasks: seq<Payload>, winners: seq<nat>)
    requires forall i :: 0 <= i < |tasks| ==> tasks[i].card.id != ""
    requires Deduped(tasks, winners)
    ensures LastById(Pick(tasks, winners)) == LastById(tasks)
    ensures forall a, b :: 0 <= a < b < |winners| ==> Pick(tasks, winners)[a].card.id != Pick(tasks, winners)[b].card.id
  {
    var cards := Pick(tasks, winners);
    forall a, b | 0 <= a < b < |winners| ensures cards[a].card.id != cards[b].card.id {
      assert winners[a] in winners && winners[b] in winners;
    }
    LastByIdKeyed(tasks);
    LastByIdKeyed(cards);
    forall id | id in LastById(cards) ensures id in LastById(tasks) {
      var a :| 0 <= a < |cards| && cards[a].card.id == id;
      assert tasks[winners[a]].card.id == id;
    }
    forall id | id in LastById(tasks) ensures id in LastById(cards) && LastById(cards)[id] == LastById(tasks)[id] {
      var i: nat :| i < |tasks| && tasks[i].card.id == id;
      var k := LastOccurrence(tasks, i);
      LastByIdAt(tasks, k);
      assert k in winners;
      var a: nat :| a < |winners| && winners[a] == k;
      LastByIdAt(cards, a);
    }
  }

  /** A plain INSERT of a card that no row mentions yet. */
  method InsertFresh(db: CardTables, p: Payload, ghost cleared: Db, ghost w: map<string, Payload>)
    requires Rewrites(cleared, w, db.State()) && p.card.id !in w
    requires RowsOf(cleared, p.card.id) == NO_ROWS
    modifies db`tasks, db`comments, db`edges, db`roles
    ensures Rewrites(cleared, w[p.card.id := p], db.State())
  {
    ghost var before := db.State();
    db.InsertTask(p);
    InsertAfterDrop(before, before, p, db.State());
    InsertIsUpdate(before.tasks, p);
    RewritesCompose(cleared, w, before, p.card.id, p, db.State());
  }

  lemma {:induction false} InsertIsUpdate(m: map<string, Payload>, p: Payload)
    ensures m[p.card.id := p] == m + map[p.card.id := p]
  {
  }

  /** Inserts cards with distinct ids into cleared tables. */
  method InsertAll(db: CardTables, cards: seq<Payload>)
    requires forall a, b :: 0 <= a < b < |cards| ==> cards[a].card.id != cards[b].card.id
    requires db.tasks == map[] && forall id :: RowsOf(db.State(), id) == NO_ROWS
    modifies db`tasks, db`comments, db`edges, db`roles
    ensures Rewrites(old(db.State()), LastById(cards), db.State())
  {
    ghost var cleared := db.State();
    assert cleared.tasks + map[] == cleared.tasks;
    for a := 0 to |cards|
      invariant Rewrites(cleared, LastById(cards[..a]), db.State())
    {
      NewId(cards, a);
      InsertFresh(db, cards[a], cleared, LastById(cards[..a]));
      assert cards[..a + 1][..a] == cards[..a];
    }
    assert cards[..|cards|] == cards;
  }

  lemma {:induction false} NewId(cards: seq<Payload>, a: nat)
    requires a < |cards| && forall i, j :: 0 <= i < j < |cards| ==> cards[i].card.id != cards[j].card.id
    ensures cards[a].card.id !in LastById(cards[..a])
  {
    LastByIdIds(cards[..a], cards[a].card.id);
  }

  lemma {:induction false} LastByIdIds(tasks: seq<Payload>, id: string)
    requires forall i :: 0 <= i < |tasks| ==> tasks[i].card.id != id
    ensures id !in LastById(tasks)
    decreases |tasks|
  {
    if tasks != [] {
      LastByIdIds(tasks[..|tasks| - 1], id);
    }
  }

  method RebuildFromDoc(db: CardTables, doc: Doc)
    requires ValidDoc(doc)
    modifies db
    ensures db.tasks == DocCards(doc)
    ensures forall id ::
      RowsOf(db.State(), id) == if id in DocCards(doc) then Derive(DocCards(doc)[id].card) else NO_ROWS
    ensures db.users == doc.users && db.notifications == doc.inboxes && db.hashes == old(db.hashes)
  {
    db.comments, db.edges, db.roles, db.tasks := [], {}, {}, map[];
    ghost var cleared := db.State();
    var winners := DedupeLastWins(doc.tasks);
    WinnersAreTheDocument(doc.tasks, winners);
    InsertAll(db, Pick(doc.tasks, winners));
    FilledFromCleared(cleared, doc, db.State());
    db.users, db.notifications := doc.users, doc.inboxes;
  }

  /** Inserting a document's cards into cleared tables leaves exactly those. */
  lemma {:induction false} FilledFromCleared(cleared: Db, doc: Doc, filled: Db)
    requires cleared.tasks == map[] && forall id :: RowsOf(cleared, id) == NO_ROWS
    requires Rewrites(cleared, DocCards(doc), filled)
    ensures filled.tasks == DocCards(doc)
    ensures forall id :: RowsOf(filled, id) == if id in DocCards(doc) then Derive(DocCards(doc)[id].card) else NO_ROWS
  {
    assert map[] + DocCards(doc) == DocCards(doc);
  }

  // --- the incremental mirror ---------------------------------------------

  /** The document indexed by id, and its ids in order of first appearance. */
  method IndexCards(tasks: seq<Payload>) returns (byId: map<string, Payload>, order: seq<string>)
    ensures byId == LastById(tasks)
    ensures Distinct(order) && forall id :: id in order <==> id in byId
  {
    byId, order := map[], [];
    for i := 0 to |tasks|
      invariant byId == LastById(tasks[..i])
      invariant Distinct(order) && forall id :: id in order <==> id in byId
    {
      var id := tasks[i].card.id;
      assert tasks[..i + 1][..i] == tasks[..i];
      if id !in byId {
        order := order + [id];
      }
      byId := byId[id := tasks[i]];
    }
    assert tasks[..|tasks|] == tasks;
  }

  function Differs(prior: map<string, Hash>, byId: map<string, Payload>): string -> bool
  {
    (id: string) => id in byId && !HashIs(prior, id, CardHash(byId[id].card))
  }

  /** Rewrites the listed cards one by one. */
  method WriteCards(db: CardTables, byId: map<string, Payload>, ids: seq<string>)
    requires KeyedByOwnId(byId) && forall id :: id in ids ==> id in byId
    modifies db`tasks, db`comments, db`edges, db`roles
    ensures Rewrites(old(db.State()), Select(byId, ids), db.State())
  {
    ghost var before := db.State();
    RewritesNothing(before, byId);
    for i := 0 to |ids|
      invariant Rewrites(before, Select(byId, ids[..i]), db.State())
    {
      var id := ids[i];
      assert id in ids;
      ghost var at := db.State();
      db.WriteCard(byId[id]);
      SelectSnoc(byId, ids, i);
      RewritesCompose(before, Select(byId, ids[..i]), at, id, byId[id], db.State());
    }
    assert ids[..|ids|] == ids;
  }

  function Select(byId: map<string, Payload>, ids: seq<string>): map<string, Payload>
  {
    map id | id in ids && id in byId :: byId[id]
  }

  lemma {:induction false} SelectSnoc(byId: map<string, Payload>, ids: seq<string>, i: nat)
    requires i < |ids| && ids[i] in byId
    ensures Select(byId, ids[..i + 1]) == Select(byId, ids[..i])[ids[i] := byId[ids[i]]]
  {
    assert ids[..i + 1] == ids[..i] + [ids[i]];
  }

  lemma {:induction false} RewritesNothing(db: Db, byId: map<string, Payload>)
    ensures Rewrites(db, Select(byId, []), db)
  {
    assert db.tasks + Select(byId, []) == db.tasks;
  }

  method RecordHashes(db: CardTables, byId: map<string, Payload>, ids: seq<string>)
    requires forall id :: id in ids ==> id in byId
    modifies db`hashes
    ensures db.hashes == old(db.hashes) + HashesOf(Select(byId, ids))
  {
    for i := 0 to |ids|
      invariant db.hashes == old(db.hashes) + HashesOf(Select(byId, ids[..i]))
    {
      assert ids[i] in ids;
      SelectSnoc(byId, ids, i);
      db.hashes := db.hashes[ids[i] := CardHash(byId[ids[i]].card)];
    }
    assert ids[..|ids|] == ids;
  }

  method DeleteNamed(db: CardTables, deletedIds: seq<string>)
    modifies db
    ensures Removes(old(db.State()), Elements(deletedIds), db.State())
  {
    ghost var before := db.State();
    RemovesNothing(before);
    for i := 0 to |deletedIds|
      invariant Removes(before, Elements(deletedIds[..i]), db.State())
    {
      ghost var at := db.State();
      db.DeleteCard(deletedIds[i]);
      RemovesCompose(before, Elements(deletedIds[..i]), at, deletedIds[i], db.State());
      assert deletedIds[..i + 1] == deletedIds[..i] + [deletedIds[i]];
      assert Elements(deletedIds[..i + 1]) == Elements(deletedIds[..i]) + {deletedIds[i]};
    }
    assert deletedIds[..|deletedIds|] == deletedIds;
  }

  lemma {:induction false} RemovesNothing(db: Db)
    ensures Removes(db, {}, db)
  {
    forall id ensures WithoutTargets(RowsOf(db, id), {}) == RowsOf(db, id) {
      assert WithoutTargets(RowsOf(db, id), {}).edges == RowsOf(db, id).edges;
    }
  }

  /** Rewrites a section only when its hash moved. */
  method SyncSections(db: CardTables, doc: Doc)
    modifies db`users, db`notifications, db`hashes
    ensures db.hashes == WithSections(old(db.hashes), doc)
    ensures db.users == if HashIs(old(db.hashes), USERS_KEY, SectionHash(doc.users)) then old(db.users) else doc.users
    ensures db.notifications
         == if HashIs(old(db.hashes), INBOXES_KEY, SectionHash(doc.inboxes)) then old(db.notifications) else doc.inboxes
  {
    if !HashIs(db.hashes, USERS_KEY, SectionHash(doc.users)) {
      db.users := doc.users;
      db.hashes := db.hashes[USERS_KEY := SectionHash(doc.users)];
    }
    if !HashIs(db.hashes, INBOXES_KEY, SectionHash(doc.inboxes)) {
      db.notifications := doc.inboxes;
      db.hashes := db.hashes[INBOXES_KEY := SectionHash(doc.inboxes)];
    }
  }

  /** The changed cards, picked out of the document in order. */
  method ChangedIds(prior: map<string, Hash>, doc: Doc, byId: map<string, Payload>, order: seq<string>)
    returns (changed: seq<string>)
    requires byId == DocCards(doc) && Distinct(order) && forall id :: id in order <==> id in byId
    ensures Select(byId, changed) == ChangedCards(prior, doc) && |changed| == |ChangedCards(prior, doc)|
    ensures forall id :: id in changed ==> id in byId
  {
    changed := Filter(order, Differs(prior, byId));
    FilterMembers(order, Differs(prior, byId));
    FilterDistinct(order, Differs(prior, byId));
    DistinctCount(changed);
    assert ChangedCards(prior, doc).Keys == Elements(changed);
  }

  /** First contact with a database that has no hashes: rebuild it, once. */
  method MirrorFull(db: CardTables, doc: Doc)
    requires ValidDoc(doc) && db.hashes == map[]
    modifies db
    ensures Rebuilt(doc, db.State())
  {
    var byId, order := IndexCards(doc.tasks);
    RebuildFromDoc(db, doc);
    ghost var built := db.State();
    RecordHashes(db, byId, order);
    assert Select(byId, order) == byId;
    assert map[] + HashesOf(byId) == HashesOf(byId);
    db.hashes := WithSections(db.hashes, doc);
    assert forall id :: RowsOf(db.State(), id) == RowsOf(built, id);
  }

  /** The ordinary write: only what changed, then the named removals. */
  method MirrorChanged(db: CardTables, doc: Doc, deletedIds: seq<string>) returns (changed: nat, removed: nat)
    requires ValidDoc(doc)
    modifies db
    ensures Updated(old(db.State()), doc, Elements(deletedIds), db.State())
    ensures changed == |ChangedCards(old(db.hashes), doc)|
    ensures removed == |Filter(deletedIds, KnownIn(old(db.hashes)))|
  {
    ghost var before := db.State();
    var byId, order := IndexCards(doc.tasks);
    LastByIdKeyed(doc.tasks);
    var ids := ChangedIds(db.hashes, doc, byId, order);
    changed, removed := |ids|, |Filter(deletedIds, KnownIn(db.hashes))|;
    WriteCards(db, byId, ids);
    ghost var upserted := db.State();
    RecordHashes(db, byId, ids);
    ghost var written := db.State();
    assert forall id :: RowsOf(written, id) == RowsOf(upserted, id);
    DeleteNamed(db, deletedIds);
    ghost var deleted := db.State();
    SyncSections(db, doc);
    UpdateComposes(before, doc, ChangedCards(before.hashes, doc), written, Elements(deletedIds), deleted, db.State());
  }

  method MirrorDocIncremental(db: CardTables, doc: Doc, deletedIds: seq<string>) returns (s: Summary)
    requires ValidDoc(doc)
    modifies db
    ensures Mirrored(old(db.State()), doc, Elements(deletedIds), db.State())
    ensures Counts(old(db.State()), doc, deletedIds, s)
  {
    if db.hashes == map[] {
      MirrorFull(db, doc);
      return Summary(|doc.tasks|, 0, 0, true);
    }
    var changed, removed := MirrorChanged(db, doc, deletedIds);
    return Summary(changed, removed, |doc.tasks| - changed, false);
  }

  function KnownIn(prior: map<string, Hash>): string -> bool
  {
    (id: string) => id in prior
  }

  lemma {:induction false} UpdateComposes(before: Db, doc: Doc, w: map<string, Payload>, written: Db, gone: set<string>,
                                          deleted: Db, after: Db)
    requires w == ChangedCards(before.hashes, doc)
    requires Rewrites(before, w, written) && written.hashes == before.hashes + HashesOf(w)
    requires Removes(written, gone, deleted)
    requires after == deleted.(hashes := after.hashes, users := after.users, notifications := after.notifications)
    requires after.hashes == WithSections(deleted.hashes, doc)
    requires
      after.users == if HashIs(deleted.hashes, USERS_KEY, SectionHash(doc.users)) then deleted.users else doc.users
    requires
      var kept := HashIs(deleted.hashes, INBOXES_KEY, SectionHash(doc.inboxes));
      after.notifications == if kept then deleted.notifications else doc.inboxes
    ensures Updated(before, doc, gone, after)
  {
    forall id ensures RowsOf(after, id) == if id in gone then NO_ROWS else
          WithoutTargets(if id in w then Derive(w[id].card) else RowsOf(before, id), gone) {
      assert RowsOf(after, id) == RowsOf(deleted, id);
      assert RowsOf(written, id) == if id in w then Derive(w[id].card) else RowsOf(before, id);
    }
  }

  lemma {:induction false} FilterDistinct(s: seq<string>, p: string -> bool)
    requires Distinct(s)
    ensures Distinct(Filter(s, p))
  {
    if s != [] {
      FilterDistinct(s[1..], p);
      FilterMembers(s[1..], p);
      var rest := Filter(s[1..], p);
      forall j | 0 <= j < |rest| ensures rest[j] != s[0] {
        assert rest[j] in rest && rest[j] in s[1..];
        var k :| 0 <= k < |s[1..]| && s[1..][k] == rest[j];
        assert s[k + 1] == rest[j];
      }
    }
  }

  // --- the shrink guard ---------------------------------------------------

  const FOREIGN_STORE := "refusing to write: the database is stamped for a different store"

  predicate NoShrink(stored: set<string>, doc: Doc, deletedIds: seq<string>, allowShrink: bool)
  {
    allowShrink || stored - DocCards(doc).Keys - Elements(deletedIds) == {}
  }

  /** Some entry of the document has the id. */
  ghost predicate Mentions(doc: Doc, id: string)
  {
    exists i :: 0 <= i < |doc.tasks| && doc.tasks[i].card.id == id
  }

  /** The check passes exactly when shrinking is allowed or every stored id is mentioned or
      named. */
  lemma {:induction false} NoShrinkMeans(stored: set<string>, doc: Doc, deletedIds: seq<string>, allowShrink: bool)
    requires ValidDoc(doc)
    ensures NoShrink(stored, doc, deletedIds, allowShrink)
      <==> allowShrink || forall id :: id in stored ==> Mentions(doc, id) || id in deletedIds
  {
    LastByIdKeyed(doc.tasks);
    var missing := stored - DocCards(doc).Keys - Elements(deletedIds);
    forall id ensures id in missing <==> id in stored && !Mentions(doc, id) && id !in deletedIds {
    }
    if id :| id in stored && !Mentions(doc, id) && id !in deletedIds {
      assert id in missing;
    }
  }

  /** Checks, then mirrors; a refused write changes nothing. `ours` says that the
      database is stamped for this store, or not stamped yet; that is checked first. */
  method WriteDocToDb(db: CardTables, doc: Doc, deletedIds: seq<string>, allowShrink: bool, ours: bool)
    returns (r: Result<Summary>)
    requires ValidDoc(doc)
    modifies db
    ensures r.Ok? <==> ours && NoShrink(old(db.tasks).Keys, doc, deletedIds, allowShrink)
    ensures r.Ok? <==> ours && (allowShrink || forall id ::
      id in old(db.tasks) ==> Mentions(doc, id) || id in deletedIds)
    ensures !ours ==> r == Err(FOREIGN_STORE)
    ensures r.Err? ==> db.State() == old(db.State())
    ensures r.Ok? ==> Mirrored(old(db.State()), doc, Elements(deletedIds), db.State())
    ensures r.Ok? ==> Counts(old(db.State()), doc, deletedIds, r.value)
    ensures !allowShrink ==> forall id :: id in old(db.tasks) && id !in deletedIds ==> id in db.tasks
  {
    if !ours {
      return Err(FOREIGN_STORE);
    }
    NoShrinkMeans(db.tasks.Keys, doc, deletedIds, allowShrink);
    var missing := if allowShrink then {} else db.tasks.Keys - DocCards(doc).Keys - Elements(deletedIds);
    if missing != {} {
      return Err("refusing to persist: this write is missing stored ids");
    }
    var s := MirrorDocIncremental(db, doc, deletedIds);
    forall id | !allowShrink && id in old(db.tasks) && id !in deletedIds ensures id in db.tasks {
      assert id !in Elements(deletedIds) && id !in missing;
    }
    return Ok(s);
  }
}
