/** The derived rows read back as what the cards say: the scheduler's waiting graph, the
    roles and the comment threads. */
module StoreGraph {
  import opened Common
  import opened Cards
  import S = Scheduler
  import opened StoreTables
  import opened StoreMirror
  import opened StoreLaws

  /** The stored cards are exactly those of the list. */
  ghost predicate StoresList(db: Db, ts: seq<Card>)
  {
    && (forall i :: 0 <= i < |ts| ==> StoresCard(db.tasks, ts[i].id, ts[i]))
    && (forall id :: id in db.tasks ==> Named(ts, id))
  }

  ghost predicate Named(ts: seq<Card>, id: string)
  {
    exists i :: 0 <= i < |ts| && ts[i].id == id
  }

  /** An edge row of one card, read off the table. */
  lemma {:induction false} EdgeRowOf(db: Db, e: Edge)
    requires RowsAgree(db) && e in db.edges
    ensures e.src in db.tasks && e in EdgesOf(db.tasks[e.src].card)
  {
    assert RowsAgreeAt(db, e.src);
    assert e in EdgesFrom(db.edges, e.src);
    assert e in RowsOf(db, e.src).edges;
  }

  lemma {:induction false} EdgeOfCard(db: Db, id: string, e: Edge)
    requires RowsAgree(db) && id in db.tasks && e in EdgesOf(db.tasks[id].card)
    ensures e in db.edges
  {
    assert RowsAgreeAt(db, id);
    assert e in RowsOf(db, id).edges;
  }

  /** Main result. On agreeing tables the edge rows are the scheduler's waiting graph: a
      card waits for another exactly when the table has its dependency on it or the
      other's block of it. */
  lemma {:induction false} EdgesAreWaits(db: Db, ts: seq<Card>, k: nat, z: string)
    requires RowsAgree(db) && ValidIds(ts) && StoresList(db, ts) && k < |ts| && z != ""
    ensures S.WaitsFor(ts, ts[k], z)
      <==> Edge(ts[k].id, z, DependsOn) in db.edges || Edge(z, ts[k].id, Blocks) in db.edges
  {
    var x := ts[k].id;
    var own, theirs := Edge(x, z, DependsOn), Edge(z, x, Blocks);
    assert StoresCard(db.tasks, x, ts[k]);
    if own in db.edges {
      EdgeRowOf(db, own);
    }
    if theirs in db.edges {
      EdgeRowOf(db, theirs);
      assert Named(ts, z);
      var i :| 0 <= i < |ts| && ts[i].id == z;
      assert StoresCard(db.tasks, z, ts[i]);
    }
    if z in ts[k].dependsOn {
      EdgeOfCard(db, x, own);
    }
    if S.BlocksInto(ts, z, x) {
      var i :| 0 <= i < |ts| && ts[i].id == z && x in ts[i].blocks;
      assert StoresCard(db.tasks, z, ts[i]);
      EdgeOfCard(db, z, theirs);
    }
  }

  /** Who is listed in which role, read off the role table. */
  lemma {:induction false} RolesReadBack(db: Db, id: string, who: string)
    requires RowsAgree(db) && who != ""
    ensures Role(id, who, Collaborator) in db.roles <==> id in db.tasks && who in db.tasks[id].card.collaborators
    ensures Role(id, who, Subscriber) in db.roles <==> id in db.tasks && who in db.tasks[id].card.subscribers
  {
    assert RowsAgreeAt(db, id);
    forall role ensures Role(id, who, role) in db.roles <==> Role(id, who, role) in RowsOf(db, id).roles {
    }
  }

  /** A card's thread read back from the comment table: every comment, in order, with its
      author, time, kind and text. */
  lemma {:induction false} CommentsReadBack(db: Db, id: string)
    requires RowsAgree(db)
    ensures
      var rows := CommentsOf(db.comments, id);
      if id !in db.tasks then rows == [] else
        var thread := db.tasks[id].card.comments;
        |rows| == |thread| && forall i :: 0 <= i < |rows| ==>
          rows[i].taskId == id && rows[i].seqNo == i && rows[i].comment == thread[i]
  {
    assert RowsAgreeAt(db, id);
    assert CommentsOf(db.comments, id) == RowsOf(db, id).comments;
  }

  /** After an incremental write no edge starts or ends at a removed id. */
  lemma {:induction false} NoEdgeAtRemoved(before: Db, doc: Doc, gone: set<string>, after: Db)
    requires ValidDoc(doc) && Agrees(before) && Updated(before, doc, gone, after)
    ensures forall e :: e in after.edges ==> e.src !in gone && e.dst !in gone
  {
    forall e | e in after.edges ensures e.src !in gone && e.dst !in gone {
      UpdatedRows(before, doc, gone, after, e.src);
      assert e in RowsOf(after, e.src).edges;
    }
  }
}
