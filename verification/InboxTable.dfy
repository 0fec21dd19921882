/** The SQL table twin of the file inbox, and how far the two agree. */
module InboxTable {
  import opened Common
  import opened Inbox

  /** One table row; the sequence of rows is the rowid order. */
  datatype Row = Row(recipient: string, rec: Record)

  /** What a SELECT on one recipient, ordered by rowid, reads. */
  function View(rows: seq<Row>, rid: string): seq<Record>
  {
    if rows == [] then []
    else if rows[0].recipient == rid then [rows[0].rec] + View(rows[1..], rid)
    else View(rows[1..], rid)
  }

  /** The primary key: no two rows share an id. */
  ghost predicate KeyedById(rows: seq<Row>)
  {
    forall i, j :: 0 <= i < j < |rows| ==> rows[i].rec.id != rows[j].rec.id
  }

  ghost predicate FreshId(rows: seq<Row>, id: string)
  {
    forall i :: 0 <= i < |rows| ==> rows[i].rec.id != id
  }

  predicate On(row: Row, rid: string, p: Record -> bool)
  {
    row.recipient == rid && p(row.rec)
  }

  /** DELETE of one recipient's rows failing `keep`. */
  function DeleteUnless(rows: seq<Row>, rid: string, keep: Record -> bool): seq<Row>
  {
    Filter(rows, (row: Row) => row.recipient != rid || keep(row.rec))
  }

  function IdIn(ids: set<string>): Record -> bool
  {
    (r: Record) => r.id in ids
  }

  /** UPDATE … SET seen = 1 WHERE recipient = ? AND id IN (…), as a predicate. */
  function UpdateSeen(rows: seq<Row>, rid: string, p: Record -> bool): seq<Row>
  {
    seq(|rows|, i requires 0 <= i < |rows| =>
      if On(rows[i], rid, p) then rows[i].(rec := rows[i].rec.(seen := true)) else rows[i])
  }

  function IdsOf(records: seq<Record>): set<string>
  {
    set r | r in records :: r.id
  }

  class TableInbox {
    var rows: seq<Row>

    constructor (rows: seq<Row>)
      ensures this.rows == rows
    {
      this.rows := rows;
    }

    method Enqueue(rid: string, n: Record, supersede: bool) returns (r: Option<Record>)
      requires KeyedById(rows) && FreshId(rows, n.id)
      modifies this
      ensures KeyedById(rows)
      ensures rid == "" ==> r == None && rows == old(rows)
      ensures rid != "" ==> r == EnqueueBox(Table, View(old(rows), rid), n, supersede).1
      ensures rid != "" ==> View(rows, rid) == EnqueueBox(Table, View(old(rows), rid), n, supersede).0
      ensures r.Some? ==>
        && r.value == Record(n.id, n.eventType, n.cardId, n.body, n.actor, n.ts, false)
        && View(rows, rid) != [] && View(rows, rid)[|View(rows, rid)| - 1] == r.value
      ensures forall k :: k != rid ==> View(rows, k) == View(old(rows), k)
    {
      if rid == "" {
        return None;
      }
      if supersede {
        rows := DeleteUnless(rows, rid, Survives(n));
        DeleteKeepsKeys(old(rows), rid, Survives(n), n.id);
        ViewsDelete(old(rows), rid, Survives(n));
      }
      var selected := View(rows, rid);
      var dup := IsDuplicate(selected, n);
      if dup {
        return None;
      }
      ViewsAppend(rows, Row(rid, n.(seen := false)));
      rows := rows + [Row(rid, n.(seen := false))];
      return Some(n.(seen := false));
    }

    method Poll(rid: string, unseenOnly: bool, markSeen: bool) returns (out: seq<Record>)
      requires KeyedById(rows)
      modifies this
      ensures KeyedById(rows)
      ensures rid == "" ==> out == [] && rows == old(rows)
      ensures rid != "" && !markSeen ==> out == Filter(View(old(rows), rid), Selects(unseenOnly)) && rows == old(rows)
      ensures rid != "" && markSeen ==>
        && out == Mark(Filter(View(old(rows), rid), Selects(unseenOnly)), Always())
        && View(rows, rid) == Mark(View(old(rows), rid), Selects(unseenOnly))
      ensures forall k :: k != rid ==> View(rows, k) == View(old(rows), k)
      ensures forall i :: 0 <= i < |rows| ==> |rows| == |old(rows)| && rows[i].rec.id == old(rows)[i].rec.id
    {
      if rid == "" {
        return [];
      }
      var selected := Select(View(rows, rid), Selects(unseenOnly));
      if !markSeen {
        return selected;
      }
      FilterMembers(View(rows, rid), Selects(unseenOnly));
      if selected == [] {
        assert Mark(View(rows, rid), Selects(unseenOnly)) == View(rows, rid);
        return [];
      }
      UpdateByIdMarks(rows, rid, Selects(unseenOnly));
      rows := UpdateSeen(rows, rid, IdIn(IdsOf(selected)));
      out := Mark(selected, Always());
    }

    method Ack(rid: string, ids: seq<string>) returns (flipped: seq<string>)
      requires KeyedById(rows)
      modifies this
      ensures KeyedById(rows)
      ensures rid == "" ==> flipped == [] && rows == old(rows)
      ensures rid != "" ==> flipped == RecordIds(Filter(View(old(rows), rid), AckSelects(Wanted(ids))))
      ensures rid != "" ==> View(rows, rid) == Mark(View(old(rows), rid), AckSelects(Wanted(ids)))
      ensures forall k :: k != rid ==> View(rows, k) == View(old(rows), k)
      ensures |rows| == |old(rows)| && forall i :: 0 <= i < |rows| ==> rows[i].rec.id == old(rows)[i].rec.id
    {
      if rid == "" {
        return [];
      }
      var selected := Select(View(rows, rid), AckSelects(Wanted(ids)));
      flipped := RecordIds(selected);
      FilterMembers(View(rows, rid), AckSelects(Wanted(ids)));
      if flipped != [] {
        UpdateByIdMarks(rows, rid, AckSelects(Wanted(ids)));
        rows := UpdateSeen(rows, rid, IdIn(IdsOf(selected)));
      } else {
        assert Mark(View(rows, rid), AckSelects(Wanted(ids))) == View(rows, rid);
      }
    }
  }

  // --- statements against the view ----------------------------------------

  lemma {:induction false} ViewAppend(rows: seq<Row>, row: Row, k: string)
    ensures View(rows + [row], k) == View(rows, k) + if row.recipient == k then [row.rec] else []
  {
    if rows == [] {
      assert rows + [row] == [row];
    } else {
      assert (rows + [row])[0] == rows[0] && (rows + [row])[1..] == rows[1..] + [row];
      ViewAppend(rows[1..], row, k);
    }
  }

  lemma {:induction false} ViewDelete(rows: seq<Row>, rid: string, keep: Record -> bool, k: string)
    ensures View(DeleteUnless(rows, rid, keep), k) == if k == rid then Filter(View(rows, k), keep) else View(rows, k)
  {
    if rows != [] {
      ViewDelete(rows[1..], rid, keep, k);
      var rest := DeleteUnless(rows[1..], rid, keep);
      assert ([rows[0]] + rest)[0] == rows[0] && ([rows[0]] + rest)[1..] == rest;
      var tail := View(rows[1..], k);
      assert ([rows[0].rec] + tail)[0] == rows[0].rec && ([rows[0].rec] + tail)[1..] == tail;
    }
  }

  lemma {:induction false} ViewUpdate(rows: seq<Row>, rid: string, p: Record -> bool, k: string)
    ensures View(UpdateSeen(rows, rid, p), k) == if k == rid then Mark(View(rows, k), p) else View(rows, k)
  {
    if rows != [] {
      ViewUpdate(rows[1..], rid, p, k);
      assert UpdateSeen(rows, rid, p)[1..] == UpdateSeen(rows[1..], rid, p);
    }
  }

  lemma {:induction false} ViewMembers(rows: seq<Row>, k: string)
    ensures forall r :: r in View(rows, k) <==> Row(k, r) in rows
  {
    if rows != [] {
      ViewMembers(rows[1..], k);
      assert rows == [rows[0]] + rows[1..];
    }
  }

  lemma {:induction false} DeleteKeepsKeys(rows: seq<Row>, rid: string, keep: Record -> bool, id: string)
    requires KeyedById(rows) && FreshId(rows, id)
    ensures KeyedById(DeleteUnless(rows, rid, keep)) && FreshId(DeleteUnless(rows, rid, keep), id)
  {
    if rows != [] {
      DeleteKeepsKeys(rows[1..], rid, keep, id);
      var p := (row: Row) => row.recipient != rid || keep(row.rec);
      var rest := Filter(rows[1..], p);
      FilterMembers(rows[1..], p);
      forall i | 0 <= i < |rest| ensures rest[i].rec.id != rows[0].rec.id {
        assert rest[i] in rest;
        var j :| 0 <= j < |rows[1..]| && rows[1..][j] == rest[i];
        assert rows[j + 1] == rest[i];
      }
    }
  }

  lemma {:induction false} ViewsAppend(rows: seq<Row>, row: Row)
    ensures forall k :: View(rows + [row], k) == View(rows, k) + if row.recipient == k then [row.rec] else []
  {
    forall k { ViewAppend(rows, row, k); }
  }

  lemma {:induction false} ViewsDelete(rows: seq<Row>, rid: string, keep: Record -> bool)
    ensures forall k ::
      View(DeleteUnless(rows, rid, keep), k) == if k == rid then Filter(View(rows, k), keep) else View(rows, k)
  {
    forall k { ViewDelete(rows, rid, keep, k); }
  }

  /** Selecting rows and then updating them by id flips exactly the selected rows,
      because an id names one row. */
  lemma {:induction false} UpdateByIdMarks(rows: seq<Row>, rid: string, p: Record -> bool)
    requires KeyedById(rows)
    ensures var after := UpdateSeen(rows, rid, IdIn(IdsOf(Filter(View(rows, rid), p))));
            KeyedById(after) && forall k :: View(after, k) == if k == rid then Mark(View(rows, k), p) else View(rows, k)
  {
    var v := View(rows, rid);
    var byId := IdIn(IdsOf(Filter(v, p)));
    forall k { ViewUpdate(rows, rid, byId, k); }
    FilterMembers(v, p);
    ViewMembers(rows, rid);
    forall i | 0 <= i < |v| ensures byId(v[i]) <==> p(v[i]) {
      assert v[i] in v;
      if byId(v[i]) {
        var s :| s in Filter(v, p) && s.id == v[i].id;
        SameIdSameRow(rows, Row(rid, s), Row(rid, v[i]));
      } else {
        assert v[i] !in Filter(v, p);
      }
    }
    assert Mark(v, byId) == Mark(v, p);
  }

  lemma {:induction false} SameIdSameRow(rows: seq<Row>, a: Row, b: Row)
    requires KeyedById(rows) && a in rows && b in rows && a.rec.id == b.rec.id
    ensures a == b
  {
    var i :| 0 <= i < |rows| && rows[i] == a;
    var j :| 0 <= j < |rows| && rows[j] == b;
    assert i == j;
  }

  // --- agreement of the two backends --------------------------------------

  /** A guard a caller can check before the call: a superseding enqueue that would
      drop unseen records and then be deduplicated by one that is kept. */
  ghost predicate Diverges(records: seq<Record>, op: BoxOp)
  {
    && op.Add? && op.supersede
    && HasKey(Kept(records, op.n, true), op.n)
    && exists r :: r in records && !r.seen && SameTopic(r, op.n)
  }

  /** One operation, same list: the reply is always the same, and the new lists
      agree unless the guard holds; then the table holds the file's records minus
      the unseen predecessors. */
  lemma {:induction false} BackendsAgreeIff(records: seq<Record>, op: BoxOp)
    ensures op.Add? ==>
      EnqueueBox(File, records, op.n, op.supersede).1 == EnqueueBox(Table, records, op.n, op.supersede).1
    ensures Apply(File, records, op) == Apply(Table, records, op) <==> !Diverges(records, op)
    ensures Diverges(records, op) ==>
      Apply(File, records, op) == records && Apply(Table, records, op) == Filter(records, Survives(op.n))
  {
    if op.Add? && op.supersede {
      FilterMembers(records, Survives(op.n));
      if Diverges(records, op) {
        var r :| r in records && !r.seen && SameTopic(r, op.n);
        assert r !in Filter(records, Survives(op.n));
      } else if HasKey(Kept(records, op.n, true), op.n) {
        FilterAll(records, Survives(op.n));
      }
    }
  }

  /** A deduplicated supersede was deduplicated by a record already seen. */
  lemma {:induction false} DivergenceDupIsSeen(records: seq<Record>, op: BoxOp)
    requires Diverges(records, op)
    ensures exists r :: r in records && r.seen && SameKey(r, op.n)
  {
    FilterMembers(records, Survives(op.n));
    var r :| r in Kept(records, op.n, true) && SameKey(r, op.n);
    assert r in records;
  }

  /** No operation of the run meets the guard when it is reached. */
  ghost predicate NeverDiverges(records: seq<Record>, ops: seq<BoxOp>)
    decreases |ops|
  {
    ops != [] ==> !Diverges(records, ops[0]) && NeverDiverges(Apply(File, records, ops[0]), ops[1..])
  }

  /** Main result. The backends hold the same list after every prefix of a run if
      and only if the run never meets the guard. */
  lemma {:induction false} BackendsBisimilarIff(records: seq<Record>, ops: seq<BoxOp>)
    ensures NeverDiverges(records, ops)
       <==> forall k :: 0 <= k <= |ops| ==> ApplyAll(File, records, ops[..k]) == ApplyAll(Table, records, ops[..k])
    decreases |ops|
  {
    if ops != [] {
      BackendsAgreeIff(records, ops[0]);
      var next := Apply(File, records, ops[0]);
      BackendsBisimilarIff(next, ops[1..]);
      forall b: Backend, k | 1 <= k <= |ops|
        ensures ApplyAll(b, records, ops[..k]) == ApplyAll(b, Apply(b, records, ops[0]), ops[1..][..k - 1])
      {
        assert ops[..k][0] == ops[0] && ops[..k][1..] == ops[1..][..k - 1];
      }
      if NeverDiverges(records, ops) {
        forall k | 0 <= k <= |ops| ensures ApplyAll(File, records, ops[..k]) == ApplyAll(Table, records, ops[..k]) {
          if k > 0 {
            assert ApplyAll(File, next, ops[1..][..k - 1]) == ApplyAll(Table, next, ops[1..][..k - 1]);
          }
        }
      } else if Diverges(records, ops[0]) {
        assert ops[..1] == [ops[0]];
        assert ApplyAll(File, records, ops[..1]) != ApplyAll(Table, records, ops[..1]);
      } else {
        var k :| 0 <= k <= |ops[1..]| && ApplyAll(File, next, ops[1..][..k]) != ApplyAll(Table, next, ops[1..][..k]);
        assert ApplyAll(File, records, ops[..k + 1]) != ApplyAll(Table, records, ops[..k + 1]);
      }
    } else {
      assert ops[..0] == [];
    }
  }
}
