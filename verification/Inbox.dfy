/** The per-recipient pull-inbox: its records, what each operation means on one
    recipient's list, and the file-backed implementation. */
module Inbox {
  import opened Common

  /** A notification. Timestamps are fixed-width UTC text in the program, so they
      are ordered as the instants they name. */
  datatype Record = Record(
    id: string, eventType: string, cardId: string, body: string, actor: Option<string>, ts: int, seen: bool)

  /** The dedup key of a record. */
  predicate SameKey(r: Record, n: Record)
  {
    r.eventType == n.eventType && r.cardId == n.cardId && r.ts == n.ts && r.actor == n.actor
  }

  /** Two snapshots of the same cumulative thing. */
  predicate SameTopic(r: Record, n: Record)
  {
    r.eventType == n.eventType && r.cardId == n.cardId
  }

  predicate HasKey(records: seq<Record>, n: Record)
  {
    exists r :: r in records && SameKey(r, n)
  }

  /** What a superseding enqueue of `n` keeps: everything but the unseen
      records of the same topic. */
  function Survives(n: Record): Record -> bool
  {
    (r: Record) => r.seen || !SameTopic(r, n)
  }

  function Kept(records: seq<Record>, n: Record, supersede: bool): seq<Record>
  {
    if supersede then Filter(records, Survives(n)) else records
  }

  /** The two backends. They differ when a superseding enqueue is deduplicated:
      the file backend returns without saving, the table backend commits. */
  datatype Backend = File | Table

  function EnqueueBox(b: Backend, records: seq<Record>, n: Record, supersede: bool): (seq<Record>, Option<Record>)
  {
    var kept := Kept(records, n, supersede);
    if HasKey(kept, n) then (if b == File then records else kept, None)
    else (kept + [n.(seen := false)], Some(n.(seen := false)))
  }

  function Selects(unseenOnly: bool): Record -> bool
  {
    (r: Record) => unseenOnly ==> !r.seen
  }

  function Unseen(records: seq<Record>): seq<Record>
  {
    Filter(records, Selects(true))
  }

  function AckSelects(ids: set<string>): Record -> bool
  {
    (r: Record) => r.id in ids && !r.seen
  }

  /** Flips the selected records to seen, in place. */
  function Mark(records: seq<Record>, p: Record -> bool): seq<Record>
  {
    seq(|records|, i requires 0 <= i < |records| =>
      if p(records[i]) then records[i].(seen := true) else records[i])
  }

  function RecordIds(records: seq<Record>): seq<string>
  {
    seq(|records|, i requires 0 <= i < |records| => records[i].id)
  }

  function Always(): Record -> bool
  {
    (r: Record) => true
  }

  function Wanted(ids: seq<string>): set<string>
  {
    set x | x in ids && x != ""
  }

  ghost predicate UniqueIds(records: seq<Record>)
  {
    forall i, j :: 0 <= i < j < |records| ==> records[i].id != records[j].id
  }

  function Box(boxes: map<string, seq<Record>>, rid: string): seq<Record>
  {
    if rid in boxes then boxes[rid] else []
  }

  // --- what the operations mean, field by field ---------------------------

  /** The record a superseding enqueue replaces. */
  predicate Replaced(r: Record, n: Record, supersede: bool)
  {
    supersede && !r.seen && r.eventType == n.eventType && r.cardId == n.cardId
  }

  /** An enqueue is refused exactly when a record it does not replace has the same event,
      card, timestamp and actor. An accepted one comes last, unseen, with every field it
      was given, after the records it does not replace. */
  lemma {:induction false} EnqueueMeans(b: Backend, records: seq<Record>, n: Record, supersede: bool)
    ensures
      var (after, reply) := EnqueueBox(b, records, n, supersede);
      && (reply.None? <==> exists r ::
            && r in records && !Replaced(r, n, supersede)
            && r.eventType == n.eventType && r.cardId == n.cardId && r.ts == n.ts && r.actor == n.actor)
      && (reply.Some? ==>
            && reply.value == Record(n.id, n.eventType, n.cardId, n.body, n.actor, n.ts, false)
            && after != [] && after[|after| - 1] == reply.value
            && forall r :: r in after[..|after| - 1] <==> r in records && !Replaced(r, n, supersede))
      && (reply.None? && b == File ==> after == records)
      && (reply.None? && b == Table ==> forall r :: r in after <==> r in records && !Replaced(r, n, supersede))
  {
    var kept := Kept(records, n, supersede);
    FilterMembers(records, Survives(n));
    forall r ensures r in kept <==> r in records && !Replaced(r, n, supersede) {
    }
    var full := kept + [n.(seen := false)];
    assert full[..|full| - 1] == kept;
  }

  /** A poll reads the unseen records, or all; an acknowledgement flips exactly the unseen
      records whose non-empty id is listed, and no other field of any record. */
  lemma {:induction false} PollAndAckMean(records: seq<Record>, unseenOnly: bool, ids: seq<string>)
    ensures forall r :: r in Filter(records, Selects(unseenOnly)) <==> r in records && (unseenOnly ==> !r.seen)
    ensures forall r ::
      r in Filter(records, AckSelects(Wanted(ids))) <==> r in records && !r.seen && r.id in ids && r.id != ""
    ensures
      var after := Mark(records, AckSelects(Wanted(ids)));
      |after| == |records| && forall i :: 0 <= i < |records| ==>
        var r := records[i];
        after[i] == Record(r.id, r.eventType, r.cardId, r.body, r.actor, r.ts, r.seen || (r.id in ids && r.id != ""))
  {
    FilterMembers(records, Selects(unseenOnly));
    FilterMembers(records, AckSelects(Wanted(ids)));
  }

  /** The ids an acknowledgement reports: the listed ones an unseen record has. */
  lemma {:induction false} AckedIds(records: seq<Record>, ids: seq<string>)
    ensures forall id ::
      id in RecordIds(Filter(records, AckSelects(Wanted(ids))))
      <==> id in ids && id != "" && exists r :: r in records && !r.seen && r.id == id
  {
    var hit := Filter(records, AckSelects(Wanted(ids)));
    FilterMembers(records, AckSelects(Wanted(ids)));
    forall id ensures id in RecordIds(hit) <==> exists r :: r in hit && r.id == id {
      if r :| r in hit && r.id == id {
        var i :| 0 <= i < |hit| && hit[i] == r;
        assert RecordIds(hit)[i] == id;
      }
    }
  }

  // --- the file backend ---------------------------------------------------

  /** The whole sidecar document, read and rewritten under the store lock. */
  class FileInbox {
    var boxes: map<string, seq<Record>>

    constructor (boxes: map<string, seq<Record>>)
      ensures this.boxes == boxes
    {
      this.boxes := boxes;
    }

    method Enqueue(rid: string, n: Record, supersede: bool) returns (r: Option<Record>)
      modifies this
      ensures rid == "" ==> r == None && boxes == old(boxes)
      ensures rid != "" ==> r == EnqueueBox(File, Box(old(boxes), rid), n, supersede).1
      ensures rid != "" ==> Box(boxes, rid) == EnqueueBox(File, Box(old(boxes), rid), n, supersede).0
      ensures r.Some? ==>
        && r.value == Record(n.id, n.eventType, n.cardId, n.body, n.actor, n.ts, false)
        && Box(boxes, rid) != [] && Box(boxes, rid)[|Box(boxes, rid)| - 1] == r.value
      ensures forall k :: k != rid ==> Box(boxes, k) == Box(old(boxes), k)
    {
      if rid == "" {
        return None;
      }
      var records := Box(boxes, rid);
      if supersede {
        records := DropSuperseded(records, n);
      }
      var dup := IsDuplicate(records, n);
      if dup {
        return None;
      }
      boxes := boxes[rid := records + [n.(seen := false)]];
      return Some(n.(seen := false));
    }

    method Poll(rid: string, unseenOnly: bool, markSeen: bool) returns (out: seq<Record>)
      modifies this
      ensures rid == "" ==> out == [] && boxes == old(boxes)
      ensures rid != "" && !markSeen ==> out == Filter(Box(old(boxes), rid), Selects(unseenOnly)) && boxes == old(boxes)
      ensures rid != "" && markSeen ==>
        && out == Mark(Filter(Box(old(boxes), rid), Selects(unseenOnly)), Always())
        && Box(boxes, rid) == Mark(Box(old(boxes), rid), Selects(unseenOnly))
      ensures markSeen ==> forall r :: r in out ==> r.seen
      ensures forall k :: k != rid ==> Box(boxes, k) == Box(old(boxes), k)
    {
      if rid == "" {
        return [];
      }
      var records := Box(boxes, rid);
      var selected := Select(records, Selects(unseenOnly));
      if !markSeen {
        return selected;
      }
      FilterMembers(records, Selects(unseenOnly));
      if selected == [] {
        assert Mark(records, Selects(unseenOnly)) == records;
        return [];
      }
      var marked, flipped := MarkLoop(records, Selects(unseenOnly));
      out, flipped := MarkLoop(selected, Always());
      boxes := boxes[rid := marked];
    }

    method Ack(rid: string, ids: seq<string>) returns (flipped: seq<string>)
      modifies this
      ensures rid == "" ==> flipped == [] && boxes == old(boxes)
      ensures rid != "" ==> flipped == RecordIds(Filter(Box(old(boxes), rid), AckSelects(Wanted(ids))))
      ensures rid != "" ==> forall id ::
        id in flipped <==> id in ids && id != "" && exists r :: r in Box(old(boxes), rid) && !r.seen && r.id == id
      ensures rid != "" ==> Box(boxes, rid) == Mark(Box(old(boxes), rid), AckSelects(Wanted(ids)))
      ensures forall k :: k != rid ==> Box(boxes, k) == Box(old(boxes), k)
    {
      if rid == "" {
        return [];
      }
      var records := Box(boxes, rid);
      AckedIds(records, ids);
      var marked;
      marked, flipped := MarkLoop(records, AckSelects(Wanted(ids)));
      FilterMembers(records, AckSelects(Wanted(ids)));
      if flipped != [] {
        boxes := boxes[rid := marked];
      } else {
        assert marked == records;
      }
    }
  }

  method IsDuplicate(records: seq<Record>, n: Record) returns (dup: bool)
    ensures dup <==> HasKey(records, n)
  {
    for i := 0 to |records|
      invariant forall k :: 0 <= k < i ==> !SameKey(records[k], n)
    {
      if SameKey(records[i], n) {
        return true;
      }
    }
    return false;
  }

  method Select(records: seq<Record>, p: Record -> bool) returns (out: seq<Record>)
    ensures out == Filter(records, p)
  {
    out := [];
    for i := 0 to |records|
      invariant out == Filter(records[..i], p)
    {
      FilterTakeStep(records, i, p);
      if p(records[i]) {
        out := out + [records[i]];
      }
    }
    assert records[..|records|] == records;
  }

  method DropSuperseded(records: seq<Record>, n: Record) returns (out: seq<Record>)
    ensures out == Kept(records, n, true)
  {
    out := Select(records, Survives(n));
  }

  /** Flips the selected records one by one, listing the ids flipped. */
  method MarkLoop(records: seq<Record>, p: Record -> bool) returns (marked: seq<Record>, flipped: seq<string>)
    ensures marked == Mark(records, p)
    ensures flipped == RecordIds(Filter(records, p))
  {
    marked, flipped := records, [];
    for i := 0 to |records|
      invariant |marked| == |records|
      invariant forall k :: 0 <= k < i ==> marked[k] == if p(records[k]) then records[k].(seen := true) else records[k]
      invariant forall k :: i <= k < |records| ==> marked[k] == records[k]
      invariant flipped == RecordIds(Filter(records[..i], p))
    {
      FilterTakeStep(records, i, p);
      if p(records[i]) {
        flipped := flipped + [records[i].id];
        marked := marked[i := records[i].(seen := true)];
      }
    }
    assert records[..|records|] == records;
  }

  // --- laws of one box ----------------------------------------------------

  /** One operation on a recipient's list. */
  datatype BoxOp = Add(n: Record, supersede: bool) | PollAll(unseenOnly: bool) | AckIds(ids: set<string>)

  function Apply(b: Backend, records: seq<Record>, op: BoxOp): seq<Record>
  {
    match op
    case Add(n, supersede) => EnqueueBox(b, records, n, supersede).0
    case PollAll(unseenOnly) => Mark(records, Selects(unseenOnly))
    case AckIds(ids) => Mark(records, AckSelects(ids))
  }

  function ApplyAll(b: Backend, records: seq<Record>, ops: seq<BoxOp>): seq<Record>
    decreases |ops|
  {
    if ops == [] then records else ApplyAll(b, Apply(b, records, ops[0]), ops[1..])
  }

  ghost predicate KeysUnique(records: seq<Record>)
  {
    forall i, j :: 0 <= i < j < |records| ==> !SameKey(records[i], records[j])
  }

  /** At most one record of the topic of `n` is still unseen. */
  ghost predicate OnePending(records: seq<Record>, n: Record)
  {
    forall i, j :: 0 <= i < j < |records| && SameTopic(records[i], n) && SameTopic(records[j], n)
      ==> records[i].seen || records[j].seen
  }

  /** Filtering a list keeps any pairwise fact between its members. */
  lemma {:induction false} FilterKeepsPairs(records: seq<Record>, p: Record -> bool, ok: (Record, Record) -> bool)
    requires forall i, j :: 0 <= i < j < |records| ==> ok(records[i], records[j])
    ensures forall i, j :: 0 <= i < j < |Filter(records, p)| ==> ok(Filter(records, p)[i], Filter(records, p)[j])
  {
    if records != [] {
      var rest := Filter(records[1..], p);
      FilterKeepsPairs(records[1..], p, ok);
      FilterMembers(records[1..], p);
      if p(records[0]) {
        forall j | 0 <= j < |rest| ensures ok(records[0], rest[j]) {
          assert rest[j] in rest;
          var k :| 0 <= k < |records[1..]| && records[1..][k] == rest[j];
          assert records[k + 1] == rest[j];
        }
      }
    }
  }

  lemma {:induction false} KeptKeepsPairs(records: seq<Record>, n: Record, supersede: bool, ok: (Record,
                                          Record) -> bool)
    requires forall i, j :: 0 <= i < j < |records| ==> ok(records[i], records[j])
    ensures var kept := Kept(records, n, supersede);
            forall i, j :: 0 <= i < j < |kept| ==> ok(kept[i], kept[j])
  {
    if supersede {
      FilterKeepsPairs(records, Survives(n), ok);
    }
  }

  lemma {:induction false} KeysStayUnique(b: Backend, records: seq<Record>, op: BoxOp)
    requires KeysUnique(records)
    ensures KeysUnique(Apply(b, records, op))
  {
    if op.Add? {
      var kept := Kept(records, op.n, op.supersede);
      KeptKeepsPairs(records, op.n, op.supersede, (r: Record, s: Record) => !SameKey(r, s));
      if !HasKey(kept, op.n) {
        assert forall i :: 0 <= i < |kept| ==> kept[i] in kept;
        assert KeysUnique(kept + [op.n.(seen := false)]);
      }
    }
  }

  /** An operation that respects the convention that a cumulative topic is only
      ever enqueued with supersede. */
  ghost predicate Cumulative(op: BoxOp, n: Record)
  {
    op.Add? && SameTopic(op.n, n) ==> op.supersede
  }

  lemma {:induction false} OnePendingStays(b: Backend, records: seq<Record>, op: BoxOp, n: Record)
    requires OnePending(records, n) && Cumulative(op, n)
    ensures OnePending(Apply(b, records, op), n)
  {
    if op.Add? {
      var kept := Kept(records, op.n, op.supersede);
      KeptKeepsPairs(records, op.n, op.supersede,
                     (r: Record, s: Record) => SameTopic(r, n) && SameTopic(s, n) ==> r.seen || s.seen);
      FilterMembers(records, Survives(op.n));
      assert op.supersede ==> forall i :: 0 <= i < |kept| ==> kept[i] in kept;
    }
  }

  /** A delivered record is history: no operation removes or reopens it. */
  lemma {:induction false} SeenStays(b: Backend, records: seq<Record>, op: BoxOp, r: Record)
    requires r in records && r.seen
    ensures r in Apply(b, records, op)
  {
    match op
    case Add(n, supersede) =>
      FilterMembers(records, Survives(n));
    case PollAll(unseenOnly) =>
      var i :| 0 <= i < |records| && records[i] == r;
      assert Mark(records, Selects(unseenOnly))[i] == r;
    case AckIds(ids) =>
      var i :| 0 <= i < |records| && records[i] == r;
      assert Mark(records, AckSelects(ids))[i] == r;
  }

  /** Main result. Over every run of either backend the dedup key stays unique,
      a cumulative topic has at most one pending record, and every seen record
      stays exactly as it is. */
  lemma {:induction false} RunLaws(b: Backend, records: seq<Record>, ops: seq<BoxOp>, n: Record)
    requires KeysUnique(records) && OnePending(records, n)
    requires forall op :: op in ops ==> Cumulative(op, n)
    ensures KeysUnique(ApplyAll(b, records, ops)) && OnePending(ApplyAll(b, records, ops), n)
    ensures forall r :: r in records && r.seen ==> r in ApplyAll(b, records, ops)
    decreases |ops|
  {
    if ops != [] {
      assert ops[0] in ops;
      KeysStayUnique(b, records, ops[0]);
      OnePendingStays(b, records, ops[0], n);
      forall r | r in records && r.seen ensures r in Apply(b, records, ops[0]) {
        SeenStays(b, records, ops[0], r);
      }
      RunLaws(b, Apply(b, records, ops[0]), ops[1..], n);
    }
  }
}
