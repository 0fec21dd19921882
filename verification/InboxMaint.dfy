/** The one-off collapse of a replayed digest backlog in the file inbox. */
module InboxMaint {
  import opened Common
  import opened Inbox

  const EVENT_DIGEST := "reminder"
  const DIGEST_CARD_ID := "(digest)"

  predicate Pending(r: Record)
  {
    !r.seen && r.eventType == EVENT_DIGEST && r.cardId == DIGEST_CARD_ID
  }

  predicate PendingAt(records: seq<Record>, i: int)
  {
    0 <= i < |records| && Pending(records[i])
  }

  /** Later timestamp first, then later position. */
  predicate Newer(records: seq<Record>, j: int, i: int)
    requires 0 <= i < |records| && 0 <= j < |records|
  {
    records[j].ts > records[i].ts || (records[j].ts == records[i].ts && j > i)
  }

  /** A pending digest that a newer pending digest replaces. */
  ghost predicate Stale(records: seq<Record>, i: int)
    requires 0 <= i < |records|
  {
    PendingAt(records, i) && exists j :: PendingAt(records, j) && Newer(records, j, i)
  }

  ghost function Collapse(records: seq<Record>): seq<Record>
  {
    seq(|records|, i requires 0 <= i < |records| =>
      if Stale(records, i) then records[i].(seen := true) else records[i])
  }

  /** The newest pending digest among those at the given positions. */
  ghost predicate IsNewest(records: seq<Record>, n: int)
  {
    PendingAt(records, n) && forall j :: PendingAt(records, j) && j != n ==> Newer(records, n, j)
  }

  /** The positions of the pending digests, in order. */
  ghost predicate Lists(records: seq<Record>, pending: seq<nat>)
  {
    && (forall k: nat :: k in pending <==> PendingAt(records, k))
    && (forall a, b :: 0 <= a < b < |pending| ==> pending[a] < pending[b])
  }

  /** The positions at which two lists of records differ. */
  ghost function Flips(records: seq<Record>, out: seq<Record>): set<nat>
    requires |out| == |records|
  {
    set i: nat | i < |records| && out[i] != records[i]
  }

  method PendingDigests(records: seq<Record>) returns (pending: seq<nat>)
    ensures Lists(records, pending)
  {
    pending := [];
    for i := 0 to |records|
      invariant forall k: nat :: k in pending <==> k < i && PendingAt(records, k)
      invariant forall a :: 0 <= a < |pending| ==> pending[a] < i
      invariant forall a, b :: 0 <= a < b < |pending| ==> pending[a] < pending[b]
    {
      if Pending(records[i]) {
        pending := pending + [i];
      }
    }
  }

  method NewestOf(records: seq<Record>, pending: seq<nat>) returns (newest: nat)
    requires Lists(records, pending) && pending != []
    ensures newest in pending && IsNewest(records, newest)
  {
    assert forall a :: 0 <= a < |pending| ==> pending[a] in pending;
    newest := pending[0];
    for a := 1 to |pending|
      invariant PendingAt(records, newest)
      invariant forall b :: 0 <= b < a && pending[b] != newest ==> Newer(records, newest, pending[b])
    {
      if Newer(records, pending[a], newest) {
        newest := pending[a];
      }
    }
    forall j | PendingAt(records, j) && j != newest ensures Newer(records, newest, j) {
      var b :| 0 <= b < |pending| && pending[b] == j;
    }
  }

  lemma {:induction false} AtMostOneKept(records: seq<Record>, pending: seq<nat>)
    requires Lists(records, pending) && |pending| <= 1
    ensures Collapse(records) == records
  {
    forall i: nat, j: nat | PendingAt(records, i) && PendingAt(records, j) ensures i == j {
      assert i in pending && j in pending;
    }
    assert forall i :: 0 <= i < |records| ==> !Stale(records, i);
  }

  /** Marks every listed record but one, counting. */
  method MarkOthers(records: seq<Record>, pending: seq<nat>, newest: nat) returns (out: seq<Record>, marked: nat)
    requires Lists(records, pending) && newest in pending
    ensures |out| == |records|
    ensures forall i: nat :: i < |records| ==>
      out[i] == if i in pending && i != newest then records[i].(seen := true) else records[i]
    ensures marked == |pending| - 1
  {
    out, marked := records, 0;
    assert forall a :: 0 <= a < |pending| ==> pending[a] in pending;
    for a := 0 to |pending|
      invariant |out| == |records|
      invariant forall i: nat :: i < |records| ==>
        out[i] == if i in pending[..a] && i != newest then records[i].(seen := true) else records[i]
      invariant marked == a - if newest in pending[..a] then 1 else 0
    {
      var i := pending[a];
      assert pending[..a + 1] == pending[..a] + [i];
      if i != newest {
        out := out[i := out[i].(seen := true)];
        marked := marked + 1;
      }
    }
    assert pending[..|pending|] == pending;
  }

  lemma {:induction false} FlipCount(records: seq<Record>, pending: seq<nat>, newest: nat, out: seq<Record>)
    requires Lists(records, pending) && newest in pending && |out| == |records|
    requires forall i: nat :: i < |records| ==>
      out[i] == if i in pending && i != newest then records[i].(seen := true) else records[i]
    ensures |Flips(records, out)| == |pending| - 1
  {
    DistinctCount(pending);
    var others := Elements(pending) - {newest};
    forall i: nat ensures i in Flips(records, out) <==> i in others {
      if i in pending {
        assert PendingAt(records, i) && !records[i].seen;
      }
    }
    assert Flips(records, out) == others;
  }

  method CollapseBox(records: seq<Record>) returns (out: seq<Record>, marked: nat)
    ensures out == Collapse(records)
    ensures marked == |Flips(records, out)|
    ensures marked == 0 <==> out == records
  {
    var pending := PendingDigests(records);
    out, marked := records, 0;
    if |pending| <= 1 {
      AtMostOneKept(records, pending);
      assert Flips(records, out) == {};
      return;
    }
    var newest := NewestOf(records, pending);
    out, marked := MarkOthers(records, pending, newest);
    NewestDecides(records, newest);
    FlipCount(records, pending, newest, out);
    var other := if pending[0] == newest then pending[1] else pending[0];
    assert PendingAt(records, other) && out[other].seen;
  }

  /** With a newest pending digest known, staleness is being pending and not it. */
  lemma {:induction false} NewestDecides(records: seq<Record>, n: int)
    requires IsNewest(records, n)
    ensures forall i :: 0 <= i < |records| ==> (Stale(records, i) <==> Pending(records[i]) && i != n)
  {
    forall i | 0 <= i < |records| ensures Stale(records, i) <==> Pending(records[i]) && i != n {
      assert PendingAt(records, i) <==> Pending(records[i]);
    }
  }

  lemma {:induction false} NewestExists(records: seq<Record>, i: int)
    requires PendingAt(records, i)
    ensures exists n :: IsNewest(records, n)
  {
    var n := i;
    var j := 0;
    while j < |records|
      invariant 0 <= j <= |records|
      invariant PendingAt(records, n)
      invariant forall k :: 0 <= k < j && PendingAt(records, k) && k != n ==> Newer(records, n, k)
    {
      if PendingAt(records, j) && Newer(records, j, n) {
        n := j;
      }
      j := j + 1;
    }
    assert IsNewest(records, n);
  }

  /** The later of two digests: by timestamp, then by place. */
  predicate Outlives(records: seq<Record>, n: int, i: int)
    requires 0 <= i < |records|
  {
    && 0 <= n < |records|
    && (records[n].ts > records[i].ts || (records[n].ts == records[i].ts && n > i))
  }

  /** Main result. Collapsing leaves exactly the newest pending digest pending,
      keeps every record (only the `seen` flag of older pending digests moves),
      and doing it again changes nothing. */
  lemma {:induction false} CollapseKeepsNewest(records: seq<Record>)
    ensures |Collapse(records)| == |records|
    ensures forall i :: 0 <= i < |records| ==> Collapse(records)[i].(seen := records[i].seen) == records[i]
    ensures forall i :: 0 <= i < |records| && !Pending(records[i]) ==> Collapse(records)[i] == records[i]
    ensures forall n :: IsNewest(records, n) ==> forall i :: PendingAt(Collapse(records), i) <==> i == n
    ensures (exists i :: PendingAt(records, i)) ==> exists n :: IsNewest(records, n)
    ensures forall i :: 0 <= i < |records| && Collapse(records)[i] != records[i] ==>
      && !records[i].seen && records[i].eventType == "reminder" && records[i].cardId == "(digest)"
      && exists n :: PendingAt(Collapse(records), n) && Outlives(records, n, i)
    ensures Collapse(Collapse(records)) == Collapse(records)
  {
    var out := Collapse(records);
    forall n | IsNewest(records, n) ensures forall i :: PendingAt(out, i) <==> i == n {
      NewestDecides(records, n);
    }
    if i :| PendingAt(records, i) {
      NewestExists(records, i);
      var n :| IsNewest(records, n);
      NewestDecides(records, n);
      assert PendingAt(out, n);
      forall k | 0 <= k < |records| && out[k] != records[k] ensures PendingAt(out, n) && Outlives(records, n, k) {
        assert PendingAt(records, k) && k != n;
      }
      assert forall j :: PendingAt(out, j) ==> j == n;
      NewestDecides(out, n);
      assert Collapse(out) == out;
    } else {
      assert out == records;
    }
  }

  /** Every record flipped, by recipient and position. */
  ghost function AllFlips(before: map<string, seq<Record>>, after: map<string, seq<Record>>): set<(string, nat)>
    requires after.Keys == before.Keys && forall rid :: rid in before ==> |after[rid]| == |before[rid]|
  {
    set rid, i | rid in before && i in Flips(before[rid], after[rid]) :: (rid, i)
  }

  ghost function Tagged(rid: string, places: set<nat>): set<(string, nat)>
  {
    set i | i in places :: (rid, i)
  }

  lemma {:induction false} TagCount(rid: string, places: set<nat>)
    ensures |Tagged(rid, places)| == |places|
    decreases places
  {
    if places != {} {
      var x: nat :| x in places;
      TagCount(rid, places - {x});
      assert Tagged(rid, places) == Tagged(rid, places - {x}) + {(rid, x)};
    }
  }

  /** Collapsing one more inbox adds its flips. */
  lemma {:induction false} MoreFlips(before: map<string, seq<Record>>, was: map<string, seq<Record>>, rid: string,
                                     out: seq<Record>)
    requires rid in before && was.Keys == before.Keys && was[rid] == before[rid] && |out| == |before[rid]|
    requires forall r :: r in before ==> |was[r]| == |before[r]|
    ensures |AllFlips(before, was[rid := out])| == |AllFlips(before, was)| + |Flips(before[rid], out)|
  {
    var mine := Tagged(rid, Flips(before[rid], out));
    TagCount(rid, Flips(before[rid], out));
    assert AllFlips(before, was[rid := out]) == AllFlips(before, was) + mine;
    assert AllFlips(before, was) !! mine;
  }

  /** The inboxes with all but those still to do collapsed. */
  ghost function Partway(before: map<string, seq<Record>>, todo: set<string>): (now: map<string, seq<Record>>)
    ensures now.Keys == before.Keys && forall rid :: rid in before ==> |now[rid]| == |before[rid]|
  {
    map rid | rid in before :: if rid in todo then before[rid] else Collapse(before[rid])
  }

  /** The recipients whose inbox changed. */
  ghost function Moved(before: map<string, seq<Record>>, after: map<string, seq<Record>>): set<string>
  {
    set rid | rid in before && rid in after && after[rid] != before[rid]
  }

  /** Collapsing one inbox of those to do. */
  lemma {:induction false} PartwayStep(before: map<string, seq<Record>>, todo: set<string>, rid: string)
    requires todo <= before.Keys && rid in todo
    ensures Partway(before, todo - {rid}) == Partway(before, todo)[rid := Collapse(before[rid])]
    ensures Collapse(before[rid]) == before[rid] ==> Partway(before, todo - {rid}) == Partway(before, todo)
    ensures |AllFlips(before, Partway(before, todo - {rid}))|
      == |AllFlips(before, Partway(before, todo))| + |Flips(before[rid], Collapse(before[rid]))|
    ensures |Moved(before, Partway(before, todo - {rid}))|
      == |Moved(before, Partway(before, todo))| + if Collapse(before[rid]) != before[rid] then 1 else 0
  {
    var was, out := Partway(before, todo), Collapse(before[rid]);
    assert was[rid := was[rid]] == was;
    assert Partway(before, todo - {rid}) == was[rid := out];
    MoreFlips(before, was, rid, out);
    MoreMoved(before, was, rid, out);
  }

  lemma {:induction false} MoreMoved(before: map<string, seq<Record>>, was: map<string, seq<Record>>, rid: string,
                                     out: seq<Record>)
    requires rid in before && was.Keys == before.Keys && was[rid] == before[rid]
    ensures |Moved(before, was[rid := out])| == |Moved(before, was)| + if out != before[rid] then 1 else 0
  {
    if out != before[rid] {
      assert Moved(before, was[rid := out]) == Moved(before, was) + {rid};
    } else {
      assert was[rid := out] == was;
    }
  }

  lemma {:induction false} PartwayEnds(before: map<string, seq<Record>>)
    ensures Partway(before, before.Keys) == before
    ensures AllFlips(before, before) == {} && Moved(before, before) == {}
    ensures forall rid :: Box(Partway(before, {}), rid) == Collapse(Box(before, rid))
  {
    assert Collapse([]) == [];
  }

  /** The loop over the inboxes. */
  method CollapseBoxes(inbox: FileInbox) returns (recipientsCollapsed: nat, digestsMarkedSeen: nat)
    modifies inbox
    ensures inbox.boxes == Partway(old(inbox.boxes), {})
    ensures digestsMarkedSeen == |AllFlips(old(inbox.boxes), Partway(old(inbox.boxes), {}))|
    ensures recipientsCollapsed == |Moved(old(inbox.boxes), Partway(old(inbox.boxes), {}))|
    ensures digestsMarkedSeen == 0 <==> recipientsCollapsed == 0
  {
    recipientsCollapsed, digestsMarkedSeen := 0, 0;
    var before := inbox.boxes;
    var todo := before.Keys;
    PartwayEnds(before);
    ghost var flipped, moved := AllFlips(before, before), Moved(before, before);
    while todo != {}
      invariant todo <= before.Keys && inbox.boxes == Partway(before, todo)
      invariant flipped == AllFlips(before, Partway(before, todo)) && digestsMarkedSeen == |flipped|
      invariant moved == Moved(before, Partway(before, todo)) && recipientsCollapsed == |moved|
      invariant digestsMarkedSeen == 0 <==> recipientsCollapsed == 0
      decreases todo
    {
      var rid :| rid in todo;
      var out, marked := CollapseBox(before[rid]);
      PartwayStep(before, todo, rid);
      todo := todo - {rid};
      flipped, moved := AllFlips(before, Partway(before, todo)), Moved(before, Partway(before, todo));
      if marked > 0 {
        inbox.boxes := inbox.boxes[rid := out];
        recipientsCollapsed, digestsMarkedSeen := recipientsCollapsed + 1, digestsMarkedSeen + marked;
      }
    }
  }

  method CollapseDigests(inbox: FileInbox) returns (recipientsCollapsed: nat, digestsMarkedSeen: nat)
    modifies inbox
    ensures inbox.boxes.Keys == old(inbox.boxes).Keys
    ensures forall rid :: Box(inbox.boxes, rid) == Collapse(Box(old(inbox.boxes), rid))
    ensures recipientsCollapsed == |Moved(old(inbox.boxes), inbox.boxes)|
    ensures forall rid :: rid in old(inbox.boxes) ==> |inbox.boxes[rid]| == |old(inbox.boxes)[rid]|
    ensures digestsMarkedSeen == |AllFlips(old(inbox.boxes), inbox.boxes)|
    ensures digestsMarkedSeen == 0 <==> recipientsCollapsed == 0
  {
    PartwayEnds(inbox.boxes);
    recipientsCollapsed, digestsMarkedSeen := CollapseBoxes(inbox);
  }
}
