/** One drain of an agent's inbox, and how many drains empty it. */
module Drain {
  import opened Common
  import opened Inbox
  import opened InboxTable

  const MAX_PUSH_PER_DRAIN: nat := 50

  /** The raw agent name, then the user id it resolves to when there is another. */
  function RecipientKeys(agentId: string, resolved: string): (keys: seq<string>)
    ensures Distinct(keys) && keys != [] && keys[0] == agentId && (resolved != "" ==> resolved in keys)
    ensures forall k :: k in keys ==> k == agentId || k == resolved
  {
    if resolved != "" && resolved != agentId then [agentId, resolved] else [agentId]
  }

  function CanSend(sends: string -> bool): Record -> bool
  {
    (r: Record) => sends(r.id)
  }

  /** What the client would accept, in drain order: key by key, oldest first. */
  ghost function Sendable(rows: seq<Row>, keys: seq<string>, sends: string -> bool): seq<Record>
    decreases |keys|
  {
    if keys == [] then []
    else
      Sendable(rows, keys[..|keys| - 1], sends)
      + Filter(Unseen(View(rows, keys[|keys| - 1])), CanSend(sends))
  }

  function Take<T>(s: seq<T>, n: nat): seq<T>
  {
    if |s| <= n then s else s[..n]
  }

  function Drop<T>(s: seq<T>, n: nat): seq<T>
  {
    if |s| <= n then [] else s[n..]
  }

  /** The ids pushed and then acknowledged. */
  function Acked(pushed: seq<Record>, acks: string -> bool): set<string>
  {
    set r | r in pushed && r.id != "" && acks(r.id) :: r.id
  }

  /** Every recipient's records are as before, with exactly these ids now seen. */
  ghost predicate MarkedBy(rows: seq<Row>, after: seq<Row>, ids: set<string>)
  {
    forall k :: View(after, k) == Mark(View(rows, k), IdIn(ids))
  }

  /** Drains once. `sends` and `acks` say which pushes and which acknowledgements
      succeed; a failed push leaves the record for the next drain. The poll loop
      only runs for a non-empty agent name. */
  method DrainOnce(inbox: TableInbox, keys: seq<string>, sends: string -> bool, acks: string -> bool)
    returns (pushed: seq<Record>)
    requires KeyedById(inbox.rows) && Distinct(keys) && "" !in keys
    modifies inbox
    ensures KeyedById(inbox.rows)
    ensures pushed == Take(Sendable(old(inbox.rows), keys, sends), MAX_PUSH_PER_DRAIN)
    ensures MarkedBy(old(inbox.rows), inbox.rows, Acked(pushed, acks))
  {
    pushed := [];
    ghost var rows := inbox.rows;
    forall k ensures Mark(View(rows, k), IdIn({})) == View(rows, k) {}
    assert Acked(pushed, acks) == {};
    for i := 0 to |keys|
      invariant KeyedById(inbox.rows)
      invariant pushed == Take(Sendable(rows, keys[..i], sends), MAX_PUSH_PER_DRAIN)
      invariant MarkedBy(rows, inbox.rows, Acked(pushed, acks))
    {
      if |pushed| >= MAX_PUSH_PER_DRAIN {
        TakeOfMore(rows, keys, i, sends);
        return;
      }
      assert keys[..i + 1][..i] == keys[..i] && keys[i] in keys;
      pushed := DrainKey(inbox, keys, i, sends, acks, rows, pushed);
    }
    assert keys[..|keys|] == keys;
  }

  /** The inner loop of a drain, over one key's polled records. */
  method DrainKey(inbox: TableInbox, keys: seq<string>, i: nat, sends: string -> bool, acks: string -> bool,
                  ghost rows: seq<Row>, before: seq<Record>)
    returns (pushed: seq<Record>)
    requires KeyedById(inbox.rows) && KeyedById(rows) && Distinct(keys) && i < |keys| && keys[i] != ""
    requires |before| < MAX_PUSH_PER_DRAIN
    requires before == Take(Sendable(rows, keys[..i], sends), MAX_PUSH_PER_DRAIN)
    requires MarkedBy(rows, inbox.rows, Acked(before, acks))
    modifies inbox
    ensures KeyedById(inbox.rows)
    ensures pushed == Take(Sendable(rows, keys[..i + 1], sends), MAX_PUSH_PER_DRAIN)
    ensures MarkedBy(rows, inbox.rows, Acked(pushed, acks))
  {
    var key := keys[i];
    UndrainedKeyUntouched(rows, keys, i, sends, acks, before);
    var records := inbox.Poll(key, true, false);
    assert records == Unseen(View(rows, key));
    assert keys[..i + 1][..i] == keys[..i];
    pushed := PushRecords(inbox, key, records, sends, acks, rows, before);
  }

  /** Pushes one key's polled records until they or the cap run out. */
  method PushRecords(inbox: TableInbox, key: string, records: seq<Record>, sends: string -> bool, acks: string -> bool,
                     ghost rows: seq<Row>, before: seq<Record>)
    returns (pushed: seq<Record>)
    requires KeyedById(inbox.rows) && KeyedById(rows) && key != "" && |before| < MAX_PUSH_PER_DRAIN
    requires records == Unseen(View(rows, key)) && MarkedBy(rows, inbox.rows, Acked(before, acks))
    modifies inbox
    ensures KeyedById(inbox.rows)
    ensures pushed == Take(before + Filter(records, CanSend(sends)), MAX_PUSH_PER_DRAIN)
    ensures MarkedBy(rows, inbox.rows, Acked(pushed, acks))
  {
    pushed := before;
    var j := 0;
    while j < |records| && |pushed| < MAX_PUSH_PER_DRAIN
      invariant j <= |records| && KeyedById(inbox.rows)
      invariant pushed == before + Filter(records[..j], CanSend(sends)) && |pushed| <= MAX_PUSH_PER_DRAIN
      invariant MarkedBy(rows, inbox.rows, Acked(pushed, acks))
    {
      var rec := records[j];
      FilterTakeStep(records, j, CanSend(sends));
      if sends(rec.id) {
        assert rec in records;
        AckPushed(inbox, key, rec, acks, rows, pushed);
        pushed := pushed + [rec];
      }
      j := j + 1;
    }
    CapReached(before, records, j, CanSend(sends));
  }

  /** Stopping at the cap or at the end takes the capped prefix of the whole. */
  lemma {:induction false} CapReached(before: seq<Record>, records: seq<Record>, j: nat, p: Record -> bool)
    requires j <= |records| && |before + Filter(records[..j], p)| <= MAX_PUSH_PER_DRAIN
    requires j == |records| || |before + Filter(records[..j], p)| == MAX_PUSH_PER_DRAIN
    ensures before + Filter(records[..j], p) == Take(before + Filter(records, p), MAX_PUSH_PER_DRAIN)
  {
    FilterConcat(records[..j], records[j..], p);
    assert records[..j] + records[j..] == records;
    assert before + Filter(records, p) == (before + Filter(records[..j], p)) + Filter(records[j..], p);
  }

  /** Acknowledges one pushed record, if its acknowledgement succeeds. */
  method AckPushed(inbox: TableInbox, key: string, rec: Record, acks: string -> bool,
                   ghost rows: seq<Row>, ghost pushed: seq<Record>)
    requires KeyedById(inbox.rows) && KeyedById(rows) && key != ""
    requires rec in Unseen(View(rows, key))
    requires MarkedBy(rows, inbox.rows, Acked(pushed, acks))
    modifies inbox
    ensures KeyedById(inbox.rows)
    ensures MarkedBy(rows, inbox.rows, Acked(pushed + [rec], acks))
  {
    if rec.id != "" && acks(rec.id) {
      ghost var marked := inbox.rows;
      var flipped := inbox.Ack(key, [rec.id]);
      AckExtendsMark(rows, marked, inbox.rows, key, rec, Acked(pushed, acks));
    }
  }

  /** Acknowledging one polled record adds its id, and only its id, to the marks. */
  lemma {:induction false} AckExtendsMark(rows: seq<Row>, marked: seq<Row>, after: seq<Row>, key: string, rec: Record,
                                          ids: set<string>)
    requires KeyedById(rows) && rec.id != ""
    requires rec in Unseen(View(rows, key))
    requires MarkedBy(rows, marked, ids)
    requires View(after, key) == Mark(View(marked, key), AckSelects(Wanted([rec.id])))
    requires forall k :: k != key ==> View(after, k) == View(marked, k)
    ensures MarkedBy(rows, after, ids + {rec.id})
  {
    var more := ids + {rec.id};
    assert Wanted([rec.id]) == {rec.id} by { assert rec.id in [rec.id]; }
    FilterMembers(View(rows, key), Selects(true));
    forall k ensures View(after, k) == Mark(View(rows, k), IdIn(more)) {
      var v := View(rows, k);
      if k == key {
        assert Mark(Mark(v, IdIn(ids)), AckSelects({rec.id})) == Mark(v, IdIn(more));
      } else {
        forall m | 0 <= m < |v| ensures v[m].id != rec.id {
          assert v[m] in v;
          if v[m].id == rec.id { IdNamesOneKey(rows, k, v[m], key, rec); }
        }
        assert Mark(v, IdIn(ids)) == Mark(v, IdIn(more));
      }
    }
  }

  lemma {:induction false} IdNamesOneKey(rows: seq<Row>, k: string, r: Record, key: string, rec: Record)
    requires KeyedById(rows) && r in View(rows, k) && rec in View(rows, key) && r.id == rec.id
    ensures k == key && r == rec
  {
    ViewMembers(rows, k);
    ViewMembers(rows, key);
    SameIdSameRow(rows, Row(k, r), Row(key, rec));
  }

  lemma {:induction false} SendableMembers(rows: seq<Row>, keys: seq<string>, sends: string -> bool, r: Record)
    ensures r in Sendable(rows, keys, sends)
       <==> !r.seen && sends(r.id) && OnKeys(rows, keys, r)
    decreases |keys|
  {
    if keys != [] {
      var last := keys[|keys| - 1];
      var front := keys[..|keys| - 1];
      SendableMembers(rows, front, sends, r);
      FilterMembers(Unseen(View(rows, last)), CanSend(sends));
      FilterMembers(View(rows, last), Selects(true));
      assert keys == front + [last];
      assert OnKeys(rows, keys, r) <==> OnKeys(rows, front, r) || r in View(rows, last) by {
        if OnKeys(rows, keys, r) {
          var k :| k in keys && r in View(rows, k);
          assert k in front || k == last;
        }
        assert last in keys;
      }
    }
  }

  ghost predicate OnKeys(rows: seq<Row>, keys: seq<string>, r: Record)
  {
    exists k :: k in keys && r in View(rows, k)
  }

  /** Draining earlier keys has not touched the records of this one. */
  lemma {:induction false} UndrainedKeyUntouched(rows: seq<Row>, keys: seq<string>, i: nat, sends: string -> bool,
                              acks: string -> bool, pushed: seq<Record>)
    requires KeyedById(rows) && Distinct(keys) && i < |keys|
    requires pushed == Take(Sendable(rows, keys[..i], sends), MAX_PUSH_PER_DRAIN)
    ensures Mark(View(rows, keys[i]), IdIn(Acked(pushed, acks))) == View(rows, keys[i])
  {
    var v := View(rows, keys[i]);
    forall m | 0 <= m < |v| ensures v[m].id !in Acked(pushed, acks) {
      assert v[m] in v;
      if r :| r in pushed && r.id == v[m].id {
        SendableMembers(rows, keys[..i], sends, r);
        var k :| k in keys[..i] && r in View(rows, k);
        IdNamesOneKey(rows, k, r, keys[i], v[m]);
      }
    }
  }

  lemma {:induction false} TakeOfMore(rows: seq<Row>, keys: seq<string>, i: nat, sends: string -> bool)
    requires i <= |keys| && |Sendable(rows, keys[..i], sends)| >= MAX_PUSH_PER_DRAIN
    ensures Take(Sendable(rows, keys, sends), MAX_PUSH_PER_DRAIN)
         == Take(Sendable(rows, keys[..i], sends), MAX_PUSH_PER_DRAIN)
    decreases |keys|
  {
    if i == |keys| {
      assert keys[..i] == keys;
    } else {
      assert keys[..|keys| - 1][..i] == keys[..i];
      TakeOfMore(rows, keys[..|keys| - 1], i, sends);
      var front := Sendable(rows, keys[..|keys| - 1], sends);
      SendableGrows(rows, keys[..|keys| - 1], i, sends);
    }
  }

  lemma {:induction false} SendableGrows(rows: seq<Row>, keys: seq<string>, i: nat, sends: string -> bool)
    requires i <= |keys|
    ensures |Sendable(rows, keys, sends)| >= |Sendable(rows, keys[..i], sends)|
    decreases |keys|
  {
    if i == |keys| {
      assert keys[..i] == keys;
    } else {
      assert keys[..|keys| - 1][..i] == keys[..i];
      SendableGrows(rows, keys[..|keys| - 1], i, sends);
    }
  }

  // --- repeated drains ----------------------------------------------------

  function NotIn(ids: set<string>): Record -> bool
  {
    (r: Record) => r.id !in ids
  }

  lemma {:induction false} UnseenAfterMark(v: seq<Record>, ids: set<string>)
    ensures Unseen(Mark(v, IdIn(ids))) == Filter(Unseen(v), NotIn(ids))
  {
    if v != [] {
      UnseenAfterMark(v[1..], ids);
      assert Mark(v, IdIn(ids))[1..] == Mark(v[1..], IdIn(ids));
      var rest := Unseen(v[1..]);
      assert ([v[0]] + rest)[0] == v[0] && ([v[0]] + rest)[1..] == rest;
    }
  }

  lemma {:induction false} FiltersCommute(s: seq<Record>, p: Record -> bool, q: Record -> bool)
    ensures Filter(Filter(s, p), q) == Filter(Filter(s, q), p)
  {
    if s != [] {
      FiltersCommute(s[1..], p, q);
      var ps, qs := Filter(s[1..], p), Filter(s[1..], q);
      assert ([s[0]] + ps)[0] == s[0] && ([s[0]] + ps)[1..] == ps;
      assert ([s[0]] + qs)[0] == s[0] && ([s[0]] + qs)[1..] == qs;
    }
  }

  /** What is sendable after a drain is what was sendable minus the marked ids. */
  lemma {:induction false} SendableAfterMark(rows: seq<Row>, after: seq<Row>, keys: seq<string>,
                                             sends: string -> bool, ids: set<string>)
    requires MarkedBy(rows, after, ids)
    ensures Sendable(after, keys, sends) == Filter(Sendable(rows, keys, sends), NotIn(ids))
    decreases |keys|
  {
    if keys != [] {
      var front, v := keys[..|keys| - 1], View(rows, keys[|keys| - 1]);
      SendableAfterMark(rows, after, front, sends, ids);
      UnseenAfterMark(v, ids);
      FiltersCommute(Unseen(v), NotIn(ids), CanSend(sends));
      FilterConcat(Sendable(rows, front, sends), Filter(Unseen(v), CanSend(sends)), NotIn(ids));
    }
  }

  /** Ids do not repeat along the drain order. */
  lemma {:induction false} SendableDistinct(rows: seq<Row>, keys: seq<string>, sends: string -> bool)
    requires KeyedById(rows) && Distinct(keys)
    ensures UniqueIds(Sendable(rows, keys, sends))
    decreases |keys|
  {
    if keys != [] {
      var front, last := keys[..|keys| - 1], keys[|keys| - 1];
      SendableDistinct(rows, front, sends);
      ViewDistinct(rows, last);
      var head, tail := Sendable(rows, front, sends), Filter(Unseen(View(rows, last)), CanSend(sends));
      FilterKeepsPairs(View(rows, last), Selects(true), (r: Record, s: Record) => r.id != s.id);
      FilterKeepsPairs(Unseen(View(rows, last)), CanSend(sends), (r: Record, s: Record) => r.id != s.id);
      FilterMembers(Unseen(View(rows, last)), CanSend(sends));
      FilterMembers(View(rows, last), Selects(true));
      forall i, j | 0 <= i < |head| && 0 <= j < |tail| ensures head[i].id != tail[j].id {
        SendableMembers(rows, front, sends, head[i]);
        assert tail[j] in tail && head[i] in head;
        var k :| k in front && head[i] in View(rows, k);
        if head[i].id == tail[j].id {
          IdNamesOneKey(rows, k, head[i], last, tail[j]);
        }
      }
    }
  }

  lemma {:induction false} ViewDistinct(rows: seq<Row>, k: string)
    requires KeyedById(rows)
    ensures UniqueIds(View(rows, k))
  {
    if rows != [] {
      ViewDistinct(rows[1..], k);
      ViewMembers(rows[1..], k);
      forall r | r in View(rows[1..], k) ensures r.id != rows[0].rec.id {
        var j :| 0 <= j < |rows[1..]| && rows[1..][j] == Row(k, r);
        assert rows[j + 1] == Row(k, r);
      }
      forall j | 0 <= j < |View(rows[1..], k)| ensures View(rows[1..], k)[j].id != rows[0].rec.id {
        assert View(rows[1..], k)[j] in View(rows[1..], k);
      }
    }
  }

  /** Removing the ids of a prefix of a list with distinct ids drops the prefix. */
  lemma {:induction false} DropPrefixIds(s: seq<Record>, n: nat)
    requires UniqueIds(s) && n <= |s|
    ensures Filter(s, NotIn(IdsOf(s[..n]))) == s[n..]
  {
    var head, tail := s[..n], s[n..];
    var p := NotIn(IdsOf(head));
    assert s == head + tail;
    FilterConcat(head, tail, p);
    FilterNone(head, p);
    forall r | r in tail ensures p(r) {
      var j :| 0 <= j < |tail| && tail[j] == r;
      forall h | h in head ensures h.id != r.id {
        var i :| 0 <= i < n && s[i] == h;
        assert s[n + j] == r;
      }
    }
    FilterAll(tail, p);
  }

  /** Every acknowledgement succeeds. */
  function AllAcks(): string -> bool
  {
    (id: string) => true
  }

  /** After one drain with working acknowledgements, the backlog is what it was
      without its first fifty sendable records. */
  lemma {:induction false} DrainShortensBacklog(rows: seq<Row>, after: seq<Row>, keys: seq<string>,
                                                sends: string -> bool,
                             pushed: seq<Record>)
    requires KeyedById(rows) && Distinct(keys) && forall i :: 0 <= i < |rows| ==> rows[i].rec.id != ""
    requires pushed == Take(Sendable(rows, keys, sends), MAX_PUSH_PER_DRAIN)
    requires MarkedBy(rows, after, Acked(pushed, AllAcks()))
    ensures Sendable(after, keys, sends) == Drop(Sendable(rows, keys, sends), MAX_PUSH_PER_DRAIN)
  {
    var s := Sendable(rows, keys, sends);
    SendableDistinct(rows, keys, sends);
    SendableAfterMark(rows, after, keys, sends, Acked(pushed, AllAcks()));
    forall r | r in s ensures r.id != "" {
      SendableMembers(rows, keys, sends, r);
      var k :| k in keys && r in View(rows, k);
      ViewMembers(rows, k);
    }
    assert Acked(pushed, AllAcks()) == IdsOf(pushed);
    DropPrefixIds(s, if |s| <= MAX_PUSH_PER_DRAIN then |s| else MAX_PUSH_PER_DRAIN);
    assert s[..|s|] == s;
  }

  /** Main result. On an inbox nobody else touches, `n` drains push exactly the
      first 50·n sendable records, in order and each once; what is left is the
      rest. So N sendable records take ceil(N / 50) drains, and records that always
      fail to send never delay the others. */
  method DrainTimes(inbox: TableInbox, keys: seq<string>, sends: string -> bool, n: nat)
    returns (pushed: seq<Record>)
    requires KeyedById(inbox.rows) && Distinct(keys) && "" !in keys
    requires forall i :: 0 <= i < |inbox.rows| ==> inbox.rows[i].rec.id != ""
    modifies inbox
    ensures pushed == Take(Sendable(old(inbox.rows), keys, sends), 50 * n)
    ensures Sendable(inbox.rows, keys, sends) == Drop(Sendable(old(inbox.rows), keys, sends), 50 * n)
  {
    pushed := [];
    ghost var all := Sendable(inbox.rows, keys, sends);
    for i := 0 to n
      invariant KeyedById(inbox.rows)
      invariant forall i :: 0 <= i < |inbox.rows| ==> inbox.rows[i].rec.id != ""
      invariant pushed == Take(all, MAX_PUSH_PER_DRAIN * i)
      invariant Sendable(inbox.rows, keys, sends) == Drop(all, MAX_PUSH_PER_DRAIN * i)
    {
      ghost var rows := inbox.rows;
      var batch := DrainOnce(inbox, keys, sends, AllAcks());
      DrainShortensBacklog(rows, inbox.rows, keys, sends, batch);
      NamedRowsStay(rows, inbox.rows, IdIn(Acked(batch, AllAcks())));
      pushed := pushed + batch;
    }
  }

  /** Marking rows does not invent a row without an id. */
  lemma {:induction false} NamedRowsStay(rows: seq<Row>, after: seq<Row>, p: Record -> bool)
    requires forall i :: 0 <= i < |rows| ==> rows[i].rec.id != ""
    requires forall k :: View(after, k) == Mark(View(rows, k), p)
    ensures forall i :: 0 <= i < |after| ==> after[i].rec.id != ""
  {
    forall i | 0 <= i < |after| ensures after[i].rec.id != "" {
      var k := after[i].recipient;
      ViewMembers(after, k);
      ViewMembers(rows, k);
      assert after[i] == Row(k, after[i].rec) && after[i] in after;
      var m :| 0 <= m < |View(after, k)| && View(after, k)[m] == after[i].rec;
      assert View(rows, k)[m] in View(rows, k);
    }
  }
}
