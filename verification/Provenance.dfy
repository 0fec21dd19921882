/** What is delivered is what was enqueued, in every field, along every run. */
module Provenance {
  import opened Common
  import opened Inbox
  import opened InboxTable
  import opened Delivery

  /** Everything but the `seen` flag. */
  predicate SameContent(r: Record, n: Record)
  {
    && r.id == n.id && r.eventType == n.eventType && r.cardId == n.cardId
    && r.body == n.body && r.actor == n.actor && r.ts == n.ts
  }

  /** Some enqueue of the run gave that recipient this record. */
  ghost predicate Given(es: seq<Event>, rid: string, r: Record)
  {
    exists m :: 0 <= m < |es| && es[m].Enqueue? && es[m].rid == rid && SameContent(r, es[m].n)
  }

  ghost predicate AllGiven(es: seq<Event>, rid: string, records: seq<Record>)
  {
    forall r :: r in records ==> Given(es, rid, r)
  }

  ghost predicate DrainGiven(es: seq<Event>, d: Drain)
  {
    AllGiven(es, d.key, d.queue) && (d.Acking? ==> Given(es, d.key, d.rec))
  }

  /** Every record stored, logged or held by a drain was given by an enqueue. */
  ghost predicate Sourced(s: System, es: seq<Event>)
  {
    && (forall rid :: AllGiven(es, rid, Box(s.boxes, rid)))
    && (forall k :: 0 <= k < |s.log| ==> Given(es, s.log[k].recipient, s.log[k].rec) && !s.log[k].rec.seen)
    && (forall d :: d in s.drains ==> DrainGiven(es, s.drains[d]))
  }

  lemma {:induction false} GivenLater(es: seq<Event>, e: Event, rid: string, r: Record)
    requires Given(es, rid, r)
    ensures Given(es + [e], rid, r)
  {
    var m :| 0 <= m < |es| && es[m].Enqueue? && es[m].rid == rid && SameContent(r, es[m].n);
    assert (es + [e])[m] == es[m];
  }

  lemma {:induction false} SourcedLater(s: System, es: seq<Event>, e: Event)
    requires Sourced(s, es)
    ensures Sourced(s, es + [e])
  {
    forall rid, r | Given(es, rid, r) ensures Given(es + [e], rid, r) {
      GivenLater(es, e, rid, r);
    }
    forall rid, r | r in Box(s.boxes, rid) ensures Given(es + [e], rid, r) {
      assert AllGiven(es, rid, Box(s.boxes, rid));
    }
    forall d | d in s.drains ensures DrainGiven(es + [e], s.drains[d]) {
      assert DrainGiven(es, s.drains[d]);
    }
  }

  lemma {:induction false} MarkGiven(es: seq<Event>, rid: string, records: seq<Record>, p: Record -> bool)
    requires AllGiven(es, rid, records)
    ensures AllGiven(es, rid, Mark(records, p))
  {
    forall r | r in Mark(records, p) ensures Given(es, rid, r) {
      var q := MarkedFrom(records, p, r);
      var m :| 0 <= m < |es| && es[m].Enqueue? && es[m].rid == rid && SameContent(q, es[m].n);
      assert SameContent(r, es[m].n);
    }
  }

  /** What an enqueue leaves in the list it was made for. */
  lemma {:induction false} ListGiven(b: Backend, box: seq<Record>, es: seq<Event>, e: Event)
    requires e.Enqueue? && 0 < |es| && es[|es| - 1] == e && AllGiven(es, e.rid, box)
    ensures
      var (after, reply) := EnqueueBox(b, box, e.n, e.supersede);
      && AllGiven(es, e.rid, after)
      && (reply.Some? ==> Given(es, e.rid, reply.value) && !reply.value.seen)
  {
    EnqueueMeans(b, box, e.n, e.supersede);
    var (after, reply) := EnqueueBox(b, box, e.n, e.supersede);
    if reply.Some? {
      assert SameContent(reply.value, e.n);
      assert after == after[..|after| - 1] + [reply.value];
    }
  }

  lemma {:induction false} EnqueueGiven(b: Backend, s: System, es: seq<Event>, e: Event)
    requires Sourced(s, es) && e.Enqueue? && 0 < |es| && es[|es| - 1] == e
    ensures Sourced(Next(b, s, e), es)
  {
    if e.rid != "" {
      assert AllGiven(es, e.rid, Box(s.boxes, e.rid));
      ListGiven(b, Box(s.boxes, e.rid), es, e);
      var t := Next(b, s, e);
      forall rid ensures AllGiven(es, rid, Box(t.boxes, rid)) {
        assert AllGiven(es, rid, Box(s.boxes, rid));
      }
    }
  }

  lemma {:induction false} OtherGiven(b: Backend, s: System, es: seq<Event>, e: Event)
    requires Sourced(s, es) && !e.Enqueue?
    ensures Sourced(Next(b, s, e), es)
  {
    var t := Next(b, s, e);
    forall rid ensures AllGiven(es, rid, Box(t.boxes, rid)) {
      assert AllGiven(es, rid, Box(s.boxes, rid));
      match e
      case PollMark(r, unseenOnly) => MarkGiven(es, rid, Box(s.boxes, rid), Selects(unseenOnly));
      case AckSent(d, ok) =>
        if d in s.drains && s.drains[d].Acking? {
          MarkGiven(es, rid, Box(s.boxes, rid), AckSelects({s.drains[d].rec.id}));
        }
      case _ =>
    }
    forall d | d in t.drains ensures DrainGiven(es, t.drains[d]) {
      if d in s.drains {
        assert DrainGiven(es, s.drains[d]);
      } else if e.Snapshot? {
        FilterMembers(Box(s.boxes, e.rid), Selects(true));
        assert AllGiven(es, e.rid, Box(s.boxes, e.rid));
      }
    }
  }

  lemma {:induction false} RunSourced(b: Backend, s: System, past: seq<Event>, es: seq<Event>)
    requires Sourced(s, past)
    ensures Sourced(After(b, s, es), past + es)
    decreases |es|
  {
    if es == [] {
      assert past + es == past;
    } else {
      SourcedLater(s, past, es[0]);
      var now := past + [es[0]];
      if es[0].Enqueue? {
        EnqueueGiven(b, s, now, es[0]);
      } else {
        OtherGiven(b, s, now, es[0]);
      }
      RunSourced(b, Next(b, s, es[0]), now, es[1..]);
      assert now + es[1..] == past + es;
    }
  }

  /** Main result. On either backend, at every point of every run, each record accepted,
      stored, polled or about to be pushed has the recipient, event, card, text, actor and
      timestamp of an enqueue made before. */
  lemma {:induction false} DeliveredAsEnqueued(b: Backend, es: seq<Event>, k: nat)
    requires k <= |es|
    ensures
      var s := After(b, START, es[..k]);
      && (forall j :: 0 <= j < |s.log| ==> Given(es[..k], s.log[j].recipient, s.log[j].rec))
      && (forall rid, u, r :: r in Filter(Box(s.boxes, rid), Selects(u)) ==> Given(es[..k], rid, r))
      && (forall d :: d in s.drains && s.drains[d].queue != [] ==>
            Given(es[..k], s.drains[d].key, s.drains[d].queue[0]))
  {
    assert Sourced(START, []);
    RunSourced(b, START, [], es[..k]);
    assert [] + es[..k] == es[..k];
    var s := After(b, START, es[..k]);
    forall rid, u, r | r in Filter(Box(s.boxes, rid), Selects(u)) ensures Given(es[..k], rid, r) {
      FilterMembers(Box(s.boxes, rid), Selects(u));
      assert AllGiven(es[..k], rid, Box(s.boxes, rid));
    }
    forall d | d in s.drains && s.drains[d].queue != []
      ensures Given(es[..k], s.drains[d].key, s.drains[d].queue[0])
    {
      assert DrainGiven(es[..k], s.drains[d]);
      assert s.drains[d].queue[0] in s.drains[d].queue;
    }
  }
}
