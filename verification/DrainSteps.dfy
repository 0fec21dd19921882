/** The drain as one call and the drain as a run of steps agree: left alone, the steps push
    and mark exactly what the call does. */
module DrainSteps {
  import opened Common
  import opened Inbox
  import opened InboxTable
  import opened Delivery
  import D = Drain

  /** The steps of drain `d` over its remaining records: each is sent; what was sent is
      acknowledged before the next; after `room` sends, or at the end, the drain stops. */
  ghost function PushEvents(d: nat, queue: seq<Record>, room: nat, sends: string -> bool,
                            acks: string -> bool): seq<Event>
    decreases |queue|
  {
    if queue == [] || room == 0 then [Abandon(d)]
    else if sends(queue[0].id) then
      [Send(d, true), AckSent(d, acks(queue[0].id))] + PushEvents(d, queue[1..], room - 1, sends, acks)
    else [Send(d, false)] + PushEvents(d, queue[1..], room, sends, acks)
  }

  /** What a drain of one recipient leaves: its sends delivered, its acknowledged records
      marked, everything else as it was. */
  ghost predicate Drained(s: System, t: System, d: nat, rid: string, pushed: seq<Record>, acks: string -> bool)
  {
    && t.log == s.log && t.drains == s.drains - {d}
    && t.delivered == s.delivered + IdsOf(pushed)
    && Box(t.boxes, rid) == Mark(Box(s.boxes, rid), IdIn(D.Acked(pushed, acks)))
    && forall k :: k != rid ==> Box(t.boxes, k) == Box(s.boxes, k)
  }

  lemma {:induction false} AfterConcat(b: Backend, s: System, es: seq<Event>, fs: seq<Event>)
    ensures After(b, s, es + fs) == After(b, After(b, s, es), fs)
    decreases |es|
  {
    if es == [] {
      assert es + fs == fs;
    } else {
      assert (es + fs)[0] == es[0] && (es + fs)[1..] == es[1..] + fs;
      AfterConcat(b, Next(b, s, es[0]), es[1..], fs);
    }
  }

  /** One record sent and acknowledged. */
  lemma {:induction false} SentThenAcked(b: Backend, s: System, d: nat, rid: string, queue: seq<Record>, ack: bool)
    returns (t: System)
    requires d in s.drains && s.drains[d] == Pushing(rid, queue) && queue != []
    ensures t == After(b, s, [Send(d, true), AckSent(d, ack)])
    ensures t.log == s.log && t.drains == s.drains[d := Pushing(rid, queue[1..])]
    ensures t.delivered == s.delivered + {queue[0].id}
    ensures
      var hit := if ack && queue[0].id != "" then {queue[0].id} else {};
      Box(t.boxes, rid) == Mark(Box(s.boxes, rid), IdIn(hit))
    ensures forall k :: k != rid ==> Box(t.boxes, k) == Box(s.boxes, k)
  {
    var es := [Send(d, true), AckSent(d, ack)];
    assert es[1..] == [AckSent(d, ack)] && es[1..][1..] == [];
    var mid := Next(b, s, es[0]);
    t := Next(b, mid, es[1]);
    assert After(b, mid, es[1..]) == After(b, t, []);
  }

  lemma {:induction false} PushedCons(r: Record, rest: seq<Record>, acks: string -> bool)
    ensures IdsOf([r] + rest) == {r.id} + IdsOf(rest)
    ensures D.Acked([r] + rest, acks) == (if acks(r.id) && r.id != "" then {r.id} else {}) + D.Acked(rest, acks)
  {
    forall x ensures x in [r] + rest <==> x == r || x in rest {
      assert ([r] + rest)[0] == r;
    }
  }

  /** One sent record more in front of a drained rest. */
  lemma {:induction false} DrainedCons(s: System, t: System, u: System, d: nat, rid: string, r: Record, ack: bool,
                                       rest: seq<Record>, acks: string -> bool)
    requires Drained(t, u, d, rid, rest, acks) && ack == acks(r.id)
    requires t.log == s.log && t.drains - {d} == s.drains - {d} && t.delivered == s.delivered + {r.id}
    requires
      var hit := if ack && r.id != "" then {r.id} else {};
      Box(t.boxes, rid) == Mark(Box(s.boxes, rid), IdIn(hit))
    requires forall k :: k != rid ==> Box(t.boxes, k) == Box(s.boxes, k)
    ensures Drained(s, u, d, rid, [r] + rest, acks)
  {
    PushedCons(r, rest, acks);
  }

  lemma {:induction false} TakeCons(queue: seq<Record>, room: nat, sends: string -> bool)
    requires queue != [] && room > 0 && sends(queue[0].id)
    ensures D.Take(Filter(queue, D.CanSend(sends)), room)
         == [queue[0]] + D.Take(Filter(queue[1..], D.CanSend(sends)), room - 1)
  {
  }

  lemma {:induction false} DrainStops(b: Backend, s: System, d: nat, rid: string, acks: string -> bool)
    ensures Drained(s, After(b, s, [Abandon(d)]), d, rid, [], acks)
  {
    assert [Abandon(d)][1..] == [];
    assert After(b, s, [Abandon(d)]) == Next(b, s, Abandon(d));
    assert Mark(Box(s.boxes, rid), IdIn({})) == Box(s.boxes, rid);
  }

  lemma {:induction false} PushRun(b: Backend, s: System, d: nat, rid: string, queue: seq<Record>, room: nat,
                                   sends: string -> bool, acks: string -> bool)
    requires d in s.drains && s.drains[d] == Pushing(rid, queue)
    ensures Drained(s, After(b, s, PushEvents(d, queue, room, sends, acks)), d, rid,
                    D.Take(Filter(queue, D.CanSend(sends)), room), acks)
    decreases |queue|
  {
    var es := PushEvents(d, queue, room, sends, acks);
    if queue == [] || room == 0 {
      DrainStops(b, s, d, rid, acks);
    } else if sends(queue[0].id) {
      var ack := acks(queue[0].id);
      var t := SentThenAcked(b, s, d, rid, queue, ack);
      AfterConcat(b, s, [Send(d, true), AckSent(d, ack)], PushEvents(d, queue[1..], room - 1, sends, acks));
      PushRun(b, t, d, rid, queue[1..], room - 1, sends, acks);
      DrainedCons(s, t, After(b, s, es), d, rid, queue[0], ack,
                  D.Take(Filter(queue[1..], D.CanSend(sends)), room - 1), acks);
      TakeCons(queue, room, sends);
    } else {
      SkippedOne(b, s, d, rid, queue, PushEvents(d, queue[1..], room, sends, acks));
      PushRun(b, Next(b, s, Send(d, false)), d, rid, queue[1..], room, sends, acks);
    }
  }

  lemma {:induction false} SkippedOne(b: Backend, s: System, d: nat, rid: string, queue: seq<Record>, es: seq<Event>)
    requires d in s.drains && s.drains[d] == Pushing(rid, queue) && queue != []
    ensures
      var t := Next(b, s, Send(d, false));
      && After(b, s, [Send(d, false)] + es) == After(b, t, es)
      && t == s.(drains := s.drains[d := Pushing(rid, queue[1..])])
  {
    var all := [Send(d, false)] + es;
    assert all[0] == Send(d, false) && all[1..] == es;
  }

  /** The call's own backlog of one recipient. */
  lemma {:induction false} OneKeyBacklog(rows: seq<Row>, rid: string, sends: string -> bool)
    ensures D.Sendable(rows, [rid], sends) == Filter(Unseen(View(rows, rid)), D.CanSend(sends))
  {
    assert [rid][..0] == [];
  }

  /** Main result. A drain of one recipient that nothing interrupts pushes the first `room`
      records of the backlog the drain call works off, and marks those acknowledged, as
      that call does, on either backend. */
  lemma {:induction false} QuietDrain(b: Backend, s: System, rows: seq<Row>, d: nat, rid: string, room: nat,
                                      sends: string -> bool, acks: string -> bool)
    requires d !in s.drains && View(rows, rid) == Box(s.boxes, rid)
    ensures
      var es := [Snapshot(d, rid)] + PushEvents(d, Unseen(Box(s.boxes, rid)), room, sends, acks);
      Drained(s, After(b, s, es), d, rid, D.Take(D.Sendable(rows, [rid], sends), room), acks)
  {
    var queue := Unseen(Box(s.boxes, rid));
    var es := PushEvents(d, queue, room, sends, acks);
    AfterConcat(b, s, [Snapshot(d, rid)], es);
    var t := Next(b, s, Snapshot(d, rid));
    assert [Snapshot(d, rid)][1..] == [];
    assert After(b, s, [Snapshot(d, rid)]) == t;
    PushRun(b, t, d, rid, queue, room, sends, acks);
    OneKeyBacklog(rows, rid, sends);
  }
}
