/** Push-then-acknowledge delivery, interleaved with enqueues: no accepted
    notification is lost, on every run. */
module Delivery {
  import opened Common
  import opened Inbox
  import opened InboxTable

  /** One drain at work on a recipient key: the polled records still to push, and
      possibly one record pushed but not yet acknowledged. */
  datatype Drain =
    | Pushing(key: string, queue: seq<Record>)
    | Acking(key: string, rec: Record, queue: seq<Record>)

  /** A record the inbox accepted. */
  datatype Accepted = Accepted(recipient: string, rec: Record, supersede: bool)

  /** `log` and `delivered` are history; `boxes` is the stored state. */
  datatype System = System(
    boxes: map<string, seq<Record>>, log: seq<Accepted>, delivered: set<string>, drains: map<nat, Drain>)

  datatype Event =
    | Enqueue(rid: string, n: Record, supersede: bool)
    | PollMark(rid: string, unseenOnly: bool)
    | Snapshot(d: nat, rid: string)
    | Send(d: nat, ok: bool)
    | AckSent(d: nat, ok: bool)
    | Abandon(d: nat)

  function Next(b: Backend, s: System, e: Event): System
  {
    match e
    case Enqueue(rid, n, supersede) =>
      if rid == "" then s else
      var (box, accepted) := EnqueueBox(b, Box(s.boxes, rid), n, supersede);
      s.(boxes := s.boxes[rid := box],
         log := s.log + if accepted.Some? then [Accepted(rid, accepted.value, supersede)] else [])
    case PollMark(rid, unseenOnly) =>
      if rid == "" then s else
      s.(boxes := s.boxes[rid := Mark(Box(s.boxes, rid), Selects(unseenOnly))],
         delivered := s.delivered + IdsOf(Filter(Box(s.boxes, rid), Selects(unseenOnly))))
    case Snapshot(d, rid) =>
      if d in s.drains then s
      else s.(drains := s.drains[d := Pushing(rid, Unseen(Box(s.boxes, rid)))])
    case Send(d, ok) =>
      if d !in s.drains || !s.drains[d].Pushing? || s.drains[d].queue == [] then s else
      var Pushing(key, queue) := s.drains[d];
      if ok then
        s.(delivered := s.delivered + {queue[0].id}, drains := s.drains[d := Acking(key, queue[0], queue[1..])])
      else s.(drains := s.drains[d := Pushing(key, queue[1..])])
    case AckSent(d, ok) =>
      if d !in s.drains || !s.drains[d].Acking? then s else
      var Acking(key, rec, queue) := s.drains[d];
      s.(boxes := if ok && rec.id != "" then s.boxes[key := Mark(Box(s.boxes, key), AckSelects({rec.id}))] else s.boxes,
         drains := s.drains[d := Pushing(key, queue)])
    case Abandon(d) =>
      s.(drains := s.drains - {d})
  }

  /** The random id of an enqueued record has not been used before. */
  ghost predicate FreshFor(s: System, e: Event)
  {
    e.Enqueue? ==> forall k :: 0 <= k < |s.log| ==> s.log[k].rec.id != e.n.id
  }

  // --- what is kept -------------------------------------------------------

  ghost predicate Waiting(s: System, a: Accepted)
  {
    a.rec in Box(s.boxes, a.recipient) && !a.rec.seen
  }

  /** Replaced by a record accepted later for the same recipient and topic. */
  ghost predicate Superseded(s: System, k: nat)
    requires k < |s.log|
  {
    exists j :: k < j < |s.log| && s.log[j].supersede && s.log[j].recipient == s.log[k].recipient
                && SameTopic(s.log[k].rec, s.log[j].rec)
  }

  ghost predicate Accounted(s: System, k: nat)
    requires k < |s.log|
  {
    Waiting(s, s.log[k]) || s.log[k].rec.id in s.delivered || Superseded(s, k)
  }

  ghost predicate AllAccounted(s: System)
  {
    forall k: nat :: k < |s.log| ==> Accounted(s, k)
  }

  /** A record marked seen was delivered first; a pushed record awaiting its
      acknowledgement was delivered. */
  ghost predicate SeenDelivered(s: System)
  {
    && (forall rid, r :: r in Box(s.boxes, rid) && r.seen ==> r.id in s.delivered)
    && (forall d :: d in s.drains && s.drains[d].Acking? ==> s.drains[d].rec.id in s.delivered)
  }

  /** Every stored record is a logged one, apart from its `seen` flag, and an
      unseen one has not been superseded. Logged ids are distinct. */
  ghost predicate Logged(s: System)
  {
    && (forall i, j :: 0 <= i < j < |s.log| ==> s.log[i].rec.id != s.log[j].rec.id)
    && (forall k :: 0 <= k < |s.log| ==> !s.log[k].rec.seen && s.log[k].recipient != "")
    && (forall rid, r :: r in Box(s.boxes, rid) ==> Stored(s, rid, r))
  }

  ghost predicate Stored(s: System, rid: string, r: Record)
  {
    exists k: nat :: Stores(s, k, rid, r)
  }

  ghost predicate Stores(s: System, k: nat, rid: string, r: Record)
  {
    && k < |s.log| && s.log[k].recipient == rid && s.log[k].rec == r.(seen := false)
    && (!r.seen ==> !Superseded(s, k))
  }

  ghost predicate Inv(s: System)
  {
    AllAccounted(s) && SeenDelivered(s) && Logged(s)
  }

  /** The one step that can lose a record: on the table backend, a superseding
      enqueue that drops an unseen record not yet delivered and is then itself
      deduplicated, so that nothing takes the dropped record's place. */
  ghost predicate Loses(b: Backend, s: System, e: Event)
  {
    && b == Table && e.Enqueue? && e.rid != "" && e.supersede
    && HasKey(Kept(Box(s.boxes, e.rid), e.n, true), e.n)
    && exists r :: r in Box(s.boxes, e.rid) && !r.seen && SameTopic(r, e.n) && r.id !in s.delivered
  }

  // --- marking ------------------------------------------------------------

  lemma {:induction false} MarkMembers(records: seq<Record>, p: Record -> bool)
    ensures forall r :: r in records && !p(r) ==> r in Mark(records, p)
    ensures forall r :: r in records && p(r) ==> r.(seen := true) in Mark(records, p)
    ensures forall m :: m in Mark(records, p) ==>
      (m in records && !p(m)) || exists r :: r in records && p(r) && m == r.(seen := true)
  {
    var out := Mark(records, p);
    forall r | r in records ensures (if p(r) then r.(seen := true) else r) in out {
      var i :| 0 <= i < |records| && records[i] == r;
      assert out[i] == if p(r) then r.(seen := true) else r;
    }
    forall m | m in out ensures (m in records && !p(m)) || exists r :: r in records && p(r) && m == r.(seen := true) {
      var i :| 0 <= i < |out| && out[i] == m;
      assert records[i] in records;
    }
  }

  /** The record a marked one comes from. */
  lemma {:induction false} MarkedFrom(records: seq<Record>, p: Record -> bool, m: Record) returns (r: Record)
    requires m in Mark(records, p)
    ensures r in records && (if p(r) then m == r.(seen := true) else m == r)
  {
    var out := Mark(records, p);
    var i :| 0 <= i < |out| && out[i] == m;
    r := records[i];
  }

  /** Marking records of one box that are, by then, delivered keeps everything. */
  lemma {:induction false} MarkKeepsInv(s: System, t: System, rid: string, p: Record -> bool)
    requires Inv(s) && t.log == s.log && s.delivered <= t.delivered
    requires t.boxes == s.boxes[rid := Mark(Box(s.boxes, rid), p)]
    requires forall r :: r in Box(s.boxes, rid) && p(r) ==> r.id in t.delivered
    requires forall d :: d in t.drains && t.drains[d].Acking? ==> t.drains[d].rec.id in t.delivered
    ensures Inv(t)
  {
    MarkMembers(Box(s.boxes, rid), p);
    forall k: nat | k < |t.log| ensures Accounted(t, k) {
      assert Accounted(s, k);
      if Waiting(s, s.log[k]) {
        var r := s.log[k].rec;
        assert p(r) || r in Box(t.boxes, s.log[k].recipient);
      } else if Superseded(s, k) {
        assert Superseded(t, k);
      }
    }
    forall x, m | m in Box(t.boxes, x)
      ensures m.seen ==> m.id in t.delivered
      ensures Stored(t, x, m)
    {
      var r := m;
      if x == rid {
        r := MarkedFrom(Box(s.boxes, rid), p, m);
      }
      assert r in Box(s.boxes, x) && Stored(s, x, r);
      var k: nat :| Stores(s, k, x, r);
      assert Superseded(t, k) ==> Superseded(s, k);
      assert Stores(t, k, x, m);
    }
  }

  /** A step that leaves the stored records alone keeps everything. */
  lemma {:induction false} DrainStepKeepsInv(s: System, t: System)
    requires Inv(s) && t.log == s.log && t.boxes == s.boxes && s.delivered <= t.delivered
    requires forall d :: d in t.drains && t.drains[d].Acking? ==> t.drains[d].rec.id in t.delivered
    ensures Inv(t)
  {
    forall k: nat | k < |t.log| ensures Accounted(t, k) {
      assert Accounted(s, k);
      if Superseded(s, k) { assert Superseded(t, k); }
    }
    forall x, r | r in Box(t.boxes, x) ensures Stored(t, x, r) {
      var k: nat :| Stores(s, k, x, r);
      assert Superseded(t, k) ==> Superseded(s, k);
      assert Stores(t, k, x, r);
    }
  }

  // --- enqueueing ---------------------------------------------------------

  lemma {:induction false} KeptMembers(records: seq<Record>, n: Record, supersede: bool)
    ensures forall r :: r in Kept(records, n, supersede) <==>
      r in records && (supersede ==> r.seen || !SameTopic(r, n))
  {
    FilterMembers(records, Survives(n));
  }

  lemma {:induction false} AcceptKeepsInv(b: Backend, s: System, e: Event)
    requires Inv(s) && FreshFor(s, e) && e.Enqueue? && e.rid != ""
    requires !HasKey(Kept(Box(s.boxes, e.rid), e.n, e.supersede), e.n)
    ensures Inv(Next(b, s, e))
  {
    var t := Next(b, s, e);
    var box, rec := Box(s.boxes, e.rid), e.n.(seen := false);
    var last := |s.log|;
    KeptMembers(box, e.n, e.supersede);
    assert t.log == s.log + [Accepted(e.rid, rec, e.supersede)];
    assert Box(t.boxes, e.rid) == Kept(box, e.n, e.supersede) + [rec];
    assert rec in Box(t.boxes, e.rid);
    forall k: nat | k < |t.log| ensures Accounted(t, k) {
      if k < last {
        assert t.log[k] == s.log[k] && Accounted(s, k);
        if Superseded(s, k) {
          var j :| k < j < |s.log| && s.log[j].supersede && s.log[j].recipient == s.log[k].recipient
                   && SameTopic(s.log[k].rec, s.log[j].rec);
          assert t.log[j] == s.log[j];
          assert Superseded(t, k);
        } else if Waiting(s, s.log[k]) && !Waiting(t, t.log[k]) {
          assert t.log[last].supersede;
          assert Superseded(t, k);
        }
      } else {
        assert Waiting(t, t.log[k]);
      }
    }
    forall x, r | r in Box(t.boxes, x)
      ensures r.seen ==> r.id in t.delivered
      ensures Stored(t, x, r)
    {
      if x == e.rid && r == rec {
        assert !Superseded(t, last);
        assert Stores(t, last, x, r);
      } else {
        assert r in Box(s.boxes, x);
        var k: nat :| Stores(s, k, x, r);
        assert t.log[k] == s.log[k];
        forall j | k < j < |t.log| && !r.seen && t.log[j].supersede && t.log[j].recipient == x
          ensures !SameTopic(r, t.log[j].rec)
        {
          assert j < last ==> t.log[j] == s.log[j] && !Superseded(s, k);
        }
        assert Stores(t, k, x, r);
      }
    }
  }

  /** A deduplicated enqueue on the table: the dropped records are gone. */
  lemma {:induction false} DropKeepsInvIff(s: System, e: Event)
    requires Inv(s) && e.Enqueue? && e.rid != ""
    requires HasKey(Kept(Box(s.boxes, e.rid), e.n, e.supersede), e.n)
    ensures SeenDelivered(Next(Table, s, e)) && Logged(Next(Table, s, e))
    ensures AllAccounted(Next(Table, s, e)) <==> !Loses(Table, s, e)
  {
    var t := Next(Table, s, e);
    var box := Box(s.boxes, e.rid);
    KeptMembers(box, e.n, e.supersede);
    assert t.log == s.log && t.delivered == s.delivered && Box(t.boxes, e.rid) == Kept(box, e.n, e.supersede);
    forall x, r | r in Box(t.boxes, x)
      ensures r.seen ==> r.id in t.delivered
      ensures Stored(t, x, r)
    {
      assert r in Box(s.boxes, x);
      var k: nat :| Stores(s, k, x, r);
      assert Superseded(t, k) ==> Superseded(s, k);
      assert Stores(t, k, x, r);
    }
    forall k: nat | k < |s.log| ensures Superseded(t, k) <==> Superseded(s, k) {}
    if Loses(Table, s, e) {
      var r :| r in box && !r.seen && SameTopic(r, e.n) && r.id !in s.delivered;
      var k: nat :| Stores(s, k, e.rid, r);
      assert s.log[k].rec == r;
      assert !Accounted(t, k);
    } else {
      forall k: nat | k < |t.log| ensures Accounted(t, k) {
        assert Accounted(s, k);
        if Waiting(s, s.log[k]) && !Waiting(t, t.log[k]) {
          assert s.log[k].rec in box && SameTopic(s.log[k].rec, e.n);
        }
      }
    }
  }

  lemma {:induction false} FileDropKeepsInv(s: System, e: Event)
    requires Inv(s) && e.Enqueue? && e.rid != ""
    requires HasKey(Kept(Box(s.boxes, e.rid), e.n, e.supersede), e.n)
    ensures Inv(Next(File, s, e))
  {
    var nothing := (r: Record) => false;
    assert Mark(Box(s.boxes, e.rid), nothing) == Box(s.boxes, e.rid);
    MarkKeepsInv(s, Next(File, s, e), e.rid, nothing);
  }

  // --- what counts as delivered, and what gets marked ----------------------

  /** A record becomes delivered only by a send that succeeded, or by being returned by a
      marking poll. */
  lemma {:induction false} DeliveredOnlyBy(b: Backend, s: System, e: Event, id: string)
    ensures id in Next(b, s, e).delivered
      <==> (|| id in s.delivered
            || (&& e.Send? && e.ok && e.d in s.drains && s.drains[e.d].Pushing? && s.drains[e.d].queue != []
                && s.drains[e.d].queue[0].id == id)
            || (&& e.PollMark? && e.rid != ""
                && exists r :: r in Box(s.boxes, e.rid) && (e.unseenOnly ==> !r.seen) && r.id == id))
  {
    if e.PollMark? {
      FilterMembers(Box(s.boxes, e.rid), Selects(e.unseenOnly));
    }
  }

  /** A stored record becomes seen only by a marking poll of its recipient, or by a drain
      whose acknowledgement of it succeeded. */
  lemma {:induction false} MarkedOnlyBy(b: Backend, s: System, e: Event, rid: string, r: Record)
    requires r in Box(s.boxes, rid) && !r.seen && r !in Box(Next(b, s, e).boxes, rid)
    requires !e.Enqueue?
    ensures r.(seen := true) in Box(Next(b, s, e).boxes, rid)
    ensures (e.PollMark? && e.rid == rid)
         || (e.AckSent? && e.ok && e.d in s.drains && s.drains[e.d].Acking?
             && s.drains[e.d].key == rid && s.drains[e.d].rec.id == r.id)
  {
    var box := Box(s.boxes, rid);
    if e.PollMark? {
      MarkMembers(box, Selects(e.unseenOnly));
    } else if e.AckSent? && e.d in s.drains && s.drains[e.d].Acking? {
      MarkMembers(box, AckSelects({s.drains[e.d].rec.id}));
    }
  }

  // --- every step, every run ----------------------------------------------

  /** Main step result. On either backend, every step keeps all records accounted
      for if and only if it is not the losing step. */
  lemma {:induction false} StepKeepsInvIff(b: Backend, s: System, e: Event)
    requires Inv(s) && FreshFor(s, e)
    ensures SeenDelivered(Next(b, s, e)) && Logged(Next(b, s, e))
    ensures AllAccounted(Next(b, s, e)) <==> !Loses(b, s, e)
  {
    var t := Next(b, s, e);
    match e
    case Enqueue(rid, n, supersede) =>
      if rid != "" {
        if !HasKey(Kept(Box(s.boxes, rid), n, supersede), n) {
          AcceptKeepsInv(b, s, e);
          if supersede { assert !Loses(b, s, e); }
        } else if b == File {
          FileDropKeepsInv(s, e);
        } else {
          DropKeepsInvIff(s, e);
        }
      }
    case PollMark(rid, unseenOnly) =>
      if rid != "" {
        FilterMembers(Box(s.boxes, rid), Selects(unseenOnly));
        MarkKeepsInv(s, t, rid, Selects(unseenOnly));
      }
    case Snapshot(d, rid) => DrainStepKeepsInv(s, t);
    case Send(d, ok) => DrainStepKeepsInv(s, t);
    case AckSent(d, ok) =>
      if d in s.drains && s.drains[d].Acking? && ok && s.drains[d].rec.id != "" {
        MarkKeepsInv(s, t, s.drains[d].key, AckSelects({s.drains[d].rec.id}));
      } else {
        DrainStepKeepsInv(s, t);
      }
    case Abandon(d) => DrainStepKeepsInv(s, t);
  }

  const START := System(map[], [], {}, map[])

  function After(b: Backend, s: System, es: seq<Event>): System
    decreases |es|
  {
    if es == [] then s else After(b, Next(b, s, es[0]), es[1..])
  }

  /** Enqueued ids are fresh all along the run. */
  ghost predicate FreshRun(b: Backend, s: System, es: seq<Event>)
    decreases |es|
  {
    es != [] ==> FreshFor(s, es[0]) && FreshRun(b, Next(b, s, es[0]), es[1..])
  }

  ghost predicate NeverLoses(b: Backend, s: System, es: seq<Event>)
    decreases |es|
  {
    es != [] ==> !Loses(b, s, es[0]) && NeverLoses(b, Next(b, s, es[0]), es[1..])
  }

  /** Every accepted record is accounted for at every point of the run. */
  ghost predicate AlwaysAccounted(b: Backend, s: System, es: seq<Event>)
  {
    forall k :: 0 <= k <= |es| ==> AllAccounted(After(b, s, es[..k]))
  }

  /** At every point of the run, moreover, everything marked seen was delivered. */
  ghost predicate AlwaysKept(b: Backend, s: System, es: seq<Event>)
  {
    forall k :: 0 <= k <= |es| ==> Inv(After(b, s, es[..k]))
  }

  lemma {:induction false} AfterFirst(b: Backend, s: System, es: seq<Event>, k: nat)
    requires 1 <= k <= |es|
    ensures After(b, s, es[..k]) == After(b, Next(b, s, es[0]), es[1..][..k - 1])
  {
    assert es[..k][0] == es[0] && es[..k][1..] == es[1..][..k - 1];
  }

  lemma {:induction false} AlwaysFirst(b: Backend, s: System, es: seq<Event>)
    requires es != []
    ensures AlwaysAccounted(b, s, es) <==> AllAccounted(s) && AlwaysAccounted(b, Next(b, s, es[0]), es[1..])
    ensures AlwaysKept(b, s, es) <==> Inv(s) && AlwaysKept(b, Next(b, s, es[0]), es[1..])
  {
    var t, rest := Next(b, s, es[0]), es[1..];
    assert es[..0] == [] && After(b, s, es[..0]) == s;
    forall k | 1 <= k <= |es| ensures After(b, s, es[..k]) == After(b, t, rest[..k - 1]) {
      AfterFirst(b, s, es, k);
    }
    forall k | 0 <= k <= |rest| ensures After(b, t, rest[..k]) == After(b, s, es[..k + 1]) {
      AfterFirst(b, s, es, k + 1);
    }
  }

  /** Main result for runs. On either backend every accepted record is, at every point
      of the run, waiting, delivered, or superseded by a newer one if and only if no
      step is the losing one; and then everything marked seen was delivered. */
  lemma {:induction false} NothingIsLostIff(b: Backend, s: System, es: seq<Event>)
    requires Inv(s) && FreshRun(b, s, es)
    ensures NeverLoses(b, s, es) <==> AlwaysAccounted(b, s, es)
    ensures NeverLoses(b, s, es) ==> AlwaysKept(b, s, es)
    decreases |es|
  {
    if es == [] {
      assert es[..0] == [];
    } else {
      StepKeepsInvIff(b, s, es[0]);
      AlwaysFirst(b, s, es);
      if Loses(b, s, es[0]) {
        LostAtOnce(b, Next(b, s, es[0]), es[1..]);
      } else {
        NothingIsLostIff(b, Next(b, s, es[0]), es[1..]);
      }
    }
  }

  lemma {:induction false} LostAtOnce(b: Backend, s: System, es: seq<Event>)
    requires !AllAccounted(s)
    ensures !AlwaysAccounted(b, s, es)
  {
    assert es[..0] == [] && After(b, s, es[..0]) == s;
  }

  /** The file backend never loses anything, at any point of any run. */
  lemma {:induction false} FileLosesNothing(es: seq<Event>)
    requires FreshRun(File, START, es)
    ensures AlwaysKept(File, START, es)
  {
    FileNeverLoses(START, es);
    NothingIsLostIff(File, START, es);
  }

  lemma {:induction false} FileNeverLoses(s: System, es: seq<Event>)
    ensures NeverLoses(File, s, es)
    decreases |es|
  {
    if es != [] {
      FileNeverLoses(Next(File, s, es[0]), es[1..]);
    }
  }

  function Digest(id: string, ts: int, seen: bool): Record
  {
    Record(id, "reminder", "(digest)", "", None, ts, seen)
  }

  /** The state just before the loss: one digest delivered, a newer one waiting. */
  const BRINK := System(
    map["u" := [Digest("n1", 1, true), Digest("n2", 2, false)]],
    [Accepted("u", Digest("n1", 1, false), true), Accepted("u", Digest("n2", 2, false), true)],
    {"n1"}, map[])

  lemma {:induction false} DeliverFirst()
    ensures Next(Table, Next(Table, START, Enqueue("u", Digest("n1", 1, false), true)), PollMark("u", true))
         == System(map["u" := [Digest("n1", 1, true)]], [Accepted("u", Digest("n1", 1, false), true)], {"n1"}, map[])
  {
    var box := [Digest("n1", 1, false)];
    FilterNone([], Survives(box[0]));
    assert EnqueueBox(Table, [], box[0], true).0 == box;
    assert Next(Table, START, Enqueue("u", box[0], true)).boxes["u"] == box;
    assert Filter(box, Selects(true)) == box by { FilterAll(box, Selects(true)); }
    assert Mark(box, Selects(true)) == [Digest("n1", 1, true)];
    assert IdsOf(box) == {"n1"};
  }

  lemma {:induction false} EnqueueSecond(s: System)
    requires
      s == System(map["u" := [Digest("n1", 1, true)]], [Accepted("u", Digest("n1", 1, false), true)], {"n1"}, map[])
    ensures Next(Table, s, Enqueue("u", Digest("n2", 2, false), true)) == BRINK
  {
    var box := [Digest("n1", 1, true)];
    FilterAll(box, Survives(Digest("n2", 2, false)));
    assert box + [Digest("n2", 2, false)] == BRINK.boxes["u"];
    assert map["u" := box]["u" := BRINK.boxes["u"]] == BRINK.boxes;
  }

  /** On the table backend a run can lose a record: a digest is delivered, a newer
      one waits, and the first is enqueued again with its old timestamp. */
  lemma {:induction false} TableCanLose() returns (es: seq<Event>)
    ensures |es| == 4 && FreshRun(Table, START, es[..3]) && After(Table, START, es[..3]) == BRINK
    ensures FreshFor(BRINK, es[3]) && Loses(Table, BRINK, es[3])
  {
    var e0, e1 := Enqueue("u", Digest("n1", 1, false), true), PollMark("u", true);
    var e2, e3 := Enqueue("u", Digest("n2", 2, false), true), Enqueue("u", Digest("n3", 1, false), true);
    var s1 := Next(Table, START, e0);
    var s2 := Next(Table, s1, e1);
    DeliverFirst();
    EnqueueSecond(s2);
    es := [e0, e1, e2, e3];
    assert es[..3] == [e0, e1, e2] && [e0, e1, e2][1..] == [e1, e2] && [e1, e2][1..] == [e2] && [e2][1..] == [];
    assert s1.log == [Accepted("u", Digest("n1", 1, false), true)];
    assert FreshRun(Table, BRINK, []) && After(Table, BRINK, []) == BRINK;
    assert FreshRun(Table, s2, [e2]) && After(Table, s2, [e2]) == BRINK;
    assert FreshRun(Table, s1, [e1, e2]) && After(Table, s1, [e1, e2]) == BRINK;
    BrinkLoses(e3);
  }

  lemma {:induction false} BrinkLoses(e: Event)
    requires e == Enqueue("u", Digest("n3", 1, false), true)
    ensures FreshFor(BRINK, e) && Loses(Table, BRINK, e)
  {
    var box := BRINK.boxes["u"];
    KeptMembers(box, e.n, true);
    assert box[0] in Kept(box, e.n, true);
    assert box[1] in box;
  }
}
