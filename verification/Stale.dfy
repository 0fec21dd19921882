/** The staleness detectors, and the sweep the nag engine makes of what they find. */
module Stale {
  import opened Common
  import B = Backlog
  import R = Reminders

  type Fields = B.Fields

  /** The thresholds of the three detectors, and how a stored instant is read. */
  datatype Thresholds = Thresholds(active: int, blocked: int, backlog: int, parse: B.Parser)

  datatype Detector = StaleActive | BlockedCheck | PendingBacklog

  /** Blockers outside the owner's control. */
  const EXTERNAL := {"compute", "dependency", "dep", "operator-decision", "agent-wait"}

  function TextOf(v: B.Value): string
  {
    if v.Text? then v.s else ""
  }

  function IdOf(c: Fields): string
  {
    TextOf(B.Get(c, "id"))
  }

  function StatusOf(c: Fields): string
  {
    TextOf(B.Get(c, "status"))
  }

  /** How long a card has gone untouched, when that can be told. */
  function Age(c: Fields, now: int, parse: B.Parser): Option<int>
  {
    var touched := if B.Truthy(B.Get(c, "last_activity")) then B.Get(c, "last_activity") else B.Get(c, "created_at");
    var since := B.Parsed(touched, parse);
    if since.Some? then Some(now - since.value) else None
  }

  predicate ExternallyBlocked(c: Fields)
  {
    StatusOf(c) == "blocked" && Strip(TextOf(B.Get(c, "blocker"))) in EXTERNAL
  }

  predicate OwnerActionable(c: Fields)
  {
    StatusOf(c) in {"in_progress", "blocked"} && !ExternallyBlocked(c)
  }

  /** Whether a detector is concerned with a card at all. */
  predicate Selects(d: Detector, c: Fields)
  {
    match d
    case StaleActive => OwnerActionable(c)
    case BlockedCheck => ExternallyBlocked(c)
    case PendingBacklog => StatusOf(c) == "deferred" && !B.Parked(c)
  }

  function Threshold(d: Detector, t: Thresholds): int
  {
    match d
    case StaleActive => t.active
    case BlockedCheck => t.blocked
    case PendingBacklog => t.backlog
  }

  /** A card whose age cannot be told counts as untouched. */
  predicate Untouched(c: Fields, d: Detector, now: int, t: Thresholds)
  {
    var age := Age(c, now, t.parse);
    age.Some? ==> age.value > Threshold(d, t)
  }

  predicate Reports(d: Detector, c: Fields, now: int, t: Thresholds)
  {
    Selects(d, c) && Untouched(c, d, now, t)
  }

  function ReportedTo(owner: string, d: Detector, now: int, t: Thresholds): Fields -> bool
  {
    (c: Fields) => Reports(d, c, now, t) && B.OwnerOf(c) == owner
  }

  function Row(c: Fields, d: Detector): R.StaleCard
  {
    R.StaleCard(IdOf(c), StatusOf(c), d == PendingBacklog)
  }

  function Rows(cards: seq<Fields>, d: Detector): seq<R.StaleCard>
  {
    seq(|cards|, i requires 0 <= i < |cards| => Row(cards[i], d))
  }

  /** What a detector finds for one owner. */
  function Found(tasks: seq<Fields>, owner: string, d: Detector, now: int, t: Thresholds): seq<R.StaleCard>
  {
    Rows(Filter(tasks, ReportedTo(owner, d, now, t)), d)
  }

  function BucketOf(buckets: map<string, seq<R.StaleCard>>, owner: string): seq<R.StaleCard>
  {
    if owner in buckets then buckets[owner] else []
  }

  lemma {:induction false} FoundStep(tasks: seq<Fields>, i: nat, owner: string, d: Detector, now: int, t: Thresholds)
    requires i < |tasks|
    ensures Found(tasks[..i + 1], owner, d, now, t)
      == Found(tasks[..i], owner, d, now, t)
       + if Reports(d, tasks[i], now, t) && B.OwnerOf(tasks[i]) == owner then [Row(tasks[i], d)] else []
  {
    FilterTakeStep(tasks, i, ReportedTo(owner, d, now, t));
  }

  /** One detector's pass over the board. */
  method Detect(tasks: seq<Fields>, d: Detector, now: int, t: Thresholds) returns (out: map<string, seq<R.StaleCard>>)
    ensures forall o :: BucketOf(out, o) == Found(tasks, o, d, now, t)
    ensures forall o :: o in out ==> out[o] != []
  {
    out := map[];
    for i := 0 to |tasks|
      invariant forall o :: BucketOf(out, o) == Found(tasks[..i], o, d, now, t)
      invariant forall o :: o in out ==> out[o] != []
    {
      forall o
        ensures Found(tasks[..i + 1], o, d, now, t)
          == Found(tasks[..i], o, d, now, t)
           + if Reports(d, tasks[i], now, t) && B.OwnerOf(tasks[i]) == o then [Row(tasks[i], d)] else []
      {
        FoundStep(tasks, i, o, d, now, t);
      }
      ghost var before := out;
      if Reports(d, tasks[i], now, t) {
        var owner := B.OwnerOf(tasks[i]);
        out := out[owner := BucketOf(out, owner) + [Row(tasks[i], d)]];
      }
      forall o ensures BucketOf(out, o) == Found(tasks[..i + 1], o, d, now, t) {
        assert BucketOf(before, o) == Found(tasks[..i], o, d, now, t);
      }
    }
    assert tasks[..|tasks|] == tasks;
  }

  /** Appends one detector's findings to the buckets. */
  method Extend(buckets: map<string, seq<R.StaleCard>>, found: map<string, seq<R.StaleCard>>)
    returns (out: map<string, seq<R.StaleCard>>)
    ensures forall o :: BucketOf(out, o) == BucketOf(buckets, o) + BucketOf(found, o)
  {
    out := buckets;
    var todo := found.Keys;
    while todo != {}
      invariant todo <= found.Keys
      invariant forall o :: BucketOf(out, o) == BucketOf(buckets, o) + if o in todo then [] else BucketOf(found, o)
      decreases todo
    {
      var owner :| owner in todo;
      out := out[owner := BucketOf(out, owner) + found[owner]];
      todo := todo - {owner};
    }
  }

  predicate Allowed(allow: set<string>, owner: string)
  {
    allow != {} ==> owner in allow
  }

  /** What the engine looks up about a card; an interval is in whole minutes. */
  function InfoOf(c: Fields): R.CardInfo
  {
    var interval := B.Get(c, "reminder_interval_minutes");
    R.CardInfo(
      StatusOf(c),
      TextOf(B.Get(c, "blocker")),
      if B.Get(c, "priority").Num? then Some(B.Get(c, "priority").n) else None,
      if interval.Num? then Some(60 * R.SECOND * interval.n) else None,
      TextOf(B.Get(c, "created_by")))
  }

  /** The last card of each id, as the engine indexes them. */
  function ById(tasks: seq<Fields>): map<string, R.CardInfo>
  {
    if tasks == [] then map[]
    else
      var rest, c := ById(tasks[..|tasks| - 1]), tasks[|tasks| - 1];
      if IdOf(c) == "" then rest else rest[IdOf(c) := InfoOf(c)]
  }

  /** What belongs in an owner's bucket. */
  function Merged(tasks: seq<Fields>, owner: string, now: int, t: Thresholds, allow: set<string>): seq<R.StaleCard>
  {
    if Allowed(allow, owner) then Found(tasks, owner, StaleActive, now, t) + Found(tasks, owner, PendingBacklog, now, t)
    else []
  }

  /** The sweep was made from this board. */
  ghost predicate MadeFrom(s: R.Sweep, tasks: seq<Fields>, now: int, t: Thresholds, allow: set<string>)
  {
    && s.now == now && s.byId == ById(tasks)
    && forall o :: BucketOf(s.buckets, o) == Merged(tasks, o, now, t, allow)
  }

  /** Both detectors' findings, owner by owner. */
  method MergeFindings(tasks: seq<Fields>, now: int, t: Thresholds) returns (buckets: map<string, seq<R.StaleCard>>)
    ensures forall o ::
      BucketOf(buckets, o) == Found(tasks, o, StaleActive, now, t) + Found(tasks, o, PendingBacklog, now, t)
  {
    var active := Detect(tasks, StaleActive, now, t);
    var backlog := Detect(tasks, PendingBacklog, now, t);
    buckets := Extend(map[], active);
    assert forall o :: BucketOf(buckets, o) == BucketOf(active, o);
    buckets := Extend(buckets, backlog);
  }

  /** The merged buckets of the allowed owners. */
  method MakeBuckets(tasks: seq<Fields>, now: int, t: Thresholds, allow: set<string>)
    returns (allowed: map<string, seq<R.StaleCard>>)
    ensures forall o :: BucketOf(allowed, o) == Merged(tasks, o, now, t, allow)
  {
    var buckets := MergeFindings(tasks, now, t);
    allowed := map o | o in buckets && Allowed(allow, o) :: buckets[o];
  }

  /** The sweep's input: the tight and the backlog detector, merged per owner, and only
      the allowed owners. */
  method MakeSweep(tasks: seq<Fields>, now: int, t: Thresholds, allow: set<string>, dead: string -> bool,
                   ok: R.Notice -> bool, resolve: string -> string)
    returns (s: R.Sweep)
    ensures MadeFrom(s, tasks, now, t, allow) && s.dead == dead && s.ok == ok && s.resolve == resolve
    ensures UniqueIds(tasks) ==> R.OneOwnerEach(s)
  {
    var buckets := MakeBuckets(tasks, now, t, allow);
    s := R.Sweep(now, buckets, ById(tasks), dead, ok, resolve);
    if UniqueIds(tasks) {
      UniqueIdsOneOwner(s, tasks, now, t, allow);
    }
  }

  // --- laws ---------------------------------------------------------------

  ghost predicate UniqueIds(tasks: seq<Fields>)
  {
    forall i, j :: 0 <= i < j < |tasks| ==> IdOf(tasks[i]) != IdOf(tasks[j])
  }

  /** The three detectors share out the board: every active card, and every deferred card
      that is not parked, is one detector's business and no other's. */
  lemma {:induction false} DetectorsPartition(c: Fields)
    ensures forall d, e :: Selects(d, c) && Selects(e, c) ==> d == e
    ensures (exists d :: Selects(d, c))
      <==> StatusOf(c) in {"in_progress", "blocked"} || (StatusOf(c) == "deferred" && !B.Parked(c))
  {
    if StatusOf(c) in {"in_progress", "blocked"} {
      assert Selects(StaleActive, c) || Selects(BlockedCheck, c);
    } else if StatusOf(c) == "deferred" && !B.Parked(c) {
      assert Selects(PendingBacklog, c);
    }
  }

  lemma {:induction false} FilterKeepsUnique(tasks: seq<Fields>, p: Fields -> bool)
    requires UniqueIds(tasks)
    ensures UniqueIds(Filter(tasks, p))
  {
    if tasks != [] {
      var rest := tasks[1..];
      FilterKeepsUnique(rest, p);
      FilterMembers(rest, p);
      forall c | c in Filter(rest, p) ensures IdOf(c) != IdOf(tasks[0]) {
        var k :| 0 <= k < |rest| && rest[k] == c;
        assert rest[k] == tasks[k + 1];
      }
    }
  }

  /** A row found for an owner is a card of the board, reported by that detector. */
  lemma {:induction false} FoundIsReported(tasks: seq<Fields>, owner: string, d: Detector, now: int, t: Thresholds,
                                           i: nat)
    requires i < |Found(tasks, owner, d, now, t)|
    ensures
      var c := Filter(tasks, ReportedTo(owner, d, now, t))[i];
      c in tasks && ReportedTo(owner, d, now, t)(c) && Found(tasks, owner, d, now, t)[i] == Row(c, d)
  {
    var kept := Filter(tasks, ReportedTo(owner, d, now, t));
    FilterMembers(tasks, ReportedTo(owner, d, now, t));
    assert kept[i] in kept;
  }

  lemma {:induction false} SameIdSameCard(tasks: seq<Fields>, a: Fields, b: Fields)
    requires UniqueIds(tasks) && a in tasks && b in tasks && IdOf(a) == IdOf(b)
    ensures a == b
  {
    var i :| 0 <= i < |tasks| && tasks[i] == a;
    var j :| 0 <= j < |tasks| && tasks[j] == b;
  }

  /** The card behind a row of a bucket, and the detector that reported it. */
  lemma {:induction false} Origin(s: R.Sweep, tasks: seq<Fields>, now: int, t: Thresholds, allow: set<string>,
                                  owner: string, row: R.StaleCard)
    returns (c: Fields, d: Detector)
    requires MadeFrom(s, tasks, now, t, allow) && row in BucketOf(s.buckets, owner)
    ensures c in tasks && ReportedTo(owner, d, now, t)(c) && row == Row(c, d) && Allowed(allow, owner)
    ensures d == StaleActive || d == PendingBacklog
  {
    var active, backlog := Found(tasks, owner, StaleActive, now, t), Found(tasks, owner, PendingBacklog, now, t);
    assert BucketOf(s.buckets, owner) == Merged(tasks, owner, now, t, allow);
    if row in active {
      var i :| 0 <= i < |active| && active[i] == row;
      FoundIsReported(tasks, owner, StaleActive, now, t, i);
      c, d := Filter(tasks, ReportedTo(owner, StaleActive, now, t))[i], StaleActive;
    } else {
      var i :| 0 <= i < |backlog| && backlog[i] == row;
      FoundIsReported(tasks, owner, PendingBacklog, now, t, i);
      c, d := Filter(tasks, ReportedTo(owner, PendingBacklog, now, t))[i], PendingBacklog;
    }
  }

  lemma {:induction false} Placed(s: R.Sweep, tasks: seq<Fields>, now: int, t: Thresholds, allow: set<string>,
                                  c: Fields,
                                  d: Detector)
    requires MadeFrom(s, tasks, now, t, allow) && c in tasks && Reports(d, c, now, t)
    requires (d == StaleActive || d == PendingBacklog) && Allowed(allow, B.OwnerOf(c))
    ensures Row(c, d) in BucketOf(s.buckets, B.OwnerOf(c))
  {
    var owner := B.OwnerOf(c);
    var kept := Filter(tasks, ReportedTo(owner, d, now, t));
    FilterMembers(tasks, ReportedTo(owner, d, now, t));
    var i :| 0 <= i < |kept| && kept[i] == c;
    assert Found(tasks, owner, d, now, t)[i] == Row(c, d);
    assert BucketOf(s.buckets, owner) == Merged(tasks, owner, now, t, allow);
  }

  lemma {:induction false} InfoFound(tasks: seq<Fields>, c: Fields)
    requires UniqueIds(tasks) && c in tasks && IdOf(c) != ""
    ensures IdOf(c) in ById(tasks) && ById(tasks)[IdOf(c)] == InfoOf(c)
  {
    var last := |tasks| - 1;
    if tasks[last] != c {
      var k :| 0 <= k < |tasks| && tasks[k] == c;
      assert tasks[..last][k] == c;
      InfoFound(tasks[..last], c);
    }
  }

  /** The age is counted from the last activity when there is one, else from the creation;
      a time that cannot be read gives none. */
  lemma {:induction false} AgeReads(c: Fields, now: int, parse: B.Parser)
    ensures forall last :: B.Get(c, "last_activity") == B.Text(last) && last != "" ==>
      Age(c, now, parse) == if parse(last).Some? then Some(now - parse(last).value) else None
    ensures !B.Truthy(B.Get(c, "last_activity")) ==> forall made ::
      B.Get(c, "created_at") == B.Text(made) && made != "" ==>
      Age(c, now, parse) == if parse(made).Some? then Some(now - parse(made).value) else None
    ensures !B.Truthy(B.Get(c, "last_activity")) && !B.Truthy(B.Get(c, "created_at")) ==> Age(c, now, parse) == None
  {
  }

  /** Older than the threshold, or of an age nobody can tell. */
  predicate OlderThan(age: Option<int>, threshold: int)
  {
    age == None || age.value > threshold
  }

  /** Who is reported where: active work on the tight clock unless it is blocked on one of
      the five things outside the owner's control, that on the blocked clock, the
      deferred and not parked on the backlog clock. */
  lemma {:induction false} DetectorsMean(c: Fields, now: int, t: Thresholds)
    ensures
      var age, status := Age(c, now, t.parse), StatusOf(c);
      var waits := status == "blocked" && Strip(TextOf(B.Get(c, "blocker")))
                   in {"compute", "dependency", "dep", "operator-decision", "agent-wait"};
      && (Reports(StaleActive, c, now, t)
          <==> (status == "in_progress" || status == "blocked") && !waits && OlderThan(age, t.active))
      && (Reports(BlockedCheck, c, now, t) <==> waits && OlderThan(age, t.blocked))
      && (Reports(PendingBacklog, c, now, t) <==> status == "deferred" && !B.Parked(c) && OlderThan(age, t.backlog))
  {
  }

  /** Every row of a bucket is a card of the board under its own id and status, and is
      marked as backlog exactly when the card is deferred. */
  lemma {:induction false} RowsAreCards(s: R.Sweep, tasks: seq<Fields>, now: int, t: Thresholds, allow: set<string>,
                                        owner: string, row: R.StaleCard)
    returns (c: Fields)
    requires MadeFrom(s, tasks, now, t, allow) && row in BucketOf(s.buckets, owner)
    ensures c in tasks && B.OwnerOf(c) == owner && (allow == {} || owner in allow)
    ensures row.id == TextOf(B.Get(c, "id")) && row.status == TextOf(B.Get(c, "status"))
    ensures row.backlog <==> row.status == "deferred"
  {
    var d;
    c, d := Origin(s, tasks, now, t, allow, owner, row);
  }

  /** What the engine looks up about a card is what the card says: its priority when that
      is a number, its own interval in minutes, its blocker and its creator. */
  lemma {:induction false} LookupReads(tasks: seq<Fields>, c: Fields)
    requires UniqueIds(tasks) && c in tasks && IdOf(c) != ""
    ensures IdOf(c) in ById(tasks)
    ensures
      var info, minutes := ById(tasks)[IdOf(c)], B.Get(c, "reminder_interval_minutes");
      && info.status == TextOf(B.Get(c, "status")) && info.blocker == TextOf(B.Get(c, "blocker"))
      && info.createdBy == TextOf(B.Get(c, "created_by"))
      && (forall n :: info.priority == Some(n) <==> B.Get(c, "priority") == B.Num(n))
      && (minutes.Num? ==> info.interval == Some(60_000_000 * minutes.n))
      && (!minutes.Num? ==> info.interval == None)
  {
    InfoFound(tasks, c);
  }

  /** What makes a card worth a nag: in progress, or blocked with no blocker written at
      all, or deferred and not parked, each past its own clock. */
  predicate NagReason(c: Fields, now: int, t: Thresholds)
  {
    var age := Age(c, now, t.parse);
    || (StatusOf(c) == "in_progress" && OlderThan(age, t.active))
    || (StatusOf(c) == "blocked" && TextOf(B.Get(c, "blocker")) == "" && OlderThan(age, t.active))
    || (StatusOf(c) == "deferred" && !B.Parked(c) && OlderThan(age, t.backlog))
  }

  predicate WrittenBlocker(c: Fields)
  {
    StatusOf(c) == "blocked" && TextOf(B.Get(c, "blocker")) != ""
  }

  lemma {:induction false} NagReasonMeans(c: Fields, now: int, t: Thresholds)
    ensures NagReason(c, now, t)
      <==> (Reports(StaleActive, c, now, t) || Reports(PendingBacklog, c, now, t)) && !WrittenBlocker(c)
  {
    assert Strip("") == "";
  }

  /** A sweep nags exactly the owner's card with a reason. A card blocked on anything
      written, even on the value that says there is no blocker, is never nagged about,
      though the tight detector reports it. */
  lemma {:induction false} NaggedIff(s: R.Sweep, tasks: seq<Fields>, now: int, t: Thresholds, allow: set<string>,
                                     c: Fields,
                                     owner: string)
    requires MadeFrom(s, tasks, now, t, allow) && UniqueIds(tasks) && c in tasks && IdOf(c) != ""
    ensures R.Nagged(s, owner, IdOf(c))
      <==> (&& owner == B.OwnerOf(c) && owner != "(unassigned)" && (allow == {} || owner in allow)
            && NagReason(c, now, t))
  {
    NagReasonMeans(c, now, t);
    InfoFound(tasks, c);
    assert R.Parked(s.byId, IdOf(c)) <==> WrittenBlocker(c);
    if R.Nagged(s, owner, IdOf(c)) {
      NaggedOrigin(s, tasks, now, t, allow, c, owner);
    } else if owner == B.OwnerOf(c) && owner != R.UNASSIGNED && Allowed(allow, owner) && NagReason(c, now, t) {
      var d := if Reports(StaleActive, c, now, t) then StaleActive else PendingBacklog;
      Placed(s, tasks, now, t, allow, c, d);
      RowIsNagged(s, owner, Row(c, d));
    }
  }

  lemma {:induction false} RowIsNagged(s: R.Sweep, owner: string, row: R.StaleCard)
    requires row in BucketOf(s.buckets, owner) && owner != R.UNASSIGNED
    requires row.id != "" && !R.Parked(s.byId, row.id)
    ensures R.Nagged(s, owner, row.id)
  {
    FilterMembers(s.buckets[owner], R.Nagworthy(s.byId));
    assert row in R.NagCards(s, owner);
  }

  /** What a nagged card must be. */
  lemma {:induction false} NaggedOrigin(s: R.Sweep, tasks: seq<Fields>, now: int, t: Thresholds, allow: set<string>,
                                        c: Fields,
                                        owner: string)
    requires MadeFrom(s, tasks, now, t, allow) && UniqueIds(tasks) && c in tasks && IdOf(c) != ""
    requires R.Nagged(s, owner, IdOf(c))
    ensures owner == B.OwnerOf(c) && owner != R.UNASSIGNED && Allowed(allow, owner)
    ensures !R.Parked(s.byId, IdOf(c))
    ensures Reports(StaleActive, c, now, t) || Reports(PendingBacklog, c, now, t)
  {
    var row :| row in R.NagCards(s, owner) && row.id == IdOf(c);
    FilterMembers(s.buckets[owner], R.Nagworthy(s.byId));
    var found, d := Origin(s, tasks, now, t, allow, owner, row);
    SameIdSameCard(tasks, found, c);
  }

  /** The legal value "none", meaning no specific blocker, keeps a card out of the nag for
      good: the tight detector reports it, the sweep drops it. */
  lemma {:induction false} BlockedOnNoneIsNeverNagged(s: R.Sweep, tasks: seq<Fields>, now: int, t: Thresholds,
                                                      allow: set<string>, c: Fields, owner: string)
    requires MadeFrom(s, tasks, now, t, allow) && UniqueIds(tasks) && c in tasks && IdOf(c) != ""
    requires StatusOf(c) == "blocked" && B.Get(c, "blocker") == B.Text("none") && Untouched(c, StaleActive, now, t)
    ensures Reports(StaleActive, c, now, t) && !R.Nagged(s, owner, IdOf(c))
  {
    NaggedIff(s, tasks, now, t, allow, c, owner);
    assert Strip("none") == "none";
  }

  lemma {:induction false} BucketHasDistinctIds(s: R.Sweep, tasks: seq<Fields>, now: int, t: Thresholds,
                                                allow: set<string>,
                                                owner: string, i: nat, j: nat)
    requires MadeFrom(s, tasks, now, t, allow) && UniqueIds(tasks)
    requires i < j < |BucketOf(s.buckets, owner)|
    ensures BucketOf(s.buckets, owner)[i].id != BucketOf(s.buckets, owner)[j].id
  {
    var active, backlog := Found(tasks, owner, StaleActive, now, t), Found(tasks, owner, PendingBacklog, now, t);
    assert BucketOf(s.buckets, owner) == Merged(tasks, owner, now, t, allow);
    FilterKeepsUnique(tasks, ReportedTo(owner, StaleActive, now, t));
    FilterKeepsUnique(tasks, ReportedTo(owner, PendingBacklog, now, t));
    if i < |active| <= j {
      FoundIsReported(tasks, owner, StaleActive, now, t, i);
      FoundIsReported(tasks, owner, PendingBacklog, now, t, j - |active|);
      var a := Filter(tasks, ReportedTo(owner, StaleActive, now, t))[i];
      var b := Filter(tasks, ReportedTo(owner, PendingBacklog, now, t))[j - |active|];
      if IdOf(a) == IdOf(b) {
        SameIdSameCard(tasks, a, b);
      }
    }
  }

  lemma {:induction false} FilterKeepsDistinctRows(rows: seq<R.StaleCard>, p: R.StaleCard -> bool)
    requires forall i, j :: 0 <= i < j < |rows| ==> rows[i].id != rows[j].id
    ensures forall i, j :: 0 <= i < j < |Filter(rows, p)| ==> Filter(rows, p)[i].id != Filter(rows, p)[j].id
  {
    if rows != [] {
      var rest := rows[1..];
      FilterKeepsDistinctRows(rest, p);
      FilterMembers(rest, p);
      forall r | r in Filter(rest, p) ensures r.id != rows[0].id {
        var k :| 0 <= k < |rest| && rest[k] == r;
        assert rest[k] == rows[k + 1];
      }
    }
  }

  lemma {:induction false} OneOwner(s: R.Sweep, tasks: seq<Fields>, now: int, t: Thresholds, allow: set<string>,
                                    o: string, p: string, id: string)
    requires MadeFrom(s, tasks, now, t, allow) && UniqueIds(tasks) && R.Nagged(s, o, id) && R.Nagged(s, p, id)
    ensures o == p
  {
    var x :| x in R.NagCards(s, o) && x.id == id;
    var y :| y in R.NagCards(s, p) && y.id == id;
    FilterMembers(s.buckets[o], R.Nagworthy(s.byId));
    FilterMembers(s.buckets[p], R.Nagworthy(s.byId));
    var a, d := Origin(s, tasks, now, t, allow, o, x);
    var b, e := Origin(s, tasks, now, t, allow, p, y);
    SameIdSameCard(tasks, a, b);
  }

  /** A board whose ids are unique gives every sweep the shape the engine relies on: no
      card in two buckets, none twice in one. */
  lemma {:induction false} UniqueIdsOneOwner(s: R.Sweep, tasks: seq<Fields>, now: int, t: Thresholds,
                                             allow: set<string>)
    requires MadeFrom(s, tasks, now, t, allow) && UniqueIds(tasks)
    ensures R.OneOwnerEach(s)
  {
    forall o, p, id | R.Nagged(s, o, id) && R.Nagged(s, p, id) ensures o == p {
      OneOwner(s, tasks, now, t, allow, o, p, id);
    }
    forall o, i, j | 0 <= i < j < |R.NagCards(s, o)| ensures R.NagCards(s, o)[i].id != R.NagCards(s, o)[j].id {
      var bucket := BucketOf(s.buckets, o);
      forall k, l | 0 <= k < l < |bucket| ensures bucket[k].id != bucket[l].id {
        BucketHasDistinctIds(s, tasks, now, t, allow, o, k, l);
      }
      FilterKeepsDistinctRows(bucket, R.Nagworthy(s.byId));
    }
  }
}
