/** Repeating deadlines and the overdue predicate. */
module Deadlines {
  import opened Common
  import opened Calendar

  /** Microseconds in a day. */
  const DAY: int := 86_400_000_000

  /** A timestamp; a missing offset is read as UTC wherever two are compared. */
  datatype DateTime = DateTime(date: Date, time: int, offset: Option<int>)

  datatype Unit = Days | Weeks | Months | Years

  datatype Repeater = Repeater(n: nat, unit: Unit, catchup: bool)

  ghost predicate WellTimed(dt: DateTime)
  {
    && Valid(dt.date) && dt.date.year <= MAX_YEAR
    && 0 <= dt.time < DAY
    && (dt.offset.Some? ==> -DAY < dt.offset.value < DAY)
  }

  function OffsetOf(dt: DateTime): int
  {
    if dt.offset.Some? then dt.offset.value else 0
  }

  function Instant(dt: DateTime): int
  {
    Ordinal(dt.date) * DAY + dt.time - OffsetOf(dt)
  }

  // --- one period ---------------------------------------------------------

  function Advance(d: Date, n: nat, unit: Unit): Date
    requires d.month >= 1
  {
    match unit
    case Days => AddDays(d, n)
    case Weeks => AddDays(d, 7 * n)
    case Months => AddMonths(d, n)
    case Years => AddYears(d, n)
  }

  /** The longest a period can be, in days. */
  function SpanDays(n: nat, unit: Unit): nat
  {
    match unit
    case Days => n
    case Weeks => 7 * n
    case Months => 31 * n
    case Years => 366 * n
  }

  /** Adding a period moves the wall-clock date; past year 9999 it raises. */
  function AddPeriod(dt: DateTime, n: nat, unit: Unit): Result<DateTime>
    requires dt.date.month >= 1
  {
    var date := Advance(dt.date, n, unit);
    if date.year > MAX_YEAR then Err("date value out of range") else Ok(dt.(date := date))
  }

  /** Main result. Every period, in every unit, moves strictly forward, by no more
      than its span, and lands on a valid date. */
  lemma {:induction false} AdvanceForward(d: Date, n: nat, unit: Unit)
    requires Valid(d) && n > 0
    ensures Valid(Advance(d, n, unit))
    ensures 0 < Ordinal(Advance(d, n, unit)) - Ordinal(d) <= SpanDays(n, unit)
    ensures unit.Days? || unit.Weeks? ==> Ordinal(Advance(d, n, unit)) - Ordinal(d) == SpanDays(n, unit)
  {
    match unit
    case Days => AddDaysOrdinal(d, n);
    case Weeks => AddDaysOrdinal(d, 7 * n);
    case Months => AddMonthsForward(d, n);
    case Years => AddYearsForward(d, n);
  }

  lemma {:induction false} AddPeriodForward(dt: DateTime, n: nat, unit: Unit)
    requires WellTimed(dt) && n > 0
    ensures AddPeriod(dt, n, unit).Ok? ==>
      && WellTimed(AddPeriod(dt, n, unit).value)
      && 0 < Instant(AddPeriod(dt, n, unit).value) - Instant(dt) <= SpanDays(n, unit) * DAY
  {
    AdvanceForward(dt.date, n, unit);
    var days := Ordinal(Advance(dt.date, n, unit)) - Ordinal(dt.date);
    assert days * DAY <= SpanDays(n, unit) * DAY;
  }

  // --- the next occurrence ------------------------------------------------

  /** The result of stepping until `now` is reached. */
  ghost function NextOcc(base: DateTime, rep: Repeater, now: int): Result<DateTime>
    requires WellTimed(base) && rep.n > 0
    decreases now - Instant(base)
  {
    if Instant(base) >= now then Ok(base)
    else
      var next := AddPeriod(base, rep.n, rep.unit);
      if next.Err? then Err(next.error)
      else
        AddPeriodForward(base, rep.n, rep.unit);
        NextOcc(next.value, rep, now)
  }

  method NextOccurrence(base: DateTime, rep: Repeater, now: DateTime) returns (r: Result<DateTime>)
    requires WellTimed(base) && rep.n > 0
    ensures r == NextOcc(base, rep, Instant(now))
    ensures Instant(base) >= Instant(now) ==> r == Ok(base)
    ensures r.Ok? ==>
      && Instant(r.value) >= Instant(now) && r.value.time == base.time && r.value.offset == base.offset
      && r.value.date.year <= 9999
  {
    if Instant(base) >= Instant(now) {
      return Ok(base);
    }
    var current := base;
    while Instant(current) < Instant(now)
      invariant WellTimed(current) && current.time == base.time && current.offset == base.offset
      invariant NextOcc(base, rep, Instant(now)) == NextOcc(current, rep, Instant(now))
      decreases Instant(now) - Instant(current)
    {
      AddPeriodForward(current, rep.n, rep.unit);
      var next := AddPeriod(current, rep.n, rep.unit);
      if next.Err? {
        return Err(next.error);
      }
      current := next.value;
    }
    return Ok(current);
  }

  /** The date after `k` periods, on an unbounded calendar. */
  ghost function Iterate(d: Date, n: nat, unit: Unit, k: nat): Date
    requires Valid(d) && n > 0
    ensures Valid(Iterate(d, n, unit, k))
  {
    if k == 0 then d
    else
      AdvanceForward(Iterate(d, n, unit, k - 1), n, unit);
      Advance(Iterate(d, n, unit, k - 1), n, unit)
  }

  ghost function IterateAt(base: DateTime, rep: Repeater, k: nat): DateTime
    requires WellTimed(base) && rep.n > 0
  {
    base.(date := Iterate(base.date, rep.n, rep.unit, k))
  }

  lemma {:induction false} IterateShift(d: Date, n: nat, unit: Unit, k: nat)
    requires Valid(d) && n > 0
    ensures Valid(Advance(d, n, unit))
    ensures Iterate(d, n, unit, k + 1) == Iterate(Advance(d, n, unit), n, unit, k)
    decreases k
  {
    AdvanceForward(d, n, unit);
    if k > 0 {
      IterateShift(d, n, unit, k - 1);
    }
  }

  /** `k` is the first iterate at or after `now`. */
  ghost predicate FirstAt(base: DateTime, rep: Repeater, now: int, k: nat)
    requires WellTimed(base) && rep.n > 0
  {
    && Instant(IterateAt(base, rep, k)) >= now
    && forall j: nat :: j < k ==> Instant(IterateAt(base, rep, j)) < now
  }

  /** Main result. The next occurrence exists and is the least iterate at or after
      `now`; the call raises exactly when that iterate is past year 9999. When the
      base is before `now`, the result is less than one period past it. */
  lemma {:induction false} NextOccIsLeast(base: DateTime, rep: Repeater, now: int) returns (k: nat)
    requires WellTimed(base) && rep.n > 0
    ensures FirstAt(base, rep, now, k)
    ensures NextOcc(base, rep, now)
         == if IterateAt(base, rep, k).date.year > 9999 then Err("date value out of range")
            else Ok(IterateAt(base, rep, k))
    ensures Instant(base) < now ==> Instant(IterateAt(base, rep, k)) - now < SpanDays(rep.n, rep.unit) * DAY
  {
    k := LeastIterate(base, rep, now, 0);
    NextOccFollows(base, rep, now, k);
    if Instant(base) < now {
      assert IterateAt(base, rep, 0) == base;
      IterateStep(base, rep, k - 1);
      assert Instant(IterateAt(base, rep, k - 1)) < now;
    }
  }

  lemma {:induction false} IterateStep(base: DateTime, rep: Repeater, k: nat)
    requires WellTimed(base) && rep.n > 0
    ensures
      0 < Instant(IterateAt(base, rep, k + 1)) - Instant(IterateAt(base, rep, k)) <= SpanDays(rep.n, rep.unit) * DAY
    ensures IterateAt(base, rep, k + 1).date.year >= IterateAt(base, rep, k).date.year
  {
    var d := Iterate(base.date, rep.n, rep.unit, k);
    AdvanceForward(d, rep.n, rep.unit);
    var days := Ordinal(Advance(d, rep.n, rep.unit)) - Ordinal(d);
    assert days * DAY <= SpanDays(rep.n, rep.unit) * DAY;
    LaterYear(d, Advance(d, rep.n, rep.unit));
  }

  lemma {:induction false} LaterMonth(j: nat, k: nat)
    requires 12 <= j < k
    ensures MonthStart(j) + MonthLength(j) <= MonthStart(k)
  {
    MonthsAfter(j, k - j);
    assert j + (k - j) == k;
  }

  /** Dates are ordered by year first. */
  lemma {:induction false} LaterYear(a: Date, b: Date)
    requires Valid(a) && Valid(b) && Ordinal(a) < Ordinal(b)
    ensures a.year <= b.year
  {
    if b.year < a.year {
      OrdinalByMonth(a);
      OrdinalByMonth(b);
      LaterMonth(MonthIndex(b), MonthIndex(a));
    }
  }

  lemma {:induction false} LeastIterate(base: DateTime, rep: Repeater, now: int, from: nat) returns (k: nat)
    requires WellTimed(base) && rep.n > 0
    requires forall j: nat :: j < from ==> Instant(IterateAt(base, rep, j)) < now
    ensures FirstAt(base, rep, now, k)
    decreases now - Instant(IterateAt(base, rep, from))
  {
    if Instant(IterateAt(base, rep, from)) >= now {
      k := from;
    } else {
      IterateStep(base, rep, from);
      k := LeastIterate(base, rep, now, from + 1);
    }
  }

  lemma {:induction false} NextOccFollows(base: DateTime, rep: Repeater, now: int, k: nat)
    requires WellTimed(base) && rep.n > 0 && FirstAt(base, rep, now, k)
    ensures NextOcc(base, rep, now)
         == if IterateAt(base, rep, k).date.year > 9999 then Err("date value out of range")
            else Ok(IterateAt(base, rep, k))
    decreases k
  {
    assert IterateAt(base, rep, 0) == base;
    if k > 0 {
      assert Instant(IterateAt(base, rep, 0)) < now;
      var next := AddPeriod(base, rep.n, rep.unit);
      IterateShift(base.date, rep.n, rep.unit, 0);
      IterateShift(base.date, rep.n, rep.unit, k - 1);
      AddPeriodForward(base, rep.n, rep.unit);
      if next.Ok? {
        forall j: nat ensures IterateAt(next.value, rep, j) == IterateAt(base, rep, j + 1) {
          IterateShift(base.date, rep.n, rep.unit, j);
        }
        NextOccFollows(next.value, rep, now, k - 1);
      } else {
        YearsGrow(base, rep, 1, k);
      }
    }
  }

  lemma {:induction false} YearsGrow(base: DateTime, rep: Repeater, j: nat, k: nat)
    requires WellTimed(base) && rep.n > 0 && j <= k
    ensures IterateAt(base, rep, j).date.year <= IterateAt(base, rep, k).date.year
    decreases k - j
  {
    if j < k {
      IterateStep(base, rep, j);
      YearsGrow(base, rep, j + 1, k);
    }
  }

  // --- month-end drift ----------------------------------------------------

  /** The shortest of the months visited on the way to step `k`. */
  ghost function ShortestVisited(start: nat, n: nat, k: nat): nat
  {
    if k == 0 then 31 else Min(ShortestVisited(start, n, k - 1), MonthLength(start + k * n))
  }

  /** Main result. The k-th monthly occurrence is in month base + k·n, on the base
      day clamped by every month visited so far: once clamped, a day never grows
      back. */
  lemma {:induction false} MonthlyDrift(d: Date, n: nat, k: nat)
    requires Valid(d) && n > 0
    ensures MonthIndex(Iterate(d, n, Months, k)) == MonthIndex(d) + k * n
    ensures Iterate(d, n, Months, k).day == Min(d.day, ShortestVisited(MonthIndex(d), n, k))
    decreases k
  {
    if k > 0 {
      MonthlyDrift(d, n, k - 1);
      AddMonthsShape(Iterate(d, n, Months, k - 1), n);
      assert MonthIndex(d) + (k - 1) * n + n == MonthIndex(d) + k * n;
    }
  }

  /** Stepping agrees with jumping straight to the month, clamped once, if and only
      if no month on the way was too short for the day the jump lands on. */
  lemma {:induction false} StepIsJumpIff(d: Date, n: nat, k: nat)
    requires Valid(d) && n > 0
    ensures Iterate(d, n, Months, k) == AddMonths(d, k * n)
       <==> ShortestVisited(MonthIndex(d), n, k) >= Min(d.day, MonthLength(MonthIndex(d) + k * n))
  {
    MonthlyDrift(d, n, k);
    ShortestFits(d, n, k);
    JumpAgreesIff(d, Iterate(d, n, Months, k), k * n, ShortestVisited(MonthIndex(d), n, k));
  }

  lemma {:induction false} ShortestFits(d: Date, n: nat, k: nat)
    requires Valid(d)
    ensures ShortestVisited(MonthIndex(d), n, k) <= MonthLength(MonthIndex(d) + k * n)
      || d.day <= MonthLength(MonthIndex(d) + k * n)
  {
    if k == 0 {
      assert 0 * n == 0;
      OrdinalByMonth(d);
    }
  }

  lemma {:induction false} JumpAgreesIff(d: Date, step: Date, m: nat, shortest: nat)
    requires Valid(d) && Valid(step) && MonthIndex(step) == MonthIndex(d) + m && step.day == Min(d.day, shortest)
    requires shortest <= MonthLength(MonthIndex(d) + m) || d.day <= MonthLength(MonthIndex(d) + m)
    ensures step == AddMonths(d, m) <==> shortest >= Min(d.day, MonthLength(MonthIndex(d) + m))
  {
    AddMonthsShape(d, m);
    SameMonthSameDay(step, AddMonths(d, m));
  }

  lemma {:induction false} SameMonthSameDay(a: Date, b: Date)
    requires Valid(a) && Valid(b) && MonthIndex(a) == MonthIndex(b)
    ensures a == b <==> a.day == b.day
  {
    assert a.year == MonthIndex(a) / 12 && b.year == MonthIndex(b) / 12;
  }

  /** Yearly repeaters are monthly ones twelve times over, so they drift alike. */
  lemma {:induction false} YearlyIsMonthly(d: Date, n: nat, k: nat)
    requires Valid(d) && n > 0
    ensures Iterate(d, n, Years, k) == Iterate(d, 12 * n, Months, k)
    decreases k
  {
    if k > 0 {
      YearlyIsMonthly(d, n, k - 1);
      YearsAreMonths(Iterate(d, n, Years, k - 1), n);
    }
  }

  // --- overdue ------------------------------------------------------------

  /** A stored deadline after parsing. An absent or unparseable one is skipped. */
  datatype Entry = Skipped | Due(at: DateTime, hasTime: bool, repeater: Option<Repeater>)

  /** The documented forms: a bare date is midnight without an offset. */
  ghost predicate WellFormed(e: Entry)
  {
    e.Due? ==>
      && WellTimed(e.at)
      && (!e.hasTime ==> e.at.time == 0 && e.at.offset == None)
      && (e.repeater.Some? ==> e.repeater.value.n > 0)
  }

  datatype Candidate = Candidate(at: DateTime, hasTime: bool)

  ghost function PickNext(e: Entry, now: DateTime): Result<Option<Candidate>>
    requires WellFormed(e)
  {
    if e.Skipped? then Ok(None)
    else if e.repeater == None then Ok(Some(Candidate(e.at, e.hasTime)))
    else match NextOcc(e.at, e.repeater.value, Instant(now))
      case Ok(dt) => Ok(Some(Candidate(dt, e.hasTime)))
      case Err(error) => Err(error)
  }

  /** A deadline in the past, at the granularity it was stored with. */
  /** What an entry puts forward: nothing when skipped; its own date when it does not
      repeat; else a date not before now, the entry's own if that is not past, at the
      entry's time of day and granularity. */
  lemma {:induction false} PickMeans(e: Entry, now: DateTime)
    requires WellFormed(e)
    ensures PickNext(e, now) == Ok(None) <==> e == Skipped
    ensures e.Due? && e.repeater == None ==> PickNext(e, now) == Ok(Some(Candidate(e.at, e.hasTime)))
    ensures e.Due? && e.repeater != None && PickNext(e, now).Ok? ==>
      var c := PickNext(e, now).value.value;
      && c.hasTime == e.hasTime && c.at.time == e.at.time && c.at.offset == e.at.offset
      && Instant(c.at) >= Instant(now) && (Instant(e.at) >= Instant(now) ==> c.at == e.at)
  {
    if e.Due? && e.repeater != None {
      var k := NextOccIsLeast(e.at, e.repeater.value, Instant(now));
    }
  }

  predicate Past(c: Candidate, now: DateTime)
  {
    if c.hasTime then Instant(c.at) < Instant(now) else Ordinal(c.at.date) < Ordinal(now.date)
  }

  predicate Closed(status: string)
  {
    Strip(status) in ["done", "failed", "cancelled", "goal"]
  }

  /** The soonest candidate; the first of equals, as `min` keeps it. */
  ghost predicate IsSoonest(cs: seq<Candidate>, i: int)
  {
    && 0 <= i < |cs|
    && (forall j :: 0 <= j < |cs| ==> Instant(cs[i].at) <= Instant(cs[j].at))
    && (forall j :: 0 <= j < i ==> Instant(cs[i].at) < Instant(cs[j].at))
  }

  /** Candidates of a deadline list, one per entry that has one. */
  ghost predicate Gathers(es: seq<Entry>, now: DateTime, cs: seq<Candidate>)
    requires forall e :: e in es ==> WellFormed(e)
    decreases |es|
  {
    if es == [] then cs == []
    else
      var front, last := es[..|es| - 1], PickNext(es[|es| - 1], now);
      && last.Ok?
      && if last.value.None? then Gathers(front, now, cs)
         else cs != [] && cs[|cs| - 1] == last.value.value && Gathers(front, now, cs[..|cs| - 1])
  }

  ghost predicate Raises(es: seq<Entry>, now: DateTime)
    requires forall e :: e in es ==> WellFormed(e)
  {
    exists e :: e in es && PickNext(e, now).Err?
  }

  /** The next date of every entry that has one, in list order. */
  method Candidates(es: seq<Entry>, now: DateTime) returns (r: Result<seq<Candidate>>)
    requires forall e :: e in es ==> WellFormed(e)
    ensures r.Err? <==> Raises(es, now)
    ensures r.Ok? ==> Gathers(es, now, r.value)
  {
    var candidates: seq<Candidate> := [];
    for i := 0 to |es|
      invariant Gathers(es[..i], now, candidates)
      invariant !Raises(es[..i], now)
    {
      assert es[i] in es && es[..i + 1][..i] == es[..i];
      var e := es[i];
      if e.Due? {
        var at := Ok(e.at);
        if e.repeater.Some? {
          at := NextOccurrence(e.at, e.repeater.value, now);
        }
        if at.Err? {
          return Err(at.error);
        }
        candidates := candidates + [Candidate(at.value, e.hasTime)];
        assert candidates[..|candidates| - 1] + [candidates[|candidates| - 1]] == candidates;
      }
    }
    assert es[..|es|] == es;
    return Ok(candidates);
  }

  /** The instants the candidates are compared by. */
  function Keys(candidates: seq<Candidate>): (keys: seq<int>)
    ensures |keys| == |candidates|
    ensures forall i :: 0 <= i < |keys| ==> keys[i] == Instant(candidates[i].at)
  {
    seq(|candidates|, i requires 0 <= i < |candidates| => Instant(candidates[i].at))
  }

  /** The place of the soonest key, the first of equals. */
  method Soonest(keys: seq<int>) returns (best: nat)
    requires keys != []
    ensures best < |keys|
    ensures forall j :: 0 <= j < |keys| ==> keys[best] <= keys[j]
    ensures forall j :: 0 <= j < best ==> keys[best] < keys[j]
  {
    best := 0;
    for j := 1 to |keys|
      invariant 0 <= best < j
      invariant forall k :: 0 <= k < j ==> keys[best] <= keys[k]
      invariant forall k :: 0 <= k < best ==> keys[best] < keys[k]
    {
      if keys[j] < keys[best] {
        best := j;
      }
    }
  }

  method NextDeadline(es: seq<Entry>, now: DateTime) returns (r: Result<Option<Candidate>>, ghost cs: seq<Candidate>)
    requires forall e :: e in es ==> WellFormed(e)
    ensures r.Err? <==> Raises(es, now)
    ensures r.Ok? ==> Gathers(es, now, cs)
    ensures r.Ok? && r.value == None ==> cs == []
    ensures r.Ok? && r.value.Some? ==> exists i :: IsSoonest(cs, i) && r.value.value == cs[i]
  {
    var gathered := Candidates(es, now);
    if gathered.Err? {
      return Err(gathered.error), [];
    }
    cs := gathered.value;
    if gathered.value == [] {
      return Ok(None), cs;
    }
    var best := Soonest(Keys(gathered.value));
    assert IsSoonest(cs, best);
    return Ok(Some(gathered.value[best])), cs;
  }

  /** The verdict for a list of candidates: that of the soonest. */
  ghost predicate Overdue(status: string, cs: seq<Candidate>, now: DateTime)
  {
    !Closed(status) && exists i :: IsSoonest(cs, i) && Past(cs[i], now)
  }

  method IsOverdue(status: string, es: seq<Entry>, now: DateTime) returns (r: Result<bool>, ghost cs: seq<Candidate>)
    requires forall e :: e in es ==> WellFormed(e)
    ensures r.Err? <==> !Closed(status) && Raises(es, now)
    ensures Closed(status) ==> r == Ok(false)
    ensures Strip(status) in {"done", "failed", "cancelled", "goal"} <==> Closed(status)
    ensures r.Ok? && !Closed(status) ==> Gathers(es, now, cs) && (r.value <==> Overdue(status, cs, now))
  {
    cs := [];
    if Closed(status) {
      return Ok(false), [];
    }
    var next;
    next, cs := NextDeadline(es, now);
    match next {
      case Err(error) => return Err(error), cs;
      case Ok(None) => return Ok(false), cs;
      case Ok(Some(c)) =>
        SoonestUnique(cs);
        return Ok(Past(c, now)), cs;
    }
  }

  lemma {:induction false} SoonestUnique(cs: seq<Candidate>)
    ensures forall i, j :: IsSoonest(cs, i) && IsSoonest(cs, j) ==> i == j
  {
    forall i, j | IsSoonest(cs, i) && IsSoonest(cs, j) ensures i == j {
      assert Instant(cs[i].at) <= Instant(cs[j].at) && Instant(cs[j].at) <= Instant(cs[i].at);
    }
  }

  lemma {:induction false} SoonestExists(cs: seq<Candidate>)
    requires cs != []
    ensures exists i :: IsSoonest(cs, i)
    decreases |cs|
  {
    if |cs| == 1 {
      assert IsSoonest(cs, 0);
    } else {
      SoonestExists(cs[..|cs| - 1]);
      var i :| IsSoonest(cs[..|cs| - 1], i);
      assert IsSoonest(cs, if Instant(cs[|cs| - 1].at) < Instant(cs[i].at) then |cs| - 1 else i);
    }
  }

  /** Every candidate comes from an entry of the list. */
  lemma {:induction false} CandidateHasEntry(es: seq<Entry>, now: DateTime, cs: seq<Candidate>, i: nat)
    returns (e: Entry)
    requires forall e :: e in es ==> WellFormed(e)
    requires Gathers(es, now, cs) && i < |cs|
    ensures e in es && PickNext(e, now) == Ok(Some(cs[i]))
    decreases |es|
  {
    var front, last := es[..|es| - 1], PickNext(es[|es| - 1], now);
    if last.value.None? {
      e := CandidateHasEntry(front, now, cs, i);
    } else if i == |cs| - 1 {
      e := es[|es| - 1];
    } else {
      e := CandidateHasEntry(front, now, cs[..|cs| - 1], i);
    }
  }

  /** Where a clock reads in its own zone, seen from an instant. */
  lemma {:induction false} LocalDay(at: DateTime, now: DateTime)
    requires 0 <= now.time < DAY && (now.offset.Some? ==> -DAY < now.offset.value < DAY)
    requires at.time == 0 && at.offset == None && Instant(at) >= Instant(now)
    ensures Ordinal(at.date) >= Ordinal(now.date)
  {
    assert Ordinal(at.date) * DAY > (Ordinal(now.date) - 1) * DAY;
  }

  /** Main result. Whatever the offset of `now`, a card whose deadlines all repeat
      is never overdue. */
  lemma {:induction false} RepeatingNeverOverdue(status: string, es: seq<Entry>, now: DateTime)
    requires WellTimed(now) && forall e :: e in es ==> WellFormed(e)
    requires forall e :: e in es && e.Due? ==> e.repeater.Some?
    ensures forall cs :: Gathers(es, now, cs) ==> !Overdue(status, cs, now)
  {
    forall cs: seq<Candidate>, i: int | Gathers(es, now, cs) && IsSoonest(cs, i) ensures !Past(cs[i], now) {
      var e := CandidateHasEntry(es, now, cs, i);
      var k := NextOccIsLeast(e.at, e.repeater.value, Instant(now));
      assert cs[i].at == IterateAt(e.at, e.repeater.value, k);
      if !e.hasTime {
        LocalDay(cs[i].at, now);
      }
    }
  }

  /** The candidates keep the documented forms, repeated or not. */
  ghost predicate Plain(cs: seq<Candidate>)
  {
    forall i :: 0 <= i < |cs| && !cs[i].hasTime ==> cs[i].at.time == 0 && cs[i].at.offset == None
  }

  lemma {:induction false} GatheredIsPlain(es: seq<Entry>, now: DateTime, cs: seq<Candidate>)
    requires forall e :: e in es ==> WellFormed(e)
    requires Gathers(es, now, cs)
    ensures Plain(cs)
  {
    forall i | 0 <= i < |cs| && !cs[i].hasTime ensures cs[i].at.time == 0 && cs[i].at.offset == None {
      var e := CandidateHasEntry(es, now, cs, i);
      if e.repeater.Some? {
        var k := NextOccIsLeast(e.at, e.repeater.value, Instant(now));
      }
    }
  }

  /** In the order deadlines are picked: the earlier instant, then the earlier place. */
  predicate Before(cs: seq<Candidate>, i: nat, j: nat)
    requires i < |cs| && j < |cs|
  {
    Instant(cs[i].at) < Instant(cs[j].at) || (Instant(cs[i].at) == Instant(cs[j].at) && i < j)
  }

  /** A bare date, today or later, comes before every deadline that has passed, and each
      of those is timed. */
  ghost predicate Hides(cs: seq<Candidate>, now: DateTime, i: nat)
    requires i < |cs|
  {
    && !cs[i].hasTime && Ordinal(cs[i].at.date) >= Ordinal(now.date)
    && forall j :: 0 <= j < |cs| && Past(cs[j], now) ==> cs[j].hasTime && Before(cs, i, j)
  }

  ghost predicate Masked(cs: seq<Candidate>, now: DateTime)
  {
    exists i :: 0 <= i < |cs| && Hides(cs, now, i)
  }

  ghost predicate SomePast(cs: seq<Candidate>, now: DateTime)
  {
    exists j :: 0 <= j < |cs| && Past(cs[j], now)
  }

  /** Main result. An overdue card always has a passed deadline; a card with a passed
      deadline is overdue if and only if no bare date of today or later comes before all
      that have passed. */
  lemma {:induction false} OverdueIffUnmasked(status: string, cs: seq<Candidate>, now: DateTime)
    requires WellTimed(now) && Plain(cs) && !Closed(status)
    ensures Overdue(status, cs, now) <==> SomePast(cs, now) && !Masked(cs, now)
  {
    SoonestUnique(cs);
    if j :| 0 <= j < |cs| && Past(cs[j], now) {
      SoonestExists(cs);
      var i :| IsSoonest(cs, i);
      if Past(cs[i], now) {
        forall k | 0 <= k < |cs| ensures !Hides(cs, now, k) {
          assert !Before(cs, k, i);
        }
      } else {
        forall k | 0 <= k < |cs| && Past(cs[k], now) ensures !cs[i].hasTime && cs[k].hasTime && Before(cs, i, k) {
          if cs[i].hasTime || !cs[k].hasTime {
            PastEarlier(cs[i], cs[k], now);
          }
        }
        assert Hides(cs, now, i);
      }
    }
  }

  /** Being no later than a past deadline makes a deadline past, except for a bare
      date against a timed one. */
  lemma {:induction false} PastEarlier(c: Candidate, d: Candidate, now: DateTime)
    requires WellTimed(now) && Instant(c.at) <= Instant(d.at) && Past(d, now)
    requires !c.hasTime ==> c.at.time == 0 && c.at.offset == None
    requires !d.hasTime ==> d.at.time == 0 && d.at.offset == None
    requires c.hasTime || !d.hasTime
    ensures Past(c, now)
  {
    if !d.hasTime {
      var a, b := Ordinal(d.at.date), Ordinal(now.date);
      assert a * DAY <= (b - 1) * DAY;
      if !c.hasTime {
        assert Ordinal(c.at.date) * DAY <= a * DAY;
      }
    }
  }

  /** With one granularity throughout, a card is overdue exactly when one of its
      deadlines is. */
  lemma {:induction false} OneGranularityIsExact(status: string, cs: seq<Candidate>, now: DateTime)
    requires WellTimed(now) && Plain(cs) && !Closed(status)
    requires forall i, j :: 0 <= i < |cs| && 0 <= j < |cs| ==> cs[i].hasTime == cs[j].hasTime
    ensures Overdue(status, cs, now) <==> SomePast(cs, now)
  {
    OverdueIffUnmasked(status, cs, now);
  }

  /** The masking case is real: on an open card, a bare date today hides a deadline at
      nine, at ten. */
  lemma {:induction false} TodayMasksNine() returns (es: seq<Entry>, cs: seq<Candidate>, now: DateTime)
    ensures WellTimed(now) && forall e :: e in es ==> WellFormed(e)
    ensures Gathers(es, now, cs) && SomePast(cs, now) && Masked(cs, now) && !Overdue("deferred", cs, now)
  {
    var today := Date(2026, 7, 23);
    var hour := 3_600_000_000;
    now := DateTime(today, 10 * hour, Some(0));
    var day, nine := DateTime(today, 0, None), DateTime(today, 9 * hour, Some(0));
    es := [Due(day, false, None), Due(nine, true, None)];
    cs := [Candidate(day, false), Candidate(nine, true)];
    assert es[..1] == [es[0]] && [es[0]][..0] == [] && cs[..1] == [cs[0]] && [cs[0]][..0] == [];
    assert Gathers([es[0]], now, [cs[0]]);
    assert Hides(cs, now, 0);
    assert Past(cs[1], now);
    OpenDeferred();
    OverdueIffUnmasked("deferred", cs, now);
  }

  lemma {:induction false} OpenDeferred()
    ensures !Closed("deferred")
  {
    assert Strip("deferred") == "deferred";
  }

  // --- time zones ---------------------------------------------------------

  /** The same moment read off a clock `h` further ahead: the wall clock and the offset
      move together, the date with the wall clock. A missing offset counts as zero. */
  ghost predicate Rezoned(a: DateTime, b: DateTime, h: int)
  {
    && Ordinal(b.date) * DAY + b.time == Ordinal(a.date) * DAY + a.time + h
    && b.offset == Some((if a.offset.Some? then a.offset.value else 0) + h)
  }

  /** A moment is the same moment in every zone: a timed deadline has passed or not
      whichever zone it, or the clock, is written in. */
  lemma {:induction false} PastInAnyZone(c: Candidate, d: Candidate, now: DateTime, same: DateTime, h: int, g: int)
    requires c.hasTime && d.hasTime && Rezoned(c.at, d.at, h) && Rezoned(now, same, g)
    ensures Past(c, now) <==> Past(d, same)
  {
  }

  /** An hour later by the wall clock, in one zone, is later; an hour further ahead, by
      the same wall clock, is earlier. */
  lemma {:induction false} AheadIsEarlier(dt: DateTime, h: int)
    requires h > 0
    ensures Instant(dt.(time := dt.time + h)) > Instant(dt)
    ensures Instant(dt.(offset := Some((if dt.offset.Some? then dt.offset.value else 0) + h))) < Instant(dt)
  {
  }

  /** The same wall-clock date, `h` further ahead. */
  function Moved(dt: DateTime, h: int): DateTime
  {
    dt.(time := dt.time + h, offset := Some((if dt.offset.Some? then dt.offset.value else 0) + h))
  }

  /** A repeater started from the same moment in another zone, on the same wall-clock
      date, gives the same occurrence in that zone; the zone of the clock is immaterial. */
  lemma {:induction false} NextInAnyZone(base: DateTime, rep: Repeater, now: DateTime, same: DateTime, h: int, g: int)
    requires WellTimed(base) && WellTimed(Moved(base, h)) && rep.n > 0 && Rezoned(now, same, g)
    ensures NextOcc(base, rep, Instant(now)).Ok? <==> NextOcc(Moved(base, h), rep, Instant(same)).Ok?
    ensures NextOcc(base, rep, Instant(now)).Ok? ==>
      NextOcc(Moved(base, h), rep, Instant(same)).value == Moved(NextOcc(base, rep, Instant(now)).value, h)
  {
    MovedSteps(base, rep, Instant(now), h);
  }

  lemma {:induction false} MovedSteps(base: DateTime, rep: Repeater, now: int, h: int)
    requires WellTimed(base) && WellTimed(Moved(base, h)) && rep.n > 0
    ensures NextOcc(base, rep, now).Ok? <==> NextOcc(Moved(base, h), rep, now).Ok?
    ensures NextOcc(base, rep, now).Ok? ==>
      NextOcc(Moved(base, h), rep, now).value == Moved(NextOcc(base, rep, now).value, h)
    decreases now - Instant(base)
  {
    assert Instant(Moved(base, h)) == Instant(base);
    if Instant(base) < now {
      var next := AddPeriod(base, rep.n, rep.unit);
      assert AddPeriod(Moved(base, h), rep.n, rep.unit)
        == if next.Ok? then Ok(Moved(next.value, h)) else Err(next.error);
      if next.Ok? {
        AddPeriodForward(base, rep.n, rep.unit);
        MovedSteps(next.value, rep, now, h);
      }
    }
  }

  /** A deadline at nine in a zone nine hours ahead has passed at half past midnight UTC,
      and repeating daily from it comes due the next day. */
  lemma {:induction false} NineHoursAhead() returns (at: DateTime, now: DateTime)
    ensures at == DateTime(Date(2026, 7, 23), 9 * 3_600_000_000, Some(9 * 3_600_000_000))
    ensures now == DateTime(Date(2026, 7, 23), 1_800_000_000, Some(0)) && WellTimed(now)
    ensures Gathers([Due(at, true, None)], now, [Candidate(at, true)])
    ensures Overdue("deferred", [Candidate(at, true)], now)
    ensures NextOcc(at, Repeater(1, Days, false), Instant(now)) == Ok(at.(date := Date(2026, 7, 24)))
  {
    var hour := 3_600_000_000;
    at := DateTime(Date(2026, 7, 23), 9 * hour, Some(9 * hour));
    now := DateTime(Date(2026, 7, 23), 1_800_000_000, Some(0));
    var es, cs := [Due(at, true, None)], [Candidate(at, true)];
    assert es[..0] == [] && cs[..0] == [];
    assert Past(cs[0], now) && IsSoonest(cs, 0);
    OpenDeferred();
    assert AddDays(at.date, 1) == Date(2026, 7, 24) by {
      assert AddDays(NextDay(at.date), 0) == NextDay(at.date);
    }
    NextDayOrdinal(at.date);
    assert AddPeriod(at, 1, Days) == Ok(at.(date := Date(2026, 7, 24)));
    assert Instant(at.(date := Date(2026, 7, 24))) >= Instant(now);
  }
}
