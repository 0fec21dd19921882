/** Laws over whole runs of sweeps: how close together and how far apart digests are,
    and when a stuck card reaches the operator. */
module ReminderLaws {
  import opened Common
  import opened Reminders

  /** A run: `states[k]` is what is saved before sweep `k`. */
  datatype History = History(cfg: Config, states: seq<State>, sweeps: seq<Sweep>, reports: seq<Report>) {
    ghost predicate Follows(k: nat)
      requires |states| == |sweeps| + 1 && |reports| == |sweeps| && k < |sweeps|
    {
      Swept(states[k], sweeps[k], cfg, states[k + 1], reports[k])
    }

    ghost predicate Valid()
    {
      && |states| == |sweeps| + 1 && |reports| == |sweeps|
      && forall k :: 0 <= k < |sweeps| ==> Follows(k)
    }

    /** The owner has something to be nagged about at every sweep of the stretch. */
    ghost predicate OwnerNagged(owner: string, lo: nat, hi: nat)
      requires lo <= hi <= |sweeps|
    {
      forall k :: lo <= k < hi ==> NagCards(sweeps[k], owner) != []
    }

    ghost predicate CardNagged(owner: string, id: string, lo: nat, hi: nat)
      requires lo <= hi <= |sweeps|
    {
      forall k :: lo <= k < hi ==> Nagged(sweeps[k], owner, id)
    }

    /** No digest for the owner goes out in the stretch. */
    ghost predicate Silent(owner: string, lo: nat, hi: nat)
      requires lo <= hi <= |reports|
    {
      forall k :: lo <= k < hi ==> owner !in reports[k].digested
    }
  }

  /** What one sweep does to the entry of an owner it nags. */
  lemma {:induction false} OwnerTurn(h: History, owner: string, k: nat)
    requires h.Valid() && k < |h.sweeps| && NagCards(h.sweeps[k], owner) != []
    ensures owner in h.states[k + 1].owners
    ensures EntryOf(h.states[k + 1].owners, owner) == OwnerResult(h.states[k], h.sweeps[k], h.cfg, owner).0
    ensures owner in h.reports[k].digested <==> OwnerResult(h.states[k], h.sweeps[k], h.cfg, owner).1 == Delivered
  {
    assert h.Follows(k);
    assert owner in h.states[k + 1].owners;
    assert owner in h.sweeps[k].buckets.Keys;
  }

  // --- no digest too early ------------------------------------------------

  /** After a delivery the entry remembers it until the next one. */
  lemma {:induction false} DeliveryRemembered(h: History, owner: string, i: nat, j: nat)
    requires h.Valid() && i < j <= |h.sweeps| && h.OwnerNagged(owner, i, j)
    requires owner in h.reports[i].digested && h.Silent(owner, i + 1, j)
    ensures EntryOf(h.states[j].owners, owner).fingerprint == Some(FingerprintOf(NagCards(h.sweeps[i], owner)))
    ensures EntryOf(h.states[j].owners, owner).deliveredAt == Some(Iso(h.sweeps[i].now))
    decreases j
  {
    OwnerTurn(h, owner, j - 1);
    if j > i + 1 {
      DeliveryRemembered(h, owner, i, j - 1);
    }
  }

  /** Two consecutive digests with the same content, to an owner nagged throughout, are
      more than the floor less one second apart. The second is the whole-second
      truncation of the stored instant; nothing is assumed of the clock, the gaps or
      which enqueues succeed. */
  lemma {:induction false} SameDigestHeldBack(h: History, owner: string, i: nat, j: nat)
    requires h.Valid() && i < j < |h.sweeps| && h.OwnerNagged(owner, i, j + 1)
    requires owner in h.reports[i].digested && owner in h.reports[j].digested && h.Silent(owner, i + 1, j)
    requires FingerprintOf(NagCards(h.sweeps[i], owner)) == FingerprintOf(NagCards(h.sweeps[j], owner))
    ensures h.sweeps[j].now - h.sweeps[i].now > h.cfg.floor - SECOND
  {
    DeliveryRemembered(h, owner, i, j);
    OwnerTurn(h, owner, j);
  }

  /** While nothing is delivered the entry remembers the same last delivery. */
  lemma {:induction false} MemoryHolds(h: History, owner: string, i: nat, j: nat)
    requires h.Valid() && i <= j <= |h.sweeps| && h.OwnerNagged(owner, i, j) && h.Silent(owner, i, j)
    ensures EntryOf(h.states[j].owners, owner).fingerprint == EntryOf(h.states[i].owners, owner).fingerprint
    ensures EntryOf(h.states[j].owners, owner).deliveredAt == EntryOf(h.states[i].owners, owner).deliveredAt
    decreases j
  {
    if i < j {
      MemoryHolds(h, owner, i, j - 1);
      OwnerTurn(h, owner, j - 1);
    }
  }

  /** A digest that failed to send is not held back later: from any saved state, as long
      as nothing has gone out since and the content is the same, a later sweep does not
      suppress it. */
  lemma {:induction false} FailedIsRetried(h: History, owner: string, i: nat, j: nat)
    requires h.Valid() && i < j < |h.sweeps| && h.OwnerNagged(owner, i, j + 1) && h.Silent(owner, i, j)
    requires OwnerResult(h.states[i], h.sweeps[i], h.cfg, owner).1 == Failed
    requires FingerprintOf(NagCards(h.sweeps[i], owner)) == FingerprintOf(NagCards(h.sweeps[j], owner))
    requires h.sweeps[i].now <= h.sweeps[j].now
    ensures OwnerResult(h.states[j], h.sweeps[j], h.cfg, owner).1 != Suppressed
  {
    MemoryHolds(h, owner, i, j);
  }

  /** The first digest of a streak is never held back, however many attempts have failed. */
  lemma {:induction false} FirstIsNeverHeldBack(h: History, owner: string, j: nat)
    requires h.Valid() && j < |h.sweeps| && owner !in h.states[0].owners
    requires h.OwnerNagged(owner, 0, j + 1) && h.Silent(owner, 0, j)
    ensures OwnerResult(h.states[j], h.sweeps[j], h.cfg, owner).1 != Suppressed
  {
    MemoryHolds(h, owner, 0, j);
  }

  ghost predicate Lists(s: Sweep, owner: string, id: string, status: string)
  {
    exists c :: c in NagCards(s, owner) && c.id == id && c.status == status
  }

  /** Changed content is sent: once a card has joined or left the list since the last
      digest, or its status has moved, a sweep that is due delivers whenever the inbox
      accepts, however recent that digest. */
  lemma {:induction false} ChangedIsSent(h: History, owner: string, i: nat, j: nat, id: string, status: string)
    requires h.Valid() && i < j < |h.sweeps| && h.OwnerNagged(owner, i, j + 1)
    requires owner in h.reports[i].digested && h.Silent(owner, i + 1, j)
    requires Lists(h.sweeps[i], owner, id, status) != Lists(h.sweeps[j], owner, id, status)
    ensures
      var s, last := h.sweeps[j], EntryOf(h.states[j].owners, owner).lastAt;
      var due := last.Some? ==> s.now - last.value >= OwnerInterval(NagCards(s, owner), s.byId, h.cfg);
      owner in h.reports[j].digested <==> due && s.ok(Notice(s.resolve(owner), Digest, "(digest)", true))
  {
    DeliveryRemembered(h, owner, i, j);
    OwnerTurn(h, owner, j);
    FingerprintLists(NagCards(h.sweeps[i], owner), id, status);
    FingerprintLists(NagCards(h.sweeps[j], owner), id, status);
  }

  /** The second cannot be dropped from the bound: a digest delivered in the last
      microsecond of a second is repeated when the floor has just under a second to
      run. */
  lemma {:induction false} TruncationCostsUpToASecond(fp: Fingerprint)
    ensures
      var floor := 10 * SECOND;
      var first := OwnerStep(FRESH_OWNER, SECOND - 1, fp, SECOND, floor, true);
      var second := OwnerStep(first.0, 10 * SECOND, fp, SECOND, floor, true);
      first.1 == Delivered && second.1 == Delivered && 10 * SECOND - (SECOND - 1) == floor - SECOND + 1
  {
    assert Iso(SECOND - 1) == 0;
  }

  // --- no silence too long ------------------------------------------------

  function NonNegative(x: int): int
  {
    if x < 0 then 0 else x
  }

  /** What the silence bounds assume of one sweep after another: the owner is nagged, at
      most `gap` after the sweep before, asks for a cadence of at most `most`, and the
      owner's digest can be enqueued. */
  ghost predicate SteadyAt(h: History, owner: string, k: nat, gap: int, most: int)
    requires 0 < k < |h.sweeps|
  {
    var s := h.sweeps[k];
    && NagCards(s, owner) != []
    && 0 <= s.now - h.sweeps[k - 1].now <= gap
    && OwnerInterval(NagCards(s, owner), s.byId, h.cfg) <= most
    && s.ok(Notice(s.resolve(owner), Digest, "(digest)", true))
  }

  /** Every sweep after `lo` and before `hi` is such. */
  ghost predicate Steady(h: History, owner: string, lo: nat, hi: nat, gap: int, most: int)
    requires lo <= hi <= |h.sweeps|
  {
    forall k :: lo < k < hi ==> SteadyAt(h, owner, k, gap, most)
  }

  /** Where an owner's entry stands after some sweep at `now`: the last delivery was at
      `sent`, the last tick at `ticked`. */
  ghost predicate Standing(e: OwnerEntry, now: int, sent: int, ticked: int, floor: int, most: int)
  {
    && e.lastAt == Some(Iso(ticked)) && e.deliveredAt == Some(Iso(sent)) && e.fingerprint.Some?
    && sent <= ticked <= now
    && (ticked == sent || ticked < sent + floor)
    && (now == ticked || now < ticked + most)
  }

  /** One sweep at which the digest can be enqueued either delivers, or leaves the owner
      standing where the last delivery is still recent. */
  lemma {:induction false} StandingStep(e: OwnerEntry, was: int, sent: int, ticked: int, now: int, fp: Fingerprint,
                                        interval: int, most: int, floor: int)
    requires Standing(e, was, sent, ticked, floor, most) && was <= now && interval <= most
    ensures
      var (after, outcome) := OwnerStep(e, now, fp, interval, floor, true);
      && outcome != Failed
      && (outcome == Delivered ==> Standing(after, now, now, now, floor, most))
      && (outcome != Delivered ==> exists u :: Standing(after, now, sent, u, floor, most))
  {
    var (after, outcome) := OwnerStep(e, now, fp, interval, floor, true);
    match outcome {
      case NotDue => assert Standing(after, now, sent, ticked, floor, most);
      case Suppressed => assert Standing(after, now, sent, now, floor, most);
      case Delivered =>
    }
  }

  lemma {:induction false} StandingAtDelivery(h: History, owner: string, i: nat, most: int) returns (u: int)
    requires h.Valid() && i < |h.sweeps| && owner in h.reports[i].digested
    ensures Standing(EntryOf(h.states[i + 1].owners, owner), h.sweeps[i].now, h.sweeps[i].now, u, h.cfg.floor, most)
  {
    assert h.Follows(i);
    OwnerTurn(h, owner, i);
    u := h.sweeps[i].now;
  }

  /** Since a delivery, while nothing more has gone out. */
  lemma {:induction false} StandingSince(h: History, owner: string, i: nat, k: nat, gap: int, most: int)
    returns (u: int)
    requires h.Valid() && i <= k < |h.sweeps| && Steady(h, owner, i, k + 1, gap, most)
    requires owner in h.reports[i].digested && h.Silent(owner, i + 1, k + 1)
    ensures Standing(EntryOf(h.states[k + 1].owners, owner), h.sweeps[k].now, h.sweeps[i].now, u, h.cfg.floor, most)
    decreases k
  {
    if k == i {
      u := StandingAtDelivery(h, owner, i, most);
    } else {
      u := StandingSince(h, owner, i, k - 1, gap, most);
      u := NextStanding(h, owner, i, k, u, gap, most);
    }
  }

  /** One more sweep after a known last delivery. */
  lemma {:induction false} NextStanding(h: History, owner: string, i: nat, k: nat, u: int, gap: int, most: int)
    returns (v: int)
    requires h.Valid() && i < k < |h.sweeps| && SteadyAt(h, owner, k, gap, most)
    requires owner !in h.reports[k].digested
    requires Standing(EntryOf(h.states[k].owners, owner), h.sweeps[k - 1].now, h.sweeps[i].now, u, h.cfg.floor, most)
    ensures Standing(EntryOf(h.states[k + 1].owners, owner), h.sweeps[k].now, h.sweeps[i].now, v, h.cfg.floor, most)
  {
    OwnerTurn(h, owner, k);
    var s := h.sweeps[k];
    var fp, interval := FingerprintOf(NagCards(s, owner)), OwnerInterval(NagCards(s, owner), s.byId, h.cfg);
    StandingStep(EntryOf(h.states[k].owners, owner), h.sweeps[k - 1].now, h.sweeps[i].now, u, s.now, fp, interval,
                 most, h.cfg.floor);
    v :| Standing(EntryOf(h.states[k + 1].owners, owner), s.now, h.sweeps[i].now, v, h.cfg.floor, most);
  }

  /** The last sweep up to `k` at which a digest went out, when one did at `i`. */
  lemma {:induction false} LastDelivery(h: History, owner: string, i: nat, k: nat)
    requires i <= k < |h.reports| && owner in h.reports[i].digested
    ensures exists m :: i <= m <= k && owner in h.reports[m].digested && h.Silent(owner, m + 1, k + 1)
  {
    if owner !in h.reports[k].digested {
      LastDelivery(h, owner, i, k - 1);
    }
  }

  /** Some digest at or after `i` is less than floor + interval old at sweep `k`. */
  ghost predicate RecentlyTold(h: History, owner: string, i: nat, k: nat, most: int)
    requires i <= k < |h.sweeps| == |h.reports|
  {
    exists m :: i <= m <= k && owner in h.reports[m].digested
                && h.sweeps[k].now - h.sweeps[m].now < NonNegative(h.cfg.floor) + most
  }

  /** After any delivery a steadily nagged owner is never left alone for long: at every
      later sweep a digest was delivered less than floor + interval ago. */
  lemma {:induction false} NeverLeftAlone(h: History, owner: string, i: nat, k: nat, gap: int, most: int)
    requires h.Valid() && i <= k < |h.sweeps| && Steady(h, owner, i, k + 1, gap, most) && most > 0
    requires owner in h.reports[i].digested
    ensures RecentlyTold(h, owner, i, k, most)
  {
    LastDelivery(h, owner, i, k);
    var m :| i <= m <= k && owner in h.reports[m].digested && h.Silent(owner, m + 1, k + 1);
    var u := StandingSince(h, owner, m, k, gap, most);
  }

  /** So is a newly stale owner, from the first sweep on. */
  lemma {:induction false} NewlyStaleNeverLeftAlone(h: History, owner: string, k: nat, gap: int, most: int)
    requires h.Valid() && k < |h.sweeps| && owner !in h.states[0].owners && Steady(h, owner, 0, k + 1, gap, most)
    requires NagCards(h.sweeps[0], owner) != [] && h.sweeps[0].ok(DigestNotice(h.sweeps[0], owner)) && most > 0
    ensures RecentlyTold(h, owner, 0, k, most)
  {
    OwnerTurn(h, owner, 0);
    NeverLeftAlone(h, owner, 0, k, gap, most);
  }

  lemma {:induction false} SteadyEnd(h: History, owner: string, i: nat, j: nat, gap: int, most: int)
    requires i < j < |h.sweeps| && Steady(h, owner, i, j + 1, gap, most)
    ensures h.sweeps[j].now - h.sweeps[j - 1].now <= gap && most > 0
  {
    assert SteadyAt(h, owner, j, gap, most);
    BacklogNeverTightens(NagCards(h.sweeps[j], owner), h.sweeps[j].byId, h.cfg);
  }

  /** Consecutive digests are less than floor + interval + sweep gap apart, however the
      content changes in between, and whatever the state and the sweeps were before the
      first of the two. */
  lemma {:induction false} SilenceIsBounded(h: History, owner: string, i: nat, j: nat, gap: int, most: int)
    requires h.Valid() && i < j < |h.sweeps| && Steady(h, owner, i, j + 1, gap, most)
    requires owner in h.reports[i].digested && owner in h.reports[j].digested && h.Silent(owner, i + 1, j)
    ensures h.sweeps[j].now - h.sweeps[i].now < NonNegative(h.cfg.floor) + most + gap
  {
    SteadyEnd(h, owner, i, j, gap, most);
    var u := StandingSince(h, owner, i, j - 1, gap, most);
  }

  // --- the streak count ---------------------------------------------------

  /** The sweep is a tick for the owner. */
  ghost predicate DueTick(h: History, owner: string, k: nat)
    requires h.Valid() && k < |h.sweeps|
  {
    OwnerResult(h.states[k], h.sweeps[k], h.cfg, owner).1 != NotDue
  }

  /** Which sweeps of the run are ticks for the owner. */
  ghost function DueTicks(h: History, owner: string): (due: seq<bool>)
    requires h.Valid()
    ensures |due| == |h.sweeps|
    ensures forall k :: 0 <= k < |due| ==> due[k] == DueTick(h, owner, k)
  {
    seq(|h.sweeps|, k requires 0 <= k < |h.sweeps| => DueTick(h, owner, k))
  }

  function Ticks(due: seq<bool>, n: nat): nat
    requires n <= |due|
  {
    if n == 0 then 0 else Ticks(due, n - 1) + if due[n - 1] then 1 else 0
  }

  /** The count an owner's entry holds when the run starts: 0 unless a streak is under
      way. */
  ghost function SavedCount(h: History, owner: string): nat
    requires h.Valid()
  {
    EntryOf(h.states[0].owners, owner).count
  }

  /** From any saved state, the stored count grows by one at each due tick: suppressed
      and failed deliveries count, sweeps that were not due do not. */
  lemma {:induction false} CountIsTicks(h: History, owner: string, n: nat)
    requires h.Valid() && n <= |h.sweeps| && h.OwnerNagged(owner, 0, n)
    ensures EntryOf(h.states[n].owners, owner).count == SavedCount(h, owner) + Ticks(DueTicks(h, owner), n)
  {
    if n > 0 {
      CountIsTicks(h, owner, n - 1);
      OwnerTurn(h, owner, n - 1);
    }
  }

  // --- escalations --------------------------------------------------------

  ghost predicate UniqueAt(h: History, k: nat)
    requires k < |h.sweeps|
  {
    OneOwnerEach(h.sweeps[k])
  }

  ghost predicate Unique(h: History, n: nat)
    requires n <= |h.sweeps|
  {
    forall k :: 0 <= k < n ==> UniqueAt(h, k)
  }

  lemma {:induction false} CardTurn(h: History, owner: string, id: string, k: nat)
    requires h.Valid() && k < |h.sweeps| && UniqueAt(h, k) && Nagged(h.sweeps[k], owner, id)
    ensures LatchOf(h.states[k + 1].cards, id) == LatchAfter(h.states[k], h.sweeps[k], h.cfg, owner, id)
    ensures id in h.reports[k].escalated <==> ToOperator(h.states[k], h.sweeps[k], h.cfg, owner, id)
    ensures id in h.reports[k].creatorEscalated <==> ToCreator(h.states[k], h.sweeps[k], h.cfg, owner, id)
  {
    var st, s, owners := h.states[k], h.sweeps[k], h.sweeps[k].buckets.Keys;
    assert h.Follows(k);
    assert owner in owners;
    assert OperatorTold(st, s, h.cfg, owners, id) <==> ToOperator(st, s, h.cfg, owner, id);
    assert CreatorTold(st, s, h.cfg, owners, id) <==> ToCreator(st, s, h.cfg, owner, id);
  }

  /** A report names a card exactly when the sweep set its latch. */
  lemma {:induction false} EscalationIsLatching(h: History, owner: string, id: string, k: nat)
    requires h.Valid() && k < |h.sweeps| && UniqueAt(h, k) && Nagged(h.sweeps[k], owner, id)
    ensures id in h.reports[k].escalated
      <==> LatchOf(h.states[k + 1].cards, id).escalated && !LatchOf(h.states[k].cards, id).escalated
  {
    CardTurn(h, owner, id, k);
  }

  /** Whom the operator hears about, at any sweep of any run: a card with a priority, a
      number at or below the configured one (the lower the more urgent), whose notice the
      operator's inbox takes. */
  lemma {:induction false} EscalatedIsUrgent(h: History, id: string, k: nat)
    requires h.Valid() && k < |h.sweeps| && id in h.reports[k].escalated
    ensures
      var s := h.sweeps[k];
      && id in s.byId && s.byId[id].priority.Some? && s.byId[id].priority.value <= h.cfg.escalatePriority
      && s.ok(Notice(s.resolve(h.cfg.operator), Escalation, id, false))
  {
    var owner := Teller(h, id, k);
    assert h.Follows(k);
    assert OperatorTold(h.states[k], h.sweeps[k], h.cfg, h.sweeps[k].buckets.Keys, id);
  }

  /** When one of an owner's cards is escalated, so is every other one at least as urgent
      that has not been and whose notice the operator's inbox takes. */
  lemma {:induction false} MoreUrgentToo(h: History, owner: string, id: string, other: string, k: nat)
    requires h.Valid() && k < |h.sweeps| && UniqueAt(h, k) && id in h.reports[k].escalated
    requires Nagged(h.sweeps[k], owner, id) && Nagged(h.sweeps[k], owner, other)
    requires !LatchOf(h.states[k].cards, other).escalated
    requires
      var s := h.sweeps[k];
      && id in s.byId && s.byId[id].priority.Some? && other in s.byId && s.byId[other].priority.Some?
      && s.byId[other].priority.value <= s.byId[id].priority.value
      && s.ok(Notice(s.resolve(h.cfg.operator), Escalation, other, false))
    ensures other in h.reports[k].escalated
  {
    CardTurn(h, owner, id, k);
    CardTurn(h, owner, other, k);
  }

  /** The sweep is a due tick at or past the threshold that finds the card urgent and
      can reach the operator. */
  ghost predicate MustEscalate(h: History, owner: string, id: string, k: nat)
    requires h.Valid() && k < |h.sweeps|
  {
    && DueTick(h, owner, k) && SavedCount(h, owner) + Ticks(DueTicks(h, owner), k + 1) >= h.cfg.escalateAfter
    && UrgentAt(h.sweeps[k], h.cfg, id)
  }

  /** Which sweeps of the run must escalate the card. */
  ghost function MustTrace(h: History, owner: string, id: string): (must: seq<bool>)
    requires h.Valid()
    ensures |must| == |h.sweeps|
    ensures forall k :: 0 <= k < |must| ==> must[k] == MustEscalate(h, owner, id, k)
  {
    seq(|h.sweeps|, k requires 0 <= k < |h.sweeps| => MustEscalate(h, owner, id, k))
  }

  /** Whether the card is latched before each sweep and after the last. */
  ghost function LatchTrace(h: History, id: string): (latched: seq<bool>)
    ensures |latched| == |h.states|
    ensures forall k :: 0 <= k < |latched| ==> latched[k] == LatchOf(h.states[k].cards, id).escalated
  {
    seq(|h.states|, k requires 0 <= k < |h.states| => LatchOf(h.states[k].cards, id).escalated)
  }

  /** Some sweep before the n-th must escalate the card. */
  ghost predicate EverDue(h: History, owner: string, id: string, n: nat)
    requires h.Valid() && n <= |h.sweeps|
  {
    AnyBefore(MustTrace(h, owner, id), n)
  }

  predicate AnyBefore(b: seq<bool>, n: nat)
    requires n <= |b|
  {
    exists k :: 0 <= k < n && b[k]
  }

  /** A latch that each step keeps or sets is set when it was or some step set it. */
  lemma {:induction false} LatchSet(latched: seq<bool>, must: seq<bool>, n: nat)
    requires n <= |must| && n < |latched|
    requires forall k :: 0 <= k < n ==> latched[k + 1] == (latched[k] || must[k])
    ensures latched[n] <==> latched[0] || AnyBefore(must, n)
  {
    if n > 0 {
      LatchSet(latched, must, n - 1);
    }
  }

  /** One sweep escalates a card exactly when it must and no earlier one has. */
  lemma {:induction false} LatchStep(h: History, owner: string, id: string, n: nat)
    requires h.Valid() && n < |h.sweeps| && UniqueAt(h, n) && Nagged(h.sweeps[n], owner, id)
    requires h.OwnerNagged(owner, 0, n + 1)
    ensures id in h.reports[n].escalated
      <==> MustEscalate(h, owner, id, n) && !LatchOf(h.states[n].cards, id).escalated
    ensures LatchOf(h.states[n + 1].cards, id).escalated
      <==> LatchOf(h.states[n].cards, id).escalated || MustEscalate(h, owner, id, n)
  {
    MustIsToOperator(h, owner, id, n);
    CardTurn(h, owner, id, n);
  }

  /** The engine's condition at a sweep, in terms of the run. */
  lemma {:induction false} MustIsToOperator(h: History, owner: string, id: string, n: nat)
    requires h.Valid() && n < |h.sweeps| && h.OwnerNagged(owner, 0, n + 1)
    ensures ToOperator(h.states[n], h.sweeps[n], h.cfg, owner, id)
      <==> MustEscalate(h, owner, id, n) && !LatchOf(h.states[n].cards, id).escalated
  {
    CountIsTicks(h, owner, n + 1);
    OwnerTurn(h, owner, n);
  }

  lemma {:induction false} StreakStep(h: History, owner: string, id: string, n: nat)
    requires h.Valid() && n < |h.sweeps| && UniqueAt(h, n) && h.CardNagged(owner, id, 0, n + 1)
    ensures LatchOf(h.states[n + 1].cards, id).escalated
      <==> LatchOf(h.states[n].cards, id).escalated || MustEscalate(h, owner, id, n)
  {
    CardNaggedOwnerNagged(h, owner, id, n + 1);
    LatchStep(h, owner, id, n);
  }

  /** From any saved state, a card nagged at every sweep is latched exactly when it was
      from the start, or some tick had to escalate it. */
  lemma {:induction false} LatchedWhenDue(h: History, owner: string, id: string, n: nat)
    requires h.Valid() && n <= |h.sweeps| && Unique(h, n) && h.CardNagged(owner, id, 0, n)
    ensures LatchOf(h.states[n].cards, id).escalated
      <==> LatchOf(h.states[0].cards, id).escalated || EverDue(h, owner, id, n)
  {
    var latched, must := LatchTrace(h, id), MustTrace(h, owner, id);
    forall k | 0 <= k < n ensures latched[k + 1] == (latched[k] || must[k]) {
      assert UniqueAt(h, k);
      StreakStep(h, owner, id, k);
    }
    LatchSet(latched, must, n);
  }

  lemma {:induction false} CardNaggedOwnerNagged(h: History, owner: string, id: string, n: nat)
    requires n <= |h.sweeps| && h.CardNagged(owner, id, 0, n)
    ensures h.OwnerNagged(owner, 0, n)
  {
    forall k | 0 <= k < n ensures NagCards(h.sweeps[k], owner) != [] {
      assert Nagged(h.sweeps[k], owner, id);
    }
  }

  lemma {:induction false} TicksGrow(due: seq<bool>, i: nat, n: nat)
    requires i <= n <= |due|
    ensures Ticks(due, i) <= Ticks(due, n)
    decreases n
  {
    if i < n {
      TicksGrow(due, i, n - 1);
    }
  }

  lemma {:induction false} LastTick(due: seq<bool>, n: nat)
    requires n <= |due| && Ticks(due, n) > 0
    ensures exists j :: 0 <= j < n && due[j] && Ticks(due, j + 1) == Ticks(due, n)
  {
    if !due[n - 1] {
      LastTick(due, n - 1);
    }
  }

  /** Some tick before n found the count at the threshold. */
  ghost predicate SomeTickReached(due: seq<bool>, threshold: int, n: nat)
    requires n <= |due|
  {
    exists k :: 0 <= k < n && due[k] && Ticks(due, k + 1) >= threshold
  }

  lemma {:induction false} ReachedAtSomeTick(due: seq<bool>, threshold: int, n: nat)
    requires n <= |due|
    ensures SomeTickReached(due, threshold, n) <==> Ticks(due, n) > 0 && Ticks(due, n) >= threshold
  {
    if Ticks(due, n) > 0 && Ticks(due, n) >= threshold {
      LastTick(due, n);
    }
    if SomeTickReached(due, threshold, n) {
      var k :| 0 <= k < n && due[k] && Ticks(due, k + 1) >= threshold;
      TicksGrow(due, k + 1, n);
    }
  }

  /** The sweep sees a priority at or below the configured one, and the operator's inbox
      takes the notice. */
  ghost predicate UrgentAt(s: Sweep, cfg: Config, id: string)
  {
    && id in s.byId && s.byId[id].priority.Some? && s.byId[id].priority.value <= cfg.escalatePriority
    && s.ok(Notice(s.resolve(cfg.operator), Escalation, id, false))
  }

  /** The card is urgent, and the operator reachable, at every sweep before n. */
  ghost predicate Urgent(h: History, id: string, n: nat)
    requires n <= |h.sweeps|
  {
    forall j :: 0 <= j < n ==> UrgentAt(h.sweeps[j], h.cfg, id)
  }

  /** Some tick of the run has brought the owner's count to the threshold. */
  ghost predicate CountReached(h: History, owner: string, n: nat)
    requires h.Valid() && n <= |h.sweeps|
  {
    var ticks := Ticks(DueTicks(h, owner), n);
    ticks > 0 && SavedCount(h, owner) + ticks >= h.cfg.escalateAfter
  }

  lemma {:induction false} EverDueIffReached(h: History, owner: string, id: string, n: nat)
    requires h.Valid() && n <= |h.sweeps| && Urgent(h, id, n)
    ensures EverDue(h, owner, id, n) <==> CountReached(h, owner, n)
  {
    var due, left := DueTicks(h, owner), h.cfg.escalateAfter - SavedCount(h, owner);
    ReachedAtSomeTick(due, left, n);
    forall k | 0 <= k < n ensures MustEscalate(h, owner, id, k) <==> due[k] && Ticks(due, k + 1) >= left {
      assert UrgentAt(h.sweeps[k], h.cfg, id);
    }
  }

  lemma {:induction false} LatchedIffReached(h: History, owner: string, id: string, n: nat)
    requires h.Valid() && n <= |h.sweeps| && Unique(h, n) && h.CardNagged(owner, id, 0, n) && Urgent(h, id, n)
    ensures LatchOf(h.states[n].cards, id).escalated
      <==> LatchOf(h.states[0].cards, id).escalated || CountReached(h, owner, n)
  {
    LatchedWhenDue(h, owner, id, n);
    EverDueIffReached(h, owner, id, n);
  }

  /** From any saved state, an urgent card that has not been escalated reaches the
      operator at its owner's first due tick whose count meets the threshold, and at no
      other, even when that tick's digest was suppressed as unchanged or failed to
      send. The count is the owner's: it may have grown before the card was listed. */
  lemma {:induction false} EscalatedAtThreshold(h: History, owner: string, id: string, k: nat)
    requires h.Valid() && k < |h.sweeps| && Unique(h, k + 1) && h.CardNagged(owner, id, 0, k + 1)
    requires Urgent(h, id, k + 1)
    ensures id in h.reports[k].escalated
      <==> !LatchOf(h.states[0].cards, id).escalated && CountReached(h, owner, k + 1) && !CountReached(h, owner, k)
  {
    LatchedIffReached(h, owner, id, k);
    LatchedIffReached(h, owner, id, k + 1);
    EscalationIsLatching(h, owner, id, k);
  }

  function Max(a: int, b: int): int
  {
    if a < b then b else a
  }

  /** How many due ticks a card has been listed at when it is escalated: those its
      owner's count still lacked when it was first listed, and at least one. So it has
      survived as many as the threshold asks if and only if the threshold is at most one
      or the owner's count was zero. */
  lemma {:induction false} SurvivedEnoughIff(h: History, owner: string, id: string, k: nat)
    requires h.Valid() && k < |h.sweeps| && Unique(h, k + 1) && h.CardNagged(owner, id, 0, k + 1)
    requires Urgent(h, id, k + 1) && id in h.reports[k].escalated
    ensures
      var seen := Ticks(DueTicks(h, owner), k + 1);
      && seen == Max(1, h.cfg.escalateAfter - SavedCount(h, owner))
      && (seen >= h.cfg.escalateAfter <==> h.cfg.escalateAfter <= 1 || SavedCount(h, owner) == 0)
  {
    EscalatedAtThreshold(h, owner, id, k);
  }

  /** A board with one urgent card, newly stale, whose owner has been nagged twice about
      something else. */
  const LATE_CARD := StaleCard("c", "in_progress", false)
  const LATE_CONFIG := Config(3, 1, 0, None, None, "operator")
  const LATE_STATE := State(map["o" := OwnerEntry(2, None, None, None)], map[])
  const LATE_SWEEP := Sweep(0, map["o" := [LATE_CARD]], map["c" := CardInfo("in_progress", "", Some(1), None, "")],
                            (o: string) => false, (n: Notice) => true, (name: string) => name)

  lemma {:induction false} LateNagCards(o: string)
    ensures NagCards(LATE_SWEEP, o) == if o == "o" then [LATE_CARD] else []
  {
    assert "o" != UNASSIGNED;
    if o == "o" {
      assert LATE_SWEEP.buckets["o"] == [LATE_CARD];
      assert LATE_CARD.id == "c" && LATE_SWEEP.byId["c"].status == "in_progress";
      FilterAll([LATE_CARD], Nagworthy(LATE_SWEEP.byId));
    }
  }

  lemma {:induction false} LateNagged(o: string, id: string)
    ensures Nagged(LATE_SWEEP, o, id) <==> o == "o" && id == "c"
  {
    LateNagCards(o);
    if o == "o" {
      assert LATE_CARD in NagCards(LATE_SWEEP, o);
    }
  }

  lemma {:induction false} LateOutcome()
    ensures OwnerResult(LATE_STATE, LATE_SWEEP, LATE_CONFIG, "o").1 == Delivered
    ensures OwnerResult(LATE_STATE, LATE_SWEEP, LATE_CONFIG, "o").0.count == 3
    ensures ToOperator(LATE_STATE, LATE_SWEEP, LATE_CONFIG, "o", "c")
    ensures !ToCreator(LATE_STATE, LATE_SWEEP, LATE_CONFIG, "o", "c")
  {
    LateNagCards("o");
    assert OperatorTakes(LatchOf(LATE_STATE.cards, "c"), LATE_SWEEP, LATE_CONFIG, "c");
  }

  lemma {:induction false} LateSwept(after: State, r: Report)
    requires after == State(map["o" := OwnerResult(LATE_STATE, LATE_SWEEP, LATE_CONFIG, "o").0],
                            map["c" := Latches(true, false)])
    requires r == Report({"o"}, {"c"}, {}, {})
    ensures Swept(LATE_STATE, LATE_SWEEP, LATE_CONFIG, after, r)
  {
    LateOutcome();
    var owners := LATE_SWEEP.buckets.Keys;
    assert owners == {"o"};
    forall o ensures NagCards(LATE_SWEEP, o) == if o == "o" then [LATE_CARD] else [] {
      LateNagCards(o);
    }
    forall o, id ensures Nagged(LATE_SWEEP, o, id) <==> o == "o" && id == "c" {
      LateNagged(o, id);
    }
    assert NaggedBy(LATE_SWEEP, owners, "c");
    assert OperatorTold(LATE_STATE, LATE_SWEEP, LATE_CONFIG, owners, "c");
  }

  /** The shortfall is real: a newly stale urgent card is escalated at the first sweep
      that lists it, after one due tick, though the threshold is three. */
  lemma {:induction false} NewCardEscalatedAtOnce() returns (h: History)
    ensures h.Valid() && |h.sweeps| == 1 && Unique(h, 1) && h.CardNagged("o", "c", 0, 1) && Urgent(h, "c", 1)
    ensures h.cfg.escalateAfter == 3 && SavedCount(h, "o") == 2 && h.states[0].cards == map[]
    ensures "c" in h.reports[0].escalated && Ticks(DueTicks(h, "o"), 1) == 1
  {
    var after := State(map["o" := OwnerResult(LATE_STATE, LATE_SWEEP, LATE_CONFIG, "o").0],
                       map["c" := Latches(true, false)]);
    var r := Report({"o"}, {"c"}, {}, {});
    LateSwept(after, r);
    h := History(LATE_CONFIG, [LATE_STATE, after], [LATE_SWEEP], [r]);
    assert h.Follows(0);
    LateUnique();
    assert UniqueAt(h, 0);
    LateNagged("o", "c");
    assert UrgentAt(LATE_SWEEP, LATE_CONFIG, "c");
    SurvivedEnoughIff(h, "o", "c", 0);
  }

  lemma {:induction false} LateUnique()
    ensures OneOwnerEach(LATE_SWEEP)
  {
    forall o, id ensures Nagged(LATE_SWEEP, o, id) <==> o == "o" && id == "c" {
      LateNagged(o, id);
    }
    forall o ensures |NagCards(LATE_SWEEP, o)| <= 1 {
      LateNagCards(o);
    }
  }

  /** The sweep finds the owner not alive and can reach the card's creator: the operator
      when the card names none or names the dead owner itself. */
  ghost predicate MustTellCreator(h: History, owner: string, id: string, k: nat)
    requires k < |h.sweeps|
  {
    var s := h.sweeps[k];
    var known := id in s.byId && s.byId[id].createdBy !in {"", owner};
    var who := if known then s.byId[id].createdBy else h.cfg.operator;
    s.dead(owner) && s.ok(Notice(s.resolve(who), CreatorEscalation, id, false))
  }

  ghost predicate EverTellCreator(h: History, owner: string, id: string, n: nat)
    requires n <= |h.sweeps|
  {
    exists k :: 0 <= k < n && MustTellCreator(h, owner, id, k)
  }

  /** From any saved state, a dead owner's card whose creator has not been told reaches
      the creator at the first sweep that can send it, whether or not the owner's digest
      was due, and whatever the card's priority. */
  lemma {:induction false} CreatorToldAtOnce(h: History, owner: string, id: string, k: nat)
    requires h.Valid() && k < |h.sweeps| && Unique(h, k + 1)
    requires h.CardNagged(owner, id, 0, k + 1)
    ensures id in h.reports[k].creatorEscalated
      <==> (&& !LatchOf(h.states[0].cards, id).creatorEscalated
            && MustTellCreator(h, owner, id, k) && !EverTellCreator(h, owner, id, k))
  {
    CreatorLatched(h, owner, id, k);
    CreatorStep(h, owner, id, k);
  }

  lemma {:induction false} CreatorStep(h: History, owner: string, id: string, k: nat)
    requires h.Valid() && k < |h.sweeps| && UniqueAt(h, k) && Nagged(h.sweeps[k], owner, id)
    ensures id in h.reports[k].creatorEscalated
      <==> MustTellCreator(h, owner, id, k) && !LatchOf(h.states[k].cards, id).creatorEscalated
    ensures LatchOf(h.states[k + 1].cards, id).creatorEscalated
      <==> LatchOf(h.states[k].cards, id).creatorEscalated || MustTellCreator(h, owner, id, k)
  {
    CardTurn(h, owner, id, k);
  }

  lemma {:induction false} CreatorLatched(h: History, owner: string, id: string, n: nat)
    requires h.Valid() && n <= |h.sweeps| && Unique(h, n)
    requires h.CardNagged(owner, id, 0, n)
    ensures LatchOf(h.states[n].cards, id).creatorEscalated
      <==> LatchOf(h.states[0].cards, id).creatorEscalated || EverTellCreator(h, owner, id, n)
  {
    if n > 0 {
      CreatorLatched(h, owner, id, n - 1);
      CreatorStep(h, owner, id, n - 1);
    }
  }

  ghost predicate NaggedAt(h: History, id: string, k: nat)
    requires k < |h.sweeps|
  {
    NaggedBy(h.sweeps[k], h.sweeps[k].buckets.Keys, id)
  }

  /** While a card is nagged at every sweep its latches stay set. */
  lemma {:induction false} LatchesHold(h: History, id: string, i: nat, j: nat)
    requires h.Valid() && i <= j <= |h.sweeps| && Unique(h, j)
    requires forall k :: i <= k < j ==> NaggedAt(h, id, k)
    ensures LatchOf(h.states[i].cards, id).escalated ==> LatchOf(h.states[j].cards, id).escalated
    ensures LatchOf(h.states[i].cards, id).creatorEscalated ==> LatchOf(h.states[j].cards, id).creatorEscalated
    decreases j
  {
    if i < j {
      LatchesHold(h, id, i, j - 1);
      assert NaggedAt(h, id, j - 1);
      var owner :| owner in h.sweeps[j - 1].buckets.Keys && Nagged(h.sweeps[j - 1], owner, id);
      CardTurn(h, owner, id, j - 1);
    }
  }

  /** Whoever is told about a card is told once per stall: two escalations of one card to
      the operator, or two to its creator, have a sweep between them at which the card
      was not nagged at all. */
  lemma {:induction false} OneEscalationPerStall(h: History, id: string, i: nat, j: nat)
    requires h.Valid() && i < j < |h.sweeps| && Unique(h, j + 1)
    requires (id in h.reports[i].escalated && id in h.reports[j].escalated)
      || (id in h.reports[i].creatorEscalated && id in h.reports[j].creatorEscalated)
    ensures exists k :: i < k < j && !NaggedAt(h, id, k)
  {
    ToldSetsLatch(h, id, i);
    ToldSetsLatch(h, id, j);
    if forall k :: i < k < j ==> NaggedAt(h, id, k) {
      LatchesHold(h, id, i + 1, j);
    }
  }

  /** Whoever is told, the latch was clear before the sweep and is set after it. */
  lemma {:induction false} ToldSetsLatch(h: History, id: string, k: nat)
    requires h.Valid() && k < |h.sweeps| && UniqueAt(h, k)
    ensures id in h.reports[k].escalated
      ==> LatchOf(h.states[k + 1].cards, id).escalated && !LatchOf(h.states[k].cards, id).escalated
    ensures id in h.reports[k].creatorEscalated
      ==> LatchOf(h.states[k + 1].cards, id).creatorEscalated && !LatchOf(h.states[k].cards, id).creatorEscalated
  {
    if id in h.reports[k].escalated || id in h.reports[k].creatorEscalated {
      var owner := Teller(h, id, k);
      CardTurn(h, owner, id, k);
    }
  }

  lemma {:induction false} Teller(h: History, id: string, k: nat) returns (owner: string)
    requires h.Valid() && k < |h.sweeps|
    requires id in h.reports[k].escalated || id in h.reports[k].creatorEscalated
    ensures Nagged(h.sweeps[k], owner, id)
  {
    var st, s, owners := h.states[k], h.sweeps[k], h.sweeps[k].buckets.Keys;
    assert h.Follows(k);
    if id in h.reports[k].escalated {
      assert OperatorTold(st, s, h.cfg, owners, id);
      owner :| owner in owners && Nagged(s, owner, id) && ToOperator(st, s, h.cfg, owner, id);
    } else {
      assert CreatorTold(st, s, h.cfg, owners, id);
      owner :| owner in owners && Nagged(s, owner, id) && ToCreator(st, s, h.cfg, owner, id);
    }
  }
}
