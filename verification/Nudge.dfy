/** The second deliver-on-change rail: one nudge per owner and kind of staleness, with
    no tick between the sweep and the delivery. */
module Nudge {
  import opened Common
  import R = Reminders

  /** A nudge's content is the set of stale card ids; the kind is fixed per sidecar
      section. */
  type Fingerprint = multiset<string>

  datatype Entry = Entry(fingerprint: Fingerprint, deliveredAt: int)

  /** One sweep of one kind: each owner's stale card ids, and whose inbox accepts. */
  datatype Sweep = Sweep(now: int, byOwner: map<string, seq<string>>, ok: string -> bool)

  datatype Counts = Counts(detected: nat, delivered: nat, failed: nat, suppressed: nat)

  /** Rows without an id do not count. */
  function FingerprintOf(ids: seq<string>): Fingerprint
  {
    multiset(ids)["" := 0]
  }

  datatype Outcome = Suppressed | Delivered | Failed

  /** The nudge is held back while the content is unchanged and the floor has not
      elapsed; only a delivered nudge is remembered. */
  function OwnerStep(e: Option<Entry>, now: int, fp: Fingerprint, floor: int, ok: bool): (Option<Entry>, Outcome)
  {
    if e.Some? && e.value.fingerprint == fp && now - e.value.deliveredAt < floor then (e, Suppressed)
    else if ok then (Some(Entry(fp, R.Iso(now))), Delivered)
    else (e, Failed)
  }

  function Lookup(state: map<string, Entry>, owner: string): Option<Entry>
  {
    if owner in state then Some(state[owner]) else None
  }

  function OwnerResult(state: map<string, Entry>, s: Sweep, floor: int, owner: string): (Option<Entry>, Outcome)
    requires owner in s.byOwner
  {
    OwnerStep(Lookup(state, owner), s.now, FingerprintOf(s.byOwner[owner]), floor, s.ok(owner))
  }

  /** The owners a sweep tries to reach. */
  function Reachable(s: Sweep): set<string>
  {
    s.byOwner.Keys - {R.UNASSIGNED}
  }

  /** How every owner's turn ends. */
  function Outcomes(state: map<string, Entry>, s: Sweep, floor: int): map<string, Outcome>
  {
    map o | o in s.byOwner :: OwnerResult(state, s, floor, o).1
  }

  /** The owners of the set whose turn ends in the given outcome. */
  function Ending(outcomes: map<string, Outcome>, owners: set<string>, outcome: Outcome): set<string>
  {
    set o | o in owners && o in outcomes && outcomes[o] == outcome
  }

  function CountsFor(outcomes: map<string, Outcome>, owners: set<string>): Counts
  {
    Counts(|owners|, |Ending(outcomes, owners, Delivered)|, |Ending(outcomes, owners, Failed)|,
           |Ending(outcomes, owners, Suppressed)|)
  }

  /** The state after the owners of the set had their turn, the rest untouched. */
  ghost predicate Partly(state: map<string, Entry>, s: Sweep, floor: int, owners: set<string>, now: map<string, Entry>)
    requires owners <= s.byOwner.Keys
  {
    forall o :: Lookup(now, o) == if o in owners then OwnerResult(state, s, floor, o).0 else Lookup(state, o)
  }

  /** The whole effect of one sweep: owners with nothing stale are forgotten. */
  ghost predicate Swept(state: map<string, Entry>, s: Sweep, floor: int, after: map<string, Entry>)
  {
    && (forall o :: o in after ==> o in s.byOwner)
    && (forall o :: o in Reachable(s) ==> Lookup(after, o) == OwnerResult(state, s, floor, o).0)
    && (R.UNASSIGNED in s.byOwner ==> Lookup(after, R.UNASSIGNED) == Lookup(state, R.UNASSIGNED))
  }

  /** One more owner tried. */
  function Bump(c: Counts, outcome: Outcome): Counts
  {
    var d := c.(detected := c.detected + 1);
    match outcome
    case Delivered => d.(delivered := c.delivered + 1)
    case Failed => d.(failed := c.failed + 1)
    case Suppressed => d.(suppressed := c.suppressed + 1)
  }

  lemma {:induction false} EndingGrows(outcomes: map<string, Outcome>, owners: set<string>, owner: string,
                                       outcome: Outcome)
    requires owner in outcomes && owner !in owners
    ensures |Ending(outcomes, owners + {owner}, outcome)|
      == |Ending(outcomes, owners, outcome)| + if outcomes[owner] == outcome then 1 else 0
  {
    var was := Ending(outcomes, owners, outcome);
    if outcomes[owner] == outcome {
      assert Ending(outcomes, owners + {owner}, outcome) == was + {owner};
    } else {
      assert Ending(outcomes, owners + {owner}, outcome) == was;
    }
  }

  lemma {:induction false} CountOne(outcomes: map<string, Outcome>, owners: set<string>, owner: string)
    requires owner in outcomes && owner !in owners
    ensures CountsFor(outcomes, owners + {owner}) == Bump(CountsFor(outcomes, owners), outcomes[owner])
  {
    EndingGrows(outcomes, owners, owner, Delivered);
    EndingGrows(outcomes, owners, owner, Failed);
    EndingGrows(outcomes, owners, owner, Suppressed);
  }

  /** One owner's turn, seen from a state in which that owner is still untouched. */
  ghost predicate Turn(before: map<string, Entry>, s: Sweep, floor: int, owner: string, after: map<string, Entry>)
    requires owner in s.byOwner
  {
    && Lookup(after, owner) == OwnerResult(before, s, floor, owner).0
    && forall o :: o != owner ==> Lookup(after, o) == Lookup(before, o)
  }

  lemma {:induction false} PartlyGrows(state: map<string, Entry>, s: Sweep, floor: int, owners: set<string>,
                                       before: map<string, Entry>, owner: string, after: map<string, Entry>)
    requires owners <= s.byOwner.Keys && owner in s.byOwner.Keys && owner !in owners
    requires Partly(state, s, floor, owners, before) && Turn(before, s, floor, owner, after)
    ensures OwnerResult(before, s, floor, owner) == OwnerResult(state, s, floor, owner)
    ensures Partly(state, s, floor, owners + {owner}, after)
  {
    assert Lookup(before, owner) == Lookup(state, owner);
    forall o
      ensures Lookup(after, o) == if o in owners + {owner} then OwnerResult(state, s, floor, o).0 else Lookup(state, o)
    {
      assert Lookup(before, o) == if o in owners then OwnerResult(state, s, floor, o).0 else Lookup(state, o);
    }
  }

  lemma {:induction false} CountsOfNone(outcomes: map<string, Outcome>)
    ensures CountsFor(outcomes, {}) == Counts(0, 0, 0, 0)
  {
    assert forall outcome :: Ending(outcomes, {}, outcome) == {};
  }

  /** Every owner tried ends in exactly one of the three ways. */
  lemma {:induction false} CountsAddUp(outcomes: map<string, Outcome>, owners: set<string>)
    requires owners <= outcomes.Keys
    ensures
      var c := CountsFor(outcomes, owners);
      c.detected == c.delivered + c.failed + c.suppressed
    decreases owners
  {
    if owners != {} {
      var owner :| owner in owners;
      CountsAddUp(outcomes, owners - {owner});
      CountOne(outcomes, owners - {owner}, owner);
      assert owners - {owner} + {owner} == owners;
    } else {
      CountsOfNone(outcomes);
    }
  }

  lemma {:induction false} OneFewer<T>(all: set<T>, todo: set<T>, x: T)
    requires x in todo && todo <= all
    ensures all - (todo - {x}) == all - todo + {x} && x !in all - todo
  {
  }

  class NudgeRail {
    var state: map<string, Entry>
    const floor: int

    constructor (state: map<string, Entry>, floor: int)
      ensures this.state == state && this.floor == floor
    {
      this.state, this.floor := state, floor;
    }

    method Visit(s: Sweep, owner: string, counts: Counts) returns (c: Counts)
      requires owner in s.byOwner
      modifies this`state
      ensures Turn(old(state), s, floor, owner, state)
      ensures c == Bump(counts, OwnerResult(old(state), s, floor, owner).1)
    {
      c := counts.(detected := counts.detected + 1);
      var entry := Lookup(state, owner);
      var fingerprint := FingerprintOf(s.byOwner[owner]);
      if entry.Some? && entry.value.fingerprint == fingerprint && s.now - entry.value.deliveredAt < floor {
        c := c.(suppressed := c.suppressed + 1);
      } else if s.ok(owner) {
        c := c.(delivered := c.delivered + 1);
        entry := Some(Entry(fingerprint, R.Iso(s.now)));
      } else {
        c := c.(failed := c.failed + 1);
      }
      state := if entry.Some? then state[owner := entry.value] else state - {owner};
    }

    method Prune(byOwner: map<string, seq<string>>)
      modifies this`state
      ensures state == map o | o in old(state) && o in byOwner :: old(state)[o]
    {
      var todo := state.Keys;
      while todo != {}
        invariant todo <= old(state).Keys
        invariant state == map o | o in old(state) && (o in todo || o in byOwner) :: old(state)[o]
        decreases todo
      {
        var owner :| owner in todo;
        if owner !in byOwner {
          state := state - {owner};
        }
        todo := todo - {owner};
      }
    }

    /** One owner of the loop, counted. */
    method VisitAndCount(ghost start: map<string, Entry>, s: Sweep, ghost done: set<string>, owner: string,
                         counts: Counts)
      returns (c: Counts)
      requires done <= s.byOwner.Keys && owner in s.byOwner.Keys && owner !in done
      requires Partly(start, s, floor, done, state) && counts == CountsFor(Outcomes(start, s, floor), done)
      modifies this`state
      ensures Partly(start, s, floor, done + {owner}, state)
      ensures c == CountsFor(Outcomes(start, s, floor), done + {owner})
    {
      ghost var before := state;
      c := Visit(s, owner, counts);
      PartlyGrows(start, s, floor, done, before, owner, state);
      CountOne(Outcomes(start, s, floor), done, owner);
    }

    /** The loop over the owners; the unassigned bucket has no inbox and is skipped. */
    method VisitOwners(s: Sweep) returns (c: Counts)
      modifies this`state
      ensures Partly(old(state), s, floor, Reachable(s), state)
      ensures c == CountsFor(Outcomes(old(state), s, floor), Reachable(s))
    {
      c := Counts(0, 0, 0, 0);
      ghost var start, outcomes := state, Outcomes(state, s, floor);
      var todo := Reachable(s);
      ghost var done: set<string> := {};
      CountsOfNone(outcomes);
      while todo != {}
        invariant todo <= Reachable(s) && done == Reachable(s) - todo
        invariant Partly(start, s, floor, done, state)
        invariant c == CountsFor(outcomes, done)
        decreases todo
      {
        var owner :| owner in todo;
        OneFewer(Reachable(s), todo, owner);
        c := VisitAndCount(start, s, done, owner, c);
        todo, done := todo - {owner}, done + {owner};
      }
      assert done == Reachable(s);
    }

    /** One sweep of one kind. */
    method DeliverPerOwner(s: Sweep) returns (c: Counts)
      modifies this`state
      ensures Swept(old(state), s, floor, state)
      ensures c == CountsFor(Outcomes(old(state), s, floor), Reachable(s))
      ensures c.detected == |s.byOwner.Keys - {"(unassigned)"}| == c.delivered + c.failed + c.suppressed
    {
      CountsAddUp(Outcomes(state, s, floor), Reachable(s));
      c := VisitOwners(s);
      ghost var now := state;
      Prune(s.byOwner);
      assert forall o :: o in s.byOwner ==> Lookup(state, o) == Lookup(now, o);
    }
  }

  // --- laws over runs -----------------------------------------------------

  /** A run: `states[k]` is what is saved before sweep `k`. */
  datatype History = History(floor: int, states: seq<map<string, Entry>>, sweeps: seq<Sweep>) {
    ghost predicate Follows(k: nat)
      requires |states| == |sweeps| + 1 && k < |sweeps|
    {
      Swept(states[k], sweeps[k], floor, states[k + 1])
    }

    ghost predicate Valid()
    {
      |states| == |sweeps| + 1 && forall k :: 0 <= k < |sweeps| ==> Follows(k)
    }

    ghost predicate Stale(owner: string, lo: nat, hi: nat)
      requires lo <= hi <= |sweeps|
    {
      forall k :: lo <= k < hi ==> owner in Reachable(sweeps[k])
    }

    ghost predicate Sent(owner: string, k: nat)
      requires |states| == |sweeps| + 1 && k < |sweeps| && owner in sweeps[k].byOwner
    {
      OwnerResult(states[k], sweeps[k], floor, owner).1 == Delivered
    }

    ghost predicate Silent(owner: string, lo: nat, hi: nat)
      requires |states| == |sweeps| + 1 && lo <= hi <= |sweeps| && Stale(owner, lo, hi)
    {
      forall k :: lo <= k < hi ==> !Sent(owner, k)
    }
  }

  lemma {:induction false} DeliveryRemembered(h: History, owner: string, i: nat, j: nat)
    requires h.Valid() && i < j <= |h.sweeps| && h.Stale(owner, i, j) && h.Sent(owner, i) && h.Silent(owner, i + 1, j)
    ensures Lookup(h.states[j], owner)
      == Some(Entry(FingerprintOf(h.sweeps[i].byOwner[owner]), R.Iso(h.sweeps[i].now)))
    decreases j
  {
    assert h.Follows(j - 1);
    assert owner in Reachable(h.sweeps[j - 1]);
    if j > i + 1 {
      DeliveryRemembered(h, owner, i, j - 1);
      assert !h.Sent(owner, j - 1);
    }
  }

  /** Two consecutive nudges of one kind with the same content are more than the floor
      less one second apart. */
  lemma {:induction false} SameNudgeHeldBack(h: History, owner: string, i: nat, j: nat)
    requires h.Valid() && i < j < |h.sweeps| && h.Stale(owner, i, j + 1)
    requires h.Sent(owner, i) && h.Sent(owner, j) && h.Silent(owner, i + 1, j)
    requires FingerprintOf(h.sweeps[i].byOwner[owner]) == FingerprintOf(h.sweeps[j].byOwner[owner])
    ensures h.sweeps[j].now - h.sweeps[i].now > h.floor - R.SECOND
  {
    DeliveryRemembered(h, owner, i, j);
    assert owner in Reachable(h.sweeps[j]);
  }

  /** A card's id tells two nudges' contents apart; the order of the rows, and rows without
      an id, do not. */
  lemma {:induction false} FingerprintLists(ids: seq<string>, more: seq<string>, id: string)
    ensures id in FingerprintOf(ids) <==> id in ids && id != ""
    ensures FingerprintOf(ids + more) == FingerprintOf(more + ids)
    ensures FingerprintOf([""] + ids) == FingerprintOf(ids)
  {
    assert multiset(ids + more) == multiset(more + ids);
    assert multiset([""] + ids) == multiset{""} + multiset(ids);
  }

  /** Changed content is sent: once a card has joined or left the list since the last
      nudge, the next one goes out whenever the inbox accepts, however recent that was. */
  lemma {:induction false} ChangedIsSent(h: History, owner: string, i: nat, j: nat, id: string)
    requires h.Valid() && i < j < |h.sweeps| && h.Stale(owner, i, j + 1)
    requires h.Sent(owner, i) && h.Silent(owner, i + 1, j) && id != ""
    requires (id in h.sweeps[i].byOwner[owner]) != (id in h.sweeps[j].byOwner[owner])
    ensures h.Sent(owner, j) <==> h.sweeps[j].ok(owner)
  {
    DeliveryRemembered(h, owner, i, j);
    assert owner in Reachable(h.sweeps[j]);
    FingerprintLists(h.sweeps[i].byOwner[owner], [], id);
    FingerprintLists(h.sweeps[j].byOwner[owner], [], id);
  }

  /** While nothing is delivered the entry stays as it is. */
  lemma {:induction false} MemoryHolds(h: History, owner: string, i: nat, j: nat)
    requires h.Valid() && i <= j <= |h.sweeps| && h.Stale(owner, i, j) && h.Silent(owner, i, j)
    ensures Lookup(h.states[j], owner) == Lookup(h.states[i], owner)
    decreases j
  {
    if i < j {
      MemoryHolds(h, owner, i, j - 1);
      assert h.Follows(j - 1) && owner in Reachable(h.sweeps[j - 1]);
      assert !h.Sent(owner, j - 1);
    }
  }

  /** A nudge that failed to send is not held back later: from any saved state, as long
      as nothing has gone out since and the content is the same, a later sweep delivers
      exactly when the owner's inbox accepts. */
  lemma {:induction false} FailedIsRetried(h: History, owner: string, i: nat, j: nat)
    requires h.Valid() && i < j < |h.sweeps| && h.Stale(owner, i, j + 1) && h.Silent(owner, i, j)
    requires OwnerResult(h.states[i], h.sweeps[i], h.floor, owner).1 == Failed
    requires FingerprintOf(h.sweeps[i].byOwner[owner]) == FingerprintOf(h.sweeps[j].byOwner[owner])
    requires h.sweeps[i].now <= h.sweeps[j].now
    ensures h.Sent(owner, j) <==> h.sweeps[j].ok(owner)
  {
    MemoryHolds(h, owner, i, j);
    assert owner in Reachable(h.sweeps[j]);
  }

  /** An owner who has never been sent a nudge gets one as soon as the inbox accepts. */
  lemma {:induction false} FirstIsNeverHeldBack(h: History, owner: string, j: nat)
    requires h.Valid() && j < |h.sweeps| && owner !in h.states[0]
    requires h.Stale(owner, 0, j + 1) && h.Silent(owner, 0, j)
    ensures h.Sent(owner, j) <==> h.sweeps[j].ok(owner)
  {
    MemoryHolds(h, owner, 0, j);
    assert owner in Reachable(h.sweeps[j]);
  }

  /** With sweeps at most `gap` apart and the owner's inbox accepting, consecutive nudges
      are less than floor + gap apart, however the content changes: there is no tick to
      wait for. */
  lemma {:induction false} SilenceIsBounded(h: History, owner: string, i: nat, j: nat, gap: int)
    requires h.Valid() && i < j < |h.sweeps| && h.Stale(owner, i, j + 1)
    requires h.Sent(owner, i) && h.Sent(owner, j) && h.Silent(owner, i + 1, j)
    requires h.floor > 0 && 0 <= h.sweeps[j].now - h.sweeps[j - 1].now <= gap
    requires forall k :: i < k < j ==> h.sweeps[k].ok(owner)
    ensures h.sweeps[j].now - h.sweeps[i].now < h.floor + gap
  {
    if i < j - 1 {
      DeliveryRemembered(h, owner, i, j - 1);
      assert !h.Sent(owner, j - 1);
      assert owner in Reachable(h.sweeps[j - 1]);
    }
  }
}
