/** The nag engine: one sweep over the owners' stale cards, with its persistent
    cadence and escalation state. */
module Reminders {
  import opened Common

  /** Instants are microseconds; the state file keeps whole seconds. */
  const SECOND: int := 1_000_000

  /** A stored instant: the sweep's time with the fraction of a second cut off. */
  function Iso(t: int): int
  {
    t - t % SECOND
  }

  /** One card a detector reports; `backlog` marks the lenient sweep's cards. */
  datatype StaleCard = StaleCard(id: string, status: string, backlog: bool)

  /** What the sweep looks up about a card. */
  datatype CardInfo = CardInfo(
    status: string, blocker: string, priority: Option<int>, interval: Option<int>, createdBy: string)

  datatype Kind = Digest | Escalation | CreatorEscalation

  /** One enqueue attempt. */
  datatype Notice = Notice(recipient: string, kind: Kind, cardId: string, supersede: bool)

  const DIGEST_CARD_ID := "(digest)"
  const UNASSIGNED := "(unassigned)"

  /** The content of a digest; hashing it is injective. */
  type Fingerprint = multiset<(string, string)>

  datatype OwnerEntry = OwnerEntry(
    count: nat, lastAt: Option<int>, fingerprint: Option<Fingerprint>, deliveredAt: Option<int>)

  datatype Latches = Latches(escalated: bool, creatorEscalated: bool)

  const FRESH_OWNER := OwnerEntry(0, None, None, None)
  const NO_LATCHES := Latches(false, false)

  datatype State = State(owners: map<string, OwnerEntry>, cards: map<string, Latches>)

  datatype Config = Config(
    escalateAfter: int, escalatePriority: int, floor: int,
    interval: Option<int>, backlogInterval: Option<int>, operator: string)

  const DEFAULT_INTERVAL: int := 5 * 60 * SECOND
  const DEFAULT_BACKLOG_INTERVAL: int := 24 * 60 * 60 * SECOND

  /** Everything one sweep sees: the clock, the detectors' buckets, the cards, which
      registered owners are not alive, and which enqueues succeed. */
  datatype Sweep = Sweep(
    now: int,
    buckets: map<string, seq<StaleCard>>,
    byId: map<string, CardInfo>,
    dead: string -> bool,
    ok: Notice -> bool,
    resolve: string -> string)

  datatype Report = Report(
    digested: set<string>, escalated: set<string>, creatorEscalated: set<string>, skipped: set<string>)

  // --- predicates and cadence ---------------------------------------------

  predicate Due(last: Option<int>, now: int, interval: int)
  {
    last.Some? ==> now - last.value >= interval
  }

  predicate Parked(byId: map<string, CardInfo>, id: string)
  {
    id in byId && byId[id].status == "blocked" && byId[id].blocker != ""
  }

  predicate HighPriority(byId: map<string, CardInfo>, id: string, threshold: int)
  {
    id in byId && byId[id].priority.Some? && byId[id].priority.value <= threshold
  }

  function Positive(x: Option<int>): Option<int>
  {
    if x.Some? && x.value > 0 then x else None
  }

  function GetOr(x: Option<int>, default: int): int
  {
    if x.Some? then x.value else default
  }

  function CardInterval(byId: map<string, CardInfo>, cfg: Config, id: string): (r: int)
    ensures r > 0
  {
    var override := if id in byId then Positive(byId[id].interval) else None;
    GetOr(override, GetOr(Positive(cfg.interval), DEFAULT_INTERVAL))
  }

  function BacklogInterval(cfg: Config): int
  {
    GetOr(Positive(cfg.backlogInterval), DEFAULT_BACKLOG_INTERVAL)
  }

  /** Which clock a card asks for: its own when it names a positive one, else the
      configured one, else five minutes; the backlog's is the configured one or a day. */
  lemma {:induction false} Clocks(byId: map<string, CardInfo>, cfg: Config, id: string)
    ensures
      var own := id in byId && byId[id].interval.Some? && byId[id].interval.value > 0;
      var configured := cfg.interval.Some? && cfg.interval.value > 0;
      && (own ==> CardInterval(byId, cfg, id) == byId[id].interval.value)
      && (!own && configured ==> CardInterval(byId, cfg, id) == cfg.interval.value)
      && (!own && !configured ==> CardInterval(byId, cfg, id) == 300_000_000)
    ensures
      var configured := cfg.backlogInterval.Some? && cfg.backlogInterval.value > 0;
      BacklogInterval(cfg) == if configured then cfg.backlogInterval.value else 86_400_000_000
  {
  }

  function Active(): StaleCard -> bool
  {
    (c: StaleCard) => !c.backlog
  }

  function TightestInterval(cards: seq<StaleCard>, byId: map<string, CardInfo>, cfg: Config): int
    requires cards != []
  {
    var first := CardInterval(byId, cfg, cards[0].id);
    if |cards| == 1 then first
    else
      var rest := TightestInterval(cards[1..], byId, cfg);
      if first <= rest then first else rest
  }

  function OwnerInterval(cards: seq<StaleCard>, byId: map<string, CardInfo>, cfg: Config): int
  {
    var active := Filter(cards, Active());
    if active != [] then TightestInterval(active, byId, cfg) else BacklogInterval(cfg)
  }

  lemma {:induction false} TightestIsMinimum(cards: seq<StaleCard>, byId: map<string, CardInfo>, cfg: Config)
    requires cards != []
    ensures forall c :: c in cards ==> TightestInterval(cards, byId, cfg) <= CardInterval(byId, cfg, c.id)
    ensures exists c :: c in cards && TightestInterval(cards, byId, cfg) == CardInterval(byId, cfg, c.id)
  {
    assert cards[0] in cards;
    if |cards| > 1 {
      TightestIsMinimum(cards[1..], byId, cfg);
      assert cards == [cards[0]] + cards[1..];
    }
  }

  /** A parked or backlog card can never pull the digest onto a faster clock: the
      cadence is the least interval among the active cards, whatever backlog is
      merged in, and the backlog clock only when there is no active card. */
  lemma {:induction false} BacklogNeverTightens(cards: seq<StaleCard>, byId: map<string, CardInfo>, cfg: Config)
    ensures OwnerInterval(cards, byId, cfg) > 0
    ensures OwnerInterval(cards, byId, cfg) == OwnerInterval(Filter(cards, Active()), byId, cfg)
    ensures (forall c :: c in cards ==> c.backlog) ==> OwnerInterval(cards, byId, cfg) == BacklogInterval(cfg)
    ensures forall c :: c in cards && !c.backlog ==> OwnerInterval(cards, byId, cfg) <= CardInterval(byId, cfg, c.id)
    ensures (forall c :: c in cards ==> c.backlog)
      || exists c :: c in cards && !c.backlog && OwnerInterval(cards, byId, cfg) == CardInterval(byId, cfg, c.id)
  {
    var active := Filter(cards, Active());
    FilterMembers(cards, Active());
    FilterAll(active, Active());
    forall c | c in cards && !c.backlog ensures c in active {
    }
    if active != [] {
      assert active[0] in cards;
      TightestIsMinimum(active, byId, cfg);
    }
  }

  function FingerprintOf(cards: seq<StaleCard>): Fingerprint
  {
    multiset(seq(|cards|, i requires 0 <= i < |cards| => (cards[i].id, cards[i].status)))
  }

  /** What a digest's content tells apart: the listed (card, status) pairs, in any order. */
  lemma {:induction false} FingerprintLists(cards: seq<StaleCard>, id: string, status: string)
    ensures (id, status) in FingerprintOf(cards) <==> exists c :: c in cards && c.id == id && c.status == status
  {
    var pairs := seq(|cards|, i requires 0 <= i < |cards| => (cards[i].id, cards[i].status));
    if (id, status) in pairs {
      var i :| 0 <= i < |pairs| && pairs[i] == (id, status);
      assert cards[i] in cards;
    }
    if c :| c in cards && c.id == id && c.status == status {
      var i :| 0 <= i < |cards| && cards[i] == c;
      assert pairs[i] == (id, status);
    }
  }

  function CreatorOf(s: Sweep, cfg: Config, owner: string, id: string): string
  {
    if id !in s.byId || s.byId[id].createdBy == "" || s.byId[id].createdBy == owner then cfg.operator
    else s.byId[id].createdBy
  }

  // --- the meaning of a sweep, owner by owner and card by card ------------

  function Nagworthy(byId: map<string, CardInfo>): StaleCard -> bool
  {
    (c: StaleCard) => c.id != "" && !Parked(byId, c.id)
  }

  /** The cards an owner is nagged about: none for the unassigned bucket. */
  function NagCards(s: Sweep, owner: string): seq<StaleCard>
  {
    if owner == UNASSIGNED || owner !in s.buckets then []
    else Filter(s.buckets[owner], Nagworthy(s.byId))
  }

  ghost predicate Nagged(s: Sweep, owner: string, id: string)
  {
    exists c :: c in NagCards(s, owner) && c.id == id
  }

  /** Nobody is nagged about a card without an id, or about a blocked card with a blocker,
      and the unassigned bucket not at all. */
  lemma {:induction false} NeverNagged(s: Sweep, owner: string, id: string)
    ensures !Nagged(s, owner, "") && NagCards(s, "(unassigned)") == []
    ensures id in s.byId && s.byId[id].status == "blocked" && s.byId[id].blocker != "" ==> !Nagged(s, owner, id)
  {
    if owner in s.buckets {
      FilterMembers(s.buckets[owner], Nagworthy(s.byId));
    }
  }

  ghost predicate NaggedBy(s: Sweep, owners: set<string>, id: string)
  {
    exists owner :: owner in owners && Nagged(s, owner, id)
  }

  /** Card ids are unique, so a card is in one bucket, once. */
  ghost predicate OneOwnerEach(s: Sweep)
  {
    && (forall o, p, id :: Nagged(s, o, id) && Nagged(s, p, id) ==> o == p)
    && (forall o, i, j :: 0 <= i < j < |NagCards(s, o)| ==> NagCards(s, o)[i].id != NagCards(s, o)[j].id)
  }

  datatype Outcome = NotDue | Suppressed | Failed | Delivered

  /** The digest cadence of one owner: the tick counts even when the delivery is
      suppressed as unchanged; only a delivery that succeeded is remembered. */
  function OwnerStep(e: OwnerEntry, now: int, fp: Fingerprint, interval: int, floor: int, ok: bool): (OwnerEntry,
                     Outcome)
  {
    if !Due(e.lastAt, now, interval) then (e, NotDue)
    else
      var ticked := e.(count := e.count + 1, lastAt := Some(Iso(now)));
      if Some(fp) == e.fingerprint && !Due(e.deliveredAt, now, floor) then (ticked, Suppressed)
      else if ok then (ticked.(fingerprint := Some(fp), deliveredAt := Some(Iso(now))), Delivered)
      else (ticked, Failed)
  }

  function EntryOf(owners: map<string, OwnerEntry>, owner: string): OwnerEntry
  {
    if owner in owners then owners[owner] else FRESH_OWNER
  }

  function LatchOf(cards: map<string, Latches>, id: string): Latches
  {
    if id in cards then cards[id] else NO_LATCHES
  }

  function DigestNotice(s: Sweep, owner: string): Notice
  {
    Notice(s.resolve(owner), Digest, DIGEST_CARD_ID, true)
  }

  function OwnerResult(st: State, s: Sweep, cfg: Config, owner: string): (OwnerEntry, Outcome)
  {
    var cards := NagCards(s, owner);
    OwnerStep(EntryOf(st.owners, owner), s.now, FingerprintOf(cards), OwnerInterval(cards, s.byId, cfg), cfg.floor,
              s.ok(DigestNotice(s, owner)))
  }

  /** A nagged card of an owner who is not alive goes to its creator, once. */
  predicate ToCreator(st: State, s: Sweep, cfg: Config, owner: string, id: string)
  {
    && s.dead(owner) && !LatchOf(st.cards, id).creatorEscalated
    && s.ok(Notice(s.resolve(CreatorOf(s, cfg, owner, id)), CreatorEscalation, id, false))
  }

  /** A high-priority card the operator has not been told about, and now is. */
  predicate OperatorTakes(latches: Latches, s: Sweep, cfg: Config, id: string)
  {
    && HighPriority(s.byId, id, cfg.escalatePriority) && !latches.escalated
    && s.ok(Notice(s.resolve(cfg.operator), Escalation, id, false))
  }

  /** A high-priority card whose owner's due tick has reached the threshold goes to
      the operator, once. */
  predicate ToOperator(st: State, s: Sweep, cfg: Config, owner: string, id: string)
  {
    var (e, outcome) := OwnerResult(st, s, cfg, owner);
    outcome != NotDue && e.count >= cfg.escalateAfter && OperatorTakes(LatchOf(st.cards, id), s, cfg, id)
  }

  function LatchAfter(st: State, s: Sweep, cfg: Config, owner: string, id: string): Latches
  {
    var l := LatchOf(st.cards, id);
    Latches(l.escalated || ToOperator(st, s, cfg, owner, id), l.creatorEscalated || ToCreator(st, s, cfg, owner, id))
  }

  /** Some owner of the set had the card sent to the operator. */
  ghost predicate OperatorTold(st: State, s: Sweep, cfg: Config, owners: set<string>, id: string)
  {
    exists o :: o in owners && Nagged(s, o, id) && ToOperator(st, s, cfg, o, id)
  }

  ghost predicate CreatorTold(st: State, s: Sweep, cfg: Config, owners: set<string>, id: string)
  {
    exists o :: o in owners && Nagged(s, o, id) && ToCreator(st, s, cfg, o, id)
  }

  /** What a sweep that has handled the given owners reports. */
  ghost predicate Reported(st: State, s: Sweep, cfg: Config, owners: set<string>, r: Report)
  {
    && (forall o :: o in r.digested
          <==> o in owners && NagCards(s, o) != [] && OwnerResult(st, s, cfg, o).1 == Delivered)
    && (forall o :: o in r.skipped
          <==> o in owners && NagCards(s, o) != [] && OwnerResult(st, s, cfg, o).1 in {NotDue, Suppressed})
    && (forall id :: id in r.escalated <==> OperatorTold(st, s, cfg, owners, id))
    && (forall id :: id in r.creatorEscalated <==> CreatorTold(st, s, cfg, owners, id))
  }

  ghost predicate LatchesSet(st: State, s: Sweep, cfg: Config, owners: set<string>, cards: map<string, Latches>)
  {
    forall o, id :: o in owners && Nagged(s, o, id) ==> LatchOf(cards, id) == LatchAfter(st, s, cfg, o, id)
  }

  /** The whole effect of one sweep. What the state held about owners and cards that
      are no longer nagged is forgotten. */
  ghost predicate Swept(st: State, s: Sweep, cfg: Config, after: State, r: Report)
  {
    && (forall o :: o in after.owners <==> NagCards(s, o) != [])
    && (forall o :: o in after.owners ==> after.owners[o] == OwnerResult(st, s, cfg, o).0)
    && (forall id :: id in after.cards ==> NaggedBy(s, s.buckets.Keys, id))
    && LatchesSet(st, s, cfg, s.buckets.Keys, after.cards)
    && Reported(st, s, cfg, s.buckets.Keys, r)
  }

  // --- a sweep part-way through -------------------------------------------

  ghost predicate OwnersSet(st: State, s: Sweep, cfg: Config, done: set<string>, owners: map<string, OwnerEntry>)
  {
    forall o ::
      if o in done && NagCards(s, o) != [] then o in owners && owners[o] == OwnerResult(st, s, cfg, o).0
      else EntryOf(owners, o) == EntryOf(st.owners, o)
  }

  ghost predicate OthersUntouched(st: State, s: Sweep, done: set<string>, cards: map<string, Latches>)
  {
    forall id :: !NaggedBy(s, done, id) ==> LatchOf(cards, id) == LatchOf(st.cards, id)
  }

  ghost predicate Partly(st: State, s: Sweep, cfg: Config, done: set<string>, now: State, r: Report)
  {
    && OwnersSet(st, s, cfg, done, now.owners)
    && LatchesSet(st, s, cfg, done, now.cards)
    && OthersUntouched(st, s, done, now.cards)
    && Reported(st, s, cfg, done, r)
  }

  /** What one owner's turn does, seen from the state it starts in. */
  ghost predicate Turn(before: State, s: Sweep, cfg: Config, owner: string, after: State)
  {
    && after.owners == before.owners[owner := OwnerResult(before, s, cfg, owner).0]
    && (forall id :: Nagged(s, owner, id) ==> LatchOf(after.cards, id) == LatchAfter(before, s, cfg, owner, id))
    && (forall id :: !Nagged(s, owner, id) ==> LatchOf(after.cards, id) == LatchOf(before.cards, id))
  }

  /** An owner not yet handled sees the state the sweep started from. */
  lemma {:induction false} TurnSeesTheStart(st: State, s: Sweep, cfg: Config, done: set<string>, before: State,
                                            owner: string)
    requires OneOwnerEach(s) && owner !in done
    requires OwnersSet(st, s, cfg, done, before.owners) && OthersUntouched(st, s, done, before.cards)
    ensures OwnerResult(before, s, cfg, owner) == OwnerResult(st, s, cfg, owner)
    ensures forall id :: Nagged(s, owner, id) ==>
      && LatchAfter(before, s, cfg, owner, id) == LatchAfter(st, s, cfg, owner, id)
      && ToOperator(before, s, cfg, owner, id) == ToOperator(st, s, cfg, owner, id)
      && ToCreator(before, s, cfg, owner, id) == ToCreator(st, s, cfg, owner, id)
  {
    forall id | Nagged(s, owner, id) ensures LatchOf(before.cards, id) == LatchOf(st.cards, id) {
      assert !NaggedBy(s, done, id);
    }
  }

  lemma {:induction false} LatchesGrow(st: State, s: Sweep, cfg: Config, done: set<string>, before: State,
                                       owner: string, after: State)
    requires OneOwnerEach(s) && owner !in done && Turn(before, s, cfg, owner, after)
    requires OwnersSet(st, s, cfg, done, before.owners) && OthersUntouched(st, s, done, before.cards)
    requires LatchesSet(st, s, cfg, done, before.cards)
    ensures LatchesSet(st, s, cfg, done + {owner}, after.cards)
    ensures OthersUntouched(st, s, done + {owner}, after.cards)
  {
    TurnSeesTheStart(st, s, cfg, done, before, owner);
    forall o, id | o in done + {owner} && Nagged(s, o, id)
      ensures LatchOf(after.cards, id) == LatchAfter(st, s, cfg, o, id)
    {
      if o != owner {
        assert !Nagged(s, owner, id);
      }
    }
    forall id | !NaggedBy(s, done + {owner}, id) ensures LatchOf(after.cards, id) == LatchOf(st.cards, id) {
      assert owner in done + {owner};
      assert !Nagged(s, owner, id);
      forall o | o in done ensures !Nagged(s, o, id) {
        assert o in done + {owner};
      }
      assert !NaggedBy(s, done, id);
    }
  }

  lemma {:induction false} ToldGrows(st: State, s: Sweep, cfg: Config, done: set<string>, owner: string, id: string)
    ensures OperatorTold(st, s, cfg, done + {owner}, id)
      <==> OperatorTold(st, s, cfg, done, id) || (Nagged(s, owner, id) && ToOperator(st, s, cfg, owner, id))
    ensures CreatorTold(st, s, cfg, done + {owner}, id)
      <==> CreatorTold(st, s, cfg, done, id) || (Nagged(s, owner, id) && ToCreator(st, s, cfg, owner, id))
  {
    assert owner in done + {owner};
    forall o | o in done ensures o in done + {owner} {
    }
    forall o | o in done + {owner} ensures o in done || o == owner {
    }
  }

  /** An owner with nothing to be nagged about changes nothing. */
  lemma {:induction false} PartlyIdle(st: State, s: Sweep, cfg: Config, done: set<string>, now: State, r: Report,
                                      owner: string)
    requires Partly(st, s, cfg, done, now, r) && NagCards(s, owner) == []
    ensures Partly(st, s, cfg, done + {owner}, now, r)
  {
    forall id ensures !Nagged(s, owner, id) {
    }
    forall id
      ensures OperatorTold(st, s, cfg, done + {owner}, id) == OperatorTold(st, s, cfg, done, id)
      ensures CreatorTold(st, s, cfg, done + {owner}, id) == CreatorTold(st, s, cfg, done, id)
    {
      ToldGrows(st, s, cfg, done, owner, id);
    }
    forall id | !NaggedBy(s, done + {owner}, id) ensures LatchOf(now.cards, id) == LatchOf(st.cards, id) {
      forall o | o in done ensures !Nagged(s, o, id) {
        assert o in done + {owner};
      }
      assert !NaggedBy(s, done, id);
    }
  }

  lemma {:induction false} ReportGrows(st: State, s: Sweep, cfg: Config, done: set<string>, soFar: Report,
                                       owner: string, outcome: Outcome, escalated: set<string>,
                                       creatorEscalated: set<string>, r: Report)
    requires Reported(st, s, cfg, done, soFar) && owner !in done && NagCards(s, owner) != []
    requires outcome == OwnerResult(st, s, cfg, owner).1
    requires forall id :: id in escalated <==> Nagged(s, owner, id) && ToOperator(st, s, cfg, owner, id)
    requires forall id :: id in creatorEscalated <==> Nagged(s, owner, id) && ToCreator(st, s, cfg, owner, id)
    requires r == Report(
      soFar.digested + (if outcome == Delivered then {owner} else {}),
      soFar.escalated + escalated,
      soFar.creatorEscalated + creatorEscalated,
      soFar.skipped + if outcome == NotDue || outcome == Suppressed then {owner} else {})
    ensures Reported(st, s, cfg, done + {owner}, r)
  {
    forall id
      ensures id in r.escalated <==> OperatorTold(st, s, cfg, done + {owner}, id)
      ensures id in r.creatorEscalated <==> CreatorTold(st, s, cfg, done + {owner}, id)
    {
      ToldGrows(st, s, cfg, done, owner, id);
    }
  }

  /** Once every owner is handled, forgetting what is no longer nagged completes the
      sweep. */
  lemma {:induction false} PruneCompletes(st: State, s: Sweep, cfg: Config, now: State, after: State, r: Report,
                                          staleOwners: set<string>, staleIds: set<string>)
    requires Partly(st, s, cfg, s.buckets.Keys, now, r)
    requires forall o :: o in staleOwners <==> o in s.buckets && NagCards(s, o) != []
    requires forall id :: id in staleIds <==> NaggedBy(s, s.buckets.Keys, id)
    requires after.owners == (map o | o in now.owners && o in staleOwners :: now.owners[o])
    requires after.cards == (map id | id in now.cards && id in staleIds :: now.cards[id])
    ensures Swept(st, s, cfg, after, r)
  {
    forall o, id | o in s.buckets.Keys && Nagged(s, o, id)
      ensures LatchOf(after.cards, id) == LatchAfter(st, s, cfg, o, id)
    {
      assert NaggedBy(s, s.buckets.Keys, id);
      assert LatchOf(after.cards, id) == LatchOf(now.cards, id);
    }
  }

  // --- the engine ---------------------------------------------------------

  class ReminderEngine {
    var owners: map<string, OwnerEntry>
    var cards: map<string, Latches>
    const cfg: Config

    constructor (state: State, cfg: Config)
      ensures this.cfg == cfg && Saved() == state
    {
      this.owners, this.cards, this.cfg := state.owners, state.cards, cfg;
    }

    function Saved(): State
      reads this
    {
      State(owners, cards)
    }

    /** Escalates a dead owner's cards to their creators. */
    method EscalateToCreators(s: Sweep, owner: string, nag: seq<StaleCard>) returns (sent: set<string>)
      modifies this`cards
      ensures forall id :: id in sent <==> InCards(nag, id) && ToCreator(old(Saved()), s, cfg, owner, id)
      ensures forall id :: LatchOf(cards, id) == LatchOf(old(cards), id).(creatorEscalated :=
        LatchOf(old(cards), id).creatorEscalated || id in sent)
    {
      sent := {};
      if !s.dead(owner) {
        return;
      }
      for i := 0 to |nag|
        invariant forall id :: id in sent <==> InCards(nag[..i], id) && ToCreator(old(Saved()), s, cfg, owner, id)
        invariant forall id :: LatchOf(cards, id) == LatchOf(old(cards), id).(creatorEscalated :=
          LatchOf(old(cards), id).creatorEscalated || id in sent)
      {
        InCardsSnoc(nag, i);
        var id := nag[i].id;
        var latches := LatchOf(cards, id);
        if !latches.creatorEscalated
           && s.ok(Notice(s.resolve(CreatorOf(s, cfg, owner, id)), CreatorEscalation, id, false)) {
          latches := latches.(creatorEscalated := true);
          sent := sent + {id};
        }
        cards := cards[id := latches];
      }
      assert nag[..|nag|] == nag;
    }

    /** Escalates an owner's stuck high-priority cards to the operator. */
    method EscalateToOperator(s: Sweep, nag: seq<StaleCard>) returns (sent: set<string>)
      modifies this`cards
      ensures forall id :: id in sent <==> InCards(nag, id) && OperatorTakes(LatchOf(old(cards), id), s, cfg, id)
      ensures forall id ::
        id in sent ==> (&& id in s.byId && s.byId[id].priority.Some?
                        && s.byId[id].priority.value <= cfg.escalatePriority
                        && s.ok(Notice(s.resolve(cfg.operator), Escalation, id, false)))
      ensures forall id :: LatchOf(cards, id) == LatchOf(old(cards), id).(escalated :=
        LatchOf(old(cards), id).escalated || id in sent)
    {
      sent := {};
      for i := 0 to |nag|
        invariant forall id ::
          id in sent <==> (InCards(nag[..i], id) && OperatorTakes(LatchOf(old(cards), id), s, cfg, id))
        invariant forall id :: LatchOf(cards, id) == LatchOf(old(cards), id).(escalated :=
          LatchOf(old(cards), id).escalated || id in sent)
      {
        InCardsSnoc(nag, i);
        var id := nag[i].id;
        if HighPriority(s.byId, id, cfg.escalatePriority) {
          var latches := LatchOf(cards, id);
          if !latches.escalated && s.ok(Notice(s.resolve(cfg.operator), Escalation, id, false)) {
            latches := latches.(escalated := true);
            sent := sent + {id};
          }
          cards := cards[id := latches];
        }
      }
      assert nag[..|nag|] == nag;
    }

    /** One owner's turn in a sweep. */
    method NagOwner(s: Sweep, owner: string, nag: seq<StaleCard>)
      returns (outcome: Outcome, escalated: set<string>, creatorEscalated: set<string>)
      requires nag == NagCards(s, owner) && nag != []
      modifies this`owners, this`cards
      ensures Turn(old(Saved()), s, cfg, owner, Saved())
      ensures outcome == OwnerResult(old(Saved()), s, cfg, owner).1
      ensures forall id :: id in escalated <==> Nagged(s, owner, id) && ToOperator(old(Saved()), s, cfg, owner, id)
      ensures forall id ::
        id in creatorEscalated <==> (Nagged(s, owner, id) && ToCreator(old(Saved()), s, cfg, owner, id))
    {
      assert forall id :: InCards(nag, id) == Nagged(s, owner, id);
      creatorEscalated := EscalateToCreators(s, owner, nag);
      escalated := {};
      var entry := EntryOf(owners, owner);
      if !Due(entry.lastAt, s.now, OwnerInterval(nag, s.byId, cfg)) {
        owners := owners[owner := entry];
        return NotDue, escalated, creatorEscalated;
      }
      var fingerprint := FingerprintOf(nag);
      var suppress := Some(fingerprint) == entry.fingerprint && !Due(entry.deliveredAt, s.now, cfg.floor);
      entry := entry.(count := entry.count + 1, lastAt := Some(Iso(s.now)));
      if suppress {
        outcome := Suppressed;
      } else if s.ok(DigestNotice(s, owner)) {
        entry := entry.(fingerprint := Some(fingerprint), deliveredAt := Some(Iso(s.now)));
        outcome := Delivered;
      } else {
        outcome := Failed;
      }
      owners := owners[owner := entry];
      if entry.count >= cfg.escalateAfter {
        escalated := EscalateToOperator(s, nag);
      }
    }

    /** Drops what is kept about owners and cards that are no longer stale. */
    method Prune(staleOwners: set<string>, staleIds: set<string>)
      modifies this`owners, this`cards
      ensures owners == map o | o in old(owners) && o in staleOwners :: old(owners)[o]
      ensures cards == map id | id in old(cards) && id in staleIds :: old(cards)[id]
    {
      var todo := owners.Keys;
      while todo != {}
        invariant todo <= old(owners).Keys && cards == old(cards)
        invariant owners == map o | o in old(owners) && (o in todo || o in staleOwners) :: old(owners)[o]
        decreases todo
      {
        var owner :| owner in todo;
        if owner !in staleOwners {
          owners := owners - {owner};
        }
        todo := todo - {owner};
      }
      todo := cards.Keys;
      while todo != {}
        invariant todo <= old(cards).Keys
        invariant owners == map o | o in old(owners) && o in staleOwners :: old(owners)[o]
        invariant cards == map id | id in old(cards) && (id in todo || id in staleIds) :: old(cards)[id]
        decreases todo
      {
        var id :| id in todo;
        if id !in staleIds {
          cards := cards - {id};
        }
        todo := todo - {id};
      }
    }

    /** One owner of the loop, reported. */
    method NagAndReport(ghost st: State, s: Sweep, ghost done: set<string>, owner: string, nag: seq<StaleCard>,
                        soFar: Report)
      returns (r: Report)
      requires OneOwnerEach(s) && owner !in done && nag == NagCards(s, owner) && nag != []
      requires Partly(st, s, cfg, done, Saved(), soFar)
      modifies this`owners, this`cards
      ensures Partly(st, s, cfg, done + {owner}, Saved(), r)
    {
      ghost var before := Saved();
      var outcome, escalated, creatorEscalated := NagOwner(s, owner, nag);
      r := Report(
        soFar.digested + (if outcome == Delivered then {owner} else {}),
        soFar.escalated + escalated,
        soFar.creatorEscalated + creatorEscalated,
        soFar.skipped + if outcome == NotDue || outcome == Suppressed then {owner} else {});
      TurnSeesTheStart(st, s, cfg, done, before, owner);
      LatchesGrow(st, s, cfg, done, before, owner, Saved());
      ReportGrows(st, s, cfg, done, soFar, owner, outcome, escalated, creatorEscalated, r);
    }

    /** The loop over the owners' buckets. */
    method NagOwners(s: Sweep) returns (r: Report, staleOwners: set<string>, staleIds: set<string>)
      requires OneOwnerEach(s)
      modifies this`owners, this`cards
      ensures Partly(old(Saved()), s, cfg, s.buckets.Keys, Saved(), r)
      ensures forall o :: o in staleOwners <==> o in s.buckets && NagCards(s, o) != []
      ensures forall id :: id in staleIds <==> NaggedBy(s, s.buckets.Keys, id)
    {
      ghost var st := Saved();
      r, staleOwners, staleIds := Report({}, {}, {}, {}), {}, {};
      var todo := s.buckets.Keys;
      ghost var done: set<string> := {};
      while todo != {}
        invariant todo <= s.buckets.Keys && done == s.buckets.Keys - todo
        invariant Partly(st, s, cfg, done, Saved(), r)
        invariant forall o :: o in staleOwners <==> o in done && NagCards(s, o) != []
        invariant forall id :: id in staleIds <==> NaggedBy(s, done, id)
        decreases todo
      {
        var owner :| owner in todo;
        var nag := NagCards(s, owner);
        NaggedByGrows(s, done, owner);
        if nag != [] {
          staleOwners := staleOwners + {owner};
          staleIds := staleIds + IdsOf(nag);
          r := NagAndReport(st, s, done, owner, nag, r);
        } else {
          PartlyIdle(st, s, cfg, done, Saved(), r, owner);
        }
        todo, done := todo - {owner}, done + {owner};
      }
      assert done == s.buckets.Keys;
    }

    /** One sweep over every owner's bucket. */
    method SweepReminders(s: Sweep) returns (r: Report)
      requires OneOwnerEach(s)
      modifies this`owners, this`cards
      ensures Swept(old(Saved()), s, cfg, Saved(), r)
    {
      ghost var st := Saved();
      var staleOwners, staleIds;
      r, staleOwners, staleIds := NagOwners(s);
      ghost var now := Saved();
      Prune(staleOwners, staleIds);
      PruneCompletes(st, s, cfg, now, Saved(), r, staleOwners, staleIds);
    }
  }

  function IdsOf(cards: seq<StaleCard>): (ids: set<string>)
    ensures forall id :: id in ids <==> InCards(cards, id)
  {
    set c | c in cards :: c.id
  }

  lemma {:induction false} NaggedByGrows(s: Sweep, done: set<string>, owner: string)
    ensures forall id :: NaggedBy(s, done + {owner}, id) <==> NaggedBy(s, done, id) || Nagged(s, owner, id)
  {
    forall id ensures NaggedBy(s, done + {owner}, id) <==> NaggedBy(s, done, id) || Nagged(s, owner, id) {
      assert owner in done + {owner};
      if o :| o in done && Nagged(s, o, id) {
        assert o in done + {owner};
      }
    }
  }

  ghost predicate InCards(cards: seq<StaleCard>, id: string)
  {
    exists c :: c in cards && c.id == id
  }

  lemma {:induction false} InCardsSnoc(cards: seq<StaleCard>, i: nat)
    requires i < |cards|
    ensures forall id :: InCards(cards[..i + 1], id) <==> InCards(cards[..i], id) || id == cards[i].id
  {
    assert cards[..i + 1] == cards[..i] + [cards[i]];
    forall id ensures InCards(cards[..i + 1], id) <==> InCards(cards[..i], id) || id == cards[i].id {
      assert cards[i] in cards[..i + 1];
      if InCards(cards[..i + 1], id) {
        var c :| c in cards[..i + 1] && c.id == id;
        assert c in cards[..i] || c == cards[i];
      }
    }
  }
}
