/** The deferred backlog: field updates, the age clock they must not move, and who is
    drawn or expires. */
module Backlog {
  import opened Common
  import C = Cards

  /** A stored value: a string, a whole number, the log metadata with its deletion mark,
      or any other value by its truthiness. */
  datatype Value = Text(s: string) | Num(n: int) | Meta(deleted: bool) | Other(truthy: bool)

  /** A card as the raw mapping that field updates work on: any key, any value. */
  type Fields = map<string, Value>

  /** The fields of one update call; None deletes the field. */
  type Edits = map<string, Option<Value>>

  const DEFERRED := Text("deferred")

  predicate Truthy(v: Value)
  {
    match v
    case Text(s) => s != ""
    case Num(n) => n != 0
    case Meta(_) => true
    case Other(t) => t
  }

  function Get(c: Fields, key: string): Value
  {
    if key in c then c[key] else Other(false)
  }

  predicate HoldsLive(c: Fields, id: string)
  {
    Get(c, "id") == Text(id) && Get(c, "_log_meta") != Meta(true)
  }

  predicate IsDeferred(c: Fields)
  {
    Get(c, "status") == DEFERRED
  }

  /** The raw mapping of a card whose known keys are well-typed. */
  function FieldsOf(c: C.Card): Fields
  {
    map["id" := Text(c.id), "agent" := Text(c.agent), "assignee" := Text(c.assignee), "blocker" := Text(c.blocker),
        "created_by" := Text(c.createdBy), "last_activity" := Text(c.lastActivity),
        "_log_meta" := Meta(c.deletedAt != "")]
    + if c.status.Some? then map["status" := Text(c.status.value)] else map[]
  }

  // --- updating a card ----------------------------------------------------

  /** An empty or blank string on a closed field is the instruction to clear it. */
  predicate ClearSentinel(v: Option<Value>)
  {
    v.Some? && v.value.Text? && Blank(v.value.s)
  }

  const CLEARABLE := ["blocker", "kind"]

  function Clears(edits: Edits, fields: seq<string>): Edits
  {
    if fields == [] then edits
    else
      var rest := Clears(edits, fields[..|fields| - 1]);
      var key := fields[|fields| - 1];
      if key in rest && ClearSentinel(rest[key]) then rest[key := None] else rest
  }

  function ResolveEnumClears(edits: Edits): Result<Edits>
  {
    if "status" in edits && ClearSentinel(edits["status"]) then Err("status cannot be cleared")
    else Ok(Clears(edits, CLEARABLE))
  }

  /** The fields after the edits, whatever order they are applied in. */
  function Edited(c: Fields, edits: Edits): Fields
  {
    map k | k in c.Keys + edits.Keys && (k in edits ==> edits[k].Some?) :: if k in edits then edits[k].value else c[k]
  }

  /** The card enters the backlog with this edit. */
  predicate Enters(c: Fields, edits: Edits)
  {
    IsDeferred(Edited(c, edits)) && !IsDeferred(c)
  }

  function Updated(c: Fields, edits: Edits, now: string): Fields
  {
    var edited := Edited(c, edits);
    var active := if "last_activity" in edits then edited else edited["last_activity" := Text(now)];
    if Enters(c, edits) then active["deferred_at" := Text(now)] else active
  }

  /** One update call, and the store's validator. */
  datatype Call = Call(id: string, edits: Edits, now: string)

  function FirstLive(tasks: seq<Fields>, id: string): (i: nat)
    ensures i <= |tasks|
    ensures i < |tasks| ==> HoldsLive(tasks[i], id)
    ensures forall k :: 0 <= k < i ==> !HoldsLive(tasks[k], id)
  {
    if tasks == [] || HoldsLive(tasks[0], id) then 0 else 1 + FirstLive(tasks[1..], id)
  }

  /** The stored cards after one call; a refused call changes nothing. */
  function Apply(tasks: seq<Fields>, call: Call, accepts: seq<Fields> -> bool): (after: seq<Fields>)
    ensures |after| == |tasks|
  {
    var edits := ResolveEnumClears(call.edits);
    var i := FirstLive(tasks, call.id);
    if call.id == "" || edits.Err? || i == |tasks| then tasks
    else
      var after := tasks[i := Updated(tasks[i], edits.value, call.now)];
      if accepts(after) then after else tasks
  }

  /** The list an update call asks to be saved, when it gets that far: the id is given, the
      status is not being blanked, and a live card has the id. */
  function Proposed(tasks: seq<Fields>, call: Call): Option<seq<Fields>>
  {
    var edits := ResolveEnumClears(call.edits);
    var i := FirstLive(tasks, call.id);
    if call.id == "" || edits.Err? || i == |tasks| then None
    else Some(tasks[i := Updated(tasks[i], edits.value, call.now)])
  }

  class CardFile {
    var tasks: seq<Fields>
    const accepts: seq<Fields> -> bool

    constructor (tasks: seq<Fields>, accepts: seq<Fields> -> bool)
      ensures this.tasks == tasks && this.accepts == accepts
    {
      this.tasks, this.accepts := tasks, accepts;
    }

    /** The loop over the fields of one call. */
    static method EditFields(card: Fields, edits: Edits) returns (c: Fields)
      ensures c == Edited(card, edits)
    {
      c := card;
      var todo := edits.Keys;
      while todo != {}
        invariant todo <= edits.Keys
        invariant forall k :: (k in c) == if k in edits.Keys - todo then edits[k].Some? else k in card
        invariant forall k :: k in c ==> c[k] == if k in edits.Keys - todo then edits[k].value else card[k]
        decreases todo
      {
        var key :| key in todo;
        if edits[key].None? {
          c := c - {key};
        } else {
          c := c[key := edits[key].value];
        }
        todo := todo - {key};
      }
    }

    method UpdateTask(call: Call) returns (r: Result<Fields>)
      modifies this
      ensures tasks == Apply(old(tasks), call, accepts)
      ensures r.Ok? <==> Proposed(old(tasks), call).Some? && accepts(Proposed(old(tasks), call).value)
      ensures r.Ok? ==> tasks == Proposed(old(tasks), call).value && accepts(tasks)
      ensures r.Ok? ==> exists i ::
        && 0 <= i < |tasks| && tasks[i] == r.value && HoldsLive(old(tasks)[i], call.id)
        && forall k :: 0 <= k < i ==> !HoldsLive(old(tasks)[k], call.id)
      ensures r.Err? ==> tasks == old(tasks)
    {
      if call.id == "" {
        return Err("update_task() requires a non-empty task_id");
      }
      var resolved := ResolveEnumClears(call.edits);
      if resolved.Err? {
        return Err(resolved.error);
      }
      var edits := resolved.value;
      var i := FirstLive(tasks, call.id);
      if i == |tasks| {
        return Err("task id not found");
      }
      var prior := Get(tasks[i], "status");
      var card := EditFields(tasks[i], edits);
      if "last_activity" !in edits {
        card := card["last_activity" := Text(call.now)];
      }
      if Get(card, "status") == DEFERRED && prior != DEFERRED {
        card := card["deferred_at" := Text(call.now)];
      }
      var after := tasks[i := card];
      if !accepts(after) {
        return Err("validation failed");
      }
      tasks := after;
      r := Ok(card);
    }
  }

  // --- the age clock ------------------------------------------------------

  /** The stored instant a string names, when it names one. */
  type Parser = string -> Option<int>

  function Parsed(v: Value, parse: Parser): Option<int>
  {
    if v.Text? && v.s != "" then parse(v.s) else None
  }

  function ClockField(c: Fields): Value
  {
    if Truthy(Get(c, "deferred_at")) then Get(c, "deferred_at") else Get(c, "created_at")
  }

  function DeferredSince(c: Fields, parse: Parser): Option<int>
  {
    Parsed(ClockField(c), parse)
  }

  /** Parked takes a written reason: no flag, no blank string. */
  predicate Parked(c: Fields)
  {
    Get(c, "parked").Text? && !Blank(Get(c, "parked").s)
  }

  const HOUR: int := 3_600_000_000

  /** The horizons of one triage; unless configured, thirty days and three. */
  datatype Triage = Triage(parse: Parser, expiry: int := 30 * 24 * HOUR, cooldown: int := 72 * HOUR)

  predicate Expired(c: Fields, now: int, t: Triage)
  {
    var since := DeferredSince(c, t.parse);
    IsDeferred(c) && !Parked(c) && since.Some? && now - since.value >= t.expiry
  }

  predicate InCooldown(c: Fields, now: int, t: Triage)
  {
    var last := Parsed(Get(c, "last_triaged_at"), t.parse);
    last.Some? && now - last.value < t.cooldown
  }

  function OwnerOf(c: Fields): string
  {
    var raw := if Truthy(Get(c, "agent")) then Get(c, "agent") else Get(c, "assignee");
    var owner := if raw.Text? then Strip(raw.s) else "";
    if owner == "" then "(unassigned)" else owner
  }

  /** Both representations name the same live card, the same backlog and, up to the
      stripping this module's source adds, the same owner. */
  lemma {:induction false} SameCard(c: C.Card, id: string)
    ensures HoldsLive(FieldsOf(c), id) <==> C.IsLive(c, id)
    ensures IsDeferred(FieldsOf(c)) <==> c.status == Some("deferred")
    ensures OwnerOf(FieldsOf(c)) == if Strip(C.Owner(c)) == "" then "(unassigned)" else Strip(C.Owner(c))
    ensures C.Owner(c) == (if c.agent != "" then c.agent else c.assignee)
    ensures C.IsLive(c, id) <==> c.id == id && c.deletedAt == ""
  {
    assert Strip("") == "";
  }

  /** The raw mapping keeps the other fields the backlog reads. */
  lemma {:induction false} SameFields(c: C.Card)
    ensures Get(FieldsOf(c), "blocker") == Text(c.blocker) && Get(FieldsOf(c), "created_by") == Text(c.createdBy)
    ensures Get(FieldsOf(c), "last_activity") == Text(c.lastActivity)
  {
  }

  predicate OwnerMatches(c: Fields, owner: Option<string>)
  {
    owner.Some? ==> OwnerOf(c) == owner.value
  }

  predicate Drawable(c: Fields, owner: Option<string>, now: int, t: Triage)
  {
    IsDeferred(c) && OwnerMatches(c, owner) && !Parked(c) && !Expired(c, now, t) && !InCooldown(c, now, t)
  }

  function DrawableBy(owner: Option<string>, now: int, t: Triage): Fields -> bool
  {
    (c: Fields) => Drawable(c, owner, now, t)
  }

  function ExpiredBy(owner: Option<string>, now: int, t: Triage): Fields -> bool
  {
    (c: Fields) => IsDeferred(c) && OwnerMatches(c, owner) && Expired(c, now, t)
  }

  method Candidates(tasks: seq<Fields>, owner: Option<string>, now: int, t: Triage) returns (out: seq<Fields>)
    ensures out == Filter(tasks, DrawableBy(owner, now, t))
  {
    out := [];
    for i := 0 to |tasks|
      invariant out == Filter(tasks[..i], DrawableBy(owner, now, t))
    {
      FilterTakeStep(tasks, i, DrawableBy(owner, now, t));
      var c := tasks[i];
      if IsDeferred(c) && OwnerMatches(c, owner) && !Parked(c) && !Expired(c, now, t) && !InCooldown(c, now, t) {
        out := out + [c];
      }
    }
    assert tasks[..|tasks|] == tasks;
  }

  function ExpiredCards(tasks: seq<Fields>, owner: Option<string>, now: int, t: Triage): seq<Fields>
  {
    Filter(tasks, ExpiredBy(owner, now, t))
  }

  // --- laws ---------------------------------------------------------------

  /** A blank string never reaches a closed field: on a status it is refused, on a blocker
      or a kind it deletes the field, and no other edit is touched. */
  lemma {:induction false} BlankNeverWritten(edits: Edits)
    ensures ResolveEnumClears(edits).Err? <==> "status" in edits && ClearSentinel(edits["status"])
    ensures ResolveEnumClears(edits).Ok? ==>
      var resolved := ResolveEnumClears(edits).value;
      && resolved.Keys == edits.Keys
      && (forall key :: key in ["status", "blocker", "kind"] && key in resolved ==> !ClearSentinel(resolved[key]))
      && (forall key :: key in edits && resolved[key] != edits[key] ==>
            resolved[key] == None && key in CLEARABLE && ClearSentinel(edits[key]))
  {
    ClearsMeans(edits, CLEARABLE);
    assert CLEARABLE[0] == "blocker" && CLEARABLE[1] == "kind";
  }

  lemma {:induction false} ClearsMeans(edits: Edits, fields: seq<string>)
    ensures
      var resolved := Clears(edits, fields);
      && resolved.Keys == edits.Keys
      && forall key :: key in edits ==>
           resolved[key] == if key in fields && ClearSentinel(edits[key]) then None else edits[key]
  {
    if fields != [] {
      var last := |fields| - 1;
      ClearsMeans(edits, fields[..last]);
      assert fields == fields[..last] + [fields[last]];
    }
  }

  /** An update writes what it was given, the activity stamp unless one was given, and on
      entry the age stamp; every other field is as it was. */
  lemma {:induction false} UpdateWritesOnly(c: Fields, edits: Edits, now: string, key: string)
    ensures
      var after := Updated(c, edits, now);
      if key == "deferred_at" && Enters(c, edits) then key in after && after[key] == Text(now)
      else if key in edits then
        if edits[key].None? then key !in after else key in after && after[key] == edits[key].value
      else if key == "last_activity" then key in after && after[key] == Text(now)
      else (key in after <==> key in c) && (key in c ==> after[key] == c[key])
  {
    assert key in Edited(c, edits) <==> (if key in edits then edits[key].Some? else key in c);
  }

  /** The edit writes the field the clock is read from. */
  predicate WritesClock(c: Fields, edits: Edits)
  {
    "deferred_at" in edits || ("created_at" in edits && !Truthy(Get(c, "deferred_at")))
  }

  /** When an update gets as far as the validator, and what it proposes: one card changed,
      the first that carries the id and is not marked deleted. */
  lemma {:induction false} ProposedWhen(tasks: seq<Fields>, call: Call)
    ensures Proposed(tasks, call).Some?
      <==> (&& call.id != ""
            && !("status" in call.edits && call.edits["status"].Some? && call.edits["status"].value.Text?
                 && Blank(call.edits["status"].value.s))
            && exists i :: 0 <= i < |tasks| && Get(tasks[i], "id") == Text(call.id)
                           && Get(tasks[i], "_log_meta") != Meta(true))
    ensures Proposed(tasks, call).Some? ==>
      var i, after := FirstLive(tasks, call.id), Proposed(tasks, call).value;
      && i < |tasks| == |after| && Get(tasks[i], "id") == Text(call.id)
      && forall k :: 0 <= k < |tasks| && k != i ==> after[k] == tasks[k]
  {
    if i :| 0 <= i < |tasks| && Get(tasks[i], "id") == Text(call.id) && Get(tasks[i], "_log_meta") != Meta(true) {
      assert HoldsLive(tasks[i], call.id);
    }
  }

  /** The field the age clock is read from: the stamp when there is one, else the creation,
      which is how cards older than the stamp age. */
  lemma {:induction false} ClockReads(c: Fields, parse: Parser, stamp: string, created: string)
    requires Get(c, "created_at") == Text(created) && created != ""
    ensures Get(c, "deferred_at") == Text(stamp) && stamp != "" ==> DeferredSince(c, parse) == parse(stamp)
    ensures "deferred_at" !in c || c["deferred_at"] in {Text(""), Num(0), Other(false)} ==>
      DeferredSince(c, parse) == parse(created)
    ensures forall n :: n != 0 && Get(c, "deferred_at") == Num(n) ==> DeferredSince(c, parse) == None
  {
  }

  /** Who is drawn and who has expired, by the fields: only a deferred card whose `parked`
      field is not a string with a character besides blanks; expired from the horizon after
      its clock on, and before that drawn unless triaged less than the cooldown ago. Unless configured, the
      horizon is thirty days and the cooldown three. */
  lemma {:induction false} DrawnAndExpiredWhen(c: Fields, owner: Option<string>, now: int, t: Triage)
    ensures Expired(c, now, t)
      <==> (&& Get(c, "status") == Text("deferred")
            && !(Get(c, "parked").Text? && !Blank(Get(c, "parked").s))
            && DeferredSince(c, t.parse).Some? && now >= DeferredSince(c, t.parse).value + t.expiry)
    ensures Drawable(c, owner, now, t)
      <==> (&& Get(c, "status") == Text("deferred") && (owner == None || owner == Some(OwnerOf(c)))
            && !(Get(c, "parked").Text? && !Blank(Get(c, "parked").s))
            && !(DeferredSince(c, t.parse).Some? && now >= DeferredSince(c, t.parse).value + t.expiry)
            && !(Parsed(Get(c, "last_triaged_at"), t.parse).Some?
                 && now < Parsed(Get(c, "last_triaged_at"), t.parse).value + t.cooldown))
    ensures Triage(t.parse) == Triage(t.parse, 2_592_000_000_000, 259_200_000_000)
  {
  }

  /** What one update does to the age clock, exactly: entering the backlog starts it at
      the call's instant; any other edit that does not write the clock leaves it alone,
      whatever it does to the status, the comments or the last activity. */
  lemma {:induction false} ClockMovesOnlyOnEntry(c: Fields, edits: Edits, now: string, parse: Parser)
    requires now != ""
    ensures Enters(c, edits) ==> DeferredSince(Updated(c, edits, now), parse) == parse(now)
    ensures
      var leavesClock := "deferred_at" !in edits && ("created_at" !in edits || Truthy(Get(c, "deferred_at")));
      !Enters(c, edits) && leavesClock ==> ClockField(Updated(c, edits, now)) == ClockField(c)
  {
    UpdateWritesOnly(c, edits, now, "deferred_at");
    UpdateWritesOnly(c, edits, now, "created_at");
  }

  function Run(tasks: seq<Fields>, calls: seq<Call>, accepts: seq<Fields> -> bool): (after: seq<Fields>)
    ensures |after| == |tasks|
    decreases |calls|
  {
    if calls == [] then tasks else Run(Apply(tasks, calls[0], accepts), calls[1..], accepts)
  }

  /** The card at position i stays deferred through every call, and no call that reaches
      it writes its clock. */
  ghost predicate OneSpell(tasks: seq<Fields>, calls: seq<Call>, accepts: seq<Fields> -> bool, i: nat)
    requires i < |tasks|
    decreases |calls|
  {
    && IsDeferred(tasks[i])
    && (calls != [] ==>
          && (FirstLive(tasks, calls[0].id) == i ==> !WritesClock(tasks[i], calls[0].edits))
          && OneSpell(Apply(tasks, calls[0], accepts), calls[1..], accepts, i))
  }

  lemma {:induction false} ApplyKeepsClock(tasks: seq<Fields>, call: Call, accepts: seq<Fields> -> bool, i: nat)
    requires i < |tasks| && IsDeferred(tasks[i])
    requires FirstLive(tasks, call.id) == i ==> !WritesClock(tasks[i], call.edits)
    ensures ClockField(Apply(tasks, call, accepts)[i]) == ClockField(tasks[i])
  {
    var edits := ResolveEnumClears(call.edits);
    if edits.Ok? && FirstLive(tasks, call.id) == i {
      ClearsMeans(call.edits, CLEARABLE);
      UpdateWritesOnly(tasks[i], edits.value, call.now, "deferred_at");
      UpdateWritesOnly(tasks[i], edits.value, call.now, "created_at");
    }
  }

  /** Over any run of field updates through which a card stays deferred, its age clock
      never moves: not on a re-defer, nor by rewriting its owner, its comments or any
      other field, nor by touching any other card. */
  lemma {:induction false} ClockNeverMoves(tasks: seq<Fields>, calls: seq<Call>, accepts: seq<Fields> -> bool, i: nat)
    requires i < |tasks| && OneSpell(tasks, calls, accepts, i)
    ensures ClockField(Run(tasks, calls, accepts)[i]) == ClockField(tasks[i])
    ensures IsDeferred(Run(tasks, calls, accepts)[i])
    decreases |calls|
  {
    if calls != [] {
      ApplyKeepsClock(tasks, calls[0], accepts, i);
      ClockNeverMoves(Apply(tasks, calls[0], accepts), calls[1..], accepts, i);
    }
  }

  /** So a card that has expired stays expired, and is never drawn again, for as long as
      it stays deferred and nobody writes down a reason to park it. */
  lemma {:induction false} ExpiredStaysExpired(tasks: seq<Fields>, calls: seq<Call>, accepts: seq<Fields> -> bool,
                                               i: nat,
                                               t: Triage, now: int, later: int, owner: Option<string>)
    requires i < |tasks| && OneSpell(tasks, calls, accepts, i) && Expired(tasks[i], now, t) && now <= later
    ensures
      var after := Run(tasks, calls, accepts);
      && (Expired(after[i], later, t) <==> !Parked(after[i]))
      && after[i] !in Filter(after, DrawableBy(owner, later, t))
      && (after[i] in ExpiredCards(after, owner, later, t) <==> !Parked(after[i]) && OwnerMatches(after[i], owner))
  {
    ClockNeverMoves(tasks, calls, accepts, i);
    var after := Run(tasks, calls, accepts);
    FilterMembers(after, DrawableBy(owner, later, t));
    FilterMembers(after, ExpiredBy(owner, later, t));
    assert after[i] in after;
  }

  /** Every deferred card of the owner is parked, drawable, expired or cooling down:
      parked excludes the rest, and no card is both drawable and expired. */
  lemma {:induction false} EveryDeferredCardHasItsPlace(tasks: seq<Fields>, owner: Option<string>, now: int, t: Triage,
                                                        c: Fields)
    requires c in tasks && IsDeferred(c) && OwnerMatches(c, owner)
    ensures
      var drawn, gone := c in Filter(tasks, DrawableBy(owner, now, t)), c in ExpiredCards(tasks, owner, now, t);
      && !(drawn && gone)
      && (Parked(c) ==> !drawn && !gone)
      && (!Parked(c) && !drawn && !gone ==> InCooldown(c, now, t))
      && (!Parked(c) && DeferredSince(c, t.parse).None? ==> !gone)
  {
    FilterMembers(tasks, DrawableBy(owner, now, t));
    FilterMembers(tasks, ExpiredBy(owner, now, t));
  }
}
