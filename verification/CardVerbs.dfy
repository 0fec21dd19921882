/** The lifecycle and reassignment verbs over the stored card list. */
module CardVerbs {
  import opened Common
  import opened Cards
  import opened Scheduler
  import opened StoreEvents

  predicate HasLive(ts: seq<Card>, id: string)
  {
    exists i :: 0 <= i < |ts| && IsLive(ts[i], id)
  }

  // --- what each verb does to one card ------------------------------------

  function Completed(c: Card, actor: string, now: string): Card
  {
    c.(status := Some("done"), completedAt := now, completedBy := actor)
  }

  /** The stored list after the completion verb. */
  function CompleteOne(ts: seq<Card>, id: string, actor: string, now: string): seq<Card>
  {
    seq(|ts|, i requires 0 <= i < |ts| =>
      if IsLive(ts[i], id) && ts[i].status != Some("done") then Completed(ts[i], actor, now) else ts[i])
  }

  const RESOLVE_NOOP := "[resolve (noop — already done)]"
  const RESOLVE_DONE := "[RESOLVED via mcp.resolve_task] flipped status='blocked'->done, blocker cleared."

  function Resolved(c: Card, actor: string, now: string): Card
  {
    var note := if c.status == Some("done") then RESOLVE_NOOP else RESOLVE_DONE;
    c.(status := Some("done"), blocker := "", comments := c.comments + [Comment(actor, now, "", note)])
  }

  /** Handing a card over keeps `keeper` informed unless they are the new owner. */
  function Keep(subs: seq<string>, keeper: string, newOwner: string): seq<string>
  {
    if keeper != "" && keeper != newOwner && keeper !in subs then subs + [keeper] else subs
  }

  function Reassigned(c: Card, newOwner: string, actor: string, now: string): Card
  {
    var from := Owner(c);
    var note := "reassigned " + (if from == "" then "(unassigned)" else from) + " -> " + newOwner + " by " + actor;
    c.(agent := newOwner,
       assignee := newOwner,
       scope := "agent:" + newOwner,
       comments := c.comments + [Comment(actor, now, "", note)],
       subscribers := Keep(Keep(c.subscribers, from, newOwner), c.createdBy, newOwner),
       lastActivity := now)
  }

  /** A completion writes three fields: who, when, and the status. */
  lemma {:induction false} CompletionWrites(c: Card, actor: string, now: string)
    ensures
      var d := Completed(c, actor, now);
      && d.status == Some("done") && d.completedAt == now && d.completedBy == actor
      && d.(status := c.status, completedAt := c.completedAt, completedBy := c.completedBy) == c
  {
  }

  /** A resolution closes the card, clears its blocker and adds one remark. */
  lemma {:induction false} ResolutionWrites(c: Card, actor: string, now: string)
    ensures
      var d := Resolved(c, actor, now);
      && d.status == Some("done") && d.blocker == ""
      && |d.comments| == |c.comments| + 1 && d.comments[..|c.comments|] == c.comments
      && d.comments[|c.comments|].author == actor && d.comments[|c.comments|].ts == now
      && (d.comments[|c.comments|].text == RESOLVE_NOOP <==> c.status == Some("done"))
      && d.(status := c.status, blocker := c.blocker, comments := c.comments) == c
  {
  }

  /** A handover names the new owner in all three places, adds one remark, and keeps
      everybody subscribed who was, the former owner and the creator. */
  lemma {:induction false} HandoverWrites(c: Card, newOwner: string, actor: string, now: string)
    ensures
      var d := Reassigned(c, newOwner, actor, now);
      && d.agent == newOwner && d.assignee == newOwner && d.scope == "agent:" + newOwner && d.lastActivity == now
      && |d.comments| == |c.comments| + 1 && d.comments[..|c.comments|] == c.comments
      && d.comments[|c.comments|].author == actor && d.comments[|c.comments|].ts == now
      && d.(agent := c.agent, assignee := c.assignee, scope := c.scope, comments := c.comments,
            subscribers := c.subscribers, lastActivity := c.lastActivity) == c
    ensures
      var named := if c.agent != "" then c.agent else if c.assignee != "" then c.assignee else "(unassigned)";
      Reassigned(c, newOwner, actor, now).comments[|c.comments|].text
      == "reassigned " + named + " -> " + newOwner + " by " + actor
    ensures
      var d := Reassigned(c, newOwner, actor, now);
      forall who :: who in d.subscribers
        <==> (|| who in c.subscribers
              || (&& who !in {"", newOwner}
                  && (who == c.createdBy || who == if c.agent != "" then c.agent else c.assignee)))
  {
  }

  /** The single-card reassignment of a whole list, as a value. */
  ghost function ReassignOne(ts: seq<Card>, id: string, newOwner: string, actor: string, now: string): seq<Card>
  {
    if i: nat :| i < |ts| && IsLive(ts[i], id) && (forall k :: 0 <= k < i ==> !IsLive(ts[k], id)) then
      if Owner(ts[i]) == newOwner then ts else ts[i := Reassigned(ts[i], newOwner, actor, now)]
    else ts
  }

  function Ids(cards: seq<Card>): seq<string>
  {
    seq(|cards|, i requires 0 <= i < |cards| => cards[i].id)
  }

  function OwnedBy(owner: string): Card -> bool
  {
    c => Owner(c) == owner
  }

  class CardStore {
    var tasks: seq<Card>

    constructor (tasks: seq<Card>)
      ensures this.tasks == tasks
    {
      this.tasks := tasks;
    }

    /** The first live card of that id, or the length when there is none. */
    method FindLive(id: string) returns (i: nat)
      ensures i <= |tasks|
      ensures i < |tasks| ==> IsLive(tasks[i], id)
      ensures forall k :: 0 <= k < i ==> !IsLive(tasks[k], id)
    {
      i := 0;
      while i < |tasks| && !IsLive(tasks[i], id)
        invariant i <= |tasks|
        invariant forall k :: 0 <= k < i ==> !IsLive(tasks[k], id)
      {
        i := i + 1;
      }
    }

    method CompleteTask(id: string, actor: string, now: string) returns (r: Result<Card>, unblocked: set<string>)
      requires ValidIds(tasks)
      modifies this
      ensures ValidIds(tasks) && tasks == CompleteOne(old(tasks), id, actor, now)
      ensures id == "" || !HasLive(old(tasks), id) ==> r.Err? && tasks == old(tasks) && unblocked == {}
      ensures forall i :: id != "" && 0 <= i < |old(tasks)| && IsLive(old(tasks)[i], id) ==>
        if old(tasks)[i].status == Some("done") then
          r == Ok(old(tasks)[i]) && tasks == old(tasks) && unblocked == {}
        else
          && r == Ok(Completed(old(tasks)[i], actor, now))
          && tasks == old(tasks)[i := Completed(old(tasks)[i], actor, now)]
          && unblocked == if Open(old(tasks), id) then RunnableIds(tasks) - RunnableIds(old(tasks))
                          else AlreadyFree(old(tasks), id)
      ensures r.Ok? ==> r.value in tasks && r.value.id == id && r.value.status == Some("done")
      ensures r.Ok? && tasks != old(tasks) ==> r.value.completedAt == now && r.value.completedBy == actor
    {
      unblocked := {};
      if id == "" {
        return Err("complete_task() requires a non-empty task_id"), {};
      }
      var i := FindLive(id);
      if i == |tasks| {
        return Err("task id not found"), {};
      }
      r := Ok(tasks[i]);
      if tasks[i].status != Some("done") {
        r := Ok(Completed(tasks[i], actor, now));
        tasks := tasks[i := Completed(tasks[i], actor, now)];
        unblocked := UnblockedBy(tasks, id);
        AnnouncedExactly(old(tasks), i, tasks);
      }
    }

    method ResolveTask(id: string, actor: string, now: string) returns (r: Result<Card>, unblocked: set<string>)
      requires ValidIds(tasks)
      modifies this
      ensures ValidIds(tasks)
      ensures id == "" || !HasLive(old(tasks), id) ==> r.Err? && tasks == old(tasks) && unblocked == {}
      ensures forall i :: id != "" && 0 <= i < |old(tasks)| && IsLive(old(tasks)[i], id) ==>
        && r == Ok(Resolved(old(tasks)[i], actor, now))
        && tasks == old(tasks)[i := Resolved(old(tasks)[i], actor, now)]
        && if old(tasks)[i].status == Some("done") then unblocked == {} else
           unblocked == if Open(old(tasks), id) then RunnableIds(tasks) - RunnableIds(old(tasks))
                        else AlreadyFree(old(tasks), id)
      ensures r.Ok? ==> r.value in tasks && r.value.id == id && r.value.status == Some("done") && r.value.blocker == ""
      ensures r.Ok? ==> |r.value.comments| > 0 && r.value.comments[|r.value.comments| - 1].author == actor
    {
      unblocked := {};
      if id == "" {
        return Err("resolve_task: 'task_id' is required"), {};
      }
      var i := FindLive(id);
      if i == |tasks| {
        return Err("resolve_task: unknown id"), {};
      }
      var wasDone := tasks[i].status == Some("done");
      tasks := tasks[i := Resolved(tasks[i], actor, now)];
      r := Ok(tasks[i]);
      if !wasDone {
        unblocked := UnblockedBy(tasks, id);
        AnnouncedExactly(old(tasks), i, tasks);
      }
    }

    method ReassignTask(id: string, newOwner: string, actor: string, now: string)
      returns (r: Result<Card>, changed: bool)
      modifies this
      ensures id == "" || Blank(newOwner) || !HasLive(old(tasks), id) ==> r.Err? && !changed && tasks == old(tasks)
      ensures r.Ok? ==> tasks == ReassignOne(old(tasks), id, newOwner, actor, now)
      ensures id != "" && !Blank(newOwner) && HasLive(old(tasks), id) ==>
        r.Ok? && r.value in tasks && Owner(r.value) == newOwner && (changed <==> tasks != old(tasks))
      ensures changed ==>
        r.Ok? && r.value.agent == newOwner && r.value.assignee == newOwner && r.value.lastActivity == now
    {
      changed := false;
      if id == "" {
        return Err("reassign_task: 'task_id' is required"), false;
      }
      if Blank(newOwner) {
        return Err("reassign_task: 'new_owner' is required"), false;
      }
      var i := FindLive(id);
      if i == |tasks| {
        return Err("reassign_task: unknown id"), false;
      }
      if Owner(tasks[i]) != newOwner {
        tasks := tasks[i := Reassigned(tasks[i], newOwner, actor, now)];
        changed := true;
      }
      r := Ok(tasks[i]);
    }

    /** The bulk verb walks the list once and does not skip removed cards. */
    method ReassignAll(oldOwner: string, newOwner: string, actor: string, now: string)
      returns (r: Result<seq<string>>)
      requires ValidIds(tasks)
      modifies this
      ensures ValidIds(tasks)
      ensures r.Err? <==> Blank(oldOwner) || Blank(newOwner) || oldOwner == newOwner
      ensures r.Err? ==> tasks == old(tasks)
      ensures r.Ok? ==> tasks == BulkReassign(old(tasks), oldOwner, newOwner, actor, now)
      ensures r.Ok? ==> r.value == Ids(Filter(old(tasks), OwnedBy(oldOwner)))
    {
      if Blank(oldOwner) || Blank(newOwner) {
        return Err("reassign_all: both owners are required");
      }
      if oldOwner == newOwner {
        return Err("reassign_all: a self-rename moves nothing");
      }
      var moved: seq<string> := [];
      for i := 0 to |tasks|
        invariant tasks == BulkPrefix(old(tasks), i, oldOwner, newOwner, actor, now)
        invariant moved == Ids(Filter(old(tasks)[..i], OwnedBy(oldOwner)))
      {
        FilterTakeStep(old(tasks), i, OwnedBy(oldOwner));
        if Owner(tasks[i]) == oldOwner {
          moved := moved + [tasks[i].id];
          tasks := tasks[i := Reassigned(tasks[i], newOwner, actor, now)];
        }
      }
      assert old(tasks)[..|tasks|] == old(tasks);
      return Ok(moved);
    }
  }

  // --- bulk against single ------------------------------------------------

  ghost function BulkReassign(ts: seq<Card>, oldOwner: string, newOwner: string, actor: string, now: string): seq<Card>
  {
    seq(|ts|, i requires 0 <= i < |ts| =>
      if Owner(ts[i]) == oldOwner then Reassigned(ts[i], newOwner, actor, now) else ts[i])
  }

  /** The list with the cards of the old owner before position `n` handed over. */
  ghost function BulkPrefix(ts: seq<Card>, n: nat, oldOwner: string, newOwner: string, actor: string,
                            now: string): seq<Card>
  {
    seq(|ts|, i requires 0 <= i < |ts| =>
      if i < n && Owner(ts[i]) == oldOwner then Reassigned(ts[i], newOwner, actor, now) else ts[i])
  }

  /** The single verb applied to each listed id in turn. */
  ghost function ReassignEach(ts: seq<Card>, ids: seq<string>, newOwner: string, actor: string, now: string): seq<Card>
    decreases |ids|
  {
    if ids == [] then ts
    else ReassignEach(ReassignOne(ts, ids[0], newOwner, actor, now), ids[1..], newOwner, actor, now)
  }

  function LiveIdsOwnedBy(ts: seq<Card>, owner: string): seq<string>
  {
    if ts == [] then []
    else if Owner(ts[0]) == owner && !Tombstoned(ts[0]) then [ts[0].id] + LiveIdsOwnedBy(ts[1..], owner)
    else LiveIdsOwnedBy(ts[1..], owner)
  }

  /** The list with the live cards of `owner` before position `n` handed over. */
  ghost function HandedOver(ts: seq<Card>, n: nat, owner: string, newOwner: string, actor: string,
                            now: string): seq<Card>
  {
    seq(|ts|, i requires 0 <= i < |ts| =>
      if i < n && Owner(ts[i]) == owner && !Tombstoned(ts[i]) then Reassigned(ts[i], newOwner, actor, now) else ts[i])
  }

  /** The next live card of the owner is the one the single verb finds. */
  lemma {:induction false} NextHandedOver(ts: seq<Card>, n: nat, owner: string, newOwner: string, actor: string,
                                          now: string)
    requires ValidIds(ts) && n < |ts| && owner != newOwner
    requires Owner(ts[n]) == owner && !Tombstoned(ts[n])
    ensures ReassignOne(HandedOver(ts, n, owner, newOwner, actor, now), ts[n].id, newOwner, actor, now)
      == HandedOver(ts, n + 1, owner, newOwner, actor, now)
  {
    var us := HandedOver(ts, n, owner, newOwner, actor, now);
    assert us[n] == ts[n] && IsLive(us[n], ts[n].id);
    assert forall k :: 0 <= k < |ts| ==> us[k].id == ts[k].id;
    assert ReassignOne(us, ts[n].id, newOwner, actor, now) == us[n := Reassigned(us[n], newOwner, actor, now)];
  }

  lemma {:induction false} EachHandsOver(ts: seq<Card>, n: nat, owner: string, newOwner: string, actor: string,
                                         now: string)
    requires ValidIds(ts) && n <= |ts| && owner != newOwner && newOwner != ""
    ensures ReassignEach(HandedOver(ts, n, owner, newOwner, actor, now), LiveIdsOwnedBy(ts[n..], owner), newOwner,
                         actor, now)
         == HandedOver(ts, |ts|, owner, newOwner, actor, now)
    decreases |ts| - n
  {
    if n < |ts| {
      var us := HandedOver(ts, n, owner, newOwner, actor, now);
      var vs := HandedOver(ts, n + 1, owner, newOwner, actor, now);
      assert ts[n..][0] == ts[n] && ts[n..][1..] == ts[n + 1..];
      EachHandsOver(ts, n + 1, owner, newOwner, actor, now);
      if Owner(ts[n]) == owner && !Tombstoned(ts[n]) {
        NextHandedOver(ts, n, owner, newOwner, actor, now);
        var rest := LiveIdsOwnedBy(ts[n + 1..], owner);
        assert ([ts[n].id] + rest)[0] == ts[n].id && ([ts[n].id] + rest)[1..] == rest;
      } else {
        assert us == vs;
      }
    }
  }

  /** Main result. Bulk reassignment equals reassigning each live card of the old
      owner in turn if and only if no removed card belongs to the old owner. */
  lemma {:induction false} BulkEqualsSinglesIff(ts: seq<Card>, oldOwner: string, newOwner: string, actor: string,
                                                now: string)
    requires ValidIds(ts) && oldOwner != newOwner && newOwner != ""
    ensures BulkReassign(ts, oldOwner, newOwner, actor, now)
         == ReassignEach(ts, LiveIdsOwnedBy(ts, oldOwner), newOwner, actor, now)
       <==> forall i :: 0 <= i < |ts| && Owner(ts[i]) == oldOwner ==> !Tombstoned(ts[i])
  {
    EachHandsOver(ts, 0, oldOwner, newOwner, actor, now);
    assert ts[0..] == ts;
    assert HandedOver(ts, 0, oldOwner, newOwner, actor, now) == ts;
    var bulk := BulkReassign(ts, oldOwner, newOwner, actor, now);
    var each := HandedOver(ts, |ts|, oldOwner, newOwner, actor, now);
    if i :| 0 <= i < |ts| && Owner(ts[i]) == oldOwner && Tombstoned(ts[i]) {
      assert each[i] == ts[i] && bulk[i] == Reassigned(ts[i], newOwner, actor, now);
      assert Owner(bulk[i]) != Owner(each[i]);
    } else {
      assert bulk == each;
    }
  }

  /** The difference is real: the bulk verb hands over a removed card, the single one
      refuses it. */
  lemma {:induction false} BulkMovesRemoved() returns (ts: seq<Card>)
    ensures ValidIds(ts) && |ts| == 1 && Tombstoned(ts[0]) && Owner(ts[0]) == "a"
    ensures Owner(BulkReassign(ts, "a", "b", "op", "now")[0]) == "b"
    ensures ReassignEach(ts, LiveIdsOwnedBy(ts, "a"), "b", "op", "now") == ts
  {
    ts := [Card("c", Some("cancelled"), "", "a", "", "", "", "", [], [], [], [], [], "", "", "", "then", map[])];
    assert LiveIdsOwnedBy(ts[1..], "a") == [];
  }

  // --- responsibility over runs -------------------------------------------

  /** One successful reassignment of either kind. */
  datatype Handover =
    | Single(id: string, newOwner: string, actor: string, now: string)
    | Bulk(oldOwner: string, newOwner: string, actor: string, now: string)

  ghost function Apply(ts: seq<Card>, h: Handover): seq<Card>
  {
    match h
    case Single(id, to, actor, now) => ReassignOne(ts, id, to, actor, now)
    case Bulk(from, to, actor, now) => BulkReassign(ts, from, to, actor, now)
  }

  ghost function ApplyAll(ts: seq<Card>, hs: seq<Handover>): seq<Card>
    decreases |hs|
  {
    if hs == [] then ts else ApplyAll(Apply(ts, hs[0]), hs[1..])
  }

  /** Everyone who has owned card `i` at some point of the run. */
  ghost function OwnersSeen(ts: seq<Card>, hs: seq<Handover>, i: nat): set<string>
    requires i < |ts|
    decreases |hs|
  {
    {Owner(ts[i])} + if hs == [] then {} else ApplyLength(ts, hs[0]); OwnersSeen(Apply(ts, hs[0]), hs[1..], i)
  }

  lemma {:induction false} ApplyLength(ts: seq<Card>, h: Handover)
    ensures |Apply(ts, h)| == |ts|
  {
  }

  /** `who` is answerable for the card: its owner or a subscriber. */
  ghost predicate Answerable(c: Card, who: string)
  {
    who == "" || Owner(c) == who || who in c.subscribers
  }

  lemma {:induction false} AnswerableForever(ts: seq<Card>, hs: seq<Handover>, i: nat, who: string)
    requires i < |ts| && Answerable(ts[i], who)
    requires forall h :: h in hs ==> h.newOwner != ""
    ensures |ApplyAll(ts, hs)| == |ts| && Answerable(ApplyAll(ts, hs)[i], who)
    decreases |hs|
  {
    if hs != [] {
      assert hs[0] in hs;
      AnswerableForever(Apply(ts, hs[0]), hs[1..], i, who);
    }
  }

  /** Main result. After any run of reassignments everyone who ever owned a card
      is its current owner or one of its subscribers. */
  lemma {:induction false} PastOwnersStayAnswerable(ts: seq<Card>, hs: seq<Handover>, i: nat)
    requires i < |ts|
    requires forall h :: h in hs ==> h.newOwner != ""
    ensures |ApplyAll(ts, hs)| == |ts|
    ensures forall who :: who in OwnersSeen(ts, hs, i) ==> Answerable(ApplyAll(ts, hs)[i], who)
    decreases |hs|
  {
    AnswerableForever(ts, hs, i, Owner(ts[i]));
    if hs != [] {
      ApplyLength(ts, hs[0]);
      PastOwnersStayAnswerable(Apply(ts, hs[0]), hs[1..], i);
    }
  }

  /** From `c` to `d` by handovers: who answers for the card and its thread may have
      moved, the thread and the subscribers only grew, nothing else changed, and a card
      that was handed over keeps its creator informed. */
  ghost predicate HandedOn(c: Card, d: Card)
  {
    && d.(agent := c.agent, assignee := c.assignee, scope := c.scope, comments := c.comments,
          subscribers := c.subscribers, lastActivity := c.lastActivity) == c
    && c.comments <= d.comments
    && (forall who :: who in c.subscribers ==> who in d.subscribers)
    && (d == c || (d.agent == d.assignee != "" && d.scope == "agent:" + d.agent && Answerable(d, c.createdBy)))
  }

  /** Over any run of reassignments of either kind no card's history is lost and nothing
      but its ownership moves. */
  lemma {:induction false} RunHandsOn(ts: seq<Card>, hs: seq<Handover>, i: nat)
    requires i < |ts|
    requires forall h :: h in hs ==> h.newOwner != ""
    ensures |ApplyAll(ts, hs)| == |ts| && HandedOn(ts[i], ApplyAll(ts, hs)[i])
    decreases |hs|
  {
    if hs != [] {
      assert hs[0] in hs;
      RunHandsOn(Apply(ts, hs[0]), hs[1..], i);
    }
  }
}
