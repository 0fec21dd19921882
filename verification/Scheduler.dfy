/** The dependency gate: which cards can be started now, and why the others
    cannot. The tables the code builds are proved equal to a direct reading of
    the cards. */
module Scheduler {
  import opened Common
  import opened Cards

  predicate ResolvedStatus(s: string)
  {
    s == "done" || s == "goal"
  }

  predicate StartableStatus(s: Option<string>)
  {
    s == Some("deferred") || s == Some("in_progress")
  }

  /** The status a lookup by id finds: the last card of that id wins. */
  function StatusOf(ts: seq<Card>, id: string): Option<string>
    decreases |ts|
  {
    if ts == [] then None
    else
      var last := ts[|ts| - 1];
      if last.id != "" && last.id == id then last.status else StatusOf(ts[..|ts| - 1], id)
  }

  /** A known card whose status does not satisfy a dependency. */
  predicate Open(ts: seq<Card>, id: string)
  {
    StatusOf(ts, id).Some? && !ResolvedStatus(StatusOf(ts, id).value)
  }

  /** With unique ids the lookup finds the card's own status. */
  lemma {:induction false} StatusAt(ts: seq<Card>, i: nat)
    requires ValidIds(ts) && i < |ts|
    ensures StatusOf(ts, ts[i].id) == ts[i].status
    decreases |ts|
  {
    var n := |ts| - 1;
    if i < n {
      assert ts[i].id != ts[n].id;
      assert ts[..n][i] == ts[i];
      StatusAt(ts[..n], i);
    }
  }

  lemma {:induction false} StatusUnknown(ts: seq<Card>, id: string)
    requires forall i :: 0 <= i < |ts| ==> ts[i].id != id
    ensures StatusOf(ts, id) == None
    decreases |ts|
  {
    if ts != [] {
      StatusUnknown(ts[..|ts| - 1], id);
    }
  }

  /** A known id has a row. */
  lemma {:induction false} OpenHasRow(ts: seq<Card>, id: string) returns (i: nat)
    requires Open(ts, id)
    ensures i < |ts| && ts[i].id == id
  {
    if forall k :: 0 <= k < |ts| ==> ts[k].id != id {
      StatusUnknown(ts, id);
      assert false;
    }
    i :| i < |ts| && ts[i].id == id;
  }

  /** Some card `z` lists `x` under `blocks`. */
  predicate BlocksInto(ts: seq<Card>, z: string, x: string)
  {
    z != "" && exists i :: 0 <= i < |ts| && ts[i].id == z && x in ts[i].blocks
  }

  /** `t` waits for `z`, by its own `depends_on` or by `z`'s `blocks`. */
  predicate WaitsFor(ts: seq<Card>, t: Card, z: string)
  {
    z in t.dependsOn || BlocksInto(ts, z, t.id)
  }

  /** The meaning of "runnable": startable, not gated, waiting for nothing open. */
  ghost predicate Runnable(ts: seq<Card>, t: Card)
  {
    PassesBaseFilter(t) && forall z :: WaitsFor(ts, t, z) ==> !Open(ts, z)
  }

  predicate PassesBaseFilter(t: Card)
  {
    StartableStatus(t.status) && t.blocker == ""
  }

  predicate Matches(t: Card, agent: Option<string>, group: Option<string>)
  {
    && (agent.Some? ==> t.agent == agent.value || t.assignee == agent.value)
    && (group.Some? ==> t.group == group.value)
  }

  // --- the code's lookup tables -------------------------------------------

  type StatusTable = map<string, Option<string>>
  type BlockTable = map<string, seq<string>>

  predicate Unsatisfied(status: StatusTable, up: string)
  {
    up in status && status[up].Some? && !ResolvedStatus(status[up].value)
  }

  predicate DepsSatisfied(t: Card, status: StatusTable, blocksInto: BlockTable)
  {
    && (forall up :: up in t.dependsOn ==> !Unsatisfied(status, up))
    && (forall up :: up in Row(blocksInto, t.id) ==> !Unsatisfied(status, up))
  }

  function Row(blocksInto: BlockTable, x: string): seq<string>
  {
    if x in blocksInto then blocksInto[x] else []
  }

  /** The tables agree with a direct reading of the cards. */
  ghost predicate TablesRead(ts: seq<Card>, status: StatusTable, blocksInto: BlockTable)
  {
    && (forall id :: (if id in status then status[id] else None) == StatusOf(ts, id))
    && (forall x, z :: z in Row(blocksInto, x) <==> BlocksInto(ts, z, x))
  }

  method BuildTables(ts: seq<Card>) returns (status: StatusTable, blocksInto: BlockTable)
    ensures TablesRead(ts, status, blocksInto)
  {
    status, blocksInto := map[], map[];
    for i := 0 to |ts|
      invariant TablesRead(ts[..i], status, blocksInto)
    {
      var t := ts[i];
      assert ts[..i + 1][..i] == ts[..i];
      if t.id != "" {
        status := status[t.id := t.status];
        ghost var before := blocksInto;
        for j := 0 to |t.blocks|
          invariant forall x, z :: z in Row(blocksInto, x)
                              <==> z in Row(before, x) || (z == t.id && x in t.blocks[..j])
        {
          blocksInto := AddBlock(blocksInto, t.blocks[j], t.id);
        }
        assert t.blocks[..|t.blocks|] == t.blocks;
      }
      forall x, z ensures BlocksInto(ts[..i + 1], z, x)
                     <==> BlocksInto(ts[..i], z, x) || (z != "" && z == t.id && x in t.blocks)
      {
        BlocksIntoSnoc(ts[..i], t, z, x);
        assert ts[..i] + [t] == ts[..i + 1];
      }
    }
    assert ts[..|ts|] == ts;
  }

  function AddBlock(blocksInto: BlockTable, x: string, z: string): (r: BlockTable)
    ensures forall y, w :: w in Row(r, y) <==> w in Row(blocksInto, y) || (y == x && w == z)
  {
    blocksInto[x := Row(blocksInto, x) + [z]]
  }

  lemma {:induction false} BlocksIntoSnoc(ts: seq<Card>, t: Card, z: string, x: string)
    ensures BlocksInto(ts + [t], z, x) <==> BlocksInto(ts, z, x) || (z != "" && z == t.id && x in t.blocks)
  {
    if BlocksInto(ts, z, x) {
      var i :| 0 <= i < |ts| && ts[i].id == z && x in ts[i].blocks;
      assert (ts + [t])[i] == ts[i];
    }
    assert (ts + [t])[|ts|] == t;
  }

  /** The table lookups decide exactly the direct reading. */
  lemma {:induction false} DepsSatisfiedReads(ts: seq<Card>, t: Card, status: StatusTable, blocksInto: BlockTable)
    requires TablesRead(ts, status, blocksInto)
    ensures DepsSatisfied(t, status, blocksInto) <==> forall z :: WaitsFor(ts, t, z) ==> !Open(ts, z)
  {
    forall z ensures Unsatisfied(status, z) <==> Open(ts, z) {
      assert (if z in status then status[z] else None) == StatusOf(ts, z);
    }
    if DepsSatisfied(t, status, blocksInto) {
      forall z | WaitsFor(ts, t, z) ensures !Open(ts, z) {}
    } else {
      var up :| Unsatisfied(status, up) && (up in t.dependsOn || up in Row(blocksInto, t.id));
      assert WaitsFor(ts, t, up);
    }
  }

  ghost function IsCandidate(agent: Option<string>, group: Option<string>): Card -> bool
  {
    t => PassesBaseFilter(t) && Matches(t, agent, group)
  }

  ghost function IsRunnable(ts: seq<Card>, agent: Option<string>, group: Option<string>): Card -> bool
  {
    t => Runnable(ts, t) && Matches(t, agent, group)
  }

  method RunnableTasks(ts: seq<Card>, agent: Option<string>, group: Option<string>)
    returns (runnable: seq<Card>, candidateCount: nat, blockedByDeps: nat)
    ensures runnable == Filter(ts, IsRunnable(ts, agent, group))
    ensures candidateCount == |Filter(ts, IsCandidate(agent, group))|
    ensures candidateCount == |runnable| + blockedByDeps
  {
    var status, blocksInto := BuildTables(ts);
    runnable, candidateCount, blockedByDeps := [], 0, 0;
    for i := 0 to |ts|
      invariant runnable == Filter(ts[..i], IsRunnable(ts, agent, group))
      invariant candidateCount == |Filter(ts[..i], IsCandidate(agent, group))|
      invariant candidateCount == |runnable| + blockedByDeps
    {
      var t := ts[i];
      FilterTakeStep(ts, i, IsRunnable(ts, agent, group));
      FilterTakeStep(ts, i, IsCandidate(agent, group));
      if PassesBaseFilter(t) && Matches(t, agent, group) {
        candidateCount := candidateCount + 1;
        DepsSatisfiedReads(ts, t, status, blocksInto);
        if DepsSatisfied(t, status, blocksInto) {
          runnable := runnable + [t];
        } else {
          blockedByDeps := blockedByDeps + 1;
        }
      }
    }
    assert ts[..|ts|] == ts;
  }

  // --- the inverse view ---------------------------------------------------

  /** Why a card is parked; `chain` names the open upstream cards. */
  datatype Diagnosis =
    | NotBlocked
    | ExplicitBlocker(blocker: string)
    | ManualBlock
    | DependsOn(chain: seq<string>)
    | ReverseBlocks(chain: seq<string>)

  function OpenIn(status: StatusTable, ups: seq<string>): seq<string>
  {
    Filter(ups, up => Unsatisfied(status, up))
  }

  function DiagnoseBlocked(t: Card, status: StatusTable, blocksInto: BlockTable): Diagnosis
  {
    if t.status == Some("blocked") then
      if t.blocker != "" then ExplicitBlocker(t.blocker) else ManualBlock
    else if OpenIn(status, t.dependsOn) != [] then
      DependsOn(OpenIn(status, t.dependsOn))
    else if OpenIn(status, Row(blocksInto, t.id)) != [] then
      ReverseBlocks(OpenIn(status, Row(blocksInto, t.id)))
    else
      NotBlocked
  }

  /** The cards the inverse view considers. */
  predicate Considered(t: Card)
  {
    StartableStatus(t.status) || t.status == Some("blocked")
  }

  ghost predicate WaitsForOpen(ts: seq<Card>, t: Card)
  {
    exists z :: WaitsFor(ts, t, z) && Open(ts, z)
  }

  /** The meaning of a diagnosis: the first reason that applies, with exactly
      the open upstream cards of that kind. */
  ghost predicate Explains(ts: seq<Card>, t: Card, d: Diagnosis)
  {
    match d
    case NotBlocked => t.status != Some("blocked") && !WaitsForOpen(ts, t)
    case ExplicitBlocker(b) => t.status == Some("blocked") && b == t.blocker != ""
    case ManualBlock => t.status == Some("blocked") && t.blocker == ""
    case DependsOn(chain) =>
      && t.status != Some("blocked") && chain != []
      && forall z :: z in chain <==> z in t.dependsOn && Open(ts, z)
    case ReverseBlocks(chain) =>
      && t.status != Some("blocked") && chain != []
      && (forall z :: z in t.dependsOn ==> !Open(ts, z))
      && forall z :: z in chain <==> BlocksInto(ts, z, t.id) && Open(ts, z)
  }

  lemma {:induction false} DiagnosisExplains(ts: seq<Card>, t: Card, status: StatusTable, blocksInto: BlockTable)
    requires TablesRead(ts, status, blocksInto)
    ensures Explains(ts, t, DiagnoseBlocked(t, status, blocksInto))
  {
    forall z ensures Unsatisfied(status, z) <==> Open(ts, z) {
      assert (if z in status then status[z] else None) == StatusOf(ts, z);
    }
    var own, rev := OpenIn(status, t.dependsOn), OpenIn(status, Row(blocksInto, t.id));
    FilterMembers(t.dependsOn, up => Unsatisfied(status, up));
    FilterMembers(Row(blocksInto, t.id), up => Unsatisfied(status, up));
    assert own != [] ==> own[0] in own;
    assert rev != [] ==> rev[0] in rev;
  }

  /** The two views do not partition the considered cards: a startable card that
      carries a blocker and waits for nothing open is in neither. Every other
      considered card is in exactly one of them. */
  lemma {:induction false} ViewsPartitionUnlessGated(ts: seq<Card>, t: Card, d: Diagnosis)
    requires Considered(t) && Explains(ts, t, d)
    ensures !(Runnable(ts, t) && !d.NotBlocked?)
    ensures !Runnable(ts, t) && d.NotBlocked?
       <==> StartableStatus(t.status) && t.blocker != "" && !WaitsForOpen(ts, t)
  {
    match d
    case DependsOn(chain) => assert WaitsFor(ts, t, chain[0]) && Open(ts, chain[0]) by { assert chain[0] in chain; }
    case ReverseBlocks(chain) => assert WaitsFor(ts, t, chain[0]) && Open(ts, chain[0]) by { assert chain[0] in chain; }
    case _ =>
  }

  /** A concrete card in neither view: deferred, free to start, and carrying a blocker. */
  lemma {:induction false} GatedCardInNeitherView() returns (ts: seq<Card>)
    ensures ValidIds(ts) && |ts| == 1 && Considered(ts[0])
    ensures !Runnable(ts, ts[0]) && Explains(ts, ts[0], NotBlocked)
  {
    ts := [Card("c", Some("deferred"), "compute", "", "", "", "", "", [], [], [], [], [], "", "", "", "", map[])];
    assert !WaitsForOpen(ts, ts[0]);
    ViewsPartitionUnlessGated(ts, ts[0], NotBlocked);
  }

  datatype Reason = Explicit | Manual | ByDependency | ByReverse

  function ReasonOf(d: Diagnosis): Option<Reason>
  {
    match d
    case NotBlocked => None
    case ExplicitBlocker(_) => Some(Explicit)
    case ManualBlock => Some(Manual)
    case DependsOn(_) => Some(ByDependency)
    case ReverseBlocks(_) => Some(ByReverse)
  }

  function Giving(r: Reason): Diagnosis -> bool
  {
    (d: Diagnosis) => ReasonOf(d) == Some(r)
  }

  /** How many of the diagnoses give each reason; every reason has an entry. */
  ghost predicate Tallies(reasons: seq<Diagnosis>, byReason: map<Reason, nat>)
  {
    forall r :: r in byReason && byReason[r] == |Filter(reasons, Giving(r))|
  }

  lemma {:induction false} TallySnoc(reasons: seq<Diagnosis>, byReason: map<Reason, nat>, d: Diagnosis, r: Reason)
    requires Tallies(reasons, byReason) && ReasonOf(d) == Some(r)
    ensures Tallies(reasons + [d], byReason[r := byReason[r] + 1])
  {
    forall q ensures |Filter(reasons + [d], Giving(q))| == byReason[r := byReason[r] + 1][q] {
      FilterSnoc(reasons, d, Giving(q));
    }
  }

  /** What the tally counts under each reason. */
  lemma {:induction false} TalliesMean(reasons: seq<Diagnosis>, byReason: map<Reason, nat>)
    requires Tallies(reasons, byReason)
    ensures byReason[Explicit] == |Filter(reasons, (d: Diagnosis) => d.ExplicitBlocker?)|
    ensures byReason[Manual] == |Filter(reasons, (d: Diagnosis) => d.ManualBlock?)|
    ensures byReason[ByDependency] == |Filter(reasons, (d: Diagnosis) => d.DependsOn?)|
    ensures byReason[ByReverse] == |Filter(reasons, (d: Diagnosis) => d.ReverseBlocks?)|
  {
    FilterSame(reasons, Giving(Explicit), (d: Diagnosis) => d.ExplicitBlocker?);
    FilterSame(reasons, Giving(Manual), (d: Diagnosis) => d.ManualBlock?);
    FilterSame(reasons, Giving(ByDependency), (d: Diagnosis) => d.DependsOn?);
    FilterSame(reasons, Giving(ByReverse), (d: Diagnosis) => d.ReverseBlocks?);
  }

  ghost function IsBlocked(ts: seq<Card>, agent: Option<string>, group: Option<string>): Card -> bool
  {
    t => Considered(t) && Matches(t, agent, group) && !Explains(ts, t, NotBlocked)
  }

  method BlockedTasks(ts: seq<Card>, agent: Option<string>, group: Option<string>)
    returns (cards: seq<Card>, reasons: seq<Diagnosis>, byReason: map<Reason, nat>)
    ensures cards == Filter(ts, IsBlocked(ts, agent, group))
    ensures |reasons| == |cards| && Tallies(reasons, byReason)
    ensures forall k :: 0 <= k < |cards| ==> Explains(ts, cards[k], reasons[k]) && !reasons[k].NotBlocked?
  {
    var status, blocksInto := BuildTables(ts);
    cards, reasons := [], [];
    byReason := map[Explicit := 0, Manual := 0, ByDependency := 0, ByReverse := 0];
    forall r: Reason ensures r in byReason && byReason[r] == 0 {
      match r {
        case Explicit =>
        case Manual =>
        case ByDependency =>
        case ByReverse =>
      }
    }
    for i := 0 to |ts|
      invariant cards == Filter(ts[..i], IsBlocked(ts, agent, group))
      invariant |reasons| == |cards| && Tallies(reasons, byReason)
      invariant forall k :: 0 <= k < |cards| ==> Explains(ts, cards[k], reasons[k]) && !reasons[k].NotBlocked?
    {
      var t := ts[i];
      FilterTakeStep(ts, i, IsBlocked(ts, agent, group));
      if Considered(t) && Matches(t, agent, group) {
        var d := DiagnoseBlocked(t, status, blocksInto);
        DiagnosisExplains(ts, t, status, blocksInto);
        ViewsPartitionUnlessGated(ts, t, d);
        if !d.NotBlocked? {
          var r := ReasonOf(d).value;
          TallySnoc(reasons, byReason, d, r);
          cards, reasons, byReason := cards + [t], reasons + [d], byReason[r := byReason[r] + 1];
        }
      }
    }
    assert ts[..|ts|] == ts;
  }

  /** The two views card by card, on a board with unique ids. A card is ready when it is
      deferred or in progress, has no blocker, and every card it depends on, or that
      blocks it, is done, a goal or without a status. The inverse view lists the blocked
      cards and those of the other two statuses that wait for some other one. */
  lemma {:induction false} ListedWhen(ts: seq<Card>, agent: Option<string>, group: Option<string>, t: Card)
    requires ValidIds(ts)
    ensures
      var asked := (agent == None || agent.value in {t.agent, t.assignee}) && (group == None || group.value == t.group);
      var startable := t.status in {Some("deferred"), Some("in_progress")};
      && (t in Filter(ts, IsRunnable(ts, agent, group))
          <==> t in ts && asked && startable && t.blocker == "" && !Held(ts, t))
      && (t in Filter(ts, IsBlocked(ts, agent, group))
          <==> t in ts && asked && (t.status == Some("blocked") || (startable && Held(ts, t))))
  {
    FilterMembers(ts, IsRunnable(ts, agent, group));
    FilterMembers(ts, IsBlocked(ts, agent, group));
    HeldMeans(ts, t);
  }

  /** Some card upstream of `t` has a status other than done and goal. */
  ghost predicate Held(ts: seq<Card>, t: Card)
  {
    exists i :: 0 <= i < |ts| && (ts[i].id in t.dependsOn || t.id in ts[i].blocks)
                && ts[i].status !in {None, Some("done"), Some("goal")}
  }

  lemma {:induction false} HeldMeans(ts: seq<Card>, t: Card)
    requires ValidIds(ts)
    ensures Held(ts, t) <==> WaitsForOpen(ts, t)
  {
    if z :| WaitsFor(ts, t, z) && Open(ts, z) {
      var i := OpenHasRow(ts, z);
      StatusAt(ts, i);
      if z !in t.dependsOn {
        var k :| 0 <= k < |ts| && ts[k].id == z && t.id in ts[k].blocks;
        StatusAt(ts, k);
      }
    }
    if i :| 0 <= i < |ts| && (ts[i].id in t.dependsOn || t.id in ts[i].blocks)
            && ts[i].status !in {None, Some("done"), Some("goal")} {
      StatusAt(ts, i);
      assert WaitsFor(ts, t, ts[i].id) && Open(ts, ts[i].id);
    }
  }
}
