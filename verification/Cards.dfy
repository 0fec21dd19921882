/** The card document, as the verbs, the scheduler and the mirror see it. */
module Cards {
  import opened Common

  /** One remark in a card's append-only thread. */
  datatype Comment = Comment(author: string, ts: string, kind: string, text: string)

  /** A card. An absent or empty text field is "". A status may be any string
      (an unknown one is tolerated with a warning) or absent. `rest` carries
      every key the package does not know by name. */
  datatype Card = Card(
    id: string,
    status: Option<string>,
    blocker: string,
    agent: string,
    assignee: string,
    scope: string,
    group: string,
    createdBy: string,
    dependsOn: seq<string>,
    blocks: seq<string>,
    collaborators: seq<string>,
    subscribers: seq<string>,
    comments: seq<Comment>,
    lastActivity: string,
    completedAt: string,
    completedBy: string,
    deletedAt: string,
    rest: map<string, string>)

  /** What the validator in front of every save and load enforces about ids. */
  ghost predicate ValidIds(tasks: seq<Card>)
  {
    && (forall i :: 0 <= i < |tasks| ==> tasks[i].id != "")
    && (forall i, j :: 0 <= i < j < |tasks| ==> tasks[i].id != tasks[j].id)
  }

  /** A removed card stays stored, marked by its deletion stamp. */
  predicate Tombstoned(c: Card)
  {
    c.deletedAt != ""
  }

  predicate IsLive(c: Card, id: string)
  {
    c.id == id && !Tombstoned(c)
  }

  /** The owner: `agent`, else the older `assignee`. */
  function Owner(c: Card): string
  {
    if c.agent != "" then c.agent else c.assignee
  }
}
