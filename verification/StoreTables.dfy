/** The SQL tables behind the card store, and the statements that change one
    card's rows. */
module StoreTables {
  import opened Common
  import opened Cards

  /** A card as it is stored: its content and the order of its keys. Content
      hashes sort the keys, so they cannot see the layout. */
  datatype Payload = Payload(card: Card, layout: nat)

  /** A non-card section of the document (`users`, `inboxes`). */
  type Section = seq<string>

  datatype Doc = Doc(tasks: seq<Payload>, users: Section, inboxes: Section)

  datatype CommentRow = CommentRow(taskId: string, seqNo: nat, comment: Comment)

  datatype EdgeType = DependsOn | Blocks

  datatype Edge = Edge(src: string, dst: string, edgeType: EdgeType)

  datatype RoleType = Collaborator | Subscriber

  datatype Role = Role(taskId: string, who: string, role: RoleType)

  /** Hashing is injective, so a hash is modelled by what it was computed from. */
  datatype Hash = CardHash(card: Card) | SectionHash(section: Section)

  /** One database state. Comments are in insertion order. */
  datatype Db = Db(
    tasks: map<string, Payload>,
    comments: seq<CommentRow>,
    edges: set<Edge>,
    roles: set<Role>,
    hashes: map<string, Hash>,
    users: Section,
    notifications: Section)

  const USERS_KEY := "__section__:users"
  const INBOXES_KEY := "__section__:inboxes"

  /** Section hashes share the hash table with card hashes. */
  predicate Reserved(key: string)
  {
    key == USERS_KEY || key == INBOXES_KEY
  }

  // --- the rows one card derives ------------------------------------------

  function CommentRows(c: Card): seq<CommentRow>
  {
    seq(|c.comments|, i requires 0 <= i < |c.comments| => CommentRow(c.id, i, c.comments[i]))
  }

  function EdgesOf(c: Card): set<Edge>
  {
    (set d | d in c.dependsOn && d != "" :: Edge(c.id, d, DependsOn))
    + (set b | b in c.blocks && b != "" :: Edge(c.id, b, Blocks))
  }

  function RolesOf(c: Card): set<Role>
  {
    (set w | w in c.collaborators && w != "" :: Role(c.id, w, Collaborator))
    + (set w | w in c.subscribers && w != "" :: Role(c.id, w, Subscriber))
  }

  function OfTask(id: string): CommentRow -> bool
  {
    (r: CommentRow) => r.taskId == id
  }

  function NotOfTask(id: string): CommentRow -> bool
  {
    (r: CommentRow) => r.taskId != id
  }

  /** One card's comments, in order; surrogate keys are not modelled. */
  function CommentsOf(comments: seq<CommentRow>, id: string): seq<CommentRow>
  {
    Filter(comments, OfTask(id))
  }

  lemma {:induction false} CommentsOfConcat(a: seq<CommentRow>, b: seq<CommentRow>, id: string)
    ensures CommentsOf(a + b, id) == CommentsOf(a, id) + CommentsOf(b, id)
  {
    FilterConcat(a, b, OfTask(id));
  }

  lemma {:induction false} CommentsOfRows(c: Card, id: string)
    ensures CommentsOf(CommentRows(c), id) == if id == c.id then CommentRows(c) else []
  {
    if id == c.id {
      FilterAll(CommentRows(c), OfTask(id));
    } else {
      FilterNone(CommentRows(c), OfTask(id));
    }
  }

  lemma {:induction false} CommentsOfDelete(comments: seq<CommentRow>, gone: string, id: string)
    ensures CommentsOf(Filter(comments, NotOfTask(gone)), id) == if id == gone then [] else CommentsOf(comments, id)
  {
    if comments != [] {
      CommentsOfDelete(comments[1..], gone, id);
      var rest := Filter(comments[1..], NotOfTask(gone));
      assert ([comments[0]] + rest)[0] == comments[0] && ([comments[0]] + rest)[1..] == rest;
    }
  }

  // --- what a set of card writes and deletes means ------------------------

  /** The document as a map: of cards with one id, the last wins. */
  function LastById(tasks: seq<Payload>): map<string, Payload>
  {
    if tasks == [] then map[]
    else LastById(tasks[..|tasks| - 1])[tasks[|tasks| - 1].card.id := tasks[|tasks| - 1]]
  }

  ghost predicate KeyedByOwnId(cards: map<string, Payload>)
  {
    forall id :: id in cards ==> cards[id].card.id == id && id != ""
  }

  lemma {:induction false} LastByIdKeyed(tasks: seq<Payload>)
    requires forall i :: 0 <= i < |tasks| ==> tasks[i].card.id != ""
    ensures KeyedByOwnId(LastById(tasks))
    ensures forall id :: id in LastById(tasks) <==> exists i :: 0 <= i < |tasks| && tasks[i].card.id == id
  {
    if tasks != [] {
      var n := |tasks| - 1;
      LastByIdKeyed(tasks[..n]);
      forall id ensures id in LastById(tasks) <==> exists i :: 0 <= i < |tasks| && tasks[i].card.id == id {
        if i :| 0 <= i < n && tasks[..n][i].card.id == id {
          assert tasks[i].card.id == id;
        }
        if i :| 0 <= i < |tasks| && tasks[i].card.id == id {
          if i < n { assert tasks[..n][i].card.id == id; }
        }
        assert tasks[n].card.id in LastById(tasks);
      }
    }
  }

  function EdgesFrom(edges: set<Edge>, id: string): set<Edge>
  {
    set e | e in edges && e.src == id
  }

  function RolesOn(roles: set<Role>, id: string): set<Role>
  {
    set r | r in roles && r.taskId == id
  }

  /** The rows a card owns, whatever table they are in. */
  datatype Rows = Rows(comments: seq<CommentRow>, edges: set<Edge>, roles: set<Role>)

  const NO_ROWS := Rows([], {}, {})

  function RowsOf(db: Db, id: string): Rows
  {
    Rows(CommentsOf(db.comments, id), EdgesFrom(db.edges, id), RolesOn(db.roles, id))
  }

  /** The rows a card's content calls for. */
  function Derive(c: Card): Rows
  {
    Rows(CommentRows(c), EdgesOf(c), RolesOf(c))
  }

  function WithoutTargets(rows: Rows, gone: set<string>): Rows
  {
    rows.(edges := set e | e in rows.edges && e.dst !in gone)
  }

  /** `after` is `before` with the cards `w` rewritten: their rows replaced, every
      other card's rows untouched. */
  ghost predicate Rewrites(before: Db, w: map<string, Payload>, after: Db)
  {
    && after.tasks == before.tasks + w
    && (forall id :: RowsOf(after, id) == if id in w then Derive(w[id].card) else RowsOf(before, id))
    && after.users == before.users && after.notifications == before.notifications
  }

  /** `after` is `before` without the cards `gone`, their rows, and edges at them. */
  ghost predicate Removes(before: Db, gone: set<string>, after: Db)
  {
    && after.tasks == before.tasks - gone
    && after.hashes == before.hashes - gone
    && (forall id :: RowsOf(after, id) == if id in gone then NO_ROWS else WithoutTargets(RowsOf(before, id), gone))
    && after.users == before.users && after.notifications == before.notifications
  }

  lemma {:induction false} MapExtend<K, V>(m: map<K, V>, w: map<K, V>, k: K, v: V)
    ensures m + w[k := v] == (m + w) + map[k := v]
  {
  }

  lemma {:induction false} RewritesCompose(a: Db, w: map<string, Payload>, b: Db, id: string, p: Payload, c: Db)
    requires Rewrites(a, w, b) && Rewrites(b, map[id := p], c)
    ensures Rewrites(a, w[id := p], c)
  {
    MapExtend(a.tasks, w, id, p);
    forall k ensures RowsOf(c, k) == if k in w[id := p] then Derive(w[id := p][k].card) else RowsOf(a, k) {
      RowsStep(a, w, b, id, p, c, k);
    }
  }

  lemma {:induction false} RowsStep(a: Db, w: map<string, Payload>, b: Db, id: string, p: Payload, c: Db, k: string)
    requires Rewrites(a, w, b) && Rewrites(b, map[id := p], c)
    ensures RowsOf(c, k) == if k in w[id := p] then Derive(w[id := p][k].card) else RowsOf(a, k)
  {
    assert RowsOf(b, k) == if k in w then Derive(w[k].card) else RowsOf(a, k);
    if k == id {
      assert RowsOf(c, k) == Derive(p.card);
    } else {
      assert RowsOf(c, k) == RowsOf(b, k);
    }
  }

  lemma {:induction false} RemovesCompose(a: Db, g: set<string>, b: Db, id: string, c: Db)
    requires Removes(a, g, b) && Removes(b, {id}, c)
    ensures Removes(a, g + {id}, c)
  {
    assert a.tasks - (g + {id}) == (a.tasks - g) - {id};
    assert a.hashes - (g + {id}) == (a.hashes - g) - {id};
    forall k ensures RowsOf(c, k) == if k in g + {id} then NO_ROWS else WithoutTargets(RowsOf(a, k), g + {id}) {
      var r := RowsOf(a, k);
      assert WithoutTargets(WithoutTargets(r, g), {id}) == WithoutTargets(r, g + {id});
    }
  }

  // --- statements on one card's rows --------------------------------------

  /** Inserting over cleared rows leaves exactly the card's derived rows. */
  lemma {:induction false} InsertAfterDrop(before: Db, dropped: Db, p: Payload, after: Db)
    requires forall k :: RowsOf(dropped, k) == if k == p.card.id then NO_ROWS else RowsOf(before, k)
    requires after.comments == dropped.comments + CommentRows(p.card)
    requires after.edges == dropped.edges + EdgesOf(p.card) && after.roles == dropped.roles + RolesOf(p.card)
    ensures forall k :: RowsOf(after, k) == if k == p.card.id then Derive(p.card) else RowsOf(before, k)
  {
    forall k ensures RowsOf(after, k) == if k == p.card.id then Derive(p.card) else RowsOf(before, k) {
      CommentsOfConcat(dropped.comments, CommentRows(p.card), k);
      CommentsOfRows(p.card, k);
      var d := RowsOf(dropped, k);
      assert EdgesFrom(after.edges, k) == d.edges + if k == p.card.id then EdgesOf(p.card) else {};
      assert RolesOn(after.roles, k) == d.roles + if k == p.card.id then RolesOf(p.card) else {};
    }
  }

  class CardTables {
    var tasks: map<string, Payload>
    var comments: seq<CommentRow>
    var edges: set<Edge>
    var roles: set<Role>
    var hashes: map<string, Hash>
    var users: Section
    var notifications: Section

    constructor (db: Db)
      ensures State() == db
    {
      tasks, comments, edges, roles := db.tasks, db.comments, db.edges, db.roles;
      hashes, users, notifications := db.hashes, db.users, db.notifications;
    }

    function State(): Db
      reads this
    {
      Db(tasks, comments, edges, roles, hashes, users, notifications)
    }

    /** Deletes the rows a card owns: its comments, roles and outbound edges. */
    method DropCardRows(id: string)
      modifies this`comments, this`roles, this`edges
      ensures forall k :: RowsOf(State(), k) == if k == id then NO_ROWS else RowsOf(old(State()), k)
      ensures edges == set e | e in old(edges) && e.src != id
    {
      forall k { CommentsOfDelete(comments, id, k); }
      comments := Filter(comments, NotOfTask(id));
      roles := set r | r in roles && r.taskId != id;
      edges := set e | e in edges && e.src != id;
    }

    method InsertComments(c: Card)
      modifies this`comments
      ensures comments == old(comments) + CommentRows(c)
    {
      for i := 0 to |c.comments|
        invariant comments == old(comments) + CommentRows(c)[..i]
      {
        comments := comments + [CommentRow(c.id, i, c.comments[i])];
      }
    }

    method InsertEdges(c: Card)
      modifies this`edges
      ensures edges == old(edges) + EdgesOf(c)
      ensures forall d :: Edge(c.id, d, DependsOn) in edges
                     <==> Edge(c.id, d, DependsOn) in old(edges) || (d in c.dependsOn && d != "")
      ensures forall b :: Edge(c.id, b, Blocks) in edges
                     <==> Edge(c.id, b, Blocks) in old(edges) || (b in c.blocks && b != "")
    {
      ghost var deps := set d | d in c.dependsOn && d != "" :: Edge(c.id, d, DependsOn);
      for i := 0 to |c.dependsOn|
        invariant edges == old(edges) + set d | d in c.dependsOn[..i] && d != "" :: Edge(c.id, d, DependsOn)
      {
        assert c.dependsOn[..i + 1] == c.dependsOn[..i] + [c.dependsOn[i]];
        if c.dependsOn[i] != "" {
          edges := edges + {Edge(c.id, c.dependsOn[i], DependsOn)};
        }
      }
      assert c.dependsOn[..|c.dependsOn|] == c.dependsOn;
      for i := 0 to |c.blocks|
        invariant edges == old(edges) + deps + set b | b in c.blocks[..i] && b != "" :: Edge(c.id, b, Blocks)
      {
        assert c.blocks[..i + 1] == c.blocks[..i] + [c.blocks[i]];
        if c.blocks[i] != "" {
          edges := edges + {Edge(c.id, c.blocks[i], Blocks)};
        }
      }
      assert c.blocks[..|c.blocks|] == c.blocks;
    }

    method InsertRoles(c: Card)
      modifies this`roles
      ensures roles == old(roles) + RolesOf(c)
      ensures forall w :: Role(c.id, w, Collaborator) in roles
                     <==> Role(c.id, w, Collaborator) in old(roles) || (w in c.collaborators && w != "")
      ensures forall w :: Role(c.id, w, Subscriber) in roles
                     <==> Role(c.id, w, Subscriber) in old(roles) || (w in c.subscribers && w != "")
    {
      ghost var first := set w | w in c.collaborators && w != "" :: Role(c.id, w, Collaborator);
      for i := 0 to |c.collaborators|
        invariant roles == old(roles) + set w | w in c.collaborators[..i] && w != "" :: Role(c.id, w, Collaborator)
      {
        assert c.collaborators[..i + 1] == c.collaborators[..i] + [c.collaborators[i]];
        if c.collaborators[i] != "" {
          roles := roles + {Role(c.id, c.collaborators[i], Collaborator)};
        }
      }
      assert c.collaborators[..|c.collaborators|] == c.collaborators;
      for i := 0 to |c.subscribers|
        invariant roles == old(roles) + first + set w | w in c.subscribers[..i] && w != "" :: Role(c.id, w, Subscriber)
      {
        assert c.subscribers[..i + 1] == c.subscribers[..i] + [c.subscribers[i]];
        if c.subscribers[i] != "" {
          roles := roles + {Role(c.id, c.subscribers[i], Subscriber)};
        }
      }
      assert c.subscribers[..|c.subscribers|] == c.subscribers;
    }

    /** INSERT of one card and its derived rows over whatever is there. */
    method InsertTask(p: Payload)
      modifies this`tasks, this`comments, this`edges, this`roles
      ensures tasks == old(tasks)[p.card.id := p]
      ensures comments == old(comments) + CommentRows(p.card)
      ensures edges == old(edges) + EdgesOf(p.card) && roles == old(roles) + RolesOf(p.card)
    {
      tasks := tasks[p.card.id := p];
      InsertComments(p.card);
      InsertEdges(p.card);
      InsertRoles(p.card);
    }

    /** Upserts one card: clears what it owns, then inserts it. */
    method WriteCard(p: Payload)
      modifies this`tasks, this`comments, this`edges, this`roles
      ensures Rewrites(old(State()), map[p.card.id := p], State())
    {
      DropCardRows(p.card.id);
      ghost var dropped := State();
      InsertTask(p);
      InsertAfterDrop(old(State()), dropped, p, State());
      assert tasks == old(tasks) + map[p.card.id := p];
    }

    /** Removes one card, its rows, the edges pointing at it, and its hash. */
    method DeleteCard(id: string)
      modifies this
      ensures Removes(old(State()), {id}, State())
    {
      DropCardRows(id);
      ghost var dropped := State();
      edges := set e | e in edges && e.dst != id;
      forall k ensures EdgesFrom(edges, k) == WithoutTargets(RowsOf(dropped, k), {id}).edges {}
      tasks := tasks - {id};
      hashes := hashes - {id};
    }
  }
}
