/** Projects under racing requests: none is lost, duplicated in name, or pointed at before it exists. */
module Projects {
  import opened Prelude
  import opened Archive
  import opened Routes
  import Handlers
  import Identity

  ghost predicate UniqueProjectNames(w: World) {
    forall a, b | a in w.projects && b in w.projects && w.projects[a].name == w.projects[b].name :: a == b
  }

  ghost predicate ProjectsKept(w: World, v: World) {
    UniqueProjectNames(v) && forall id | id in w.projects :: id in v.projects && v.projects[id] == w.projects[id]
  }

  lemma StatementKeepsProjects(w: World, r: RequestId, p: Program, digest: Digest)
    requires UniqueProjectNames(w)
    ensures ProjectsKept(w, Statement(w, r, p, digest).0)
  {
    var v := Statement(w, r, p, digest).0;
    if p.InsertingProject? && p.id !in w.projects && !ProjectNameTaken(w, p.name) {
      assert v.projects == w.projects[p.id := Project(p.name, p.now)];
    } else {
      assert v.projects == w.projects;
    }
  }

  /** Projects are never renamed or removed, and racing creations cannot duplicate a name. */
  lemma {:induction false} ProjectsOnlyGrow(s: State, actions: seq<Action>, digest: Digest)
    requires UniqueProjectNames(s.world)
    ensures ProjectsKept(s.world, RunFrom(s, actions, digest).world)
    decreases |actions|
  {
    if actions != [] {
      var a, t := actions[0], Step(s, actions[0], digest);
      if a.Advance? && a.id in s.programs {
        StatementKeepsProjects(s.world, a.id, s.programs[a.id], digest);
      }
      assert ProjectsKept(s.world, t.world);
      ProjectsOnlyGrow(t, actions[1..], digest);
    }
  }

  // ---------- rows as asked for ----------

  /** What an admin's creation may insert: the name and time asked for, under the id asked for or drawn. */
  ghost predicate AskedFor(sender: Sender, request: Request, id: string, project: Project) {
    && sender.Signed? && sender.caller.projectId == None
    && request.CreateProject?
    && project == Project(request.name, request.now)
    && id == (match request.id case Some(asked) => asked case None => request.newId)
    && Handlers.IsLabel(request.name)
    && (request.id.Some? ==> Handlers.IsDrawnId(id))
  }

  /** A project about to be inserted was asked for, and one answered is stored. */
  ghost predicate CreatesAsAsked(w: World, sender: Sender, request: Request, p: Program) {
    match p
    case Handling(request') => request' == request
    case CheckingProjectId(name, id, now) => AskedFor(sender, request, id, Project(name, now))
    case InsertingProject(name, id, now) => AskedFor(sender, request, id, Project(name, now))
    case Answered(ProjectCreated(id, project)) =>
      AskedFor(sender, request, id, project) && id in w.projects && w.projects[id] == project
    case _ => true
  }

  ghost predicate CreatesInv(s: State) {
    && UniqueProjectNames(s.world)
    && s.programs.Keys == s.requests.Keys
    && forall r | r in s.programs :: CreatesAsAsked(s.world, r.sender, s.requests[r], s.programs[r])
  }

  lemma HandleAsAsked(w: World, r: RequestId, request: Request)
    ensures CreatesAsAsked(w, r.sender, request, Dispatch(w, r.sender, request))
  {
    if request.CreateProject? {
      Handlers.LabelExactly(request.name);
      if request.id.Some? {
        Handlers.DrawnIdExactly(request.id.value);
      }
    }
  }

  lemma StatementAsAsked(w: World, r: RequestId, request: Request, p: Program, digest: Digest)
    requires CreatesAsAsked(w, r.sender, request, p)
    ensures var (v, p') := Statement(w, r, p, digest); CreatesAsAsked(v, r.sender, request, p')
  {
    if p.Handling? {
      HandleAsAsked(w, r, request);
    }
  }

  lemma StepAsAsked(s: State, a: Action, digest: Digest)
    requires CreatesInv(s)
    ensures CreatesInv(Step(s, a, digest))
  {
    if a.Advance? && a.id in s.programs {
      StatementKeepsProjects(s.world, a.id, s.programs[a.id], digest);
      StatementAsAsked(s.world, a.id, s.requests[a.id], s.programs[a.id], digest);
    }
  }

  lemma {:induction false} RunAsAsked(s: State, actions: seq<Action>, digest: Digest)
    requires CreatesInv(s)
    ensures CreatesInv(RunFrom(s, actions, digest))
    decreases |actions|
  {
    if actions != [] {
      StepAsAsked(s, actions[0], digest);
      RunAsAsked(Step(s, actions[0], digest), actions[1..], digest);
    }
  }

  /** Projects come only from requests of admins, and are exactly what was asked for. */
  lemma ProjectInsertedAsAsked(s: State, actions: seq<Action>, a: Action, digest: Digest, id: string)
    requires CreatesInv(s)
    requires id !in RunFrom(s, actions, digest).world.projects
    requires id in Step(RunFrom(s, actions, digest), a, digest).world.projects
    ensures var now := RunFrom(s, actions, digest);
            var next := Step(now, a, digest);
            && a.Advance? && a.id in now.requests
            && AskedFor(a.id.sender, now.requests[a.id], id, next.world.projects[id])
            && next.programs[a.id] == Answered(ProjectCreated(id, next.world.projects[id]))
  {
    RunAsAsked(s, actions, digest);
    var t := RunFrom(s, actions, digest);
    assert CreatesAsAsked(t.world, a.id.sender, t.requests[a.id], t.programs[a.id]);
  }

  /** A creation answered with a project has stored it, for good. */
  lemma CreatedMeansStored(s: State, actions: seq<Action>, digest: Digest, r: RequestId, id: string, project: Project)
    requires CreatesInv(s)
    requires r in RunFrom(s, actions, digest).programs
    requires RunFrom(s, actions, digest).programs[r] == Answered(ProjectCreated(id, project))
    ensures var t := RunFrom(s, actions, digest);
            && id in t.world.projects && t.world.projects[id] == project
            && r in t.requests && AskedFor(r.sender, t.requests[r], id, project)
  {
    RunAsAsked(s, actions, digest);
  }

  // ---------- scopes ----------

  predicate KnownScope(w: World, scope: Option<string>) {
    scope.Some? ==> scope.value in w.projects
  }

  /** A user about to be inserted is the one an admin asked for, with no scope or a known one. */
  ghost predicate MintsAsAsked(w: World, sender: Sender, request: Request, p: Program) {
    match p
    case Handling(request') => request' == request
    case ManagingUsers(users) =>
      users.MintCheckName? || users.MintInsertUser? ==>
        && sender.Signed? && IsAdmin(sender.caller)
        && request == CreateUser(users.name, users.projectId, users.userId, users.tokenHash, users.now)
        && KnownScope(w, users.projectId)
    case _ => true
  }

  ghost predicate ScopesKnown(w: World) {
    forall u | u in w.tables.users :: KnownScope(w, w.tables.users[u].projectId)
  }

  ghost predicate ScopesInv(s: State) {
    && UniqueProjectNames(s.world)
    && ScopesKnown(s.world)
    && s.programs.Keys == s.requests.Keys
    && forall r | r in s.programs :: MintsAsAsked(s.world, r.sender, s.requests[r], s.programs[r])
  }

  /** A user statement inserts at most the user it mints, and changes no scope. */
  lemma UserStatementKeepsScopes(t: Identity.Tables, p: Identity.Program, u: string)
    requires u in Identity.Statement(t, p).0.users
    ensures var t' := Identity.Statement(t, p).0;
            if u in t.users then t'.users[u].projectId == t.users[u].projectId
            else p.MintInsertUser? && u == p.userId
                 && t'.users[u] == Identity.User(p.name, p.projectId, None, p.now)
  {
  }

  lemma StatementKeepsScopes(w: World, r: RequestId, request: Request, p: Program, digest: Digest)
    requires UniqueProjectNames(w) && ScopesKnown(w) && MintsAsAsked(w, r.sender, request, p)
    ensures var (v, p') := Statement(w, r, p, digest); ScopesKnown(v) && MintsAsAsked(v, r.sender, request, p')
  {
    var v := Statement(w, r, p, digest).0;
    StatementKeepsProjects(w, r, p, digest);
    forall u | u in v.tables.users
      ensures KnownScope(v, v.tables.users[u].projectId)
    {
      if p.ManagingUsers? {
        UserStatementKeepsScopes(w.tables, p.users, u);
      }
    }
  }

  /** In every interleaving a scoped user is scoped to a project that exists. */
  lemma {:induction false} ScopesStayKnown(s: State, actions: seq<Action>, digest: Digest)
    requires ScopesInv(s)
    ensures ScopesInv(RunFrom(s, actions, digest))
    decreases |actions|
  {
    if actions != [] {
      var a, t := actions[0], Step(s, actions[0], digest);
      if a.Advance? && a.id in s.programs {
        StatementKeepsProjects(s.world, a.id, s.programs[a.id], digest);
        StatementKeepsScopes(s.world, a.id, s.requests[a.id], s.programs[a.id], digest);
      }
      ScopesStayKnown(t, actions[1..], digest);
    }
  }

  /** Users come only from requests of admins, under the name, scope and id asked for, without a key. */
  lemma UserInsertedAsAsked(s: State, actions: seq<Action>, a: Action, digest: Digest, u: string)
    requires ScopesInv(s)
    requires u !in RunFrom(s, actions, digest).world.tables.users
    requires u in Step(RunFrom(s, actions, digest), a, digest).world.tables.users
    ensures var now := RunFrom(s, actions, digest);
            var row := Step(now, a, digest).world.tables.users[u];
            && a.Advance? && a.id in now.requests && a.id.sender.Signed? && IsAdmin(a.id.sender.caller)
            && now.requests[a.id].CreateUser?
            && var asked := now.requests[a.id];
               row == Identity.User(asked.name, asked.scope, None, asked.now) && u == asked.newUserId
  {
    ScopesStayKnown(s, actions, digest);
    var t := RunFrom(s, actions, digest);
    if t.programs[a.id].ManagingUsers? {
      UserStatementKeepsScopes(t.world.tables, t.programs[a.id].users, u);
    }
  }

  /** A stored scoped user is always told the name of its project. */
  lemma WhoamiNamesProject(s: State, actions: seq<Action>, digest: Digest, u: string)
    requires ScopesInv(s) && u in RunFrom(s, actions, digest).world.tables.users
    requires RunFrom(s, actions, digest).world.tables.users[u].projectId.Some?
    ensures var w := RunFrom(s, actions, digest).world;
            var user := w.tables.users[u];
            var c := Identity.AuthUser(u, user.name, user.projectId);
            && user.projectId.value in w.projects
            && Handle(w, c, WhoAmI) == Answered(Whoami(c, Some(w.projects[user.projectId.value].name)))
  {
    ScopesStayKnown(s, actions, digest);
    var w := RunFrom(s, actions, digest).world;
    assert KnownScope(w, w.tables.users[u].projectId);
  }
}
