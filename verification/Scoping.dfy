/** What a project-scoped caller can see and change, over whole runs. */
module Scoping {
  import opened Prelude
  import opened Archive
  import opened Routes

  /** The project a request is limited to; none for admins and for unsigned requests. */
  function ScopeOf(s: Sender): Option<string> {
    if s.Signed? then s.caller.projectId else None
  }

  /** Scoped, but to another project than `p`. */
  predicate Foreign(p: string, s: Sender) {
    ScopeOf(s).Some? && ScopeOf(s).value != p
  }

  predicate ScopedTo(p: string, s: Sender) {
    ScopeOf(s) == Some(p)
  }

  /**
   Scoped callers never get past the admin checks, nor to uploads outside their project; only
   redemptions are unsigned.
   */
  ghost predicate InScope(s: Sender, p: Program) {
    match p
    case Handling(request) => request.RedeemInvite? ==> s.Unsigned?
    case CheckingProjectId(_, _, _) => s.Signed? && IsAdmin(s.caller)
    case InsertingProject(_, _, _) => s.Signed? && IsAdmin(s.caller)
    case ManagingUsers(_) => s.Signed? ==> IsAdmin(s.caller)
    case InsertingRelease(u) => s.Signed? && MayTouch(s.caller, u.projectId)
    case Receiving(u, _) => s.Signed? && MayTouch(s.caller, u.projectId)
    case SettingStatus(u, _) => s.Signed? && MayTouch(s.caller, u.projectId)
    case Answered(_) => true
  }

  lemma StatementStaysInScope(w: World, r: RequestId, p: Program, digest: Digest)
    requires InScope(r.sender, p)
    ensures InScope(r.sender, Statement(w, r, p, digest).1)
  {
  }

  // ---------- what one statement touches ----------

  /** Between `w` and `v`, only the upload of `r` changed, and it is a release of project `scope`. */
  ghost predicate OnlyUploadChanged(w: World, v: World, r: RequestId, scope: string) {
    && v.tables == w.tables
    && v.projects == w.projects
    && v.releases.Keys <= w.releases.Keys + {r}
    && (forall q | q in w.releases && q != r :: q in v.releases && v.releases[q] == w.releases[q])
    && (r in v.releases ==> v.releases[r].projectId == scope)
    && (forall q | q != r :: FileOf(v, q) == FileOf(w, q))
  }

  /** A scoped caller's statement changes at most its own upload, a release of its own project. */
  lemma ScopedStatementStaysInside(w: World, r: RequestId, p: Program, digest: Digest, scope: string)
    requires InScope(r.sender, p) && ScopedTo(scope, r.sender)
    requires r in w.releases ==> w.releases[r].projectId == scope
    ensures OnlyUploadChanged(w, Statement(w, r, p, digest).0, r, scope)
  {
  }

  ghost predicate AdminOnly(request: Request) {
    request.CreateProject? || request.ListUsers? || request.CreateUser? || request.RemoveUser?
  }

  /** A request is forbidden exactly to scoped callers who ask for administration or another project. */
  lemma ForbiddenExactly(w: World, c: Caller, request: Request)
    ensures Handle(w, c, request) == Answered(Forbidden) <==>
            && c.projectId.Some?
            && (|| AdminOnly(request)
                || (request.ListReleases? && request.projectId != c.projectId.value)
                || (request.CreateRelease? && request.upload.projectId != c.projectId.value))
  {
  }

  /** Listing projects shows a scoped caller its own project, if it still exists, and nothing else. */
  lemma ScopedListing(w: World, c: Caller, scope: string)
    requires c.projectId == Some(scope)
    ensures Handle(w, c, ListProjects) ==
            Answered(Projects(if scope in w.projects then map[scope := w.projects[scope]] else map[]))
  {
    assert VisibleProjects(w, c) == if scope in w.projects then map[scope := w.projects[scope]] else map[];
  }

  /** What a caller scoped to `p` can read: project row `p`, its releases, and its own upload. */
  ghost predicate SameView(p: string, r: RequestId, w: World, v: World) {
    && (p in w.projects <==> p in v.projects)
    && (p in w.projects ==> w.projects[p] == v.projects[p])
    && ReleasesOf(w, p) == ReleasesOf(v, p)
    && FileOf(w, r) == FileOf(v, r)
  }

  /** Its next move, answers included, depends on nothing else. */
  lemma ScopedMoveDependsOnView(p: string, r: RequestId, w: World, v: World, program: Program, digest: Digest)
    requires ScopedTo(p, r.sender) && InScope(r.sender, program) && SameView(p, r, w, v)
    ensures Statement(w, r, program, digest).1 == Statement(v, r, program, digest).1
  {
    match program
    case Handling(ListProjects) =>
      assert VisibleProjects(w, r.sender.caller) == VisibleProjects(v, r.sender.caller);
    case _ =>
  }

  ghost predicate OwnRowsInside(w: World, scope: string) {
    forall r | r in w.releases && ScopedTo(scope, r.sender) :: w.releases[r].projectId == scope
  }

  lemma OtherReleasesStay(w: World, v: World, r: RequestId, scope: string, other: string)
    requires other != scope && OnlyUploadChanged(w, v, r, scope)
    requires r in w.releases ==> w.releases[r].projectId == scope
    ensures ReleasesOf(v, other) == ReleasesOf(w, other)
  {
  }

  /** Whatever its callers do together, project `scope` changes nothing but its own releases. */
  lemma {:induction false} ScopedRunStaysInside(s: State, actions: seq<Action>, digest: Digest, scope: string,
                                                other: string)
    requires AllInScope(s) && OwnRowsInside(s.world, scope) && other != scope
    requires forall a | a in actions :: ScopedTo(scope, a.id.sender)
    ensures var w, w' := s.world, RunFrom(s, actions, digest).world;
            w'.tables == w.tables && w'.projects == w.projects && ReleasesOf(w', other) == ReleasesOf(w, other)
    decreases |actions|
  {
    if actions != [] {
      var a, t := actions[0], Step(s, actions[0], digest);
      assert a in actions;
      StepStaysInScope(s, a, digest);
      if a.Advance? && a.id in s.programs {
        ScopedStatementStaysInside(s.world, a.id, s.programs[a.id], digest, scope);
        OtherReleasesStay(s.world, t.world, a.id, scope, other);
      }
      ScopedRunStaysInside(t, actions[1..], digest, scope, other);
    }
  }

  // ---------- two runs ----------

  /** Drop the actions of callers scoped to other projects. */
  function Purge(p: string, actions: seq<Action>): seq<Action> {
    if actions == [] then []
    else (if Foreign(p, actions[0].id.sender) then [] else [actions[0]]) + Purge(p, actions[1..])
  }

  /** Same tables, projects and non-foreign uploads; the foreign ones are not of project `p`. */
  ghost predicate WorldsAgree(p: string, w: World, v: World) {
    && w.tables == v.tables
    && w.projects == v.projects
    && (forall r: RequestId | !Foreign(p, r.sender) ::
          && (r in w.releases <==> r in v.releases)
          && (r in w.releases ==> w.releases[r] == v.releases[r])
          && FileOf(w, r) == FileOf(v, r))
    && (forall r | r in w.releases && Foreign(p, r.sender) :: w.releases[r].projectId == ScopeOf(r.sender).value)
    && (forall r | r in v.releases && Foreign(p, r.sender) :: v.releases[r].projectId == ScopeOf(r.sender).value)
  }

  /** The same program; an admin's finished answer may differ. */
  ghost predicate SameProgram(s: Sender, x: Program, y: Program) {
    x == y || (s.Signed? && IsAdmin(s.caller) && x.Answered? && y.Answered?)
  }

  ghost predicate ProgramsAgree(p: string, s: State, t: State) {
    forall r: RequestId | !Foreign(p, r.sender) ::
      && (r in s.programs <==> r in t.programs)
      && (r in s.programs ==> SameProgram(r.sender, s.programs[r], t.programs[r]))
  }

  ghost predicate AllInScope(s: State) {
    forall r | r in s.programs :: InScope(r.sender, s.programs[r])
  }

  ghost predicate Agree(p: string, s: State, t: State) {
    WorldsAgree(p, s.world, t.world) && ProgramsAgree(p, s, t) && AllInScope(s) && AllInScope(t)
  }

  lemma AgreeingReleases(p: string, w: World, v: World)
    requires WorldsAgree(p, w, v)
    ensures ReleasesOf(w, p) == ReleasesOf(v, p)
  {
    forall r
      ensures r in ReleasesOf(w, p) <==> r in ReleasesOf(v, p)
      ensures r in ReleasesOf(w, p) ==> ReleasesOf(w, p)[r] == ReleasesOf(v, p)[r]
    {
      if Foreign(p, r.sender) {
        assert r in w.releases ==> w.releases[r].projectId != p;
        assert r in v.releases ==> v.releases[r].projectId != p;
      }
    }
  }

  lemma CommonHandle(p: string, w: World, v: World, r: RequestId, request: Request)
    requires WorldsAgree(p, w, v) && !Foreign(p, r.sender)
    ensures SameProgram(r.sender, Dispatch(w, r.sender, request), Dispatch(v, r.sender, request))
  {
    AgreeingReleases(p, w, v);
  }

  predicate Uploading(program: Program) {
    program.InsertingRelease? || program.Receiving? || program.SettingStatus?
  }

  lemma AgreeWithRow(p: string, w: World, v: World, r: RequestId, row: Release)
    requires WorldsAgree(p, w, v) && !Foreign(p, r.sender)
    ensures WorldsAgree(p, w.(releases := w.releases[r := row]), v.(releases := v.releases[r := row]))
  {
  }

  lemma AgreeWithFile(p: string, w: World, v: World, r: RequestId, file: seq<Byte>)
    requires WorldsAgree(p, w, v) && !Foreign(p, r.sender)
    ensures WorldsAgree(p, w.(archives := w.archives[r := file]), v.(archives := v.archives[r := file]))
  {
  }

  lemma CommonUpload(p: string, w: World, v: World, r: RequestId, program: Program, digest: Digest)
    requires WorldsAgree(p, w, v) && !Foreign(p, r.sender) && Uploading(program)
    ensures WorldsAgree(p, Statement(w, r, program, digest).0, Statement(v, r, program, digest).0)
    ensures Statement(w, r, program, digest).1 == Statement(v, r, program, digest).1
  {
    match program
    case InsertingRelease(u) =>
      AgreeWithRow(p, w, v, r, NewRow(u));
      AgreeWithFile(p, w.(releases := w.releases[r := NewRow(u)]), v.(releases := v.releases[r := NewRow(u)]), r, []);
    case Receiving(u, next) =>
      assert FileOf(w, r) == FileOf(v, r);
      if next < |u.frames| && Feed(FileOf(w, r), u.frames[next]).Ok? {
        AgreeWithFile(p, w, v, r, Feed(FileOf(w, r), u.frames[next]).value);
      }
    case SettingStatus(u, error) =>
      if r in w.releases {
        AgreeWithRow(p, w, v, r, Settled(w.releases[r], error, u.updatedAt));
      }
  }

  /** The same statement of a non-foreign request, in agreeing worlds. */
  lemma CommonStatement(p: string, w: World, v: World, r: RequestId, program: Program, digest: Digest)
    requires WorldsAgree(p, w, v) && !Foreign(p, r.sender)
    ensures WorldsAgree(p, Statement(w, r, program, digest).0, Statement(v, r, program, digest).0)
    ensures SameProgram(r.sender, Statement(w, r, program, digest).1, Statement(v, r, program, digest).1)
  {
    if program.Handling? {
      CommonHandle(p, w, v, r, program.request);
    } else if Uploading(program) {
      CommonUpload(p, w, v, r, program, digest);
    }
  }

  lemma StepStaysInScope(s: State, a: Action, digest: Digest)
    requires AllInScope(s)
    ensures AllInScope(Step(s, a, digest))
  {
    if a.Advance? && a.id in s.programs {
      StatementStaysInScope(s.world, a.id, s.programs[a.id], digest);
    }
  }

  lemma CommonAdvance(p: string, s: State, t: State, r: RequestId, digest: Digest)
    requires Agree(p, s, t) && !Foreign(p, r.sender) && r in s.programs
    ensures WorldsAgree(p, Step(s, Advance(r), digest).world, Step(t, Advance(r), digest).world)
    ensures SameProgram(r.sender, Step(s, Advance(r), digest).programs[r], Step(t, Advance(r), digest).programs[r])
  {
    if s.programs[r] == t.programs[r] {
      CommonStatement(p, s.world, t.world, r, s.programs[r], digest);
    }
  }

  lemma CommonStep(p: string, s: State, t: State, a: Action, digest: Digest)
    requires Agree(p, s, t) && !Foreign(p, a.id.sender)
    ensures Agree(p, Step(s, a, digest), Step(t, a, digest))
  {
    StepStaysInScope(s, a, digest);
    StepStaysInScope(t, a, digest);
    if a.Advance? && a.id in s.programs {
      CommonAdvance(p, s, t, a.id, digest);
    }
  }

  lemma AgreeAfterForeign(p: string, w: World, w': World, v: World, r: RequestId)
    requires WorldsAgree(p, w, v) && Foreign(p, r.sender)
    requires OnlyUploadChanged(w, w', r, ScopeOf(r.sender).value)
    ensures WorldsAgree(p, w', v)
  {
  }

  lemma ForeignStatement(p: string, w: World, v: World, r: RequestId, program: Program, digest: Digest)
    requires WorldsAgree(p, w, v) && Foreign(p, r.sender) && InScope(r.sender, program)
    ensures WorldsAgree(p, Statement(w, r, program, digest).0, v)
  {
    ScopedStatementStaysInside(w, r, program, digest, ScopeOf(r.sender).value);
    AgreeAfterForeign(p, w, Statement(w, r, program, digest).0, v, r);
  }

  lemma ForeignStep(p: string, s: State, t: State, a: Action, digest: Digest)
    requires Agree(p, s, t) && Foreign(p, a.id.sender)
    ensures Agree(p, Step(s, a, digest), t)
  {
    var r := a.id;
    if a.Advance? && r in s.programs {
      StatementStaysInScope(s.world, r, s.programs[r], digest);
      ForeignStatement(p, s.world, t.world, r, s.programs[r], digest);
    }
  }

  lemma {:induction false} RunsAgree(p: string, s: State, t: State, actions: seq<Action>, digest: Digest)
    requires Agree(p, s, t)
    ensures Agree(p, RunFrom(s, actions, digest), RunFrom(t, Purge(p, actions), digest))
    decreases |actions|
  {
    if actions != [] {
      var a, rest := actions[0], actions[1..];
      if Foreign(p, a.id.sender) {
        ForeignStep(p, s, t, a, digest);
        assert Purge(p, actions) == Purge(p, rest);
        RunsAgree(p, Step(s, a, digest), t, rest, digest);
      } else {
        CommonStep(p, s, t, a, digest);
        assert Purge(p, actions) == [a] + Purge(p, rest);
        RunsAgree(p, Step(s, a, digest), Step(t, a, digest), rest, digest);
      }
    }
  }

  /** No caller scoped to another project can influence what a caller scoped to `p` is told. */
  lemma Noninterference(p: string, start: World, actions: seq<Action>, digest: Digest, r: RequestId)
    requires forall q | q in start.releases && ScopeOf(q.sender).Some? ::
               start.releases[q].projectId == ScopeOf(q.sender).value
    requires ScopedTo(p, r.sender)
    ensures var full, purged := Run(start, actions, digest), Run(start, Purge(p, actions), digest);
            && (r in full.programs <==> r in purged.programs)
            && (r in full.programs ==> full.programs[r] == purged.programs[r])
            && full.world.projects == purged.world.projects
            && ReleasesOf(full.world, p) == ReleasesOf(purged.world, p)
  {
    var s := State(start, map[], map[]);
    RunsAgree(p, s, s, actions, digest);
    AgreeingReleases(p, Run(start, actions, digest).world, Run(start, Purge(p, actions), digest).world);
  }
}
