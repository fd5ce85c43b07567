/**
 The handlers, statement by statement: projects, user management, redemptions and release
 uploads of any number of requests in flight, in any interleaving.
 */
module Routes {
  import opened Prelude
  import opened Archive
  import Identity

  type Caller = Identity.AuthUser

  datatype Project = Project(name: string, createdAt: nat)

  datatype Status = Unpacking | Ready | Failed

  datatype Release = Release(
    projectId: string,
    status: Status,
    message: Option<string>,
    error: Option<UploadError>,
    createdAt: nat,
    updatedAt: nat)

  /** Who sent a request: the user its key belongs to, or nobody known. */
  datatype Sender = Signed(caller: Caller) | Unsigned

  /** A request in flight; `serial` tells apart the requests of one sender. */
  datatype RequestId = RequestId(sender: Sender, serial: nat)

  /**
   An upload as sent: `unpackError` is what unpacking the archive would report, and
   `updateFails` whether the final status update is lost to a database error.
   */
  datatype Upload = Upload(
    projectId: string,
    message: Option<string>,
    signedHash: Option<string>,
    frames: seq<Frame>,
    unpackError: Option<string>,
    updateFails: bool,
    createdAt: nat,
    updatedAt: nat)

  datatype Request =
    | WhoAmI
    | ListProjects
    | CreateProject(name: string, id: Option<string>, newId: string, now: nat)
    | ListUsers
    | CreateUser(name: string, scope: Option<string>, newUserId: string, tokenHash: string, now: nat)
    | RemoveUser(name: string)
    | ListReleases(projectId: string)
    | CreateRelease(upload: Upload)
    | RedeemInvite(tokenHash: string, key: string, keyParses: bool, now: nat)

  /** What a user listing tells: not the key, but whether there is one. */
  datatype UserSummary = UserSummary(name: string, projectId: Option<string>, hasKey: bool, createdAt: nat)

  /** Listings are the rows listed; a release is named by the request that created it. */
  datatype Response =
    | Whoami(caller: Caller, projectName: Option<string>)
    | Projects(rows: map<string, Project>)
    | ProjectCreated(id: string, project: Project)
    | Users(users: map<string, UserSummary>)
    | UserCreated(userId: string)
    | KeyRegistered(keyId: string)
    | Removed
    | Releases(releases: map<RequestId, Release>)
    | ReleaseCreated(release: Release)
    | ReleaseRejected(error: UploadError)
    | Forbidden
    | Unauthorized
    | BadRequest
    | NotFound
    | Conflict
    | ServerError

  /**
   The shared tables and what has been received of each archive. A release id is random and
   never repeats, so rows and archives are keyed by the request that draws it.
   */
  datatype World = World(
    tables: Identity.Tables,
    projects: map<string, Project>,
    releases: map<RequestId, Release>,
    archives: map<RequestId, seq<Byte>>)

  /** A request and the statement it runs next. */
  datatype Program =
    | Handling(request: Request)
    | CheckingProjectId(name: string, id: string, now: nat)
    | InsertingProject(name: string, id: string, now: nat)
    | ManagingUsers(users: Identity.Program)
    | InsertingRelease(upload: Upload)
    | Receiving(upload: Upload, next: nat)
    | SettingStatus(upload: Upload, error: Option<UploadError>)
    | Answered(response: Response)

  // ---------- checks ----------

  predicate IsNameChar(c: char) {
    'a' <= c <= 'z' || '0' <= c <= '9' || c == '-'
  }

  predicate IsValidProjectName(name: string) {
    && name != ""
    && |name| <= 63
    && (forall i | 0 <= i < |name| :: IsNameChar(name[i]))
    && name[0] != '-'
    && name[|name| - 1] != '-'
  }

  predicate IsValidProjectId(id: string) {
    match StripPrefix(id, "prj_")
    case None => false
    case Some(hex) =>
      |hex| == 16 && forall i | 0 <= i < |hex| :: '0' <= hex[i] <= '9' || 'a' <= hex[i] <= 'f'
  }

  predicate ProjectNameTaken(w: World, name: string) {
    exists id :: id in w.projects && w.projects[id].name == name
  }

  predicate IsAdmin(c: Caller) { c.projectId.None? }

  /** An admin, or a caller scoped to this very project. */
  predicate MayTouch(c: Caller, projectId: string) {
    c.projectId.None? || c.projectId.value == projectId
  }

  /** `confirm_project_access`: scope before existence. */
  function ConfirmProjectAccess(w: World, c: Caller, projectId: string): (refusal: Option<Response>) {
    if !MayTouch(c, projectId) then Some(Forbidden)
    else if projectId !in w.projects then Some(NotFound)
    else None
  }

  function VisibleProjects(w: World, c: Caller): map<string, Project> {
    map id | id in w.projects && (c.projectId.None? || id == c.projectId.value) :: w.projects[id]
  }

  function Summaries(users: map<string, Identity.User>): map<string, UserSummary> {
    map u | u in users ::
      UserSummary(users[u].name, users[u].projectId, users[u].publicKey.Some?, users[u].createdAt)
  }

  function ReleasesOf(w: World, projectId: string): map<RequestId, Release> {
    map r | r in w.releases && w.releases[r].projectId == projectId :: w.releases[r]
  }

  // ---------- one statement ----------

  function NewRow(u: Upload): Release {
    Release(u.projectId, Unpacking, if u.message == Some("") then None else u.message, None, u.createdAt, u.createdAt)
  }

  /** `set_release_status`: three columns of the row change. */
  function Settled(row: Release, error: Option<UploadError>, now: nat): Release {
    row.(status := if error.None? then Ready else Failed, error := error, updatedAt := now)
  }

  /** The file written so far. */
  function FileOf(w: World, r: RequestId): seq<Byte> {
    if r in w.archives then w.archives[r] else []
  }

  function StartRedemption(tokenHash: string, key: string, keyParses: bool, now: nat): Program {
    if keyParses then ManagingUsers(Identity.Begin(Identity.Redeem(tokenHash, key, now))) else Answered(BadRequest)
  }

  /** The first statement of a request, after the checks that precede it. */
  function Handle(w: World, c: Caller, request: Request): Program {
    match request
    case WhoAmI =>
      Answered(Whoami(c, if c.projectId.Some? && c.projectId.value in w.projects
                         then Some(w.projects[c.projectId.value].name) else None))
    case ListProjects => Answered(Projects(VisibleProjects(w, c)))
    case CreateProject(name, id, newId, now) =>
      if !IsAdmin(c) then Answered(Forbidden)
      else if !IsValidProjectName(name) then Answered(BadRequest)
      else if id.Some? && !IsValidProjectId(id.value) then Answered(BadRequest)
      else if ProjectNameTaken(w, name) then Answered(Conflict)
      else if id.Some? then CheckingProjectId(name, id.value, now)
      else InsertingProject(name, newId, now)
    case ListUsers => Answered(if IsAdmin(c) then Users(Summaries(w.tables.users)) else Forbidden)
    case CreateUser(name, scope, newUserId, tokenHash, now) =>
      if !IsAdmin(c) then Answered(Forbidden)
      else if !Identity.ValidUserName(name) then Answered(BadRequest)
      else if scope.Some? && scope.value !in w.projects then Answered(NotFound)
      else ManagingUsers(Identity.Begin(Identity.Mint(name, scope, newUserId, tokenHash, now)))
    case RemoveUser(name) =>
      if !IsAdmin(c) then Answered(Forbidden)
      else ManagingUsers(Identity.Begin(Identity.Remove(name)))
    case ListReleases(projectId) =>
      (match ConfirmProjectAccess(w, c, projectId)
       case Some(refusal) => Answered(refusal)
       case None => Answered(Releases(ReleasesOf(w, projectId))))
    case CreateRelease(upload) =>
      (match ConfirmProjectAccess(w, c, upload.projectId)
       case Some(refusal) => Answered(refusal)
       case None => InsertingRelease(upload))
    case RedeemInvite(tokenHash, key, keyParses, now) => StartRedemption(tokenHash, key, keyParses, now)
  }

  /** Only the redemption route is open to requests that no key vouches for. */
  function Dispatch(w: World, sender: Sender, request: Request): Program {
    match sender
    case Signed(caller) => Handle(w, caller, request)
    case Unsigned =>
      if request.RedeemInvite? then StartRedemption(request.tokenHash, request.key, request.keyParses, request.now)
      else Answered(Unauthorized)
  }

  function UserAnswer(p: Identity.Program): Program {
    match p
    case Minted(Some(userId)) => Answered(UserCreated(userId))
    case Minted(None) => Answered(Conflict)
    case Redeemed(Some(userId)) => Answered(KeyRegistered(userId))
    case Redeemed(None) => Answered(Unauthorized)
    case Removed(true) => Answered(Response.Removed)
    case Removed(false) => Answered(NotFound)
    case Failed => Answered(ServerError)
    case _ => ManagingUsers(p)
  }

  /** The next statement of request `r`. */
  ghost function Statement(w: World, r: RequestId, p: Program, digest: Digest): (World, Program) {
    match p
    case Handling(request) => (w, Dispatch(w, r.sender, request))
    case CheckingProjectId(name, id, now) =>
      (w, if id in w.projects then Answered(Conflict) else InsertingProject(name, id, now))
    case InsertingProject(name, id, now) =>
      if id in w.projects || ProjectNameTaken(w, name) then (w, Answered(ServerError))
      else
        var project := Project(name, now);
        (w.(projects := w.projects[id := project]), Answered(ProjectCreated(id, project)))
    case ManagingUsers(users) =>
      var (t, users') := Identity.Statement(w.tables, users);
      (w.(tables := t), UserAnswer(users'))
    case InsertingRelease(u) =>
      (w.(releases := w.releases[r := NewRow(u)], archives := w.archives[r := []]), Receiving(u, 0))
    case Receiving(u, next) => ReceiveStep(w, r, u, next, digest)
    case SettingStatus(u, error) =>
      (if r in w.releases && !u.updateFails then
         w.(releases := w.releases[r := Settled(w.releases[r], error, u.updatedAt)])
       else w,
       Answered(if error.None? then ReleaseCreated(Settled(NewRow(u), None, u.updatedAt))
                else ReleaseRejected(error.value)))
    case Answered(_) => (w, p)
  }

  /** The next frame of an upload; after the last one, the final checks and unpacking. */
  function ReceiveStep(w: World, r: RequestId, u: Upload, next: nat, digest: Digest): (World, Program) {
    if next < |u.frames| then
      match Feed(FileOf(w, r), u.frames[next])
      case Err(e) => (w, SettingStatus(u, Some(e)))
      case Ok(longer) => (w.(archives := w.archives[r := longer]), Receiving(u, next + 1))
    else
      match Finish(FileOf(w, r), u.signedHash, digest)
      case Some(e) => (w, SettingStatus(u, Some(e)))
      case None =>
        (w, SettingStatus(u, if u.unpackError.Some? then Some(UnpackFailed(u.unpackError.value)) else None))
  }

  // ---------- runs ----------

  /** `requests` remembers what was asked. */
  datatype State = State(world: World, programs: map<RequestId, Program>, requests: map<RequestId, Request>)

  datatype Action = Start(id: RequestId, request: Request) | Advance(id: RequestId)

  /** The redemption route looks at no signature, so a redemption is always unsigned. */
  ghost function Step(s: State, a: Action, digest: Digest): State {
    match a
    case Start(r, request) =>
      if r in s.programs || (request.RedeemInvite? && r.sender.Signed?) then s
      else s.(programs := s.programs[r := Handling(request)], requests := s.requests[r := request])
    case Advance(r) =>
      if r in s.programs then
        var (w, p) := Statement(s.world, r, s.programs[r], digest);
        s.(world := w, programs := s.programs[r := p])
      else s
  }

  ghost function RunFrom(s: State, actions: seq<Action>, digest: Digest): State
    decreases |actions|
  {
    if actions == [] then s else RunFrom(Step(s, actions[0], digest), actions[1..], digest)
  }

  /** A run of requests from a server with any users and projects, and any releases. */
  ghost function Run(start: World, actions: seq<Action>, digest: Digest): State {
    RunFrom(State(start, map[], map[]), actions, digest)
  }
}
