/** What each handler answers and changes when its request runs alone, in terms of the request and the rows. */
module Handlers {
  import opened Prelude
  import opened Archive
  import opened Routes
  import Identity
  import IdentityRuns

  // ---------- a request alone ----------

  function Stage(p: Program): nat {
    match p
    case Handling(_) => 6
    case CheckingProjectId(_, _, _) => 5
    case InsertingProject(_, _, _) => 4
    case ManagingUsers(_) => 4
    case InsertingRelease(_) => 3
    case Receiving(_, _) => 2
    case SettingStatus(_, _) => 1
    case Answered(_) => 0
  }

  function StepsLeft(p: Program): nat {
    match p
    case ManagingUsers(users) => users.StatementsLeft()
    case Receiving(u, next) => if next < |u.frames| then |u.frames| - next else 0
    case _ => 0
  }

  /** All statements of a request with no other in between. */
  ghost function RunAlone(w: World, r: RequestId, p: Program, digest: Digest): (World, Response)
    decreases Stage(p), StepsLeft(p)
  {
    if p.Answered? then (w, p.response)
    else
      var (w', p') := Statement(w, r, p, digest);
      RunAlone(w', r, p', digest)
  }

  lemma AloneStep(w: World, r: RequestId, p: Program, digest: Digest)
    ensures RunAlone(w, r, p, digest) ==
            if p.Answered? then (w, p.response)
            else RunAlone(Statement(w, r, p, digest).0, r, Statement(w, r, p, digest).1, digest)
  {
  }

  /** Run alone is run: the statements of `r`, one after the other, lead any state to that outcome. */
  lemma {:induction false} AloneIsARun(s: State, r: RequestId, digest: Digest) returns (actions: seq<Action>)
    requires r in s.programs
    ensures forall a | a in actions :: a == Advance(r)
    ensures var (w, answer) := RunAlone(s.world, r, s.programs[r], digest);
            RunFrom(s, actions, digest) == s.(world := w, programs := s.programs[r := Answered(answer)])
    decreases Stage(s.programs[r]), StepsLeft(s.programs[r])
  {
    if s.programs[r].Answered? {
      actions := [];
      assert s.programs[r := s.programs[r]] == s.programs;
    } else {
      var t := Step(s, Advance(r), digest);
      AloneStep(s.world, r, s.programs[r], digest);
      var more := AloneIsARun(t, r, digest);
      actions := [Advance(r)] + more;
      assert actions[1..] == more;
      var (w, answer) := RunAlone(s.world, r, s.programs[r], digest);
      assert t.programs[r := Answered(answer)] == s.programs[r := Answered(answer)];
    }
  }

  ghost function Outcome(w: World, r: RequestId, request: Request, digest: Digest): (World, Response) {
    RunAlone(w, r, Handling(request), digest)
  }

  /** A request answered by its first statement. */
  lemma AnsweredAtOnce(w: World, r: RequestId, request: Request, digest: Digest)
    requires Dispatch(w, r.sender, request).Answered?
    ensures Outcome(w, r, request, digest) == (w, Dispatch(w, r.sender, request).response)
  {
    AloneStep(w, r, Handling(request), digest);
    AloneStep(w, r, Dispatch(w, r.sender, request), digest);
  }

  /** Without a signature only redemptions get anywhere. */
  lemma UnsignedAlone(w: World, r: RequestId, request: Request, digest: Digest)
    requires r.sender == Unsigned && !request.RedeemInvite?
    ensures Outcome(w, r, request, digest) == (w, Unauthorized)
  {
    AnsweredAtOnce(w, r, request, digest);
  }

  // ---------- projects ----------

  const LABEL_CHARS := "abcdefghijklmnopqrstuvwxyz0123456789-"
  const HEX_CHARS := "0123456789abcdef"

  ghost predicate IsLabel(name: string) {
    && 1 <= |name| <= 63
    && (forall i | 0 <= i < |name| :: name[i] in LABEL_CHARS)
    && !("-" <= name) && name[|name| - 1] != '-'
  }

  /** An id the platform could have drawn: `prj_` and 16 hex digits. */
  ghost predicate IsDrawnId(id: string) {
    |id| == 20 && "prj_" <= id && forall i | 4 <= i < 20 :: id[i] in HEX_CHARS
  }

  lemma LabelChar(c: char)
    ensures c in LABEL_CHARS <==> 'a' <= c <= 'z' || '0' <= c <= '9' || c == '-'
  {
  }

  lemma HexChar(c: char)
    ensures c in HEX_CHARS <==> '0' <= c <= '9' || 'a' <= c <= 'f'
  {
  }

  lemma LabelExactly(name: string)
    ensures IsValidProjectName(name) <==> IsLabel(name)
  {
    forall i | 0 <= i < |name|
      ensures name[i] in LABEL_CHARS <==> IsNameChar(name[i])
    {
      LabelChar(name[i]);
    }
    assert name != "" ==> ("-" <= name <==> name[0] == '-');
  }

  lemma DrawnIdExactly(id: string)
    ensures IsValidProjectId(id) <==> IsDrawnId(id)
  {
    if "prj_" <= id {
      var hex := id[4..];
      forall i | 0 <= i < |hex|
        ensures hex[i] in HEX_CHARS <==> '0' <= hex[i] <= '9' || 'a' <= hex[i] <= 'f'
        ensures hex[i] == id[i + 4]
      {
        HexChar(hex[i]);
      }
      assert IsDrawnId(id) ==> forall i | 0 <= i < |hex| :: hex[i] in HEX_CHARS;
      assert |id| == 20 && (forall i | 0 <= i < |hex| :: hex[i] in HEX_CHARS) ==>
             forall i | 4 <= i < 20 :: id[i] == hex[i - 4];
    }
  }

  /**
   Creating a project: bad names and ids are refused, taken ones are conflicts, and otherwise
   exactly one row is added, under the id asked for or else the one drawn.
   */
  lemma CreateProjectAlone(w: World, r: RequestId, name: string, id: Option<string>, newId: string, now: nat,
                           digest: Digest)
    requires r.sender.Signed?
    ensures var (w', answer) := Outcome(w, r, CreateProject(name, id, newId, now), digest);
            var chosen := if id == None then newId else id.value;
            if r.sender.caller.projectId.Some? then w' == w && answer == Forbidden
            else if !IsLabel(name) || (id.Some? && !IsDrawnId(id.value)) then w' == w && answer == BadRequest
            else if (exists p :: p in w.projects && w.projects[p].name == name) || (id.Some? && chosen in w.projects)
            then w' == w && answer == Conflict
            else if chosen in w.projects then w' == w && answer == ServerError
            else
              && w' == w.(projects := w.projects[chosen := Project(name, now)])
              && answer == ProjectCreated(chosen, Project(name, now))
  {
    var request := CreateProject(name, id, newId, now);
    var first := Dispatch(w, r.sender, request);
    LabelExactly(name);
    if id.Some? {
      DrawnIdExactly(id.value);
    }
    AloneStep(w, r, Handling(request), digest);
    AloneStep(w, r, first, digest);
    if first.CheckingProjectId? {
      AloneStep(w, r, Statement(w, r, first, digest).1, digest);
    }
    InsertAlone(w, r, name, if id == None then newId else id.value, now, digest);
  }

  lemma InsertAlone(w: World, r: RequestId, name: string, id: string, now: nat, digest: Digest)
    ensures RunAlone(w, r, InsertingProject(name, id, now), digest) ==
            if id in w.projects || ProjectNameTaken(w, name) then (w, ServerError)
            else (w.(projects := w.projects[id := Project(name, now)]), ProjectCreated(id, Project(name, now)))
  {
    var p := InsertingProject(name, id, now);
    AloneStep(w, r, p, digest);
    var (w', p') := Statement(w, r, p, digest);
    AloneStep(w', r, p', digest);
  }

  // ---------- listings ----------

  lemma WhoamiAlone(w: World, r: RequestId, digest: Digest)
    requires r.sender.Signed?
    ensures var c, (w', answer) := r.sender.caller, Outcome(w, r, WhoAmI, digest);
            && w' == w
            && (c.projectId == None ==> answer == Whoami(c, None))
            && (forall p | c.projectId == Some(p) ::
                  && (p in w.projects ==> answer == Whoami(c, Some(w.projects[p].name)))
                  && (p !in w.projects ==> answer == Whoami(c, None)))
  {
    AnsweredAtOnce(w, r, WhoAmI, digest);
  }

  /** An admin is shown every project. */
  lemma ListProjectsAlone(w: World, r: RequestId, digest: Digest)
    requires r.sender.Signed? && r.sender.caller.projectId == None
    ensures Outcome(w, r, ListProjects, digest) == (w, Projects(w.projects))
  {
    AnsweredAtOnce(w, r, ListProjects, digest);
    assert VisibleProjects(w, r.sender.caller) == w.projects;
  }

  /** An admin is shown every user, and whether it has a key. */
  lemma ListUsersAlone(w: World, r: RequestId, digest: Digest)
    requires r.sender.Signed? && r.sender.caller.projectId == None
    ensures var (w', answer) := Outcome(w, r, ListUsers, digest);
            && w' == w && answer.Users?
            && answer.users.Keys == w.tables.users.Keys
            && forall u | u in w.tables.users ::
                 var user, shown := w.tables.users[u], answer.users[u];
                 && shown.name == user.name && shown.projectId == user.projectId && shown.createdAt == user.createdAt
                 && (shown.hasKey <==> exists key :: user.publicKey == Some(key))
  {
    AnsweredAtOnce(w, r, ListUsers, digest);
    forall u | u in w.tables.users
      ensures w.tables.users[u].publicKey.Some? <==> exists key :: w.tables.users[u].publicKey == Some(key)
    {
      var key := w.tables.users[u].publicKey;
      assert key.Some? ==> key == Some(key.value);
    }
  }

  /** A permitted listing shows every release of the project and no other. */
  lemma ListReleasesAlone(w: World, r: RequestId, projectId: string, digest: Digest)
    requires r.sender.Signed?
    ensures var (w', answer) := Outcome(w, r, ListReleases(projectId), digest);
            && w' == w
            && if r.sender.caller.projectId !in {None, Some(projectId)} then answer == Forbidden
               else if projectId !in w.projects then answer == NotFound
               else
                 && answer.Releases?
                 && (forall q :: q in answer.releases <==> q in w.releases && w.releases[q].projectId == projectId)
                 && (forall q | q in answer.releases :: answer.releases[q] == w.releases[q])
  {
    assert MayTouch(r.sender.caller, projectId) <==> r.sender.caller.projectId in {None, Some(projectId)};
    AnsweredAtOnce(w, r, ListReleases(projectId), digest);
  }

  // ---------- users ----------

  /** The statements on users run as they do in the database, and the finished program is the answer. */
  lemma ManagingAlone(w: World, r: RequestId, users: Identity.Program, digest: Digest)
    requires !users.Finished()
    ensures var (t, p) := IdentityRuns.RunAlone(w.tables, users);
            UserAnswer(p).Answered? && RunAlone(w, r, ManagingUsers(users), digest) ==
                                       (w.(tables := t), UserAnswer(p).response)
    decreases users.StatementsLeft()
  {
    var (t, users') := Identity.Statement(w.tables, users);
    var w' := w.(tables := t);
    AloneStep(w, r, ManagingUsers(users), digest);
    IdentityRuns.AloneStep(w.tables, users);
    if users'.Finished() {
      IdentityRuns.AloneStep(t, users');
      AloneStep(w', r, UserAnswer(users'), digest);
    } else {
      ManagingAlone(w', r, users', digest);
    }
  }

  /** Creating a user adds it without a key, and its one invite, or refuses. */
  lemma CreateUserAlone(w: World, r: RequestId, name: string, scope: Option<string>, newUserId: string,
                        tokenHash: string, now: nat, digest: Digest)
    requires r.sender.Signed?
    requires newUserId !in w.tables.users && tokenHash !in w.tables.invites
    ensures var (w', answer) := Outcome(w, r, CreateUser(name, scope, newUserId, tokenHash, now), digest);
            if r.sender.caller.projectId.Some? then w' == w && answer == Forbidden
            else if !IdentityRuns.IsUserName(name) then w' == w && answer == BadRequest
            else if scope.Some? && scope.value !in w.projects then w' == w && answer == NotFound
            else if exists u :: u in w.tables.users && w.tables.users[u].name == name then w' == w && answer == Conflict
            else
              && answer == UserCreated(newUserId)
              && w' == w.(tables := Identity.Tables(
                            w.tables.users[newUserId := Identity.User(name, scope, None, now)],
                            w.tables.invites[tokenHash := Identity.Invite(newUserId, now + 86400, None, now)]))
  {
    var request := CreateUser(name, scope, newUserId, tokenHash, now);
    var first := Dispatch(w, r.sender, request);
    IdentityRuns.UserNameExactly(name);
    AloneStep(w, r, Handling(request), digest);
    if first.Answered? {
      AloneStep(w, r, first, digest);
    } else {
      IdentityRuns.MintAlone(w.tables, name, scope, newUserId, tokenHash, now);
      ManagingAlone(w, r, first.users, digest);
    }
  }

  /** Removing a user deletes the row of that name and its invites, or finds none. */
  lemma RemoveUserAlone(w: World, r: RequestId, name: string, digest: Digest)
    requires r.sender.Signed? && Identity.UniqueNames(w.tables)
    ensures var (w', answer) := Outcome(w, r, RemoveUser(name), digest);
            if r.sender.caller.projectId.Some? then w' == w && answer == Forbidden
            else
              && w' == w.(tables := w'.tables)
              && answer == (if exists u :: u in w.tables.users && w.tables.users[u].name == name then Removed
                            else NotFound)
              && (forall u :: u in w'.tables.users <==> u in w.tables.users && w.tables.users[u].name != name)
              && (forall u | u in w'.tables.users :: w'.tables.users[u] == w.tables.users[u])
  {
    var first := Dispatch(w, r.sender, RemoveUser(name));
    AloneStep(w, r, Handling(RemoveUser(name)), digest);
    if first.Answered? {
      AloneStep(w, r, first, digest);
    } else {
      IdentityRuns.RemoveAlone(w.tables, name);
      ManagingAlone(w, r, first.users, digest);
    }
  }

  /** Redeeming a live invite registers the key for its user; anything else changes nothing. */
  lemma RedeemInviteAlone(w: World, r: RequestId, tokenHash: string, key: string, keyParses: bool, now: nat,
                          digest: Digest)
    requires r.sender == Unsigned
    ensures var (w', answer) := Outcome(w, r, RedeemInvite(tokenHash, key, keyParses, now), digest);
            var t := w.tables;
            if !keyParses then w' == w && answer == BadRequest
            else if || tokenHash !in t.invites
                    || t.invites[tokenHash].redeemedAt.Some?
                    || now >= t.invites[tokenHash].expiresAt
            then w' == w && answer == Unauthorized
            else
              var invite := t.invites[tokenHash];
              && answer == KeyRegistered(invite.userId)
              && w' == w.(tables := Identity.Tables(
                            IdentityRuns.WithKey(t.users, invite.userId, key),
                            t.invites[tokenHash := invite.(redeemedAt := Some(now))]))
  {
    var request := RedeemInvite(tokenHash, key, keyParses, now);
    var first := Dispatch(w, r.sender, request);
    AloneStep(w, r, Handling(request), digest);
    if first.Answered? {
      AloneStep(w, r, first, digest);
    } else {
      IdentityRuns.RedeemAlone(w.tables, tokenHash, key, now);
      ManagingAlone(w, r, first.users, digest);
    }
  }

  // ---------- releases ----------

  /** The row and the answer an upload ends with, given what went wrong, if anything. */
  ghost predicate EndsWith(u: Upload, error: Option<UploadError>, row: Release, answer: Response) {
    && row.projectId == u.projectId
    && row.message == (if u.message == Some("") then None else u.message)
    && row.createdAt == u.createdAt
    && (if u.updateFails then row.status == Unpacking && row.error == None && row.updatedAt == u.createdAt
        else
          && row.status == (if error == None then Ready else Failed)
          && row.error == error && row.updatedAt == u.updatedAt)
    && match error
       case Some(e) => answer == ReleaseRejected(e)
       case None =>
         && answer.ReleaseCreated?
         && (!u.updateFails ==> answer.release == row)
         && answer.release == row.(status := Ready, updatedAt := u.updatedAt)
  }

  /** What goes wrong with an upload: the body, or else unpacking it. */
  ghost function ErrorOf(u: Upload, digest: Digest): Option<UploadError> {
    var error := ReceiveFrom([], u.frames, u.signedHash, digest).1;
    if error == None && u.unpackError.Some? then Some(UnpackFailed(u.unpackError.value)) else error
  }

  /** The frames of an upload, from any one on. */
  lemma ReceivingAlone(w: World, r: RequestId, u: Upload, next: nat, digest: Digest)
    requires next <= |u.frames| && r in w.releases && r in w.archives && w.releases[r] == NewRow(u)
    requires ReceiveFrom(w.archives[r], u.frames[next..], u.signedHash, digest)
          == ReceiveFrom([], u.frames, u.signedHash, digest)
    ensures var (w', answer) := RunAlone(w, r, Receiving(u, next), digest);
            var file := ReceiveFrom([], u.frames, u.signedHash, digest).0;
            && r in w'.releases
            && w' == w.(releases := w.releases[r := w'.releases[r]], archives := w.archives[r := file])
            && EndsWith(u, ErrorOf(u, digest), w'.releases[r], answer)
    decreases |u.frames| - next
  {
    var (w', p') := Statement(w, r, Receiving(u, next), digest);
    AloneStep(w, r, Receiving(u, next), digest);
    assert next < |u.frames| ==> u.frames[next..][0] == u.frames[next] && u.frames[next..][1..] == u.frames[next + 1..];
    if p'.Receiving? {
      ReceivingAlone(w', r, u, next + 1, digest);
    } else {
      assert w' == w && w.archives[r := w.archives[r]] == w.archives;
      SettlingAlone(w, r, u, p'.error, digest);
    }
  }

  lemma SettlingAlone(w: World, r: RequestId, u: Upload, error: Option<UploadError>, digest: Digest)
    requires r in w.releases && w.releases[r] == NewRow(u)
    ensures var (w', answer) := RunAlone(w, r, SettingStatus(u, error), digest);
            && r in w'.releases
            && w' == w.(releases := w.releases[r := w'.releases[r]])
            && EndsWith(u, error, w'.releases[r], answer)
  {
    var (w', p') := Statement(w, r, SettingStatus(u, error), digest);
    AloneStep(w, r, SettingStatus(u, error), digest);
    AloneStep(w', r, p', digest);
    assert w.releases[r := w.releases[r]] == w.releases;
  }

  /** An upload to a project of the caller's adds exactly its row and its archive. */
  lemma CreateReleaseAlone(w: World, r: RequestId, u: Upload, digest: Digest)
    requires r.sender.Signed?
    ensures var (w', answer) := Outcome(w, r, CreateRelease(u), digest);
            if r.sender.caller.projectId !in {None, Some(u.projectId)} then w' == w && answer == Forbidden
            else if u.projectId !in w.projects then w' == w && answer == NotFound
            else
              var file := ReceiveFrom([], u.frames, u.signedHash, digest).0;
              && r in w'.releases
              && w' == w.(releases := w.releases[r := w'.releases[r]], archives := w.archives[r := file])
              && EndsWith(u, ErrorOf(u, digest), w'.releases[r], answer)
  {
    assert MayTouch(r.sender.caller, u.projectId) <==> r.sender.caller.projectId in {None, Some(u.projectId)};
    AloneStep(w, r, Handling(CreateRelease(u)), digest);
    if Dispatch(w, r.sender, CreateRelease(u)).Answered? {
      AnsweredAtOnce(w, r, CreateRelease(u), digest);
    } else {
      AloneStep(w, r, InsertingRelease(u), digest);
      var w1 := Statement(w, r, InsertingRelease(u), digest).0;
      assert u.frames[0..] == u.frames;
      ReceivingAlone(w1, r, u, 0, digest);
      var w' := RunAlone(w1, r, Receiving(u, 0), digest).0;
      assert w1.releases[r := w'.releases[r]] == w.releases[r := w'.releases[r]];
    }
  }
}
