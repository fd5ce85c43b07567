/** What a release row says about the archive it was uploaded with, in every reachable state. */
module Uploads {
  import opened Prelude
  import opened Archive
  import opened Routes

  /** How the upload `u` ends: the file it leaves and the error it reports. */
  function Outcome(u: Upload, digest: Digest): (seq<Byte>, Option<UploadError>) {
    var (file, error) := ReceiveFrom([], u.frames, u.signedHash, digest);
    (file, if error.None? && u.unpackError.Some? then Some(UnpackFailed(u.unpackError.value)) else error)
  }

  /** What the sender of an upload is told, whether or not the status update got through. */
  function Told(u: Upload, error: Option<UploadError>): Response {
    if error.None? then ReleaseCreated(Settled(NewRow(u), None, u.updatedAt)) else ReleaseRejected(error.value)
  }

  function FinalRow(u: Upload, error: Option<UploadError>): Release {
    if u.updateFails then NewRow(u) else Settled(NewRow(u), error, u.updatedAt)
  }

  ghost predicate Received(u: Upload, digest: Digest) {
    Intact(u.frames) && Acceptable(Payload(u.frames), u.signedHash, digest) && u.unpackError.None?
  }

  ghost predicate HasRow(w: World, r: RequestId, row: Release) {
    r in w.releases && w.releases[r] == row && r in w.archives
  }

  /** An upload that passed the access check. */
  ghost predicate Admitted(w: World, r: RequestId, request: Request, u: Upload) {
    && request == CreateRelease(u)
    && r.sender.Signed? && MayTouch(r.sender.caller, u.projectId)
    && u.projectId in w.projects
  }

  /** Where an upload stands, by the statement it runs next. */
  ghost predicate Progress(w: World, r: RequestId, request: Request, p: Program, digest: Digest) {
    match p
    case InsertingRelease(u) => Admitted(w, r, request, u) && r !in w.releases
    case Receiving(u, next) =>
      && Admitted(w, r, request, u)
      && next <= |u.frames|
      && HasRow(w, r, NewRow(u))
      && ReceiveFrom(FileOf(w, r), u.frames[next..], u.signedHash, digest)
         == ReceiveFrom([], u.frames, u.signedHash, digest)
    case SettingStatus(u, error) =>
      Admitted(w, r, request, u) && HasRow(w, r, NewRow(u)) && (FileOf(w, r), error) == Outcome(u, digest)
    case Answered(_) =>
      r in w.releases ==>
        && request.CreateRelease?
        && var u := request.upload;
           && Admitted(w, r, request, u)
           && FileOf(w, r) == Outcome(u, digest).0
           && HasRow(w, r, FinalRow(u, Outcome(u, digest).1))
           && p.response == Told(u, Outcome(u, digest).1)
    case Handling(request') => request' == request && r !in w.releases
    case _ => r !in w.releases
  }

  ghost predicate Inv(s: State, digest: Digest) {
    && s.requests.Keys == s.programs.Keys
    && s.world.releases.Keys <= s.programs.Keys
    && forall r | r in s.programs :: Progress(s.world, r, s.requests[r], s.programs[r], digest)
  }

  /** A statement keeps the progress of its own request ... */
  lemma OwnProgress(w: World, r: RequestId, request: Request, p: Program, digest: Digest)
    requires Progress(w, r, request, p, digest)
    ensures var (w', p') := Statement(w, r, p, digest); Progress(w', r, request, p', digest)
  {
    match p
    case InsertingRelease(u) => assert u.frames[0..] == u.frames;
    case Receiving(u, next) =>
      if next < |u.frames| {
        assert u.frames[next..][0] == u.frames[next] && u.frames[next..][1..] == u.frames[next + 1..];
      }
    case _ =>
  }

  /** ... and of every other one: no row, file or project of another request changes. */
  lemma OthersUntouched(w: World, r: RequestId, p: Program, digest: Digest, q: RequestId)
    requires q != r
    ensures var w' := Statement(w, r, p, digest).0;
            && (q in w'.releases <==> q in w.releases)
            && (q in w.releases ==> w'.releases[q] == w.releases[q])
            && (q in w'.archives <==> q in w.archives)
            && FileOf(w', q) == FileOf(w, q)
            && w.projects.Keys <= w'.projects.Keys
  {
  }

  lemma OtherProgress(w: World, r: RequestId, p: Program, q: RequestId, request: Request, other: Program,
                      digest: Digest)
    requires q != r && Progress(w, q, request, other, digest)
    ensures Progress(Statement(w, r, p, digest).0, q, request, other, digest)
  {
    OthersUntouched(w, r, p, digest, q);
  }

  lemma OthersProgress(s: State, r: RequestId, digest: Digest)
    requires Inv(s, digest) && r in s.programs
    ensures forall q | q in s.programs && q != r ::
              Progress(Statement(s.world, r, s.programs[r], digest).0, q, s.requests[q], s.programs[q], digest)
  {
    forall q | q in s.programs && q != r
      ensures Progress(Statement(s.world, r, s.programs[r], digest).0, q, s.requests[q], s.programs[q], digest)
    {
      OtherProgress(s.world, r, s.programs[r], q, s.requests[q], s.programs[q], digest);
    }
  }

  lemma StepKeeps(s: State, a: Action, digest: Digest)
    requires Inv(s, digest)
    ensures Inv(Step(s, a, digest), digest)
  {
    var r, s' := a.id, Step(s, a, digest);
    if a.Advance? && r in s.programs {
      OwnProgress(s.world, r, s.requests[r], s.programs[r], digest);
      OthersProgress(s, r, digest);
    }
  }

  lemma {:induction false} RunFromKeeps(s: State, actions: seq<Action>, digest: Digest)
    requires Inv(s, digest)
    ensures Inv(RunFrom(s, actions, digest), digest)
    decreases |actions|
  {
    if actions != [] {
      StepKeeps(s, actions[0], digest);
      RunFromKeeps(Step(s, actions[0], digest), actions[1..], digest);
    }
  }

  /**
   An upload is answered with a release exactly when its body was an intact, acceptable,
   unpackable archive, all of it received from a sender with access; the row is settled the same
   way, unless the final update was lost, and then stays unpacking.
   */
  lemma ReadyMeansReceived(start: World, actions: seq<Action>, digest: Digest, r: RequestId)
    requires start.releases == map[]
    requires r in Run(start, actions, digest).world.releases
    ensures var s := Run(start, actions, digest);
            && r in s.programs && r in s.requests && s.requests[r].CreateRelease?
            && var u, row, p := s.requests[r].upload, s.world.releases[r], s.programs[r];
               && row.projectId == u.projectId && row.projectId in s.world.projects
               && r.sender.Signed? && MayTouch(r.sender.caller, row.projectId)
               && (row.status == Ready <==> p.Answered? && Received(u, digest) && !u.updateFails)
               && (row.status == Failed <==> p.Answered? && !Received(u, digest) && !u.updateFails)
               && (row.status == Ready ==> p == Answered(ReleaseCreated(row)))
               && (row.status == Failed ==> row.error.Some? && p == Answered(ReleaseRejected(row.error.value)))
               && (p.Answered? ==> (p.response.ReleaseCreated? <==> Received(u, digest)))
               && (p.Answered? && Received(u, digest) ==>
                     r in s.world.archives && s.world.archives[r] == Payload(u.frames))
  {
    RunFromKeeps(State(start, map[], map[]), actions, digest);
    var s := Run(start, actions, digest);
    assert Progress(s.world, r, s.requests[r], s.programs[r], digest);
    ReceivedExactly([], s.requests[r].upload.frames, s.requests[r].upload.signedHash, digest);
    assert [] + Payload(s.requests[r].upload.frames) == Payload(s.requests[r].upload.frames);
  }

  /** In every reachable state a release row repeats the project, message and times of the upload as sent. */
  lemma RowTellsUpload(start: World, actions: seq<Action>, digest: Digest, r: RequestId)
    requires start.releases == map[]
    requires r in Run(start, actions, digest).world.releases
    ensures var s := Run(start, actions, digest);
            && r in s.requests && s.requests[r].CreateRelease?
            && var u, row := s.requests[r].upload, s.world.releases[r];
               && row.projectId == u.projectId
               && row.createdAt == u.createdAt
               && row.updatedAt == (if row.status == Unpacking then u.createdAt else u.updatedAt)
               && (u.message in {None, Some("")} ==> row.message == None)
               && (u.message !in {None, Some("")} ==> row.message == u.message)
               && (row.status != Failed ==> row.error == None)
  {
    RunFromKeeps(State(start, map[], map[]), actions, digest);
    var s := Run(start, actions, digest);
    assert Progress(s.world, r, s.requests[r], s.programs[r], digest);
  }

  /** A row never goes away; it leaves `Unpacking` at most once and then never changes. */
  lemma StatusSettlesOnce(start: World, actions: seq<Action>, a: Action, digest: Digest, r: RequestId)
    requires start.releases == map[]
    requires r in Run(start, actions, digest).world.releases
    ensures var w, w' := Run(start, actions, digest).world, Step(Run(start, actions, digest), a, digest).world;
            && r in w'.releases
            && (w'.releases[r] == w.releases[r]
                || (&& w.releases[r].status == Unpacking
                    && w'.releases[r].status != Unpacking
                    && w'.releases[r].(status := Unpacking, error := None, updatedAt := w.releases[r].updatedAt)
                       == w.releases[r]))
  {
    RunFromKeeps(State(start, map[], map[]), actions, digest);
    var s := Run(start, actions, digest);
    assert Progress(s.world, r, s.requests[r], s.programs[r], digest);
    if a.Advance? && a.id in s.programs && a.id != r {
      OthersUntouched(s.world, a.id, s.programs[a.id], digest, r);
    }
  }
}
