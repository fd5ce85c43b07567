/**
 What the CLI keeps on disk: server entries, and which entry each project is bound to.
 Every write to disk is a snapshot, and the order of the writes is what keeps bindings usable.
 */
module ClientStore {
  import opened Prelude
  import Users = Identity
  import Routes

  datatype ServerConfig = ServerConfig(serverUrl: string, keyId: string, privateKeyPath: string)

  /** The two stores between two writes. */
  datatype Snapshot = Snapshot(servers: map<string, ServerConfig>, bindings: map<string, string>)

  datatype Binding = Bound(name: string, server: ServerConfig) | Stale(name: string) | Unbound

  function ProjectBinding(s: Snapshot, projectId: string): Binding {
    if projectId !in s.bindings then Unbound
    else
      var name := s.bindings[projectId];
      if name in s.servers then Bound(name, s.servers[name]) else Stale(name)
  }

  /** A project is bound, bound to an entry that is gone, or not bound at all. */
  lemma BindingExactly(s: Snapshot, projectId: string, name: string, server: ServerConfig)
    ensures ProjectBinding(s, projectId) == Unbound <==> projectId !in s.bindings
    ensures ProjectBinding(s, projectId) == Stale(name) <==>
            projectId in s.bindings && s.bindings[projectId] == name && name !in s.servers
    ensures ProjectBinding(s, projectId) == Bound(name, server) <==>
            && projectId in s.bindings && s.bindings[projectId] == name
            && name in s.servers && s.servers[name] == server
  {
  }

  /** No binding that resolved in `s` is lost or stale in `t`. */
  ghost predicate StillResolves(s: Snapshot, t: Snapshot) {
    forall p :: ProjectBinding(s, p).Bound? ==> ProjectBinding(t, p).Bound?
  }

  /** After none of these writes has a binding that resolved in `s` stopped resolving. */
  ghost predicate Safe(s: Snapshot, writes: seq<Snapshot>) {
    forall t | t in writes :: StillResolves(s, t)
  }

  // ---------- who the server says a key is ----------

  datatype Identity = Identity(userId: string, name: string, projectId: Option<string>)
  {
    /** The user the server takes a request signed by this identity to come from. */
    function AsCaller(): Users.AuthUser {
      Users.AuthUser(userId, name, projectId)
    }
  }

  /** The answers of the servers to `whoami`, by entry; `None` when there is no identity to be had. */
  type Whoami = string -> Option<Identity>

  predicate IsProjectScoped(answer: Option<Identity>) {
    answer.Some? && answer.value.projectId.Some?
  }

  /** An admin, or a user scoped to this very project. */
  predicate Covers(answer: Option<Identity>, projectId: string) {
    answer.Some? && (answer.value.projectId.None? || answer.value.projectId == Some(projectId))
  }

  /** The CLI counts on exactly the access the server grants: a covered project is never forbidden. */
  lemma CoversExactly(identity: Identity, projectId: string, w: Routes.World)
    ensures Covers(Some(identity), projectId) <==> Routes.MayTouch(identity.AsCaller(), projectId)
    ensures Covers(Some(identity), projectId) <==>
            Routes.Handle(w, identity.AsCaller(), Routes.ListReleases(projectId)) != Routes.Answered(Routes.Forbidden)
  {
  }

  datatype Invite = Invite(serverUrl: string, userId: string, projectId: Option<string>, expiresAt: nat)

  datatype LoginError = Expired | SameScopeAsOtherUser | NoName | NameTaken | RedemptionFailed

  // ---------- rebinding ----------

  function Rebound(bindings: map<string, string>, from: string, to: string): map<string, string> {
    map p | p in bindings :: if bindings[p] == from then to else bindings[p]
  }

  ghost function BoundTo(bindings: map<string, string>, name: string): set<string> {
    set p | p in bindings && bindings[p] == name
  }

  /** The loop half way: projects in `rest` are still to be looked at. */
  function PartlyRebound(bindings: map<string, string>, rest: set<string>, from: string, to: string)
    : map<string, string>
  {
    map p | p in bindings :: if p !in rest && bindings[p] == from then to else bindings[p]
  }

  lemma ReboundStep(bindings: map<string, string>, rest: set<string>, from: string, to: string, p: string)
    requires p in rest && p in bindings
    ensures PartlyRebound(bindings, rest - {p}, from, to) ==
            if bindings[p] == from then PartlyRebound(bindings, rest, from, to)[p := to]
            else PartlyRebound(bindings, rest, from, to)
    ensures |BoundTo(bindings, from) * rest| ==
            |BoundTo(bindings, from) * (rest - {p})| + if bindings[p] == from then 1 else 0
  {
    var pending := BoundTo(bindings, from) * rest;
    assert BoundTo(bindings, from) * (rest - {p}) == pending - {p};
    assert p in pending <==> bindings[p] == from;
  }

  lemma ReboundStarts(bindings: map<string, string>, from: string, to: string)
    ensures PartlyRebound(bindings, bindings.Keys, from, to) == bindings
    ensures BoundTo(bindings, from) * bindings.Keys == BoundTo(bindings, from)
  {
  }

  lemma ReboundEnds(bindings: map<string, string>, from: string, to: string)
    ensures PartlyRebound(bindings, {}, from, to) == Rebound(bindings, from, to)
    ensures |BoundTo(bindings, from)| == 0 ==> Rebound(bindings, from, to) == bindings
  {
    if |BoundTo(bindings, from)| == 0 {
      assert forall p | p in bindings :: p !in BoundTo(bindings, from);
    }
  }

  /** The loop of `rebind_projects` over the values of the map, in any order. */
  method RebindValues(bindings: map<string, string>, from: string, to: string)
    returns (config: map<string, string>, moved: nat)
    ensures config == Rebound(bindings, from, to)
    ensures moved == |BoundTo(bindings, from)|
  {
    ReboundStarts(bindings, from, to);
    config := bindings;
    moved := 0;
    var rest := config.Keys;
    while rest != {}
      invariant rest <= bindings.Keys && config == PartlyRebound(bindings, rest, from, to)
      invariant moved + |BoundTo(bindings, from) * rest| == |BoundTo(bindings, from)|
    {
      var p :| p in rest;
      ReboundStep(bindings, rest, from, to, p);
      if config[p] == from {
        config := config[p := to];
        moved := moved + 1;
      }
      rest := rest - {p};
    }
    assert BoundTo(bindings, from) * {} == {};
    ReboundEnds(bindings, from, to);
  }

  // ---------- superseded entries ----------

  /** Every entry once. */
  ghost predicate Lists(names: seq<string>, servers: map<string, ServerConfig>) {
    && (forall n :: n in names <==> n in servers)
    && forall i, j | 0 <= i < j < |names| :: names[i] != names[j]
  }

  /** Entries an admin identity on `serverUrl` makes redundant. */
  ghost predicate Superseded(servers: map<string, ServerConfig>, serverUrl: string, admin: string, whoami: Whoami,
                             name: string) {
    && name in servers && name != admin
    && servers[name].serverUrl == serverUrl
    && whoami(name).Some? && whoami(name).value.projectId != None
  }

  ghost function SupersededIn(names: seq<string>, servers: map<string, ServerConfig>, serverUrl: string, admin: string,
                              whoami: Whoami): set<string> {
    set name | name in names && Superseded(servers, serverUrl, admin, whoami, name)
  }

  lemma SupersededStep(names: seq<string>, i: nat, servers: map<string, ServerConfig>, serverUrl: string, admin: string,
                       whoami: Whoami)
    requires i < |names| && Lists(names, servers)
    ensures names[i] in servers && names[i] !in SupersededIn(names[..i], servers, serverUrl, admin, whoami)
    ensures SupersededIn(names[..i + 1], servers, serverUrl, admin, whoami) ==
            SupersededIn(names[..i], servers, serverUrl, admin, whoami) +
            if Superseded(servers, serverUrl, admin, whoami, names[i]) then {names[i]} else {}
  {
    assert names[..i + 1] == names[..i] + [names[i]];
    assert names[i] in names;
  }

  /** How many projects each removed entry had. */
  ghost function ReportOf(bindings: map<string, string>, removed: set<string>): map<string, nat> {
    map n | n in removed :: |BoundTo(bindings, n)|
  }

  lemma ReportStep(bindings: map<string, string>, removed: set<string>, name: string)
    ensures ReportOf(bindings, removed).Keys == removed
    ensures ReportOf(bindings, removed + {name}) == ReportOf(bindings, removed)[name := |BoundTo(bindings, name)|]
  {
  }

  /** The bindings with every removed entry replaced by the admin one. */
  function Redirected(bindings: map<string, string>, removed: set<string>, admin: string): map<string, string> {
    map p | p in bindings :: if bindings[p] in removed then admin else bindings[p]
  }

  /** The stores once the entries `removed` are gone. */
  function Cleaned(s: Snapshot, removed: set<string>, admin: string): Snapshot {
    Snapshot(s.servers - removed, Redirected(s.bindings, removed, admin))
  }

  lemma CleaningKeepsResolving(s: Snapshot, removed: set<string>, admin: string)
    requires admin in s.servers && admin !in removed
    ensures StillResolves(s, Cleaned(s, removed, admin))
  {
  }

  /** One more entry: its projects move to the admin entry, and only then does it go. */
  lemma CleanOneMore(s: Snapshot, removed: set<string>, name: string, admin: string)
    requires admin in s.servers && admin !in removed && name != admin && name !in removed
    ensures var cleaned, more := Cleaned(s, removed, admin), Cleaned(s, removed + {name}, admin);
            && Rebound(cleaned.bindings, name, admin) == more.bindings
            && BoundTo(cleaned.bindings, name) == BoundTo(s.bindings, name)
            && cleaned.servers - {name} == more.servers
            && StillResolves(s, Snapshot(cleaned.servers, more.bindings))
            && StillResolves(s, more)
  {
    CleaningKeepsResolving(s, removed + {name}, admin);
  }

  class Store {
    var servers: map<string, ServerConfig>
    var bindings: map<string, string>
    /** The stores after each write, in order. */
    ghost var trail: seq<Snapshot>

    constructor (servers: map<string, ServerConfig>, bindings: map<string, string>)
      ensures Now() == Snapshot(servers, bindings) && trail == []
    {
      this.servers, this.bindings := servers, bindings;
      trail := [];
    }

    function Now(): Snapshot
      reads this
    {
      Snapshot(servers, bindings)
    }

    method WriteServer(name: string, server: ServerConfig)
      modifies this
      ensures servers == old(servers)[name := server] && bindings == old(bindings)
      ensures trail == old(trail) + [Now()] && StillResolves(old(Now()), Now())
    {
      servers := servers[name := server];
      trail := trail + [Now()];
    }

    method RemoveServer(name: string)
      modifies this
      ensures servers == old(servers) - {name} && bindings == old(bindings)
      ensures trail == old(trail) + [Now()]
      ensures forall p ::
                var before := ProjectBinding(old(Now()), p);
                ProjectBinding(Now(), p) == if before.Bound? && before.name == name then Stale(name) else before
    {
      servers := servers - {name};
      trail := trail + [Now()];
    }

    method RecordProjectBinding(projectId: string, name: string)
      modifies this
      ensures bindings == old(bindings)[projectId := name] && servers == old(servers)
      ensures trail == old(trail) + [Now()]
      ensures name in servers ==> StillResolves(old(Now()), Now()) && ProjectBinding(Now(), projectId).Bound?
    {
      bindings := bindings[projectId := name];
      trail := trail + [Now()];
    }

    method RemoveProjectBinding(projectId: string) returns (removed: Option<string>)
      modifies this
      ensures servers == old(servers) && bindings == old(bindings) - {projectId}
      ensures removed == if projectId in old(bindings) then Some(old(bindings)[projectId]) else None
      ensures ProjectBinding(Now(), projectId) == Unbound
      ensures trail == if removed.Some? then old(trail) + [Now()] else old(trail)
    {
      if projectId !in bindings {
        assert bindings - {projectId} == bindings;
        return None;
      }
      removed := Some(bindings[projectId]);
      bindings := bindings - {projectId};
      trail := trail + [Now()];
    }

    /** Point every project bound to `from` at `to`; returns how many moved. */
    method RebindProjects(from: string, to: string) returns (moved: nat)
      modifies this
      ensures servers == old(servers) && bindings == Rebound(old(bindings), from, to)
      ensures moved == |BoundTo(old(bindings), from)|
      ensures trail == if moved > 0 then old(trail) + [Now()] else old(trail)
    {
      var config;
      config, moved := RebindValues(bindings, from, to);
      ReboundEnds(bindings, from, to);
      if moved > 0 {
        bindings := config;
        trail := trail + [Now()];
      }
    }

    method ListServers() returns (names: seq<string>)
      ensures Lists(names, servers)
    {
      names := [];
      var rest := servers.Keys;
      while rest != {}
        invariant rest <= servers.Keys
        invariant forall n :: n in names <==> n in servers && n !in rest
        invariant forall i, j | 0 <= i < j < |names| :: names[i] != names[j]
      {
        var n :| n in rest;
        names := names + [n];
        rest := rest - {n};
      }
    }

    /** Rebind before removing: the binding of an entry never outlives it. */
    method SupersedeEntry(name: string, admin: string, ghost start: Snapshot, ghost removed: set<string>)
      returns (relinked: nat, ghost writes: seq<Snapshot>)
      requires admin in start.servers && admin !in removed && name != admin
      requires name in start.servers && name !in removed
      requires Now() == Cleaned(start, removed, admin)
      modifies this
      ensures Now() == Cleaned(start, removed + {name}, admin)
      ensures relinked == |BoundTo(start.bindings, name)|
      ensures trail == old(trail) + writes && Safe(start, writes)
    {
      CleanOneMore(start, removed, name, admin);
      relinked := RebindProjects(name, admin);
      writes := if relinked > 0 then [Now()] else [];
      RemoveServer(name);
      writes := writes + [Now()];
    }

    /** Drop the project-scoped entries an admin entry covers, moving their bindings to it. */
    method SupersedeProjectEntries(serverUrl: string, admin: string, whoami: Whoami)
      returns (report: map<string, nat>, ghost writes: seq<Snapshot>)
      requires admin in servers
      modifies this
      ensures trail == old(trail) + writes && Safe(old(Now()), writes)
      ensures StillResolves(old(Now()), Now())
      ensures forall n :: n in report <==> Superseded(old(servers), serverUrl, admin, whoami, n)
      ensures forall n | n in old(servers) && (whoami(n).Some? ==> whoami(n).value.projectId == None) ::
                n in servers && servers[n] == old(servers)[n]
      ensures report == ReportOf(old(bindings), report.Keys)
      ensures Now() == Cleaned(old(Now()), report.Keys, admin)
    {
      ghost var start := Now();
      var names := ListServers();
      report, writes := map[], [];
      ghost var removed: set<string> := {};
      assert Cleaned(start, {}, admin) == start;
      for i := 0 to |names|
        invariant removed == SupersededIn(names[..i], start.servers, serverUrl, admin, whoami)
        invariant report == ReportOf(start.bindings, removed)
        invariant Now() == Cleaned(start, removed, admin)
        invariant trail == old(trail) + writes && Safe(start, writes)
      {
        var name := names[i];
        SupersededStep(names, i, start.servers, serverUrl, admin, whoami);
        if name != admin && servers[name].serverUrl == serverUrl && IsProjectScoped(whoami(name)) {
          var relinked;
          ghost var more;
          relinked, more := SupersedeEntry(name, admin, start, removed);
          MoreWrites(start, old(trail), writes, more);
          writes := writes + more;
          ReportStep(start.bindings, removed, name);
          report := report[name := relinked];
          removed := removed + {name};
        }
      }
      assert names[..|names|] == names;
      ReportStep(start.bindings, removed, admin);
      CleaningKeepsResolving(start, removed, admin);
    }

    /** The first loop of `login`: another user's identity with exactly the invite's scope. */
    method OtherUserWithSameScope(invite: Invite, whoami: Whoami) returns (found: bool)
      ensures found <==> exists n :: n in servers && RivalOf(invite, servers[n], whoami(n))
    {
      var names := ListServers();
      for i := 0 to |names|
        invariant forall j | 0 <= j < i ::
                    names[j] in servers && !SameScopeOtherUser(servers[names[j]], invite, whoami(names[j]))
      {
        assert names[i] in names;
        if SameScopeOtherUser(servers[names[i]], invite, whoami(names[i])) {
          return true;
        }
      }
      return false;
    }

    /** `existing_access`: an entry whose identity already covers the project. */
    method ExistingAccess(serverUrl: string, projectId: string, whoami: Whoami) returns (entry: Option<string>)
      ensures entry.Some? ==>
                && entry.value in servers
                && HasAccess(servers[entry.value], serverUrl, projectId, whoami(entry.value))
      ensures entry.None? ==> forall n | n in servers :: !HasAccess(servers[n], serverUrl, projectId, whoami(n))
    {
      var names := ListServers();
      for i := 0 to |names|
        invariant forall j | 0 <= j < i ::
                    names[j] in servers && !GivesAccess(servers[names[j]], serverUrl, projectId, whoami(names[j]))
      {
        assert names[i] in names;
        if GivesAccess(servers[names[i]], serverUrl, projectId, whoami(names[i])) {
          return Some(names[i]);
        }
      }
      return None;
    }

    /**
     `login`, given what the network answers: `key` is the outcome of redeeming the invite, and
     `redeemed` whether that was attempted.
     */
    method Login(invite: Invite, now: nat, name: Option<string>, answers: Answers, key: Option<(string, string)>)
      returns (r: Result<string, LoginError>, redeemed: bool, ghost writes: seq<Snapshot>)
      modifies this
      ensures trail == old(trail) + writes && Safe(old(Now()), writes) && StillResolves(old(Now()), Now())
      ensures redeemed <==> NeedsRedemption(old(servers), invite, now, name, answers)
      ensures r.Err? ==> writes == [] && Now() == old(Now())
      ensures redeemed ==> (r.Ok? <==> key.Some?)
      ensures r == Err(Expired) <==> invite.expiresAt <= now
      ensures r == Err(SameScopeAsOtherUser) <==>
                && now < invite.expiresAt
                && exists n :: n in old(servers) && RivalOf(invite, old(servers)[n], answers.sameScope(n))
      ensures (forall n | n in old(servers) && answers.sameScope(n).Some? ::
                 answers.sameScope(n).value.userId == invite.userId) ==> r != Err(SameScopeAsOtherUser)
      ensures r == Err(NoName) <==> AddsAccess(old(servers), invite, now, answers) && name.None?
      ensures r == Err(NameTaken) <==>
                && AddsAccess(old(servers), invite, now, answers)
                && name.Some? && name.value in old(servers)
                && old(servers)[name.value].serverUrl != invite.serverUrl
      ensures r == Err(RedemptionFailed) <==> redeemed && key.None?
      ensures r.Ok? && invite.projectId.Some? ==>
                var binding := ProjectBinding(Now(), invite.projectId.value);
                && binding.Bound? && binding.name == r.value && binding.server.serverUrl == invite.serverUrl
                && bindings == old(bindings)[invite.projectId.value := r.value]
      ensures r.Ok? && !redeemed ==>
                && invite.projectId.Some? && servers == old(servers) && r.value in servers
                && HasAccess(servers[r.value], invite.serverUrl, invite.projectId.value, answers.access(r.value))
      ensures r.Ok? && redeemed ==>
                && name == Some(r.value)
                && var entered := old(servers)[r.value := ServerConfig(invite.serverUrl, key.value.0, key.value.1)];
                   if invite.projectId.Some? then servers == entered
                   else exists removed ::
                     && (forall n :: n in removed <==>
                                     Superseded(entered, invite.serverUrl, r.value, answers.superseded, n))
                     && Now() == Cleaned(Snapshot(entered, old(bindings)), removed, r.value)
    {
      writes, redeemed := [], false;
      if invite.expiresAt <= now {
        return Err(Expired), false, [];
      }
      var sameScope := OtherUserWithSameScope(invite, answers.sameScope);
      if sameScope {
        return Err(SameScopeAsOtherUser), false, [];
      }
      if invite.projectId.Some? {
        var access := ExistingAccess(invite.serverUrl, invite.projectId.value, answers.access);
        if access.Some? {
          RecordProjectBinding(invite.projectId.value, access.value);
          return Ok(access.value), false, [Now()];
        }
      }
      if name.None? {
        return Err(NoName), false, [];
      }
      var entry := name.value;
      if OtherServersName(servers, invite, entry) {
        return Err(NameTaken), false, [];
      }
      redeemed := true;
      if key.None? {
        return Err(RedemptionFailed), true, [];
      }
      WriteServer(entry, ServerConfig(invite.serverUrl, key.value.0, key.value.1));
      ghost var entered := Now();
      writes := [entered];
      if invite.projectId.None? {
        var report;
        ghost var more;
        report, more := SupersedeProjectEntries(invite.serverUrl, entry, answers.superseded);
        SafeAfter(old(Now()), entered, more);
        writes := writes + more;
      } else {
        RecordProjectBinding(invite.projectId.value, entry);
        writes := writes + [Now()];
      }
      r := Ok(entry);
    }
  }

  /** What `whoami` answers in each of the loops of one login. */
  datatype Answers = Answers(sameScope: Whoami, access: Whoami, superseded: Whoami)

  predicate SameScopeOtherUser(server: ServerConfig, invite: Invite, answer: Option<Identity>) {
    && server.serverUrl == invite.serverUrl
    && answer.Some?
    && answer.value.projectId == invite.projectId
    && answer.value.userId != invite.userId
  }

  /** An entry for the invite's server whose identity has the invite's scope but is another user. */
  ghost predicate RivalOf(invite: Invite, server: ServerConfig, answer: Option<Identity>) {
    && server.serverUrl == invite.serverUrl
    && answer != None
    && var Identity(userId, _, scope) := answer.value; scope == invite.projectId && userId != invite.userId
  }

  /** An entry for the server whose identity is an admin or scoped to the project. */
  ghost predicate HasAccess(server: ServerConfig, serverUrl: string, projectId: string, answer: Option<Identity>) {
    server.serverUrl == serverUrl && answer != None && answer.value.projectId in {None, Some(projectId)}
  }

  predicate GivesAccess(server: ServerConfig, serverUrl: string, projectId: string, answer: Option<Identity>) {
    server.serverUrl == serverUrl && Covers(answer, projectId)
  }

  /** The invite is live, and no identity here has its scope or already covers its project. */
  ghost predicate AddsAccess(servers: map<string, ServerConfig>, invite: Invite, now: nat, answers: Answers) {
    && now < invite.expiresAt
    && (forall n | n in servers :: !RivalOf(invite, servers[n], answers.sameScope(n)))
    && (invite.projectId.Some? ==>
          forall n | n in servers ::
            !HasAccess(servers[n], invite.serverUrl, invite.projectId.value, answers.access(n)))
  }

  /** The name already stands for another server. */
  predicate OtherServersName(servers: map<string, ServerConfig>, invite: Invite, name: string) {
    name in servers && servers[name].serverUrl != invite.serverUrl
  }

  /** A login spends its invite exactly when it adds access and there is a name to store it under. */
  ghost predicate NeedsRedemption(servers: map<string, ServerConfig>, invite: Invite, now: nat, name: Option<string>,
                                  answers: Answers) {
    && AddsAccess(servers, invite, now, answers)
    && name.Some? && (name.value in servers ==> servers[name.value].serverUrl == invite.serverUrl)
  }

  lemma MoreWrites(s: Snapshot, trail: seq<Snapshot>, writes: seq<Snapshot>, more: seq<Snapshot>)
    requires Safe(s, writes) && Safe(s, more)
    ensures Safe(s, writes + more) && trail + writes + more == trail + (writes + more)
  {
  }

  lemma SafeAfter(s: Snapshot, t: Snapshot, writes: seq<Snapshot>)
    requires StillResolves(s, t) && Safe(t, writes)
    ensures Safe(s, writes)
  {
    forall u | u in writes
      ensures StillResolves(s, u)
    {
      assert StillResolves(t, u);
    }
  }
}
