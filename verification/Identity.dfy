/**
 Users and invites on the server. Every SQL statement is one atomic step; minting,
 redeeming and removing are programs of several statements, and nothing stops other
 programs from running between two of them.
 */
module Identity {
  import opened Prelude

  // ---------- tables and statements ----------

  datatype User = User(name: string, projectId: Option<string>, publicKey: Option<string>, createdAt: nat)

  datatype Invite = Invite(userId: string, expiresAt: nat, redeemedAt: Option<nat>, createdAt: nat)

  /** `users` by id and `invites` by token hash: the primary keys. */
  datatype Tables = Tables(users: map<string, User>, invites: map<string, Invite>)

  datatype AuthUser = AuthUser(id: string, name: string, projectId: Option<string>)

  const INVITE_TTL_SECONDS: nat := 24 * 60 * 60

  predicate NameTaken(t: Tables, name: string) {
    exists id :: id in t.users && t.users[id].name == name
  }

  ghost predicate UniqueNames(t: Tables) {
    forall u, v | u in t.users && v in t.users && t.users[u].name == t.users[v].name :: u == v
  }

  ghost function UserIdByName(t: Tables, name: string): (id: Option<string>)
    ensures id.Some? <==> NameTaken(t, name)
    ensures id.Some? ==> id.value in t.users && t.users[id.value].name == name
  {
    if NameTaken(t, name) then
      var id :| id in t.users && t.users[id].name == name;
      Some(id)
    else None
  }

  function InsertUser(t: Tables, id: string, user: User): Option<Tables> {
    if id in t.users || NameTaken(t, user.name) then None else Some(t.(users := t.users[id := user]))
  }

  function InsertInvite(t: Tables, tokenHash: string, invite: Invite): Option<Tables> {
    if tokenHash in t.invites then None else Some(t.(invites := t.invites[tokenHash := invite]))
  }

  predicate Redeemable(t: Tables, tokenHash: string, now: nat) {
    tokenHash in t.invites && t.invites[tokenHash].redeemedAt.None? && t.invites[tokenHash].expiresAt > now
  }

  function ConsumeInvite(t: Tables, tokenHash: string, now: nat): Tables
    requires Redeemable(t, tokenHash, now)
  {
    t.(invites := t.invites[tokenHash := t.invites[tokenHash].(redeemedAt := Some(now))])
  }

  function SetUserKey(t: Tables, id: string, key: string): Tables {
    if id in t.users then t.(users := t.users[id := t.users[id].(publicKey := Some(key))]) else t
  }

  function DeleteInvites(t: Tables, userId: string): Tables {
    t.(invites := map h | h in t.invites && t.invites[h].userId != userId :: t.invites[h])
  }

  function DeleteUser(t: Tables, id: string): Tables {
    t.(users := t.users - {id})
  }

  /** The key that must verify a request naming `keyId`, and its user. */
  function KeyOwner(t: Tables, keyId: string): Option<(string, AuthUser)> {
    if keyId in t.users && t.users[keyId].publicKey.Some? then
      var user := t.users[keyId];
      Some((user.publicKey.value, AuthUser(keyId, user.name, user.projectId)))
    else None
  }

  predicate ValidUserName(name: string) {
    && name != ""
    && forall i | 0 <= i < |name| ::
         'a' <= name[i] <= 'z' || '0' <= name[i] <= '9' || name[i] == '-' || name[i] == '_'
  }

  // ---------- programs ----------

  /** A request and the statement it runs next. */
  datatype Program =
    | MintCheckName(name: string, projectId: Option<string>, userId: string, tokenHash: string, now: nat)
    | MintInsertUser(name: string, projectId: Option<string>, userId: string, tokenHash: string, now: nat)
    | MintInsertInvite(userId: string, tokenHash: string, now: nat)
    | Minted(minted: Option<string>)
    | RedeemConsume(tokenHash: string, key: string, now: nat)
    | RedeemSelectUser(tokenHash: string, key: string)
    | RedeemSetKey(tokenHash: string, userId: string, key: string)
    | Redeemed(redeemed: Option<string>)
    | RemoveLookup(name: string)
    | RemoveInvites(userId: string)
    | RemoveUser(userId: string)
    | Removed(removed: bool)
    | Failed
  {
    predicate Finished() {
      Minted? || Redeemed? || Removed? || Failed?
    }

    function StatementsLeft(): nat {
      match this
      case MintCheckName(_, _, _, _, _) => 3
      case MintInsertUser(_, _, _, _, _) => 2
      case MintInsertInvite(_, _, _) => 1
      case RedeemConsume(_, _, _) => 3
      case RedeemSelectUser(_, _) => 2
      case RedeemSetKey(_, _, _) => 1
      case RemoveLookup(_) => 3
      case RemoveInvites(_) => 2
      case RemoveUser(_) => 1
      case _ => 0
    }
  }

  datatype Operation =
    | Mint(name: string, projectId: Option<string>, userId: string, tokenHash: string, now: nat)
    | Redeem(tokenHash: string, key: string, now: nat)
    | Remove(name: string)

  function Begin(op: Operation): Program {
    match op
    case Mint(name, projectId, userId, tokenHash, now) =>
      if ValidUserName(name) then MintCheckName(name, projectId, userId, tokenHash, now) else Failed
    case Redeem(tokenHash, key, now) => RedeemConsume(tokenHash, key, now)
    case Remove(name) => RemoveLookup(name)
  }

  /** Run the next statement of a program. */
  ghost function Statement(t: Tables, p: Program): (Tables, Program) {
    match p
    case MintCheckName(name, projectId, userId, tokenHash, now) =>
      (t, if UserIdByName(t, name).Some? then Minted(None) else MintInsertUser(name, projectId, userId, tokenHash, now))
    case MintInsertUser(name, projectId, userId, tokenHash, now) =>
      (match InsertUser(t, userId, User(name, projectId, None, now))
       case Some(t') => (t', MintInsertInvite(userId, tokenHash, now))
       case None => (t, Failed))
    case MintInsertInvite(userId, tokenHash, now) =>
      (match InsertInvite(t, tokenHash, Invite(userId, now + INVITE_TTL_SECONDS, None, now))
       case Some(t') => (t', Minted(Some(userId)))
       case None => (t, Failed))
    case RedeemConsume(tokenHash, key, now) =>
      if Redeemable(t, tokenHash, now) then (ConsumeInvite(t, tokenHash, now), RedeemSelectUser(tokenHash, key))
      else (t, Redeemed(None))
    case RedeemSelectUser(tokenHash, key) =>
      (t, if tokenHash in t.invites then RedeemSetKey(tokenHash, t.invites[tokenHash].userId, key) else Failed)
    case RedeemSetKey(_, userId, key) => (SetUserKey(t, userId, key), Redeemed(Some(userId)))
    case RemoveLookup(name) =>
      (t, match UserIdByName(t, name)
          case Some(id) => RemoveInvites(id)
          case None => Removed(false))
    case RemoveInvites(userId) => (DeleteInvites(t, userId), RemoveUser(userId))
    case RemoveUser(userId) => (DeleteUser(t, userId), Removed(true))
    case _ => (t, p)
  }

  // ---------- runs ----------

  datatype Consumption = Consumption(pid: nat, tokenHash: string, key: string, now: nat)

  datatype KeyWrite = KeyWrite(pid: nat, userId: string, key: string)

  /**
   The tables and what has happened to them: ids and token hashes drawn, users created and
   deleted, invites as issued, consumptions and key writes in order.
   */
  datatype World = World(
    tables: Tables,
    drawnIds: set<string>,
    drawnHashes: set<string>,
    created: set<string>,
    deleted: set<string>,
    issued: map<string, Invite>,
    consumptions: seq<Consumption>,
    writes: seq<KeyWrite>)

  datatype State = State(world: World, programs: map<nat, Program>)

  const INITIAL := State(World(Tables(map[], map[]), {}, {}, {}, {}, map[], [], []), map[])

  /** A new request under a fresh process number, or the next statement of an old one. */
  datatype Action = Start(pid: nat, op: Operation) | Advance(pid: nat)

  /** Random user ids and invite tokens never repeat. */
  predicate FreshDraws(w: World, op: Operation) {
    op.Mint? ==> op.userId !in w.drawnIds && op.tokenHash !in w.drawnHashes
  }

  function Draw(w: World, op: Operation): World {
    if op.Mint? then w.(drawnIds := w.drawnIds + {op.userId}, drawnHashes := w.drawnHashes + {op.tokenHash}) else w
  }

  /** The world after process `pid` runs the next statement of `p`; only the history is new here. */
  ghost function RunStatement(w: World, pid: nat, p: Program): World {
    var (t, p') := Statement(w.tables, p);
    var ran := w.(tables := t);
    match p
    case MintInsertUser(_, _, userId, _, _) =>
      if p'.MintInsertInvite? then ran.(created := w.created + {userId}) else ran
    case MintInsertInvite(_, tokenHash, _) =>
      if p'.Minted? then ran.(issued := w.issued[tokenHash := t.invites[tokenHash]]) else ran
    case RedeemConsume(tokenHash, key, now) =>
      if p'.RedeemSelectUser? then
        ran.(consumptions := w.consumptions + [Consumption(pid, tokenHash, key, now)])
      else ran
    case RedeemSetKey(_, userId, key) =>
      if userId in w.tables.users then ran.(writes := w.writes + [KeyWrite(pid, userId, key)]) else ran
    case RemoveUser(userId) =>
      if userId in w.tables.users then ran.(deleted := w.deleted + {userId}) else ran
    case _ => ran
  }

  /** Actions that do not apply change nothing, so every sequence of actions is a run. */
  ghost function Step(s: State, a: Action): State {
    match a
    case Start(pid, op) =>
      if pid !in s.programs && FreshDraws(s.world, op) then
        State(Draw(s.world, op), s.programs[pid := Begin(op)])
      else s
    case Advance(pid) =>
      if pid in s.programs then
        var p := s.programs[pid];
        State(RunStatement(s.world, pid, p), s.programs[pid := Statement(s.world.tables, p).1])
      else s
  }

  ghost function RunFrom(s: State, actions: seq<Action>): State
    decreases |actions|
  {
    if actions == [] then s else RunFrom(Step(s, actions[0]), actions[1..])
  }

  ghost function Run(actions: seq<Action>): State {
    RunFrom(INITIAL, actions)
  }

  lemma {:induction false} RunFromAppend(s: State, before: seq<Action>, after: seq<Action>)
    ensures RunFrom(s, before + after) == RunFrom(RunFrom(s, before), after)
    decreases |before|
  {
    if before == [] {
      assert before + after == after;
    } else {
      assert (before + after)[1..] == before[1..] + after;
      RunFromAppend(Step(s, before[0]), before[1..], after);
    }
  }

  // ---------- the invariant of the world ----------

  /** Created ids are live or deleted, never both, and live names are unique. */
  ghost predicate UsersInv(w: World) {
    && w.created == w.tables.users.Keys + w.deleted
    && w.tables.users.Keys !! w.deleted
    && w.created <= w.drawnIds
    && UniqueNames(w.tables)
  }

  /** A user is issued at most one invite, and stored invites are issued ones. */
  ghost predicate InvitesInv(w: World) {
    && w.issued.Keys <= w.drawnHashes
    && (forall h | h in w.issued :: w.issued[h].userId in w.created)
    && (forall h, g | h in w.issued && g in w.issued && w.issued[h].userId == w.issued[g].userId :: h == g)
    && (forall h | h in w.tables.invites ::
          h in w.issued && w.tables.invites[h].(redeemedAt := None) == w.issued[h])
    && (forall h | h in w.issued :: w.issued[h].expiresAt == w.issued[h].createdAt + INVITE_TTL_SECONDS)
  }

  ghost predicate SoundConsumption(w: World, c: Consumption) {
    && c.tokenHash in w.issued
    && c.now < w.issued[c.tokenHash].expiresAt
    && (c.tokenHash in w.tables.invites ==> w.tables.invites[c.tokenHash].redeemedAt == Some(c.now))
  }

  /** An invite is consumed at most once, before it expires. */
  ghost predicate ConsumptionsInv(w: World) {
    && (forall i, j | 0 <= i < j < |w.consumptions| ::
          w.consumptions[i].tokenHash != w.consumptions[j].tokenHash)
    && (forall c | c in w.consumptions :: SoundConsumption(w, c))
  }

  ghost predicate ConsumedAt(w: World, tokenHash: string, now: nat) {
    exists c :: c in w.consumptions && c.tokenHash == tokenHash && c.now == now
  }

  /** A stored invite marked redeemed was consumed at that time. */
  ghost predicate RedeemedInv(w: World) {
    forall h | h in w.tables.invites && w.tables.invites[h].redeemedAt.Some? ::
      ConsumedAt(w, h, w.tables.invites[h].redeemedAt.value)
  }

  /** `c` is the consumption, by process `pid` with `key`, of an invite of `userId`. */
  ghost predicate ConsumedFor(w: World, c: Consumption, pid: nat, userId: string, key: string) {
    && c in w.consumptions && c.pid == pid && c.key == key
    && c.tokenHash in w.issued && w.issued[c.tokenHash].userId == userId
  }

  ghost predicate Consumed(w: World, pid: nat, userId: string, key: string) {
    exists c :: ConsumedFor(w, c, pid, userId, key)
  }

  /** A key is written at most once per user, by the process that consumed its invite. */
  ghost predicate WritesInv(w: World) {
    && (forall i, j | 0 <= i < j < |w.writes| :: w.writes[i].userId != w.writes[j].userId)
    && (forall x | x in w.writes :: x.userId in w.created && Consumed(w, x.pid, x.userId, x.key))
    && (forall x | x in w.writes && x.userId in w.tables.users ::
          w.tables.users[x.userId].publicKey == Some(x.key))
  }

  ghost predicate HasWrite(w: World, userId: string) {
    exists x :: x in w.writes && x.userId == userId
  }

  /** Only written keys are stored. */
  ghost predicate KeysInv(w: World) {
    forall u | u in w.tables.users && w.tables.users[u].publicKey.Some? :: HasWrite(w, u)
  }

  ghost predicate WorldInv(w: World) {
    UsersInv(w) && InvitesInv(w) && ConsumptionsInv(w) && RedeemedInv(w) && WritesInv(w) && KeysInv(w)
  }

  // ---------- the invariant of a program ----------

  ghost predicate Minting(p: Program) {
    p.MintCheckName? || p.MintInsertUser? || p.MintInsertInvite?
  }

  ghost predicate NotYetCreated(w: World, userId: string, tokenHash: string) {
    userId in w.drawnIds && userId !in w.created && tokenHash in w.drawnHashes && tokenHash !in w.issued
  }

  ghost predicate NotYetInvited(w: World, userId: string, tokenHash: string) {
    && userId in w.created && tokenHash in w.drawnHashes && tokenHash !in w.issued
    && forall h | h in w.issued :: w.issued[h].userId != userId
  }

  ghost predicate HasConsumed(w: World, pid: nat, tokenHash: string, key: string) {
    exists c :: c in w.consumptions && c.pid == pid && c.tokenHash == tokenHash && c.key == key
  }

  ghost predicate HasConsumedFor(w: World, pid: nat, tokenHash: string, userId: string, key: string) {
    exists c :: ConsumedFor(w, c, pid, userId, key) && c.tokenHash == tokenHash
  }

  /** The key a finished redemption consumed an invite for is stored, unless its user is gone. */
  ghost predicate Registered(w: World, pid: nat, userId: string) {
    exists c: Consumption :: ConsumedFor(w, c, pid, userId, c.key)
                && (userId in w.tables.users ==> w.tables.users[userId].publicKey == Some(c.key))
  }

  /** What a program knows about the world between two of its statements. */
  ghost predicate Knows(w: World, pid: nat, p: Program) {
    match p
    case MintCheckName(_, _, userId, tokenHash, _) => NotYetCreated(w, userId, tokenHash)
    case MintInsertUser(_, _, userId, tokenHash, _) => NotYetCreated(w, userId, tokenHash)
    case MintInsertInvite(userId, tokenHash, _) => NotYetInvited(w, userId, tokenHash)
    case RedeemSelectUser(tokenHash, key) => HasConsumed(w, pid, tokenHash, key)
    case RedeemSetKey(tokenHash, userId, key) => HasConsumedFor(w, pid, tokenHash, userId, key)
    case Redeemed(Some(userId)) => Registered(w, pid, userId)
    case RemoveInvites(userId) => userId in w.created
    case RemoveUser(userId) => userId in w.created
    case _ => true
  }

  ghost predicate HasActed(w: World, pid: nat) {
    || (exists c :: c in w.consumptions && c.pid == pid)
    || (exists x :: x in w.writes && x.pid == pid)
  }

  ghost predicate HasWritten(w: World, pid: nat) {
    exists x :: x in w.writes && x.pid == pid
  }

  /** Only a redemption past its first statement has consumed, only a finished one has written. */
  ghost predicate Accountable(w: World, pid: nat, p: Program) {
    && (HasActed(w, pid) ==> p.RedeemSelectUser? || p.RedeemSetKey? || p.Redeemed? || p.Failed?)
    && (HasWritten(w, pid) ==> p.Redeemed?)
    && (p == Redeemed(None) ==> !HasActed(w, pid))
  }

  ghost predicate ProgramOk(w: World, pid: nat, p: Program) {
    Knows(w, pid, p) && Accountable(w, pid, p)
  }

  ghost predicate DistinctDraws(p: Program, q: Program) {
    Minting(p) && Minting(q) ==> p.userId != q.userId && p.tokenHash != q.tokenHash
  }

  ghost predicate ProgramsInv(s: State) {
    && (forall pid | pid in s.programs :: ProgramOk(s.world, pid, s.programs[pid]))
    && (forall pid | HasActed(s.world, pid) :: pid in s.programs)
    && (forall p, q | p in s.programs && q in s.programs && p != q :: DistinctDraws(s.programs[p], s.programs[q]))
  }

  ghost predicate Inv(s: State) {
    WorldInv(s.world) && ProgramsInv(s)
  }

  // ---------- the six ways a statement changes the world ----------

  ghost function CreateUser(w: World, id: string, user: User): World {
    w.(tables := w.tables.(users := w.tables.users[id := user]), created := w.created + {id})
  }

  ghost function IssueInvite(w: World, h: string, invite: Invite): World {
    w.(tables := w.tables.(invites := w.tables.invites[h := invite]), issued := w.issued[h := invite])
  }

  ghost function Consume(w: World, c: Consumption): World
    requires Redeemable(w.tables, c.tokenHash, c.now)
  {
    w.(tables := ConsumeInvite(w.tables, c.tokenHash, c.now), consumptions := w.consumptions + [c])
  }

  ghost function WriteKey(w: World, x: KeyWrite): World {
    w.(tables := SetUserKey(w.tables, x.userId, x.key), writes := w.writes + [x])
  }

  ghost function DropInvites(w: World, userId: string): World {
    w.(tables := DeleteInvites(w.tables, userId))
  }

  ghost function DropUser(w: World, userId: string): World {
    w.(tables := DeleteUser(w.tables, userId), deleted := w.deleted + {userId})
  }

  /** Nothing in the history is lost, and no key appears. */
  ghost predicate Extends(w: World, w': World) {
    && (forall c | c in w.consumptions :: c in w'.consumptions)
    && (forall h | h in w.issued :: h in w'.issued && w'.issued[h] == w.issued[h])
    && (forall x | x in w.writes :: x in w'.writes)
    && w.created <= w'.created
  }

  lemma ConsumedStays(w: World, w': World, pid: nat, userId: string, key: string)
    requires Extends(w, w') && Consumed(w, pid, userId, key)
    ensures Consumed(w', pid, userId, key)
  {
    var c :| ConsumedFor(w, c, pid, userId, key);
    assert ConsumedFor(w', c, pid, userId, key);
  }

  /** Marks stay explained while no invite is newly marked. */
  lemma MarksStay(w: World, w': World)
    requires Extends(w, w') && RedeemedInv(w)
    requires forall h | h in w'.tables.invites && w'.tables.invites[h].redeemedAt.Some? ::
               h in w.tables.invites && w.tables.invites[h] == w'.tables.invites[h]
    ensures RedeemedInv(w')
  {
    forall h | h in w'.tables.invites && w'.tables.invites[h].redeemedAt.Some?
      ensures ConsumedAt(w', h, w'.tables.invites[h].redeemedAt.value)
    {
      var c :| c in w.consumptions && c.tokenHash == h && c.now == w.tables.invites[h].redeemedAt.value;
      assert c in w'.consumptions;
    }
  }

  /** A step that writes no key keeps what holds of the writes. */
  lemma WritesStay(w: World, w': World)
    requires Extends(w, w') && WritesInv(w) && KeysInv(w) && w'.writes == w.writes
    requires forall u | u in w'.tables.users ::
               if u in w.tables.users then w'.tables.users[u].publicKey == w.tables.users[u].publicKey
               else u !in w.created && w'.tables.users[u].publicKey.None?
    ensures WritesInv(w') && KeysInv(w')
  {
    forall x | x in w'.writes
      ensures Consumed(w', x.pid, x.userId, x.key)
    {
      ConsumedStays(w, w', x.pid, x.userId, x.key);
    }
    forall u | u in w'.tables.users && w'.tables.users[u].publicKey.Some?
      ensures HasWrite(w', u)
    {
      assert HasWrite(w, u);
    }
  }

  // Each keeps the invariant of the world.

  lemma CreateUserKeeps(w: World, id: string, user: User)
    requires WorldInv(w) && id in w.drawnIds && id !in w.created
    requires !NameTaken(w.tables, user.name) && user.publicKey.None?
    ensures WorldInv(CreateUser(w, id, user))
  {
    var w' := CreateUser(w, id, user);
    MarksStay(w, w');
    WritesStay(w, w');
  }

  lemma IssueInviteKeepsInvites(w: World, h: string, invite: Invite)
    requires InvitesInv(w) && ConsumptionsInv(w) && NotYetInvited(w, invite.userId, h)
    requires invite.redeemedAt.None? && invite.expiresAt == invite.createdAt + INVITE_TTL_SECONDS
    ensures InvitesInv(IssueInvite(w, h, invite)) && ConsumptionsInv(IssueInvite(w, h, invite))
  {
  }

  lemma IssueInviteKeeps(w: World, h: string, invite: Invite)
    requires WorldInv(w) && NotYetInvited(w, invite.userId, h)
    requires invite.redeemedAt.None? && invite.expiresAt == invite.createdAt + INVITE_TTL_SECONDS
    ensures WorldInv(IssueInvite(w, h, invite))
  {
    IssueInviteKeepsInvites(w, h, invite);
    var w' := IssueInvite(w, h, invite);
    MarksStay(w, w');
    WritesStay(w, w');
  }

  lemma ConsumeMarks(w: World, c: Consumption)
    requires RedeemedInv(w) && Redeemable(w.tables, c.tokenHash, c.now)
    ensures RedeemedInv(Consume(w, c))
  {
    var w' := Consume(w, c);
    assert c in w'.consumptions;
    forall h | h in w'.tables.invites && w'.tables.invites[h].redeemedAt.Some?
      ensures ConsumedAt(w', h, w'.tables.invites[h].redeemedAt.value)
    {
      if h != c.tokenHash {
        var d :| d in w.consumptions && d.tokenHash == h && d.now == w.tables.invites[h].redeemedAt.value;
        assert d in w'.consumptions;
      }
    }
  }

  lemma ConsumeKeeps(w: World, c: Consumption)
    requires WorldInv(w) && Redeemable(w.tables, c.tokenHash, c.now)
    ensures WorldInv(Consume(w, c))
  {
    var w' := Consume(w, c);
    assert forall d :: d in w'.consumptions <==> d in w.consumptions || d == c;
    forall i | 0 <= i < |w.consumptions|
      ensures w.consumptions[i].tokenHash != c.tokenHash
    {
      assert SoundConsumption(w, w.consumptions[i]);
    }
    forall d | d in w'.consumptions
      ensures SoundConsumption(w', d)
    {
      if d in w.consumptions {
        assert SoundConsumption(w, d);
      }
    }
    ConsumeMarks(w, c);
    WritesStay(w, w');
  }

  /** Two consumptions for the same user are the same one. */
  lemma ConsumptionUnique(w: World, c: Consumption, d: Consumption, userId: string)
    requires InvitesInv(w) && ConsumptionsInv(w)
    requires ConsumedFor(w, c, c.pid, userId, c.key) && ConsumedFor(w, d, d.pid, userId, d.key)
    ensures c == d
  {
    assert c.tokenHash == d.tokenHash;
    var i :| 0 <= i < |w.consumptions| && w.consumptions[i] == c;
    var j :| 0 <= j < |w.consumptions| && w.consumptions[j] == d;
    assert !(i < j) && !(j < i);
  }

  /** A process that is about to write the key of a user is the first to do so. */
  lemma NothingWrittenYet(w: World, c: Consumption, userId: string)
    requires WorldInv(w) && ConsumedFor(w, c, c.pid, userId, c.key) && !HasWritten(w, c.pid)
    ensures !HasWrite(w, userId)
  {
    forall x | x in w.writes
      ensures x.userId != userId
    {
      var d :| ConsumedFor(w, d, x.pid, x.userId, x.key);
      if x.userId == userId {
        ConsumptionUnique(w, c, d, userId);
      }
    }
  }

  lemma WriteKeyKeepsWrites(w: World, x: KeyWrite, c: Consumption)
    requires WritesInv(w) && !HasWrite(w, x.userId)
    requires ConsumedFor(w, c, x.pid, x.userId, x.key) && x.userId in w.created
    ensures WritesInv(WriteKey(w, x))
  {
    var w' := WriteKey(w, x);
    assert forall y :: y in w'.writes <==> y in w.writes || y == x;
    assert forall i | 0 <= i < |w.writes| :: w.writes[i] in w.writes;
    forall y | y in w'.writes
      ensures Consumed(w', y.pid, y.userId, y.key)
    {
      if y == x {
        assert ConsumedFor(w', c, y.pid, y.userId, y.key);
      } else {
        ConsumedStays(w, w', y.pid, y.userId, y.key);
      }
    }
  }

  lemma WriteKeyKeepsRows(w: World, x: KeyWrite)
    requires UsersInv(w) && InvitesInv(w) && ConsumptionsInv(w) && x.userId in w.tables.users
    ensures var w' := WriteKey(w, x); UsersInv(w') && InvitesInv(w') && ConsumptionsInv(w')
  {
    assert forall d | d in WriteKey(w, x).consumptions :: SoundConsumption(w, d);
  }

  lemma WriteKeyKeeps(w: World, x: KeyWrite, c: Consumption)
    requires WorldInv(w) && ConsumedFor(w, c, x.pid, x.userId, x.key) && !HasWritten(w, x.pid)
    requires x.userId in w.tables.users
    ensures WorldInv(WriteKey(w, x))
  {
    NothingWrittenYet(w, c, x.userId);
    WriteKeyKeepsWrites(w, x, c);
    var w' := WriteKey(w, x);
    WriteKeyKeepsRows(w, x);
    MarksStay(w, w');
    assert x in w'.writes;
    forall u | u in w'.tables.users && w'.tables.users[u].publicKey.Some?
      ensures HasWrite(w', u)
    {
      if u != x.userId {
        var y :| y in w.writes && y.userId == u;
        assert y in w'.writes;
      }
    }
  }

  lemma DropInvitesKeeps(w: World, userId: string)
    requires WorldInv(w)
    ensures WorldInv(DropInvites(w, userId))
  {
    var w' := DropInvites(w, userId);
    forall c | c in w'.consumptions
      ensures SoundConsumption(w', c)
    {
      assert SoundConsumption(w, c);
    }
    MarksStay(w, w');
    WritesStay(w, w');
  }

  lemma DropUserKeeps(w: World, userId: string)
    requires WorldInv(w) && userId in w.created
    ensures WorldInv(DropUser(w, userId))
  {
    var w' := DropUser(w, userId);
    MarksStay(w, w');
    WritesStay(w, w');
  }

  // ---------- no statement disturbs what another program knows ----------

  lemma HasConsumedStays(w: World, w': World, pid: nat, h: string, key: string)
    requires Extends(w, w') && HasConsumed(w, pid, h, key)
    ensures HasConsumed(w', pid, h, key)
  {
    var c :| c in w.consumptions && c.pid == pid && c.tokenHash == h && c.key == key;
    assert c in w'.consumptions;
  }

  lemma HasConsumedForStays(w: World, w': World, pid: nat, h: string, userId: string, key: string)
    requires Extends(w, w') && HasConsumedFor(w, pid, h, userId, key)
    ensures HasConsumedFor(w', pid, h, userId, key)
  {
    var c :| ConsumedFor(w, c, pid, userId, key) && c.tokenHash == h;
    assert ConsumedFor(w', c, pid, userId, key);
  }

  lemma RegisteredStays(w: World, w': World, pid: nat, userId: string)
    requires Extends(w, w') && InvitesInv(w) && Registered(w, pid, userId)
    requires userId in w'.tables.users && userId in w.created ==>
               userId in w.tables.users && w'.tables.users[userId].publicKey == w.tables.users[userId].publicKey
    ensures Registered(w', pid, userId)
  {
    var c: Consumption :| ConsumedFor(w, c, pid, userId, c.key)
                          && (userId in w.tables.users ==> w.tables.users[userId].publicKey == Some(c.key));
    assert ConsumedFor(w', c, pid, userId, c.key);
  }

  /** What a step of another process must leave alone for `p` to stay as it is. */
  ghost predicate LeavesAlone(w: World, w': World, pid: nat, p: Program) {
    && Extends(w, w') && w.drawnIds <= w'.drawnIds && w.drawnHashes <= w'.drawnHashes
    && (HasActed(w', pid) ==> HasActed(w, pid))
    && (HasWritten(w', pid) ==> HasWritten(w, pid))
    && (p.MintCheckName? || p.MintInsertUser? ==>
          (p.userId in w'.created ==> p.userId in w.created) && (p.tokenHash in w'.issued ==> p.tokenHash in w.issued))
    && (p.MintInsertInvite? ==>
          forall h | h in w'.issued && h !in w.issued :: h != p.tokenHash && w'.issued[h].userId != p.userId)
    && (p.Redeemed? && p.redeemed.Some? ==>
          var u := p.redeemed.value;
          u in w'.tables.users && u in w.created ==>
            u in w.tables.users && w'.tables.users[u].publicKey == w.tables.users[u].publicKey)
  }

  lemma StaysOk(w: World, w': World, pid: nat, p: Program)
    requires InvitesInv(w) && ProgramOk(w, pid, p) && LeavesAlone(w, w', pid, p)
    ensures ProgramOk(w', pid, p)
  {
    match p
    case RedeemSelectUser(h, key) => HasConsumedStays(w, w', pid, h, key);
    case RedeemSetKey(h, userId, key) => HasConsumedForStays(w, w', pid, h, userId, key);
    case Redeemed(Some(userId)) => RegisteredStays(w, w', pid, userId);
    case _ =>
  }

  /** A step of `pid` from a good state to a good world is good if it leaves the others alone. */
  lemma StepOfOne(s: State, pid: nat, w': World, p': Program)
    requires Inv(s) && pid in s.programs
    requires WorldInv(w') && ProgramOk(w', pid, p')
    requires forall q | q in s.programs && q != pid :: LeavesAlone(s.world, w', q, s.programs[q])
    requires forall q | q != pid && HasActed(w', q) :: HasActed(s.world, q)
    requires Minting(p') ==>
               && Minting(s.programs[pid])
               && p'.userId == s.programs[pid].userId && p'.tokenHash == s.programs[pid].tokenHash
    ensures Inv(State(w', s.programs[pid := p']))
  {
    var s' := State(w', s.programs[pid := p']);
    forall q | q in s'.programs
      ensures ProgramOk(w', q, s'.programs[q])
    {
      if q != pid {
        StaysOk(s.world, w', q, s.programs[q]);
      }
    }
    forall q, r | q in s'.programs && r in s'.programs && q != r
      ensures DistinctDraws(s'.programs[q], s'.programs[r])
    {
      assert DistinctDraws(s.programs[q], s.programs[r]);
    }
  }

  /** A statement that only reads. */
  lemma ReadingStep(s: State, pid: nat, p': Program)
    requires Inv(s) && pid in s.programs
    requires ProgramOk(s.world, pid, p')
    requires Minting(p') ==>
               && Minting(s.programs[pid])
               && p'.userId == s.programs[pid].userId && p'.tokenHash == s.programs[pid].tokenHash
    ensures Inv(State(s.world, s.programs[pid := p']))
  {
    StepOfOne(s, pid, s.world, p');
  }

  lemma MintCheckNameStep(s: State, pid: nat)
    requires Inv(s) && pid in s.programs && s.programs[pid].MintCheckName?
    ensures Inv(Step(s, Advance(pid)))
  {
    ReadingStep(s, pid, Statement(s.world.tables, s.programs[pid]).1);
  }

  lemma CreateUserLeavesAlone(w: World, id: string, user: User, pid: nat, p: Program)
    requires WorldInv(w) && id !in w.created && ProgramOk(w, pid, p)
    requires Minting(p) ==> p.userId != id
    ensures LeavesAlone(w, CreateUser(w, id, user), pid, p)
  {
  }

  lemma MintInsertUserStep(s: State, pid: nat)
    requires Inv(s) && pid in s.programs && s.programs[pid].MintInsertUser?
    ensures Inv(Step(s, Advance(pid)))
  {
    var w, p := s.world, s.programs[pid];
    if NameTaken(w.tables, p.name) {
      ReadingStep(s, pid, Failed);
    } else {
      var user := User(p.name, p.projectId, None, p.now);
      var w', p' := CreateUser(w, p.userId, user), MintInsertInvite(p.userId, p.tokenHash, p.now);
      CreateUserKeeps(w, p.userId, user);
      forall q | q in s.programs && q != pid
        ensures LeavesAlone(w, w', q, s.programs[q])
      {
        assert DistinctDraws(p, s.programs[q]);
        CreateUserLeavesAlone(w, p.userId, user, q, s.programs[q]);
      }
      StepOfOne(s, pid, w', p');
    }
  }

  lemma IssueInviteLeavesAlone(w: World, h: string, invite: Invite, pid: nat, p: Program)
    requires WorldInv(w) && h !in w.issued && ProgramOk(w, pid, p)
    requires Minting(p) ==> p.userId != invite.userId && p.tokenHash != h
    ensures LeavesAlone(w, IssueInvite(w, h, invite), pid, p)
  {
  }

  lemma IssueInviteOthers(s: State, pid: nat, invite: Invite)
    requires Inv(s) && pid in s.programs && s.programs[pid].MintInsertInvite?
    requires s.programs[pid].userId == invite.userId
    ensures forall q | q in s.programs && q != pid ::
              LeavesAlone(s.world, IssueInvite(s.world, s.programs[pid].tokenHash, invite), q, s.programs[q])
  {
    var w, p := s.world, s.programs[pid];
    forall q | q in s.programs && q != pid
      ensures LeavesAlone(w, IssueInvite(w, p.tokenHash, invite), q, s.programs[q])
    {
      assert DistinctDraws(p, s.programs[q]);
      IssueInviteLeavesAlone(w, p.tokenHash, invite, q, s.programs[q]);
    }
  }

  lemma MintInsertInviteRuns(w: World, pid: nat, p: Program, invite: Invite)
    requires p.MintInsertInvite? && p.tokenHash !in w.tables.invites
    requires invite == Invite(p.userId, p.now + INVITE_TTL_SECONDS, None, p.now)
    ensures RunStatement(w, pid, p) == IssueInvite(w, p.tokenHash, invite)
    ensures Statement(w.tables, p).1 == Minted(Some(p.userId))
  {
    assert InsertInvite(w.tables, p.tokenHash, invite) ==
           Some(w.tables.(invites := w.tables.invites[p.tokenHash := invite]));
  }

  lemma MintInsertInviteStep(s: State, pid: nat)
    requires Inv(s) && pid in s.programs && s.programs[pid].MintInsertInvite?
    ensures Inv(Step(s, Advance(pid)))
  {
    var w, p := s.world, s.programs[pid];
    var invite := Invite(p.userId, p.now + INVITE_TTL_SECONDS, None, p.now);
    IssueInviteKeeps(w, p.tokenHash, invite);
    IssueInviteOthers(s, pid, invite);
    MintInsertInviteRuns(w, pid, p, invite);
    StepOfOne(s, pid, IssueInvite(w, p.tokenHash, invite), Minted(Some(p.userId)));
  }

  lemma ConsumeLeavesAlone(w: World, c: Consumption, pid: nat, p: Program)
    requires Redeemable(w.tables, c.tokenHash, c.now) && c.pid != pid
    ensures LeavesAlone(w, Consume(w, c), pid, p)
  {
  }

  lemma ConsumerKnows(w: World, c: Consumption)
    requires Redeemable(w.tables, c.tokenHash, c.now) && !HasWritten(w, c.pid)
    ensures ProgramOk(Consume(w, c), c.pid, RedeemSelectUser(c.tokenHash, c.key))
  {
    assert c in Consume(w, c).consumptions;
  }

  lemma RedeemConsumeStep(s: State, pid: nat)
    requires Inv(s) && pid in s.programs && s.programs[pid].RedeemConsume?
    ensures Inv(Step(s, Advance(pid)))
  {
    var w, p := s.world, s.programs[pid];
    if Redeemable(w.tables, p.tokenHash, p.now) {
      ConsumingStep(s, Consumption(pid, p.tokenHash, p.key, p.now));
    } else {
      ReadingStep(s, pid, Redeemed(None));
    }
  }

  lemma ConsumingStep(s: State, c: Consumption)
    requires Inv(s) && c.pid in s.programs && s.programs[c.pid].RedeemConsume?
    requires Redeemable(s.world.tables, c.tokenHash, c.now)
    ensures Inv(State(Consume(s.world, c), s.programs[c.pid := RedeemSelectUser(c.tokenHash, c.key)]))
  {
    ConsumeKeeps(s.world, c);
    ConsumerKnows(s.world, c);
    forall q | q in s.programs && q != c.pid
      ensures LeavesAlone(s.world, Consume(s.world, c), q, s.programs[q])
    {
      ConsumeLeavesAlone(s.world, c, q, s.programs[q]);
    }
    StepOfOne(s, c.pid, Consume(s.world, c), RedeemSelectUser(c.tokenHash, c.key));
  }

  lemma RedeemSelectUserStep(s: State, pid: nat)
    requires Inv(s) && pid in s.programs && s.programs[pid].RedeemSelectUser?
    ensures Inv(Step(s, Advance(pid)))
  {
    var w, p := s.world, s.programs[pid];
    var p' := Statement(w.tables, p).1;
    var c :| c in w.consumptions && c.pid == pid && c.tokenHash == p.tokenHash && c.key == p.key;
    if p.tokenHash in w.tables.invites {
      assert ConsumedFor(w, c, pid, w.tables.invites[p.tokenHash].userId, p.key);
    }
    ReadingStep(s, pid, p');
  }

  /** Nobody else has registered for the user of a consumption. */
  lemma OtherRegistrationsStay(w: World, c: Consumption, pid: nat, p: Program, userId: string)
    requires WorldInv(w) && ConsumedFor(w, c, c.pid, userId, c.key)
    requires ProgramOk(w, pid, p) && pid != c.pid
    ensures p != Redeemed(Some(userId))
  {
    if p == Redeemed(Some(userId)) {
      var d: Consumption :| ConsumedFor(w, d, pid, userId, d.key);
      ConsumptionUnique(w, c, d, userId);
    }
  }

  lemma WriteKeyLeavesAlone(w: World, x: KeyWrite, c: Consumption, pid: nat, p: Program)
    requires WorldInv(w) && ConsumedFor(w, c, x.pid, x.userId, x.key)
    requires ProgramOk(w, pid, p) && pid != x.pid && x.userId in w.tables.users
    ensures LeavesAlone(w, WriteKey(w, x), pid, p)
  {
    OtherRegistrationsStay(w, c, pid, p, x.userId);
    assert forall y :: y in WriteKey(w, x).writes <==> y in w.writes || y == x;
  }

  lemma WriterKnows(w: World, x: KeyWrite, c: Consumption)
    requires ConsumedFor(w, c, x.pid, x.userId, x.key) && x.userId in w.tables.users
    ensures ProgramOk(WriteKey(w, x), x.pid, Redeemed(Some(x.userId)))
  {
    assert ConsumedFor(WriteKey(w, x), c, x.pid, x.userId, c.key);
  }

  lemma RedeemSetKeyStep(s: State, pid: nat)
    requires Inv(s) && pid in s.programs && s.programs[pid].RedeemSetKey?
    ensures Inv(Step(s, Advance(pid)))
  {
    var w, p := s.world, s.programs[pid];
    var c :| ConsumedFor(w, c, pid, p.userId, p.key) && c.tokenHash == p.tokenHash;
    if p.userId in w.tables.users {
      var x := KeyWrite(pid, p.userId, p.key);
      WriteKeyKeeps(w, x, c);
      WriterKnows(w, x, c);
      forall q | q in s.programs && q != pid
        ensures LeavesAlone(w, WriteKey(w, x), q, s.programs[q])
      {
        WriteKeyLeavesAlone(w, x, c, q, s.programs[q]);
      }
      WriteKeyActs(w, x);
      StepOfOne(s, pid, WriteKey(w, x), Redeemed(Some(p.userId)));
    } else {
      assert ConsumedFor(w, c, pid, p.userId, c.key);
      ReadingStep(s, pid, Redeemed(Some(p.userId)));
    }
  }

  lemma WriteKeyActs(w: World, x: KeyWrite)
    ensures forall q | q != x.pid && HasActed(WriteKey(w, x), q) :: HasActed(w, q)
  {
    assert forall y :: y in WriteKey(w, x).writes <==> y in w.writes || y == x;
  }

  lemma RemoveLookupStep(s: State, pid: nat)
    requires Inv(s) && pid in s.programs && s.programs[pid].RemoveLookup?
    ensures Inv(Step(s, Advance(pid)))
  {
    ReadingStep(s, pid, Statement(s.world.tables, s.programs[pid]).1);
  }

  lemma DropLeavesAlone(w: World, userId: string, pid: nat, p: Program)
    ensures LeavesAlone(w, DropInvites(w, userId), pid, p) && LeavesAlone(w, DropUser(w, userId), pid, p)
  {
  }

  lemma RemoveInvitesStep(s: State, pid: nat)
    requires Inv(s) && pid in s.programs && s.programs[pid].RemoveInvites?
    ensures Inv(Step(s, Advance(pid)))
  {
    var w, p := s.world, s.programs[pid];
    DropInvitesKeeps(w, p.userId);
    forall q | q in s.programs && q != pid
      ensures LeavesAlone(w, DropInvites(w, p.userId), q, s.programs[q])
    {
      DropLeavesAlone(w, p.userId, q, s.programs[q]);
    }
    StepOfOne(s, pid, DropInvites(w, p.userId), RemoveUser(p.userId));
  }

  lemma RemoveUserStep(s: State, pid: nat)
    requires Inv(s) && pid in s.programs && s.programs[pid].RemoveUser?
    ensures Inv(Step(s, Advance(pid)))
  {
    var w, p := s.world, s.programs[pid];
    if p.userId in w.tables.users {
      DropUserKeeps(w, p.userId);
      forall q | q in s.programs && q != pid
        ensures LeavesAlone(w, DropUser(w, p.userId), q, s.programs[q])
      {
        DropLeavesAlone(w, p.userId, q, s.programs[q]);
      }
      StepOfOne(s, pid, DropUser(w, p.userId), Removed(true));
    } else {
      assert w.tables.users - {p.userId} == w.tables.users;
      ReadingStep(s, pid, Removed(true));
    }
  }

  lemma DrawKeeps(w: World, op: Operation)
    requires WorldInv(w)
    ensures WorldInv(Draw(w, op))
  {
    MarksStay(w, Draw(w, op));
    WritesStay(w, Draw(w, op));
    assert forall c | c in w.consumptions :: SoundConsumption(w, c);
  }

  lemma DrawLeavesAlone(w: World, op: Operation, pid: nat, p: Program)
    requires InvitesInv(w) && ProgramOk(w, pid, p)
    ensures ProgramOk(Draw(w, op), pid, p)
  {
    StaysOk(w, Draw(w, op), pid, p);
  }

  lemma BeginKnows(w: World, pid: nat, op: Operation)
    requires UsersInv(w) && InvitesInv(w) && FreshDraws(w, op) && !HasActed(w, pid)
    ensures ProgramOk(Draw(w, op), pid, Begin(op))
  {
  }

  lemma BeginIsDistinct(w: World, op: Operation, pid: nat, p: Program)
    requires UsersInv(w) && FreshDraws(w, op) && ProgramOk(w, pid, p)
    ensures DistinctDraws(Begin(op), p) && DistinctDraws(p, Begin(op))
  {
  }

  lemma StartKeeps(s: State, pid: nat, op: Operation)
    requires Inv(s)
    ensures Inv(Step(s, Start(pid, op)))
  {
    if pid !in s.programs && FreshDraws(s.world, op) {
      var w, w' := s.world, Draw(s.world, op);
      DrawKeeps(w, op);
      forall q | q in s.programs
        ensures ProgramOk(w', q, s.programs[q])
        ensures DistinctDraws(Begin(op), s.programs[q]) && DistinctDraws(s.programs[q], Begin(op))
      {
        DrawLeavesAlone(w, op, q, s.programs[q]);
        BeginIsDistinct(w, op, q, s.programs[q]);
      }
      BeginKnows(w, pid, op);
    }
  }

  lemma AdvanceKeeps(s: State, pid: nat)
    requires Inv(s)
    ensures Inv(Step(s, Advance(pid)))
  {
    if pid in s.programs {
      match s.programs[pid]
      case MintCheckName(_, _, _, _, _) => MintCheckNameStep(s, pid);
      case MintInsertUser(_, _, _, _, _) => MintInsertUserStep(s, pid);
      case MintInsertInvite(_, _, _) => MintInsertInviteStep(s, pid);
      case RedeemConsume(_, _, _) => RedeemConsumeStep(s, pid);
      case RedeemSelectUser(_, _) => RedeemSelectUserStep(s, pid);
      case RedeemSetKey(_, _, _) => RedeemSetKeyStep(s, pid);
      case RemoveLookup(_) => RemoveLookupStep(s, pid);
      case RemoveInvites(_) => RemoveInvitesStep(s, pid);
      case RemoveUser(_) => RemoveUserStep(s, pid);
      case _ => assert s.programs[pid := s.programs[pid]] == s.programs;
    }
  }

  lemma {:induction false} RunFromKeeps(s: State, actions: seq<Action>)
    requires Inv(s)
    ensures Inv(RunFrom(s, actions))
    decreases |actions|
  {
    if actions != [] {
      match actions[0] {
        case Start(pid, op) => StartKeeps(s, pid, op);
        case Advance(pid) => AdvanceKeeps(s, pid);
      }
      RunFromKeeps(Step(s, actions[0]), actions[1..]);
    }
  }

  lemma RunKeeps(actions: seq<Action>)
    ensures Inv(Run(actions))
  {
    RunFromKeeps(INITIAL, actions);
  }
}
