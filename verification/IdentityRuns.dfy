/** What holds of users, keys and invites over every interleaving, and of each request run alone. */
module IdentityRuns {
  import opened Prelude
  import opened Identity

  // ---------- over every run ----------

  /** A key is written at most once per user: the key sent with the redemption of its only invite. */
  lemma KeyWrittenOnce(actions: seq<Action>)
    ensures var w := Run(actions).world;
            && (forall i, j | 0 <= i < j < |w.writes| :: w.writes[i].userId != w.writes[j].userId)
            && (forall x | x in w.writes :: exists c ::
                  && ConsumedFor(w, c, x.pid, x.userId, x.key)
                  && forall h | h in w.issued && w.issued[h].userId == x.userId :: h == c.tokenHash)
            && (forall u, k | u in w.tables.users ::
                  w.tables.users[u].publicKey == Some(k) <==> exists x :: x in w.writes && x.userId == u && x.key == k)
  {
    RunKeeps(actions);
    var w := Run(actions).world;
    forall x | x in w.writes
      ensures exists c ::
                && ConsumedFor(w, c, x.pid, x.userId, x.key)
                && forall h | h in w.issued && w.issued[h].userId == x.userId :: h == c.tokenHash
    {
      assert Consumed(w, x.pid, x.userId, x.key);
    }
    forall u, k | u in w.tables.users && w.tables.users[u].publicKey == Some(k)
      ensures exists x :: x in w.writes && x.userId == u && x.key == k
    {
      assert HasWrite(w, u);
    }
  }

  /**
   Each invite is consumed by at most one redemption, before it expires, and the stored column
   says so: an invite is marked redeemed exactly at the time it was consumed.
   */
  lemma InviteConsumedOnce(actions: seq<Action>)
    ensures var w := Run(actions).world;
            && (forall i, j | 0 <= i < j < |w.consumptions| ::
                  w.consumptions[i].tokenHash != w.consumptions[j].tokenHash)
            && (forall c | c in w.consumptions ::
                  && c.tokenHash in w.issued
                  && c.now < w.issued[c.tokenHash].expiresAt
                  && w.issued[c.tokenHash].expiresAt == w.issued[c.tokenHash].createdAt + 86400)
            && (forall h, now: nat | h in w.tables.invites ::
                  w.tables.invites[h].redeemedAt == Some(now) <==> ConsumedAt(w, h, now))
  {
    RunKeeps(actions);
    var w := Run(actions).world;
    assert forall c | c in w.consumptions :: SoundConsumption(w, c);
    forall h, now: nat | h in w.tables.invites && w.tables.invites[h].redeemedAt == Some(now)
      ensures ConsumedAt(w, h, now)
    {
      assert RedeemedInv(w);
    }
  }

  /** The stored invite of a user with a key is marked redeemed. */
  lemma KeyMeansRedeemed(actions: seq<Action>, userId: string, tokenHash: string)
    requires var t := Run(actions).world.tables;
             && userId in t.users && t.users[userId].publicKey.Some?
             && tokenHash in t.invites && t.invites[tokenHash].userId == userId
    ensures Run(actions).world.tables.invites[tokenHash].redeemedAt.Some?
  {
    RunKeeps(actions);
    var w := Run(actions).world;
    assert HasWrite(w, userId);
    var x :| x in w.writes && x.userId == userId;
    assert Consumed(w, x.pid, x.userId, x.key);
    var c :| ConsumedFor(w, c, x.pid, userId, x.key);
    assert SoundConsumption(w, c);
  }

  /** Statements run between two states only add to the history. */
  lemma {:induction false} HistoryOnlyGrows(s: State, more: seq<Action>)
    ensures s.world.deleted <= RunFrom(s, more).world.deleted
    ensures s.world.created <= RunFrom(s, more).world.created
    decreases |more|
  {
    if more != [] {
      HistoryOnlyGrows(Step(s, more[0]), more[1..]);
    }
  }

  /** A deleted user never comes back, whatever was in flight for it. */
  lemma RemovalIsFinal(actions: seq<Action>, more: seq<Action>, userId: string)
    requires userId in Run(actions).world.deleted
    ensures userId !in Run(actions + more).world.tables.users
    ensures KeyOwner(Run(actions + more).world.tables, userId).None?
  {
    RunFromAppend(INITIAL, actions, more);
    HistoryOnlyGrows(Run(actions), more);
    RunKeeps(actions + more);
  }

  /** The last statement of a removal leaves its user deleted. */
  lemma RemovalDeletes(actions: seq<Action>, pid: nat)
    requires pid in Run(actions).programs && Run(actions).programs[pid].RemoveUser?
    ensures Run(actions).programs[pid].userId in Step(Run(actions), Advance(pid)).world.deleted
  {
    RunKeeps(actions);
    assert Knows(Run(actions).world, pid, Run(actions).programs[pid]);
  }

  ghost predicate Removing(p: Program, userId: string) {
    p == RemoveInvites(userId) || p == RemoveUser(userId) || p == Removed(true)
  }

  lemma {:induction false} RemovalKeepsItsUser(s: State, more: seq<Action>, pid: nat, userId: string)
    requires pid in s.programs && Removing(s.programs[pid], userId)
    ensures pid in RunFrom(s, more).programs && Removing(RunFrom(s, more).programs[pid], userId)
    decreases |more|
  {
    if more != [] {
      RemovalKeepsItsUser(Step(s, more[0]), more[1..], pid, userId);
    }
  }

  ghost predicate SameRows(t: Tables, t': Tables, userId: string) {
    && userId in t.users && userId in t'.users && t'.users[userId] == t.users[userId]
    && forall h | h in t.invites && t.invites[h].userId == userId :: h in t'.invites && t'.invites[h] == t.invites[h]
  }

  lemma RemovingTouchesOne(t: Tables, p: Program, userId: string, other: string)
    requires Removing(p, userId) && other != userId && other in t.users
    ensures SameRows(t, Statement(t, p).0, other)
  {
  }

  /** A removal in flight deletes neither a user created after its lookup nor that user's invites. */
  lemma RemovalIsPrecise(actions: seq<Action>, more: seq<Action>, pid: nat, userId: string, later: string)
    requires pid in Run(actions).programs
    requires Run(actions).programs[pid] == RemoveInvites(userId)
    requires later !in Run(actions).world.created
    requires later in Run(actions + more).world.tables.users
    ensures SameRows(Run(actions + more).world.tables, Step(Run(actions + more), Advance(pid)).world.tables, later)
  {
    RunKeeps(actions);
    RunFromAppend(INITIAL, actions, more);
    RemovalKeepsItsUser(Run(actions), more, pid, userId);
    assert Knows(Run(actions).world, pid, RemoveInvites(userId));
    var s := Run(actions + more);
    RemovingTouchesOne(s.world.tables, s.programs[pid], userId, later);
  }

  /** A redemption that answered with a user id registered its key, exactly unless the user was removed. */
  lemma RedeemedMeansRegistered(actions: seq<Action>, pid: nat, userId: string)
    requires pid in Run(actions).programs && Run(actions).programs[pid] == Redeemed(Some(userId))
    ensures var w := Run(actions).world;
            exists c: Consumption ::
              && ConsumedFor(w, c, pid, userId, c.key)
              && (userId !in w.deleted <==>
                    KeyOwner(w.tables, userId).Some? && KeyOwner(w.tables, userId).value.0 == c.key)
  {
    RunKeeps(actions);
    var w := Run(actions).world;
    assert Knows(w, pid, Redeemed(Some(userId)));
    var c: Consumption :|
      ConsumedFor(w, c, pid, userId, c.key)
      && (userId in w.tables.users ==> w.tables.users[userId].publicKey == Some(c.key));
    assert userId in w.created;
  }

  /** A refused redemption consumed nothing and wrote nothing. */
  lemma RefusedMeansUntouched(actions: seq<Action>, pid: nat)
    requires pid in Run(actions).programs && Run(actions).programs[pid] == Redeemed(None)
    ensures forall c | c in Run(actions).world.consumptions :: c.pid != pid
    ensures forall x | x in Run(actions).world.writes :: x.pid != pid
  {
    RunKeeps(actions);
    assert Accountable(Run(actions).world, pid, Redeemed(None));
  }

  /** Created users are live or deleted; live names are unique, and every invite is of a created user. */
  lemma UsersAccountedFor(actions: seq<Action>)
    ensures var w := Run(actions).world;
            && w.created == w.tables.users.Keys + w.deleted
            && w.tables.users.Keys !! w.deleted
            && UniqueNames(w.tables)
            && forall h | h in w.tables.invites :: w.tables.invites[h].userId in w.created
  {
    RunKeeps(actions);
  }

  // ---------- one request alone ----------

  ghost function RunAlone(t: Tables, p: Program): (Tables, Program)
    decreases p.StatementsLeft()
  {
    if p.Finished() then (t, p)
    else
      var (t', p') := Statement(t, p);
      RunAlone(t', p')
  }

  lemma AloneStep(t: Tables, p: Program)
    ensures RunAlone(t, p) == if p.Finished() then (t, p) else RunAlone(Statement(t, p).0, Statement(t, p).1)
  {
  }

  /** The users with the key of one of them set, if it is there. */
  function WithKey(users: map<string, User>, userId: string, key: string): map<string, User> {
    if userId in users then users[userId := users[userId].(publicKey := Some(key))] else users
  }

  /** Alone, a redemption registers its key for the invited user, or changes nothing. */
  lemma RedeemAlone(t: Tables, tokenHash: string, key: string, now: nat)
    ensures var (t', p) := RunAlone(t, RedeemConsume(tokenHash, key, now));
            if tokenHash in t.invites && t.invites[tokenHash].redeemedAt == None && now < t.invites[tokenHash].expiresAt
            then
              var invite := t.invites[tokenHash];
              && p == Redeemed(Some(invite.userId))
              && t'.users == WithKey(t.users, invite.userId, key)
              && t'.invites ==
                 t.invites[tokenHash := Invite(invite.userId, invite.expiresAt, Some(now), invite.createdAt)]
            else p == Redeemed(None) && t' == t
  {
    if Redeemable(t, tokenHash, now) {
      var t1, userId := ConsumeInvite(t, tokenHash, now), t.invites[tokenHash].userId;
      AloneStep(t, RedeemConsume(tokenHash, key, now));
      AloneStep(t1, RedeemSelectUser(tokenHash, key));
      AloneStep(t1, RedeemSetKey(tokenHash, userId, key));
      AloneStep(SetUserKey(t1, userId, key), Redeemed(Some(userId)));
    } else {
      AloneStep(t, RedeemConsume(tokenHash, key, now));
      AloneStep(t, Redeemed(None));
    }
  }

  /** Alone, a removal deletes the user of that name and its invites, and nothing else. */
  lemma RemoveAlone(t: Tables, name: string)
    requires UniqueNames(t)
    ensures var (t', p) := RunAlone(t, RemoveLookup(name));
            && p == Removed(exists u :: u in t.users && t.users[u].name == name)
            && (forall u :: u in t'.users <==> u in t.users && t.users[u].name != name)
            && (forall u | u in t'.users :: t'.users[u] == t.users[u])
            && (forall h | h in t.invites ::
                  h !in t'.invites <==> t.invites[h].userId in t.users && t.users[t.invites[h].userId].name == name)
            && (forall h | h in t'.invites :: h in t.invites && t'.invites[h] == t.invites[h])
  {
    AloneStep(t, RemoveLookup(name));
    match UserIdByName(t, name)
    case None =>
      AloneStep(t, Removed(false));
    case Some(id) =>
      AloneStep(t, RemoveInvites(id));
      AloneStep(DeleteInvites(t, id), RemoveUser(id));
      AloneStep(DeleteUser(DeleteInvites(t, id), id), Removed(true));
  }

  const USER_NAME_CHARS := "abcdefghijklmnopqrstuvwxyz0123456789-_"

  ghost predicate IsUserName(name: string) {
    name != "" && forall i | 0 <= i < |name| :: name[i] in USER_NAME_CHARS
  }

  lemma UserNameChar(c: char)
    ensures c in USER_NAME_CHARS <==> 'a' <= c <= 'z' || '0' <= c <= '9' || c == '-' || c == '_'
  {
  }

  lemma UserNameExactly(name: string)
    ensures ValidUserName(name) <==> IsUserName(name)
  {
    forall i | 0 <= i < |name|
      ensures name[i] in USER_NAME_CHARS <==>
              'a' <= name[i] <= 'z' || '0' <= name[i] <= '9' || name[i] == '-' || name[i] == '_'
    {
      UserNameChar(name[i]);
    }
  }

  /** Alone, minting creates the user without a key and its one invite, or changes nothing. */
  lemma MintAlone(t: Tables, name: string, projectId: Option<string>, userId: string, tokenHash: string, now: nat)
    requires userId !in t.users && tokenHash !in t.invites
    ensures var (t', p) := RunAlone(t, Begin(Mint(name, projectId, userId, tokenHash, now)));
            if !IsUserName(name) then p == Failed && t' == t
            else if exists u :: u in t.users && t.users[u].name == name then p == Minted(None) && t' == t
            else
              && p == Minted(Some(userId))
              && t'.users == t.users[userId := User(name, projectId, None, now)]
              && t'.invites == t.invites[tokenHash := Invite(userId, now + 86400, None, now)]
  {
    var op := Mint(name, projectId, userId, tokenHash, now);
    UserNameExactly(name);
    AloneStep(t, Begin(op));
    if ValidUserName(name) {
      if NameTaken(t, name) {
        AloneStep(t, Minted(None));
      } else {
        var t1 := t.(users := t.users[userId := User(name, projectId, None, now)]);
        var t2 := t1.(invites := t1.invites[tokenHash := Invite(userId, now + INVITE_TTL_SECONDS, None, now)]);
        AloneStep(t, MintInsertUser(name, projectId, userId, tokenHash, now));
        AloneStep(t1, MintInsertInvite(userId, tokenHash, now));
        AloneStep(t2, Minted(Some(userId)));
      }
    }
  }

  /** Enrollment: a minted invite, redeemed in time, makes its user's requests verify with that key. */
  lemma MintThenRedeem(t: Tables, name: string, projectId: Option<string>, userId: string, tokenHash: string,
                       minted: nat, key: string, now: nat)
    requires userId !in t.users && tokenHash !in t.invites
    requires IsUserName(name) && !NameTaken(t, name)
    ensures var t1 := RunAlone(t, Begin(Mint(name, projectId, userId, tokenHash, minted))).0;
            var t2 := RunAlone(t1, RedeemConsume(tokenHash, key, now)).0;
            && KeyOwner(t1, userId).None?
            && KeyOwner(t2, userId) ==
               if now < minted + 86400 then Some((key, AuthUser(userId, name, projectId))) else None
  {
    MintAlone(t, name, projectId, userId, tokenHash, minted);
    RedeemAlone(RunAlone(t, Begin(Mint(name, projectId, userId, tokenHash, minted))).0, tokenHash, key, now);
  }

  // ---------- the database handle ----------

  datatype DbError = DbError

  class Db {
    var tables: Tables

    constructor ()
      ensures Valid() && tables == Tables(map[], map[])
    {
      tables := Tables(map[], map[]);
    }

    ghost predicate Valid()
      reads this
    {
      UniqueNames(tables)
    }

    method LookupUserId(name: string) returns (id: Option<string>)
      requires Valid()
      ensures id == UserIdByName(tables, name)
    {
      if NameTaken(tables, name) {
        var found :| found in tables.users && tables.users[found].name == name;
        return Some(found);
      }
      return None;
    }

    method CreateUser(name: string, projectId: Option<string>, newUserId: string, now: nat)
      returns (r: Result<Option<string>, DbError>)
      requires Valid()
      modifies this
      ensures Valid() && tables.invites == old(tables.invites)
      ensures if NameTaken(old(tables), name) then r == Ok(None) && tables == old(tables)
              else if newUserId in old(tables.users) then r.Err? && tables == old(tables)
              else r == Ok(Some(newUserId))
                   && tables.users == old(tables.users)[newUserId := User(name, projectId, None, now)]
    {
      var taken := LookupUserId(name);
      if taken.Some? {
        return Ok(None);
      }
      match InsertUser(tables, newUserId, User(name, projectId, None, now))
      case None => return Err(DbError);
      case Some(inserted) =>
        tables := inserted;
        return Ok(Some(newUserId));
    }

    method CreateInvite(userId: string, tokenHash: string, now: nat, expiresAt: nat) returns (r: Result<(), DbError>)
      requires Valid()
      modifies this
      ensures Valid() && tables.users == old(tables.users)
      ensures if tokenHash in old(tables.invites) then r.Err? && tables == old(tables)
              else r.Ok? && tables.invites == old(tables.invites)[tokenHash := Invite(userId, expiresAt, None, now)]
    {
      match InsertInvite(tables, tokenHash, Invite(userId, expiresAt, None, now))
      case None => return Err(DbError);
      case Some(inserted) =>
        tables := inserted;
        return Ok(());
    }

    /** `mint_invite`: the answer and the new tables of the program run alone. */
    method MintInvite(name: string, projectId: Option<string>, newUserId: string, tokenHash: string, now: nat)
      returns (r: Result<Option<string>, DbError>)
      requires Valid()
      modifies this
      ensures Valid()
      ensures var (t, p) := RunAlone(old(tables), Begin(Mint(name, projectId, newUserId, tokenHash, now)));
              tables == t && r == if p.Minted? then Ok(p.minted) else Err(DbError)
    {
      if !ValidUserName(name) {
        return Err(DbError);
      }
      ghost var t := tables;
      AloneStep(t, Begin(Mint(name, projectId, newUserId, tokenHash, now)));
      var created := CreateUser(name, projectId, newUserId, now);
      if created.Err? {
        AloneStep(t, MintInsertUser(name, projectId, newUserId, tokenHash, now));
        AloneStep(t, Failed);
        return Err(DbError);
      }
      if created.value.None? {
        AloneStep(t, Minted(None));
        return created;
      }
      AloneStep(t, MintInsertUser(name, projectId, newUserId, tokenHash, now));
      AloneStep(tables, MintInsertInvite(newUserId, tokenHash, now));
      AloneStep(tables, Failed);
      var issued := CreateInvite(newUserId, tokenHash, now, now + INVITE_TTL_SECONDS);
      AloneStep(tables, Minted(Some(newUserId)));
      return if issued.Err? then Err(DbError) else created;
    }

    method RedeemInvite(tokenHash: string, publicKey: string, now: nat) returns (r: Result<Option<string>, DbError>)
      requires Valid()
      modifies this
      ensures Valid()
      ensures var (t, p) := RunAlone(old(tables), RedeemConsume(tokenHash, publicKey, now));
              tables == t && r == if p.Redeemed? then Ok(p.redeemed) else Err(DbError)
    {
      RedeemAlone(tables, tokenHash, publicKey, now);
      var consumed := 0;
      if Redeemable(tables, tokenHash, now) {
        tables := ConsumeInvite(tables, tokenHash, now);
        consumed := 1;
      }
      if consumed == 0 {
        return Ok(None);
      }
      if tokenHash !in tables.invites {
        return Err(DbError);
      }
      var userId := tables.invites[tokenHash].userId;
      tables := SetUserKey(tables, userId, publicKey);
      return Ok(Some(userId));
    }

    method RemoveUser(name: string) returns (removed: bool)
      requires Valid()
      modifies this
      ensures Valid()
      ensures RunAlone(old(tables), RemoveLookup(name)) == (tables, Removed(removed))
    {
      AloneStep(tables, RemoveLookup(name));
      var userId := LookupUserId(name);
      if userId.None? {
        AloneStep(tables, Removed(false));
        return false;
      }
      AloneStep(tables, RemoveInvites(userId.value));
      tables := DeleteInvites(tables, userId.value);
      AloneStep(tables, Program.RemoveUser(userId.value));
      tables := DeleteUser(tables, userId.value);
      AloneStep(tables, Removed(true));
      return true;
    }
  }
}
