/** The signature middleware: headers, time window, key lookup, signature, nonce. */
module RequestAuth {
  import opened Prelude
  import opened Identity
  import opened RequestSigning
  import opened NonceCache
  import Archive

  /** The parts of an HTTP request the middleware reads; a missing or non-text header is `None`. */
  datatype Request = Request(
    version: Option<string>,
    keyId: Option<string>,
    nonce: Option<string>,
    contentSha256: Option<string>,
    signature: Option<string>,
    timestamp: Option<string>,
    hostHeader: Option<string>,
    uriAuthority: Option<string>,
    verb: string,
    pathAndQuery: Option<string>)

  datatype Rejection =
    | MissingHeader
    | UnsupportedVersion
    | BadTimestamp
    | OutsideWindow
    | UnknownKey
    | CorruptKey
    | BadSignatureEncoding
    | NoHost
    | BadSignature
    | NonceAlreadyUsed

  /** What the handlers see of an accepted request. */
  datatype Identified = Identified(user: AuthUser, signedHash: string)

  /** The library code the middleware calls. */
  datatype Crypto = Crypto(
    parsesAsKey: string -> bool,
    decodesAsSignature: string -> bool,
    verifies: (string, string, string) -> bool)

  /** `d` is the small letter for `c` if that is one of A-Z, and `c` itself otherwise. */
  predicate SmallLetterFor(c: char, d: char) {
    if 'A' <= c <= 'Z' then 'a' <= d <= 'z' && d - 'a' == c - 'A' else d == c
  }

  ghost predicate LowercaseOf(s: string, r: string) {
    |r| == |s| && forall i | 0 <= i < |s| :: SmallLetterFor(s[i], r[i])
  }

  function ToAsciiLowercase(s: string): (r: string)
    ensures LowercaseOf(s, r)
  {
    if s == "" then ""
    else [if 'A' <= s[0] <= 'Z' then s[0] - 'A' + 'a' else s[0]] + ToAsciiLowercase(s[1..])
  }

  function HostOf(r: Request): Option<string> {
    if r.hostHeader.Some? then r.hostHeader else r.uriAuthority
  }

  ghost predicate HasHeaders(r: Request) {
    && r.version.Some? && r.keyId.Some? && r.nonce.Some?
    && r.contentSha256.Some? && r.signature.Some? && r.timestamp.Some?
  }

  /** The fields the signature has to cover. */
  ghost function SignedFields(r: Request): Option<Fields> {
    if HasHeaders(r) && ParseU64(r.timestamp.value).Some? && HostOf(r).Some? then
      Some(Fields(r.keyId.value, ParseU64(r.timestamp.value).value, r.nonce.value, r.verb,
                  r.pathAndQuery.UnwrapOr("/"), HostOf(r).value, r.contentSha256.value))
    else None
  }

  /** Everything but the nonce is in order at `now`, against the users stored then. */
  ghost predicate Verified(crypto: Crypto, t: Tables, r: Request, now: nat) {
    && SignedFields(r).Some?
    && r.version.value == "v1"
    && var f := SignedFields(r).value;
       && Within(now, f.timestamp)
       && KeyOwner(t, f.keyId).Some?
       && var key := KeyOwner(t, f.keyId).value.0;
          && crypto.parsesAsKey(key)
          && crypto.decodesAsSignature(r.signature.value)
          && crypto.verifies(key, Canonical(f), r.signature.value)
  }

  /** A request before its nonce is looked at, header by header. */
  ghost predicate WellSigned(crypto: Crypto, t: Tables, r: Request, now: nat, f: Fields, user: User,
                             signature: string) {
    && r.version == Some("v1") && r.signature == Some(signature)
    && r.keyId == Some(f.keyId) && r.nonce == Some(f.nonce) && r.contentSha256 == Some(f.contentSha256)
    && r.timestamp.Some? && ParseU64(r.timestamp.value) == Some(f.timestamp)
    && r.verb == f.verb
    && (r.pathAndQuery == Some(f.pathAndQuery) || (r.pathAndQuery.None? && f.pathAndQuery == "/"))
    && (r.hostHeader == Some(f.host) || (r.hostHeader.None? && r.uriAuthority == Some(f.host)))
    && now <= f.timestamp + 300 && f.timestamp <= now + 300
    && f.keyId in t.users && t.users[f.keyId] == user && user.publicKey.Some?
    && crypto.parsesAsKey(user.publicKey.value) && crypto.decodesAsSignature(signature)
    && crypto.verifies(user.publicKey.value, Canonical(f), signature)
  }

  /** What the middleware verifies, and the user it finds. */
  lemma VerifiedExactly(crypto: Crypto, t: Tables, r: Request, now: nat)
    ensures Verified(crypto, t, r, now) <==>
            exists f, user, signature :: WellSigned(crypto, t, r, now, f, user, signature)
    ensures Verified(crypto, t, r, now) ==>
              var user := t.users[r.keyId.value];
              KeyOwner(t, r.keyId.value).value.1 == AuthUser(r.keyId.value, user.name, user.projectId)
  {
    if Verified(crypto, t, r, now) {
      var f := SignedFields(r).value;
      assert WellSigned(crypto, t, r, now, f, t.users[f.keyId], r.signature.value);
    }
    forall f, user, signature | WellSigned(crypto, t, r, now, f, user, signature)
      ensures Verified(crypto, t, r, now)
    {
      assert SignedFields(r) == Some(f);
    }
  }

  /** What is wrong with a request refused for `reason`. */
  ghost predicate WrongWith(crypto: Crypto, t: Tables, r: Request, now: nat, reason: Rejection) {
    match reason
    case MissingHeader =>
      None in {r.version, r.keyId, r.nonce, r.contentSha256, r.signature, r.timestamp}
    case UnsupportedVersion => r.version.Some? && r.version.value != "v1"
    case BadTimestamp => r.timestamp.Some? && ParseU64(r.timestamp.value).None?
    case OutsideWindow =>
      && r.timestamp.Some? && ParseU64(r.timestamp.value).Some?
      && var timestamp := ParseU64(r.timestamp.value).value; now > timestamp + 300 || timestamp > now + 300
    case UnknownKey => r.keyId.Some? && KeyOwner(t, r.keyId.value).None?
    case CorruptKey =>
      && r.keyId.Some? && KeyOwner(t, r.keyId.value).Some?
      && !crypto.parsesAsKey(KeyOwner(t, r.keyId.value).value.0)
    case BadSignatureEncoding => r.signature.Some? && !crypto.decodesAsSignature(r.signature.value)
    case NoHost => r.hostHeader.None? && r.uriAuthority.None?
    case BadSignature =>
      && SignedFields(r).Some? && KeyOwner(t, r.keyId.value).Some?
      && !crypto.verifies(KeyOwner(t, r.keyId.value).value.0, Canonical(SignedFields(r).value), r.signature.value)
    case NonceAlreadyUsed => false
  }

  ghost function AttemptOf(r: Request, now: nat): Attempt
    requires SignedFields(r).Some?
  {
    Attempt(SignedFields(r).value.nonce, SignedFields(r).value.timestamp, now)
  }

  class ApiState {
    const crypto: Crypto
    var seenNonces: map<string, nat>
    /** The verified requests so far, in lock order. */
    ghost var attempts: Log

    constructor (crypto: Crypto)
      ensures Valid() && this.crypto == crypto && attempts == []
    {
      this.crypto := crypto;
      seenNonces := map[];
      attempts := [];
    }

    /** The map is what the log leaves in the cache, and every attempt was timely. */
    ghost predicate Valid()
      reads this
    {
      seenNonces == SeenAfter(attempts) && Timely(attempts)
    }

    /** `seen.retain(...)` and `seen.insert(...)` under the lock; true if the nonce was not there. */
    method TakeNonce(ghost a: Attempt, nonce: string, now: nat) returns (unused: bool)
      requires Valid() && a.nonce == nonce && a.now == now && Within(now, a.timestamp)
      modifies this
      ensures Valid()
      ensures attempts == old(attempts) + [a]
      ensures unused <==> Accepts(old(attempts), a)
    {
      seenNonces := Prune(seenNonces, now);
      unused := nonce !in seenNonces;
      seenNonces := seenNonces[nonce := now];
      attempts := attempts + [a];
      assert attempts[..|attempts| - 1] == old(attempts);
    }

    /** Up to the lock: `now` is read first, `t` is what the key lookup finds after that. */
    method VerifyRequest(t: Tables, r: Request, now: nat) returns (answer: Result<Identified, Rejection>)
      ensures answer.Ok? <==> Verified(crypto, t, r, now)
      ensures answer.Ok? ==>
                && answer.value.user == KeyOwner(t, r.keyId.value).value.1
                && LowercaseOf(r.contentSha256.value, answer.value.signedHash)
      ensures answer.Err? ==> WrongWith(crypto, t, r, now, answer.error)
    {
      if r.version.None? { return Err(MissingHeader); }
      if r.version.value != "v1" { return Err(UnsupportedVersion); }
      if r.keyId.None? || r.nonce.None? || r.contentSha256.None? || r.signature.None? || r.timestamp.None? {
        return Err(MissingHeader);
      }
      var timestamp := ParseU64(r.timestamp.value);
      if timestamp.None? { return Err(BadTimestamp); }
      if AbsDiff(now, timestamp.value) > WINDOW { return Err(OutsideWindow); }
      var owner := KeyOwner(t, r.keyId.value);
      if owner.None? { return Err(UnknownKey); }
      var (publicKey, user) := owner.value;
      if !crypto.parsesAsKey(publicKey) { return Err(CorruptKey); }
      if !crypto.decodesAsSignature(r.signature.value) { return Err(BadSignatureEncoding); }
      var host := HostOf(r);
      if host.None? { return Err(NoHost); }
      var pathAndQuery := r.pathAndQuery.UnwrapOr("/");
      var fields := Fields(r.keyId.value, timestamp.value, r.nonce.value, r.verb, pathAndQuery, host.value,
                           r.contentSha256.value);
      if !crypto.verifies(publicKey, Canonical(fields), r.signature.value) { return Err(BadSignature); }
      return Ok(Identified(user, ToAsciiLowercase(r.contentSha256.value)));
    }

    /** The whole middleware; `now` and `t` may be of any earlier moment than the lock is taken. */
    method CheckedRequest(t: Tables, r: Request, now: nat) returns (answer: Result<Identified, Rejection>)
      requires Valid()
      modifies this
      ensures Valid()
      ensures attempts == if Verified(crypto, t, r, now) then old(attempts) + [AttemptOf(r, now)] else old(attempts)
      ensures answer.Ok? <==> Verified(crypto, t, r, now) && Accepts(old(attempts), AttemptOf(r, now))
      ensures answer.Ok? ==>
                && answer.value.user == KeyOwner(t, r.keyId.value).value.1
                && LowercaseOf(r.contentSha256.value, answer.value.signedHash)
      ensures answer.Err? && answer.error != NonceAlreadyUsed ==> WrongWith(crypto, t, r, now, answer.error)
      ensures answer == Err(NonceAlreadyUsed) <==>
              Verified(crypto, t, r, now) && !Accepts(old(attempts), AttemptOf(r, now))
    {
      answer := VerifyRequest(t, r, now);
      if answer.Ok? {
        var unused := TakeNonce(AttemptOf(r, now), r.nonce.value, now);
        if !unused {
          return Err(NonceAlreadyUsed);
        }
      }
    }
  }

  /** The same text but for the case of its letters A-Z. */
  ghost predicate SameUpToCase(a: string, b: string) {
    && |a| == |b|
    && forall i | 0 <= i < |a| :: a[i] == b[i] || SmallLetterFor(a[i], b[i]) || SmallLetterFor(b[i], a[i])
  }

  ghost predicate LowercaseHex(s: string) {
    forall i | 0 <= i < |s| :: '0' <= s[i] <= '9' || 'a' <= s[i] <= 'f'
  }

  /**
   The hash an accepted request hands on admits exactly the bodies whose digest is what the request
   signed, up to the case of its letters.
   */
  lemma SignedHashAdmits(header: string, signedHash: string, bytes: seq<Archive.Byte>, digest: Archive.Digest)
    requires LowercaseOf(header, signedHash) && LowercaseHex(digest(bytes))
    ensures Archive.Acceptable(bytes, Some(signedHash), digest) <==>
            1 <= |bytes| <= 0x8000_0000 && SameUpToCase(digest(bytes), header)
  {
    var hex := digest(bytes);
    if |hex| == |header| {
      forall i | 0 <= i < |hex|
        ensures hex[i] == signedHash[i] <==>
                hex[i] == header[i] || SmallLetterFor(hex[i], header[i]) || SmallLetterFor(header[i], hex[i])
      {
        assert SmallLetterFor(header[i], signedHash[i]);
        SmallLetterIsOne(hex[i], header[i], signedHash[i]);
      }
    }
  }

  lemma SmallLetterIsOne(hex: char, c: char, d: char)
    requires SmallLetterFor(c, d) && !('A' <= hex <= 'Z')
    ensures hex == d <==> hex == c || SmallLetterFor(hex, c) || SmallLetterFor(c, hex)
  {
  }

  /** Requests carrying the same signed text are the same attempt but for the clock. */
  lemma SameTextSameAttempt(r: Request, s: Request, now: nat, later: nat)
    requires SignedFields(r).Some? && SignedFields(s).Some?
    requires OneLine(SignedFields(r).value) && OneLine(SignedFields(s).value)
    requires Canonical(SignedFields(r).value) == Canonical(SignedFields(s).value)
    ensures AttemptOf(s, later) == AttemptOf(r, now).(now := later)
  {
    CanonicalInjective(SignedFields(r).value, SignedFields(s).value);
  }

  /**
   A text recorded at attempt `k`, by a reading no earlier than its timestamp, and repeated with a
   later reading in time, is accepted iff an attempt locked since had a reading more than 300
   seconds from that of `k`; never, if readings come in lock order.
   */
  lemma SignedTextRepeated(attempts: Log, k: int, r: Request, s: Request, now: nat, later: nat)
    requires SignedFields(r).Some? && SignedFields(s).Some?
    requires OneLine(SignedFields(r).value) && OneLine(SignedFields(s).value)
    requires Canonical(SignedFields(r).value) == Canonical(SignedFields(s).value)
    requires LastUse(attempts, k, SignedFields(r).value.nonce) && attempts[k] == AttemptOf(r, now)
    requires SignedFields(r).value.timestamp <= now <= later && Within(later, SignedFields(s).value.timestamp)
    ensures Accepts(attempts, AttemptOf(s, later)) <==> Overtaken(attempts, k)
    ensures InLockOrder(attempts + [AttemptOf(s, later)]) ==> !Accepts(attempts, AttemptOf(s, later))
  {
    SameTextSameAttempt(r, s, now, later);
    ReplayExactly(attempts, AttemptOf(s, later), k);
    if InLockOrder(attempts + [AttemptOf(s, later)]) {
      OrderedFrom(attempts, AttemptOf(s, later), k);
    }
  }
}
