/** Receiving an uploaded archive: a stream of body frames becomes a file and a verdict. */
module Archive {
  import opened Prelude

  type Byte = b: int | 0 <= b < 256

  /** SHA-256 in lowercase hex, as a function of the bytes hashed. */
  type Digest = seq<Byte> -> string

  const MAX_ARCHIVE_BYTES: nat := 2 * 1024 * 1024 * 1024

  /** A body frame: data, something else (trailers), or an error while reading. */
  datatype Frame = Data(bytes: seq<Byte>) | Trailers | Broken(reason: string)

  datatype UploadError =
    | TooLarge
    | ReadFailed(reason: string)
    | EmptyBody
    | HashMismatch
    | UnpackFailed(reason: string)

  function DataOf(frame: Frame): seq<Byte> {
    if frame.Data? then frame.bytes else []
  }

  /** The data of a sequence of frames. */
  function Payload(frames: seq<Frame>): seq<Byte> {
    if frames == [] then [] else DataOf(frames[0]) + Payload(frames[1..])
  }

  ghost predicate Intact(frames: seq<Frame>) {
    forall f | f in frames :: !f.Broken?
  }

  /** One frame of the streaming loop: the file grows by its data, or the upload stops. */
  function Feed(file: seq<Byte>, frame: Frame): Result<seq<Byte>, UploadError> {
    match frame
    case Broken(reason) => Err(ReadFailed(reason))
    case Trailers => Ok(file)
    case Data(bytes) => if |file| + |bytes| > MAX_ARCHIVE_BYTES then Err(TooLarge) else Ok(file + bytes)
  }

  /** The checks after the last frame. */
  function Finish(file: seq<Byte>, signedHash: Option<string>, digest: Digest): Option<UploadError> {
    if file == [] then Some(EmptyBody)
    else if signedHash.Some? && digest(file) != signedHash.value then Some(HashMismatch)
    else None
  }

  /** What an accepted archive satisfies. */
  ghost predicate Acceptable(bytes: seq<Byte>, signedHash: Option<string>, digest: Digest) {
    && 1 <= |bytes| <= MAX_ARCHIVE_BYTES
    && (signedHash.Some? ==> digest(bytes) == signedHash.value)
  }

  /** The verdict on an intact body, as a function of its bytes alone. */
  function Verdict(bytes: seq<Byte>, signedHash: Option<string>, digest: Digest): Option<UploadError> {
    if |bytes| > MAX_ARCHIVE_BYTES then Some(TooLarge) else Finish(bytes, signedHash, digest)
  }

  /** The loop from a partly written file: the file it leaves and why it stopped, if it failed. */
  function ReceiveFrom(file: seq<Byte>, frames: seq<Frame>, signedHash: Option<string>, digest: Digest)
    : (seq<Byte>, Option<UploadError>)
    decreases |frames|
  {
    if frames == [] then (file, Finish(file, signedHash, digest))
    else
      match Feed(file, frames[0])
      case Err(e) => (file, Some(e))
      case Ok(longer) => ReceiveFrom(longer, frames[1..], signedHash, digest)
  }

  class ReleaseDir {
    /** archive.tar.gz; none before the upload starts. */
    var archive: Option<seq<Byte>>

    constructor ()
      ensures archive == None
    {
      archive := None;
    }

    /**
     `receive_archive`. Writes are buffered: an upload stopped within the loop may leave only part
     of what it wrote; the flush before the last checks leaves all of it.
     */
    method Receive(frames: seq<Frame>, signedHash: Option<string>, digest: Digest) returns (error: Option<UploadError>)
      modifies this
      ensures error == ReceiveFrom([], frames, signedHash, digest).1
      ensures archive.Some? && archive.value <= ReceiveFrom([], frames, signedHash, digest).0
      ensures error.None? || error.value.EmptyBody? || error.value.HashMismatch? ==>
                archive.value == ReceiveFrom([], frames, signedHash, digest).0
    {
      var file: seq<Byte> := [];
      archive := Some([]);
      for n := 0 to |frames|
        invariant archive.Some? && archive.value <= file
        invariant ReceiveFrom([], frames, signedHash, digest) == ReceiveFrom(file, frames[n..], signedHash, digest)
      {
        assert frames[n..][0] == frames[n] && frames[n..][1..] == frames[n + 1..];
        match Feed(file, frames[n]) {
          case Err(e) =>
            return Some(e);
          case Ok(longer) =>
            var flushed :| |archive.value| <= flushed <= |longer|;
            file := longer;
            archive := Some(file[..flushed]);
        }
      }
      archive := Some(file);
      error := Finish(file, signedHash, digest);
    }
  }

  /** Success means an intact body of acceptable bytes, all of them on disk; and conversely. */
  lemma {:induction false} ReceivedExactly(file: seq<Byte>, frames: seq<Frame>, signedHash: Option<string>,
                                           digest: Digest)
    requires |file| <= MAX_ARCHIVE_BYTES
    ensures var (archive, error) := ReceiveFrom(file, frames, signedHash, digest);
            && (error.None? <==> Intact(frames) && Acceptable(file + Payload(frames), signedHash, digest))
            && (error.None? ==> archive == file + Payload(frames))
            && (Intact(frames) ==> error == Verdict(file + Payload(frames), signedHash, digest))
    decreases |frames|
  {
    if frames == [] {
      assert file + [] == file;
    } else {
      assert frames[0] in frames;
      assert forall f | f in frames :: f == frames[0] || f in frames[1..];
      assert file + Payload(frames) == (file + DataOf(frames[0])) + Payload(frames[1..]);
      match Feed(file, frames[0])
      case Err(_) =>
      case Ok(longer) =>
        assert longer == file + DataOf(frames[0]) by { assert file + [] == file; }
        ReceivedExactly(longer, frames[1..], signedHash, digest);
    }
  }

  /** The data of the first `k` frames, none of them broken, is more than 2 GiB with `file` before it. */
  ghost predicate TooMuchBy(file: seq<Byte>, frames: seq<Frame>, k: int) {
    0 <= k <= |frames| && Intact(frames[..k]) && |file| + |Payload(frames[..k])| > 0x8000_0000
  }

  /** Frame `k` is the first broken one, and not too much came before it. */
  ghost predicate BrokenAt(file: seq<Byte>, frames: seq<Frame>, k: int, reason: string) {
    && 0 <= k < |frames|
    && frames[k] == Broken(reason)
    && Intact(frames[..k])
    && |file| + |Payload(frames[..k])| <= 0x8000_0000
  }

  lemma PrefixStep(frames: seq<Frame>, k: nat)
    requires 0 < k <= |frames|
    ensures frames[..k][1..] == frames[1..][..k - 1]
    ensures Intact(frames[..k]) <==> !frames[0].Broken? && Intact(frames[1..][..k - 1])
    ensures Payload(frames[..k]) == DataOf(frames[0]) + Payload(frames[1..][..k - 1])
  {
    assert frames[..k] == [frames[0]] + frames[1..][..k - 1];
  }

  lemma TooMuchLater(file: seq<Byte>, frames: seq<Frame>, k: nat)
    requires 0 < k && frames != [] && Feed(file, frames[0]).Ok?
    ensures TooMuchBy(file, frames, k) <==> TooMuchBy(Feed(file, frames[0]).value, frames[1..], k - 1)
  {
    if k <= |frames| {
      PrefixStep(frames, k);
    }
  }

  /** An upload is too large iff some unbroken run of first frames is. */
  lemma {:induction false} TooLargeExactly(file: seq<Byte>, frames: seq<Frame>, signedHash: Option<string>,
                                           digest: Digest)
    requires |file| <= 0x8000_0000
    ensures ReceiveFrom(file, frames, signedHash, digest).1 == Some(TooLarge) <==>
            exists k :: TooMuchBy(file, frames, k)
    decreases |frames|
  {
    assert Payload(frames[..0]) == [];
    if frames == [] || frames[0].Broken? {
      forall k
        ensures !TooMuchBy(file, frames, k)
      {
        if 0 < k <= |frames| {
          PrefixStep(frames, k);
        }
      }
    } else if Feed(file, frames[0]).Err? {
      PrefixStep(frames, 1);
      assert frames[1..][..0] == [];
      assert TooMuchBy(file, frames, 1);
    } else {
      var longer := Feed(file, frames[0]).value;
      TooLargeExactly(longer, frames[1..], signedHash, digest);
      forall k: nat | k > 0
        ensures TooMuchBy(file, frames, k) <==> TooMuchBy(longer, frames[1..], k - 1)
      {
        TooMuchLater(file, frames, k);
      }
      if k :| TooMuchBy(longer, frames[1..], k) {
        assert TooMuchBy(file, frames, k + 1);
      }
    }
  }

  lemma BrokenLater(file: seq<Byte>, frames: seq<Frame>, k: nat, reason: string)
    requires 0 < k && frames != [] && Feed(file, frames[0]).Ok?
    ensures BrokenAt(file, frames, k, reason) <==> BrokenAt(Feed(file, frames[0]).value, frames[1..], k - 1, reason)
  {
    if k < |frames| {
      PrefixStep(frames, k);
    }
  }

  /** A read failure is reported iff a broken frame comes before the data is too much. */
  lemma {:induction false} ReadFailedExactly(file: seq<Byte>, frames: seq<Frame>, signedHash: Option<string>,
                                             digest: Digest, reason: string)
    requires |file| <= 0x8000_0000
    ensures ReceiveFrom(file, frames, signedHash, digest).1 == Some(ReadFailed(reason)) <==>
            exists k :: BrokenAt(file, frames, k, reason)
    decreases |frames|
  {
    assert frames[..0] == [] && Payload(frames[..0]) == [];
    if frames == [] || Feed(file, frames[0]).Err? {
      forall k | k > 0
        ensures !BrokenAt(file, frames, k, reason)
      {
        if k < |frames| {
          PrefixStep(frames, k);
        }
      }
      assert frames != [] ==> (frames[0] == Broken(reason) <==> BrokenAt(file, frames, 0, reason));
    } else {
      var longer := Feed(file, frames[0]).value;
      ReadFailedExactly(longer, frames[1..], signedHash, digest, reason);
      forall k: nat | k > 0
        ensures BrokenAt(file, frames, k, reason) <==> BrokenAt(longer, frames[1..], k - 1, reason)
      {
        BrokenLater(file, frames, k, reason);
      }
      if k :| BrokenAt(longer, frames[1..], k, reason) {
        assert BrokenAt(file, frames, k + 1, reason);
      }
    }
  }

  /** Of an intact body of at most 2 GiB only emptiness and a wrong hash are reported. */
  lemma RefusedExactly(frames: seq<Frame>, signedHash: Option<string>, digest: Digest)
    ensures var error, bytes := ReceiveFrom([], frames, signedHash, digest).1, Payload(frames);
            && (error == Some(EmptyBody) <==> Intact(frames) && bytes == [])
            && (error == Some(HashMismatch) <==>
                  && Intact(frames) && 1 <= |bytes| <= 0x8000_0000
                  && signedHash.Some? && digest(bytes) != signedHash.value)
  {
    ReceivedExactly([], frames, signedHash, digest);
    assert [] + Payload(frames) == Payload(frames);
    if !Intact(frames) {
      NotIntact([], frames, signedHash, digest);
    }
  }

  lemma {:induction false} NotIntact(file: seq<Byte>, frames: seq<Frame>, signedHash: Option<string>, digest: Digest)
    requires !Intact(frames)
    ensures var error := ReceiveFrom(file, frames, signedHash, digest).1;
            error.Some? && (error.value.TooLarge? || error.value.ReadFailed?)
    decreases |frames|
  {
    if Feed(file, frames[0]).Ok? {
      assert !Intact(frames[1..]);
      NotIntact(Feed(file, frames[0]).value, frames[1..], signedHash, digest);
    }
  }

  /** How the bytes are cut into frames does not matter: same verdict, same file when accepted. */
  lemma FramingIrrelevant(frames: seq<Frame>, others: seq<Frame>, signedHash: Option<string>, digest: Digest)
    requires Intact(frames) && Intact(others) && Payload(frames) == Payload(others)
    ensures var (archive, error) := ReceiveFrom([], frames, signedHash, digest);
            var (archive', error') := ReceiveFrom([], others, signedHash, digest);
            error == error' && (error.None? ==> archive == archive')
  {
    ReceivedExactly([], frames, signedHash, digest);
    ReceivedExactly([], others, signedHash, digest);
  }
}
