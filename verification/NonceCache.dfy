/** Replay protection: a pruned map of recent nonces, and the log of attempts it stands for. */
module NonceCache {
  import opened Prelude

  const WINDOW: nat := 300

  function AbsDiff(a: nat, b: nat): nat {
    if a <= b then b - a else a - b
  }

  predicate Within(a: nat, b: nat) {
    AbsDiff(a, b) <= WINDOW
  }

  /** A verified request, when it took the nonce lock. */
  datatype Attempt = Attempt(nonce: string, timestamp: nat, now: nat)

  type Log = seq<Attempt>

  function Prune(seen: map<string, nat>, now: nat): map<string, nat> {
    map n | n in seen && Within(now, seen[n]) :: seen[n]
  }

  function Record(seen: map<string, nat>, a: Attempt): map<string, nat> {
    Prune(seen, a.now)[a.nonce := a.now]
  }

  /** Every attempt is recorded, the refused ones too. */
  function SeenAfter(log: Log): map<string, nat> {
    if log == [] then map[] else Record(SeenAfter(log[..|log| - 1]), log[|log| - 1])
  }

  /** What the cache answers to attempt `a` after `log`. */
  predicate Accepts(log: Log, a: Attempt) {
    a.nonce !in Prune(SeenAfter(log), a.now)
  }

  predicate AcceptedAt(log: Log, i: nat)
    requires i < |log|
  {
    Accepts(log[..i], log[i])
  }

  // ---------- the cache against the log, for any clock ----------

  /** Attempt `i` is the last with its nonce, and every clock reading since was near its own. */
  ghost predicate Remembered(log: Log, i: int) {
    && 0 <= i < |log|
    && (forall j | i < j < |log| :: log[j].nonce != log[i].nonce)
    && (forall j | i < j < |log| :: Within(log[j].now, log[i].now))
  }

  ghost predicate RemembersAt(log: Log, nonce: string, at: nat) {
    exists i :: Remembered(log, i) && log[i].nonce == nonce && log[i].now == at
  }

  /** An attempt before the last one stays remembered while its nonce is not reused and the clock is near. */
  lemma RememberedStep(log: Log, nonce: string, at: nat)
    requires log != []
    ensures var before, last := log[..|log| - 1], log[|log| - 1];
            RemembersAt(log, nonce, at) <==>
            if nonce == last.nonce then at == last.now else RemembersAt(before, nonce, at) && Within(last.now, at)
  {
    var before, last := log[..|log| - 1], log[|log| - 1];
    if nonce == last.nonce {
      assert Remembered(log, |log| - 1);
      assert forall i | Remembered(log, i) && log[i].nonce == nonce :: i == |log| - 1;
    } else {
      forall i | 0 <= i < |before|
        ensures Remembered(log, i) && log[i].nonce == nonce <==>
                Remembered(before, i) && before[i].nonce == nonce && Within(last.now, before[i].now)
      {
        assert forall j | i < j < |before| :: before[j] == log[j];
      }
    }
  }

  /** The cache holds exactly the remembered attempts. */
  lemma {:induction false} CacheHoldsRemembered(log: Log, nonce: string, at: nat)
    ensures nonce in SeenAfter(log) && SeenAfter(log)[nonce] == at <==> RemembersAt(log, nonce, at)
  {
    if log != [] {
      CacheHoldsRemembered(log[..|log| - 1], nonce, at);
      RememberedStep(log, nonce, at);
    }
  }

  /** An attempt is refused exactly when its nonce is remembered, its own clock reading included. */
  lemma RefusedExactly(log: Log, a: Attempt)
    ensures !Accepts(log, a) <==>
            exists i :: Remembered(log, i) && log[i].nonce == a.nonce && Within(a.now, log[i].now)
  {
    if !Accepts(log, a) {
      var at := SeenAfter(log)[a.nonce];
      CacheHoldsRemembered(log, a.nonce, at);
    }
    forall i | Remembered(log, i) && log[i].nonce == a.nonce && Within(a.now, log[i].now)
      ensures !Accepts(log, a)
    {
      CacheHoldsRemembered(log, a.nonce, log[i].now);
      assert RemembersAt(log, a.nonce, log[i].now);
    }
  }

  // ---------- when a used nonce is accepted again ----------

  ghost predicate LastUse(log: Log, k: int, nonce: string) {
    0 <= k < |log| && log[k].nonce == nonce && forall j | k < j < |log| :: log[j].nonce != nonce
  }

  /** A lock holder since attempt `k` had read the clock more than 300 seconds away from it. */
  ghost predicate Overtaken(log: Log, k: int)
    requires 0 <= k < |log|
  {
    exists j :: k < j < |log| && !Within(log[j].now, log[k].now)
  }

  /** For any readings in any order: a used nonce is free again iff one reading since was far from its last use. */
  lemma AcceptedExactly(log: Log, a: Attempt, k: int)
    requires LastUse(log, k, a.nonce)
    ensures Accepts(log, a) <==> Overtaken(log, k) || !Within(a.now, log[k].now)
  {
    RefusedExactly(log, a);
    if !Overtaken(log, k) {
      assert Remembered(log, k);
    }
    assert forall i | Remembered(log, i) && log[i].nonce == a.nonce :: i == k;
  }

  /** The timestamp check, made with the clock reading that is later recorded. */
  ghost predicate Timely(log: Log) {
    forall i | 0 <= i < |log| :: Within(log[i].now, log[i].timestamp)
  }

  /** The last attempt with a nonce, given some attempt with it. */
  lemma {:induction false} LastWith(log: Log, i: nat) returns (k: nat)
    requires i < |log|
    ensures i <= k && LastUse(log, k, log[i].nonce)
    decreases |log| - i
  {
    k := i;
    if j :| i < j < |log| && log[j].nonce == log[i].nonce {
      k := LastWith(log, j);
    }
  }

  /**
   A request repeated after an attempt whose reading its timestamp was not ahead of is accepted iff
   another request, with a reading more than 300 seconds away, took the lock in between.
   */
  lemma ReplayExactly(log: Log, again: Attempt, k: int)
    requires LastUse(log, k, again.nonce)
    requires Within(again.now, again.timestamp) && again.timestamp <= log[k].now <= again.now
    ensures Accepts(log, again) <==> Overtaken(log, k)
  {
    AcceptedExactly(log, again, k);
  }

  /** Requests take the lock after reading the clock, so an earlier reading may come later in the log. */
  lemma OvertakenReplay()
    ensures var log := [Attempt("n", 100, 100), Attempt("x", 401, 401), Attempt("n", 100, 400)];
            Timely(log) && AcceptedAt(log, 0) && AcceptedAt(log, 1) && AcceptedAt(log, 2)
    ensures !Accepts([Attempt("n", 100, 100)], Attempt("n", 100, 400))
  {
    var r, x, again := Attempt("n", 100, 100), Attempt("x", 401, 401), Attempt("n", 100, 400);
    var log := [r, x, again];
    assert log[..0] == [] && log[..1] == [r] && log[..2] == [r, x];
    RefusedExactly([r], x);
    AcceptedExactly([r, x], again, 0);
    assert !Within([r, x][1].now, [r, x][0].now);
    AcceptedExactly([r], again, 0);
  }

  // ---------- readings in lock order ----------

  /** Readings do not decrease in the order in which the lock is taken. */
  ghost predicate InLockOrder(log: Log) {
    forall i, j | 0 <= i <= j < |log| :: log[i].now <= log[j].now
  }

  /** What the unbounded log says: some attempt with this nonce lies within 300 seconds. */
  ghost predicate UsedWithin(log: Log, nonce: string, now: nat) {
    exists i | 0 <= i < |log| :: log[i].nonce == nonce && Within(now, log[i].now)
  }

  /** The pruned cache refuses only what the log would, and all of it when readings come in lock order. */
  lemma PrunedRefinesLog(log: Log, a: Attempt)
    ensures !Accepts(log, a) ==> UsedWithin(log, a.nonce, a.now)
    ensures InLockOrder(log + [a]) ==> (!Accepts(log, a) <==> UsedWithin(log, a.nonce, a.now))
  {
    RefusedExactly(log, a);
    if InLockOrder(log + [a]) && UsedWithin(log, a.nonce, a.now) {
      var i :| 0 <= i < |log| && log[i].nonce == a.nonce && Within(a.now, log[i].now);
      var k := LastWith(log, i);
      OrderedFrom(log, a, i);
      OrderedFrom(log, a, k);
      AcceptedExactly(log, a, k);
    }
  }

  /** In lock order every reading from `k` on lies between those of `k` and of the next attempt. */
  lemma OrderedFrom(log: Log, a: Attempt, k: nat)
    requires InLockOrder(log + [a]) && k < |log|
    ensures forall j | k <= j < |log| :: log[k].now <= log[j].now <= a.now
  {
    var all := log + [a];
    forall j | k <= j < |log|
      ensures log[k].now <= log[j].now <= a.now
    {
      assert all[k].now <= all[j].now <= all[|log|].now;
    }
  }

  /** Between two acceptances of a nonce a reading more than 300 seconds from a use of it was recorded. */
  lemma AcceptancesFarApart(log: Log, i: nat, j: nat)
    requires i < j < |log| && log[i].nonce == log[j].nonce
    requires AcceptedAt(log, j)
    ensures exists k, m :: i <= k < m <= j && log[k].nonce == log[j].nonce && !Within(log[m].now, log[k].now)
    ensures InLockOrder(log) ==> log[i].now + WINDOW < log[j].now
  {
    var before := log[..j];
    assert before[i] == log[i];
    var k := LastWith(before, i);
    AcceptedExactly(before, log[j], k);
    if Overtaken(before, k) {
      var m :| k < m < |before| && !Within(before[m].now, before[k].now);
      assert !Within(log[m].now, log[k].now);
    } else {
      assert !Within(log[j].now, log[k].now);
    }
    if InLockOrder(log) {
      assert before + [log[j]] == log[..j + 1];
      PrunedRefinesLog(before, log[j]);
      assert !Within(log[j].now, before[i].now);
    }
  }

  /** `log` extended in lock order by later attempts of which the last repeats the last request of `log`. */
  ghost predicate AcceptedAgain(log: Log, more: Log)
    requires log != []
  {
    && more != []
    && var first, again := log[|log| - 1], more[|more| - 1];
       && again.nonce == first.nonce && again.timestamp == first.timestamp
       && InLockOrder(log + more) && Timely(log + more)
       && AcceptedAt(log + more, |log + more| - 1)
  }

  /** As long as readings come in lock order, a request can be accepted again iff its timestamp was ahead. */
  lemma ReplayInLockOrder(log: Log)
    requires log != [] && Timely(log)
    ensures (exists more :: AcceptedAgain(log, more)) <==>
            InLockOrder(log) && log[|log| - 1].timestamp > log[|log| - 1].now
  {
    var first := log[|log| - 1];
    forall more | AcceptedAgain(log, more)
      ensures InLockOrder(log) && first.timestamp > first.now
    {
      var all := log + more;
      assert forall i | 0 <= i < |log| :: all[i] == log[i];
      AcceptancesFarApart(all, |log| - 1, |all| - 1);
      assert Within(all[|all| - 1].now, all[|all| - 1].timestamp);
    }
    if InLockOrder(log) && first.timestamp > first.now {
      LateRepeat(log);
    }
  }

  lemma LateRepeat(log: Log)
    requires log != [] && Timely(log) && InLockOrder(log)
    requires log[|log| - 1].timestamp > log[|log| - 1].now
    ensures exists more :: AcceptedAgain(log, more)
  {
    var first := log[|log| - 1];
    var again := first.(now := first.now + WINDOW + 1);
    var all := log + [again];
    assert InLockOrder(all);
    assert Timely(all) by {
      assert Within(first.now, first.timestamp);
    }
    assert all[..|log|] == log;
    AcceptedExactly(log, again, |log| - 1);
    assert AcceptedAgain(log, [again]);
  }
}
