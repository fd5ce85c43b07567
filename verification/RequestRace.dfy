/**
 Signed requests in flight. A request reads the clock and passes the time check, is verified
 while others run, and takes the nonce lock later; the clock itself never runs backwards.
 */
module RequestRace {
  import opened Prelude
  import opened NonceCache

  /**
   The clock, the verified requests that have yet to take the lock, and the attempts of the
   running daemon in lock order.
   */
  datatype State = State(clock: nat, waiting: map<nat, Attempt>, log: Log)

  datatype Action =
    | Tick(seconds: nat)
    | Read(pid: nat, nonce: string, timestamp: nat)
    | Lock(pid: nat)
    | Restart

  /** A request outside the time window goes no further; a restart forgets the nonces and what was in flight. */
  function Step(s: State, a: Action): State {
    match a
    case Tick(seconds) => s.(clock := s.clock + seconds)
    case Read(pid, nonce, timestamp) =>
      if pid !in s.waiting && Within(s.clock, timestamp) then
        s.(waiting := s.waiting[pid := Attempt(nonce, timestamp, s.clock)])
      else s
    case Lock(pid) =>
      if pid in s.waiting then s.(waiting := s.waiting - {pid}, log := s.log + [s.waiting[pid]]) else s
    case Restart => s.(waiting := map[], log := [])
  }

  function RunFrom(s: State, actions: seq<Action>): State
    decreases |actions|
  {
    if actions == [] then s else RunFrom(Step(s, actions[0]), actions[1..])
  }

  /** Nobody waits with a reading from the future, and every reading was timely. */
  ghost predicate Sound(s: State) {
    && Timely(s.log)
    && (forall i | 0 <= i < |s.log| :: s.log[i].now <= s.clock)
    && (forall pid | pid in s.waiting ::
          s.waiting[pid].now <= s.clock && Within(s.waiting[pid].now, s.waiting[pid].timestamp))
  }

  lemma {:induction false} RunsAreSound(s: State, actions: seq<Action>)
    requires Sound(s)
    ensures Sound(RunFrom(s, actions))
    decreases |actions|
  {
    if actions != [] {
      RunsAreSound(Step(s, actions[0]), actions[1..]);
    }
  }

  lemma {:induction false} RunFromAppend(s: State, before: seq<Action>, after: seq<Action>)
    ensures RunFrom(s, before + after) == RunFrom(RunFrom(s, before), after)
    decreases |before|
  {
    if before == [] {
      assert before + after == after;
    } else {
      assert (before + after)[1..] == before[1..] + after;
      RunFromAppend(Step(s, before[0]), before[1..], after);
    }
  }

  // ---------- when a request can still be accepted ----------

  ghost predicate InFlight(s: State, nonce: string, timestamp: nat) {
    exists pid :: pid in s.waiting && s.waiting[pid].nonce == nonce && s.waiting[pid].timestamp == timestamp
  }

  /** After `actions` the request of process `pid` takes the lock and is accepted. */
  ghost predicate AcceptedAfter(s: State, actions: seq<Action>, pid: nat, nonce: string, timestamp: nat) {
    var t := RunFrom(s, actions);
    && pid in t.waiting
    && t.waiting[pid].nonce == nonce && t.waiting[pid].timestamp == timestamp
    && Accepts(t.log, t.waiting[pid])
  }

  ghost predicate CanBeAccepted(s: State, nonce: string, timestamp: nat) {
    exists actions, pid :: AcceptedAfter(s, actions, pid, nonce, timestamp)
  }

  ghost predicate CanBeAcceptedWithoutRestart(s: State, nonce: string, timestamp: nat) {
    exists actions, pid :: Restart !in actions && AcceptedAfter(s, actions, pid, nonce, timestamp)
  }

  /** A fresh copy can still pass the time check, or one already has. */
  ghost predicate Reachable(s: State, nonce: string, timestamp: nat) {
    s.clock <= timestamp + WINDOW || InFlight(s, nonce, timestamp)
  }

  /** Once out of reach, always out of reach. */
  lemma {:induction false} StaysOutOfReach(s: State, actions: seq<Action>, nonce: string, timestamp: nat)
    requires !Reachable(s, nonce, timestamp)
    ensures !Reachable(RunFrom(s, actions), nonce, timestamp)
    decreases |actions|
  {
    if actions != [] {
      assert !Reachable(Step(s, actions[0]), nonce, timestamp);
      StaysOutOfReach(Step(s, actions[0]), actions[1..], nonce, timestamp);
    }
  }

  lemma {:induction false} FreshPid(used: set<nat>) returns (pid: nat)
    ensures forall p | p in used :: p < pid
    decreases |used|
  {
    pid := 0;
    if used != {} {
      var q :| q in used;
      var above := FreshPid(used - {q});
      assert forall p | p in used :: p == q || p in used - {q};
      pid := if q < above then above else q + 1;
    }
  }

  /** A waiting copy gets through if a request with another nonce reads the clock much later and locks first. */
  lemma WaitingCopyGetsThrough(s: State, pid: nat)
    requires Sound(s) && pid in s.waiting
    ensures CanBeAcceptedWithoutRestart(s, s.waiting[pid].nonce, s.waiting[pid].timestamp)
  {
    var a := s.waiting[pid];
    var other := FreshPid(s.waiting.Keys);
    var later := s.clock + WINDOW + 1;
    var x := Attempt(a.nonce + "'", later, later);
    var actions := [Tick(WINDOW + 1), Read(other, x.nonce, later), Lock(other)];
    var s1 := s.(clock := later);
    var s2 := s1.(waiting := s.waiting[other := x]);
    var t := s2.(waiting := s2.waiting - {other}, log := s.log + [x]);
    assert actions[1..] == [Read(other, x.nonce, later), Lock(other)] && actions[1..][1..] == [Lock(other)];
    assert RunFrom(s2, [Lock(other)]) == t;
    assert RunFrom(s1, actions[1..]) == RunFrom(s2, [Lock(other)]);
    assert RunFrom(s, actions) == t;
    assert t.waiting[pid] == a;
    AcceptedAfterOvertaking(s.log, x, a);
    assert AcceptedAfter(s, actions, pid, a.nonce, a.timestamp);
  }

  /** A reading far beyond all others empties the cache of every other nonce. */
  lemma AcceptedAfterOvertaking(log: Log, x: Attempt, a: Attempt)
    requires x.nonce != a.nonce && forall i | 0 <= i < |log| :: log[i].now + WINDOW < x.now
    ensures Accepts(log + [x], a)
  {
    RefusedExactly(log + [x], a);
    forall i | 0 <= i < |log|
      ensures !Remembered(log + [x], i)
    {
      assert (log + [x])[|log|] == x && (log + [x])[i] == log[i];
    }
  }

  /**
   However often it was accepted before, a signed request can be accepted again in some continuation
   iff its timestamp is not yet out of the window or a copy is in flight; a restart changes nothing about it.
   */
  lemma AcceptableExactlyWhileInReach(s: State, nonce: string, timestamp: nat)
    requires Sound(s)
    ensures CanBeAccepted(s, nonce, timestamp) <==> Reachable(s, nonce, timestamp)
    ensures CanBeAcceptedWithoutRestart(s, nonce, timestamp) <==> Reachable(s, nonce, timestamp)
  {
    forall actions, pid | AcceptedAfter(s, actions, pid, nonce, timestamp)
      ensures Reachable(s, nonce, timestamp)
    {
      assert InFlight(RunFrom(s, actions), nonce, timestamp);
      if !Reachable(s, nonce, timestamp) {
        StaysOutOfReach(s, actions, nonce, timestamp);
      }
    }
    if InFlight(s, nonce, timestamp) {
      var pid :| pid in s.waiting && s.waiting[pid].nonce == nonce && s.waiting[pid].timestamp == timestamp;
      WaitingCopyGetsThrough(s, pid);
    } else if s.clock <= timestamp + WINDOW {
      FreshCopyGetsThrough(s, nonce, timestamp);
    }
  }

  lemma FreshCopyGetsThrough(s: State, nonce: string, timestamp: nat)
    requires Sound(s) && s.clock <= timestamp + WINDOW
    ensures CanBeAcceptedWithoutRestart(s, nonce, timestamp)
  {
    var pid := FreshPid(s.waiting.Keys);
    var wait := if s.clock + WINDOW < timestamp then timestamp - WINDOW - s.clock else 0;
    var before := [Tick(wait), Read(pid, nonce, timestamp)];
    var s1 := s.(clock := s.clock + wait);
    var t := s1.(waiting := s.waiting[pid := Attempt(nonce, timestamp, s1.clock)]);
    assert before[1..] == [Read(pid, nonce, timestamp)];
    assert RunFrom(s1, before[1..]) == t;
    assert RunFrom(s, before) == t;
    RunsAreSound(s, before);
    WaitingCopyGetsThrough(t, pid);
    var after, q :| Restart !in after && AcceptedAfter(t, after, q, nonce, timestamp);
    RunFromAppend(s, before, after);
    assert Restart !in before + after;
    assert AcceptedAfter(s, before + after, q, nonce, timestamp);
  }

  // ---------- runs in which nobody is overtaken ----------

  /** A request that takes the lock read the clock no earlier than the one before it. */
  predicate KeepsOrder(s: State, a: Action) {
    a.Lock? && a.pid in s.waiting && s.log != [] ==> s.log[|s.log| - 1].now <= s.waiting[a.pid].now
  }

  predicate OrderedRun(s: State, actions: seq<Action>)
    decreases |actions|
  {
    actions != [] ==> KeepsOrder(s, actions[0]) && OrderedRun(Step(s, actions[0]), actions[1..])
  }

  /** If no request overtakes another between clock and lock, the log is in lock order. */
  lemma {:induction false} OrderedRunsLogInOrder(s: State, actions: seq<Action>)
    requires InLockOrder(s.log) && OrderedRun(s, actions)
    ensures InLockOrder(RunFrom(s, actions).log)
    decreases |actions|
  {
    if actions != [] {
      var t := Step(s, actions[0]);
      if actions[0].Lock? && actions[0].pid in s.waiting && s.log != [] {
        assert forall i | 0 <= i < |s.log| :: s.log[i].now <= s.log[|s.log| - 1].now;
      }
      assert InLockOrder(t.log);
      OrderedRunsLogInOrder(t, actions[1..]);
    }
  }

  /**
   In a run of one daemon without overtaking, a request is not accepted twice unless its timestamp
   was ahead of the clock it was first accepted by.
   */
  lemma OrderedRunsAcceptOnce(actions: seq<Action>, i: nat, j: nat)
    requires OrderedRun(State(0, map[], []), actions)
    requires var log := RunFrom(State(0, map[], []), actions).log;
             && i < j < |log|
             && log[i].nonce == log[j].nonce && log[i].timestamp == log[j].timestamp
             && log[i].timestamp <= log[i].now
    ensures !AcceptedAt(RunFrom(State(0, map[], []), actions).log, j)
  {
    var start := State(0, map[], []);
    OrderedRunsLogInOrder(start, actions);
    RunsAreSound(start, actions);
    var log := RunFrom(start, actions).log;
    assert Within(log[j].now, log[j].timestamp);
    if AcceptedAt(log, j) {
      AcceptancesFarApart(log, i, j);
    }
  }
}
