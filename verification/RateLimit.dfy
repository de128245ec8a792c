/**
 The in-memory sliding-window limiter (src/lib/rate-limit.ts).

 `Limiter` is the module-level map of pruned buckets. `AcceptedLog` is the simple form it has to
 agree with: it never forgets an accepted call.
 */
module RateLimit {
  import opened Common

  datatype Scope = AgentRuns | Maintenance | PhaseAction | SessionAttachments | WorkspaceInvites

  datatype Config = Config(windowMs: int, max: int)

  datatype Verdict = Verdict(success: bool, limit: int, remaining: int, resetMs: int, retryAfterSeconds: int)

  datatype Call = Call(scope: Scope, key: string, now: int)

  function ScopeName(scope: Scope): string {
    match scope
    case AgentRuns => "agentRuns"
    case Maintenance => "maintenance"
    case PhaseAction => "phaseAction"
    case SessionAttachments => "sessionAttachments"
    case WorkspaceInvites => "workspaceInvites"
  }

  function Limits(scope: Scope): (c: Config)
    ensures c.windowMs > 0 && c.max > 0
  {
    match scope
    case AgentRuns => Config(60_000, 10)
    case Maintenance => Config(60_000, 3)
    case PhaseAction => Config(60_000, 30)
    case SessionAttachments => Config(60_000, 10)
    case WorkspaceInvites => Config(60_000, 10)
  }

  function FullKey(scope: Scope, key: string): string {
    ScopeName(scope) + ":" + key
  }

  /** Distinct (scope, key) pairs never share a bucket. */
  lemma FullKeyInjective(s1: Scope, k1: string, s2: Scope, k2: string)
    ensures FullKey(s1, k1) == FullKey(s2, k2) <==> s1 == s2 && k1 == k2
  {
    var f1, f2 := FullKey(s1, k1), FullKey(s2, k2);
    var n1, n2 := |ScopeName(s1)|, |ScopeName(s2)|;
    if f1 == f2 {
      // The first ':' ends the scope name, because no scope name contains one.
      assert f1[n1] == ':' && f2[n2] == ':';
      assert forall i :: 0 <= i < n1 ==> f1[i] == ScopeName(s1)[i];
      assert forall i :: 0 <= i < n2 ==> f2[i] == ScopeName(s2)[i];
      NoColon(s1);
      NoColon(s2);
      assert n1 == n2;
      assert f1[..n1] == ScopeName(s1) && f2[..n2] == ScopeName(s2);
      assert f1[n1 + 1..] == k1 && f2[n2 + 1..] == k2;
      assert f1[0] == f2[0];
    }
  }

  lemma NoColon(s: Scope)
    ensures forall i :: 0 <= i < |ScopeName(s)| ==> ScopeName(s)[i] != ':'
  {
  }

  // ----- The simple form: a log that is never pruned -----

  /** How many entries of `log` lie in the half-open window (lo, hi]. */
  function CountIn(log: seq<int>, lo: int, hi: int): nat {
    if log == [] then 0
    else CountIn(log[..|log| - 1], lo, hi) + (if lo < log[|log| - 1] <= hi then 1 else 0)
  }

  /** The accepted calls of one bucket, when each call is judged against everything accepted before it. */
  function AcceptedLog(calls: seq<Call>, scope: Scope, key: string): seq<int> {
    if calls == [] then []
    else
      var log := AcceptedLog(calls[..|calls| - 1], scope, key);
      var c := calls[|calls| - 1];
      if c.scope == scope && c.key == key && Admits(log, scope, c.now) then log + [c.now] else log
  }

  /** What one more call adds to a bucket's log. */
  lemma AcceptedStep(calls: seq<Call>, c: Call, scope: Scope, key: string)
    ensures var log := AcceptedLog(calls, scope, key);
            AcceptedLog(calls + [c], scope, key) ==
              if c.scope == scope && c.key == key && Admits(log, scope, c.now) then log + [c.now] else log
  {
    assert (calls + [c])[..|calls + [c]| - 1] == calls;
  }

  predicate Admits(log: seq<int>, scope: Scope, now: int) {
    CountIn(log, now - Limits(scope).windowMs, now) < Limits(scope).max
  }

  ghost predicate Sorted(log: seq<int>) {
    forall i, j :: 0 <= i < j < |log| ==> log[i] <= log[j]
  }

  ghost predicate Bounded(log: seq<int>, now: int) {
    forall i :: 0 <= i < |log| ==> log[i] <= now
  }

  /** The clock never goes back. */
  ghost predicate Monotone(calls: seq<Call>) {
    forall i, j :: 0 <= i < j < |calls| ==> calls[i].now <= calls[j].now
  }

  lemma LogSorted(calls: seq<Call>, scope: Scope, key: string, now: int)
    requires Monotone(calls)
    requires forall i :: 0 <= i < |calls| ==> calls[i].now <= now
    ensures Sorted(AcceptedLog(calls, scope, key)) && Bounded(AcceptedLog(calls, scope, key), now)
  {
    if calls != [] {
      LogSorted(calls[..|calls| - 1], scope, key, calls[|calls| - 1].now);
    }
  }

  /** Moving a window that already reaches the newest entry forward loses entries and gains none. */
  lemma {:induction false} CountShrinks(log: seq<int>, lo: int, hi: int, lo': int, hi': int)
    requires Bounded(log, hi) && lo <= lo' && hi <= hi'
    ensures CountIn(log, lo', hi') <= CountIn(log, lo, hi)
  {
    if log != [] {
      CountShrinks(log[..|log| - 1], lo, hi, lo', hi');
    }
  }

  lemma {:induction false} CountBelow(log: seq<int>, lo: int, hi: int)
    requires Bounded(log, lo)
    ensures CountIn(log, lo, hi) == 0
  {
    if log != [] {
      CountBelow(log[..|log| - 1], lo, hi);
    }
  }

  lemma {:induction false} CountAll(log: seq<int>, lo: int, hi: int)
    requires forall i :: 0 <= i < |log| ==> lo < log[i] <= hi
    ensures CountIn(log, lo, hi) == |log|
  {
    if log != [] {
      CountAll(log[..|log| - 1], lo, hi);
    }
  }

  lemma {:induction false} CountConcat(a: seq<int>, b: seq<int>, lo: int, hi: int)
    ensures CountIn(a + b, lo, hi) == CountIn(a, lo, hi) + CountIn(b, lo, hi)
  {
    if b == [] {
      assert a + b == a;
    } else {
      assert (a + b)[..|a + b| - 1] == a + b[..|b| - 1];
      CountConcat(a, b[..|b| - 1], lo, hi);
    }
  }

  /** When a rejected caller may come back. */
  function ResetAt(log: seq<int>, scope: Scope): int
    requires |log| >= Limits(scope).max
  {
    log[|log| - Limits(scope).max] + Limits(scope).windowMs
  }

  /** One more accepted call never overfills a window. */
  lemma AcceptKeepsCap(log: seq<int>, scope: Scope, now: int, t: int)
    requires Bounded(log, now) && Admits(log, scope, now)
    requires CountIn(log, t - Limits(scope).windowMs, t) <= Limits(scope).max
    ensures CountIn(log + [now], t - Limits(scope).windowMs, t) <= Limits(scope).max
  {
    var w := Limits(scope).windowMs;
    CountConcat(log, [now], t - w, t);
    if t >= now {
      CountShrinks(log, now - w, now, t - w, t);
      CountAtMost([now], t - w, t);
    } else {
      assert CountIn([now][..0], t - w, t) == 0;
    }
  }

  /** Safety over whole runs: no window of the configured length ever holds more than `max` accepted calls. */
  lemma {:induction false} WindowNeverExceedsCap(calls: seq<Call>, scope: Scope, key: string, t: int)
    requires Monotone(calls)
    ensures CountIn(AcceptedLog(calls, scope, key), t - Limits(scope).windowMs, t) <= Limits(scope).max
  {
    if calls != [] {
      var before, c := calls[..|calls| - 1], calls[|calls| - 1];
      WindowNeverExceedsCap(before, scope, key, t);
      LogSorted(before, scope, key, c.now);
      var log := AcceptedLog(before, scope, key);
      if Admits(log, scope, c.now) {
        AcceptKeepsCap(log, scope, c.now, t);
      }
    }
  }

  /** While the max-th newest entry is inside the window, the window is full. */
  lemma FullBeforeReset(gone: seq<int>, newest: seq<int>, scope: Scope, t: int)
    requires |newest| == Limits(scope).max
    requires forall i :: 0 <= i < |newest| ==> t - Limits(scope).windowMs < newest[i] <= t
    ensures !Admits(gone + newest, scope, t)
  {
    CountConcat(gone, newest, t - Limits(scope).windowMs, t);
    CountAll(newest, t - Limits(scope).windowMs, t);
  }

  /** Once it has left the window, there is room. */
  lemma RoomAfterReset(gone: seq<int>, newest: seq<int>, scope: Scope, t: int)
    requires |newest| < Limits(scope).max
    requires forall i :: 0 <= i < |gone| ==> gone[i] <= t - Limits(scope).windowMs
    ensures Admits(gone + newest, scope, t)
  {
    var lo := t - Limits(scope).windowMs;
    CountConcat(gone, newest, lo, t);
    CountBelow(gone, lo, t);
    CountAtMost(newest, lo, t);
  }

  /** In a sorted log the window is full exactly while the max-th newest entry has not left it. */
  lemma FullUntilReset(log: seq<int>, scope: Scope, t: int)
    requires Sorted(log) && Bounded(log, t) && |log| >= Limits(scope).max
    ensures Admits(log, scope, t) <==> t >= ResetAt(log, scope)
  {
    var split := |log| - Limits(scope).max;
    if t < ResetAt(log, scope) {
      assert log == log[..split] + log[split..];
      FullBeforeReset(log[..split], log[split..], scope, t);
    } else {
      assert log == log[..split + 1] + log[split + 1..];
      RoomAfterReset(log[..split + 1], log[split + 1..], scope, t);
    }
  }

  lemma {:induction false} CountAtMost(log: seq<int>, lo: int, hi: int)
    ensures CountIn(log, lo, hi) <= |log|
  {
    if log != [] {
      CountAtMost(log[..|log| - 1], lo, hi);
    }
  }

  /** A rejection needs a full window, so the log holds at least `max` entries. */
  lemma RejectedLogIsLong(log: seq<int>, scope: Scope, now: int)
    requires !Admits(log, scope, now)
    ensures |log| >= Limits(scope).max
  {
    CountAtMost(log, now - Limits(scope).windowMs, now);
  }

  /**
   After a rejection, whatever other buckets do, every later call of this bucket before the reset
   time is rejected too, and the first one at or after it is accepted.
   */
  lemma {:induction false} RetryExactlyAtReset(calls: seq<Call>, later: seq<Call>, scope: Scope, key: string, now: int,
                                               t: int)
    requires Monotone(calls) && forall i :: 0 <= i < |calls| ==> calls[i].now <= now
    requires forall i :: 0 <= i < |later| ==> now <= later[i].now
    requires now <= t
    requires !Admits(AcceptedLog(calls, scope, key), scope, now)
    ensures |AcceptedLog(calls, scope, key)| >= Limits(scope).max
    ensures var reset := ResetAt(AcceptedLog(calls, scope, key), scope);
            (forall c :: c in later && c.scope == scope && c.key == key ==> c.now < reset) ==>
              && AcceptedLog(calls + later, scope, key) == AcceptedLog(calls, scope, key)
              && (Admits(AcceptedLog(calls + later, scope, key), scope, t) <==> t >= reset)
  {
    var log := AcceptedLog(calls, scope, key);
    RejectedLogIsLong(log, scope, now);
    LogSorted(calls, scope, key, now);
    FullUntilReset(log, scope, t);
    var reset := ResetAt(log, scope);
    if forall c :: c in later && c.scope == scope && c.key == key ==> c.now < reset {
      RejectionsLeaveLog(calls, later, scope, key, now);
    }
  }

  lemma {:induction false} RejectionsLeaveLog(calls: seq<Call>, later: seq<Call>, scope: Scope, key: string, now: int)
    requires forall i :: 0 <= i < |later| ==> now <= later[i].now
    requires |AcceptedLog(calls, scope, key)| >= Limits(scope).max
    requires Sorted(AcceptedLog(calls, scope, key)) && Bounded(AcceptedLog(calls, scope, key), now)
    requires forall c :: c in later && c.scope == scope && c.key == key
               ==> c.now < ResetAt(AcceptedLog(calls, scope, key), scope)
    ensures AcceptedLog(calls + later, scope, key) == AcceptedLog(calls, scope, key)
  {
    if later == [] {
      assert calls + later == calls;
    } else {
      var n, c := |later| - 1, later[|later| - 1];
      assert (calls + later)[..|calls + later| - 1] == calls + later[..n];
      RejectionsLeaveLog(calls, later[..n], scope, key, now);
      FullUntilReset(AcceptedLog(calls, scope, key), scope, c.now);
    }
  }

  // ----- The pruned buckets -----

  /** `previous.filter((ts) => ts > cutoff)`. */
  function Live(bucket: seq<int>, cutoff: int): (r: seq<int>)
    ensures forall i :: 0 <= i < |r| ==> r[i] > cutoff
  {
    if bucket == [] then []
    else if bucket[0] > cutoff then [bucket[0]] + Live(bucket[1..], cutoff)
    else Live(bucket[1..], cutoff)
  }

  /** `bucket` is `log` without a prefix of entries that every later window excludes. */
  ghost predicate Prunes(bucket: seq<int>, log: seq<int>, scope: Scope, lastNow: int) {
    && |bucket| <= |log| && |bucket| <= Limits(scope).max
    && bucket == log[|log| - |bucket|..]
    && forall i :: 0 <= i < |log| - |bucket| ==> log[i] <= lastNow - Limits(scope).windowMs
  }

  lemma {:induction false} LiveIsSuffix(bucket: seq<int>, cutoff: int)
    requires Sorted(bucket)
    ensures |Live(bucket, cutoff)| <= |bucket|
    ensures Live(bucket, cutoff) == bucket[|bucket| - |Live(bucket, cutoff)|..]
    ensures forall i :: 0 <= i < |bucket| - |Live(bucket, cutoff)| ==> bucket[i] <= cutoff
  {
    if bucket != [] {
      if bucket[0] > cutoff {
        LiveKeepsAll(bucket, cutoff);
      } else {
        var rest := bucket[1..];
        LiveIsSuffix(rest, cutoff);
        assert rest[|rest| - |Live(rest, cutoff)|..] == bucket[|bucket| - |Live(rest, cutoff)|..];
        assert forall i :: 1 <= i < |bucket| ==> bucket[i] == rest[i - 1];
      }
    }
  }

  lemma {:induction false} LiveKeepsAll(bucket: seq<int>, cutoff: int)
    requires forall i :: 0 <= i < |bucket| ==> bucket[i] > cutoff
    ensures Live(bucket, cutoff) == bucket
  {
    if bucket != [] {
      LiveKeepsAll(bucket[1..], cutoff);
    }
  }

  /** The live part of a suffix of the log is a suffix of the log. */
  lemma LiveSuffixOfLog(bucket: seq<int>, log: seq<int>, cutoff: int)
    requires Sorted(bucket) && |bucket| <= |log| && bucket == log[|log| - |bucket|..]
    requires forall i :: 0 <= i < |log| - |bucket| ==> log[i] <= cutoff
    ensures var live := Live(bucket, cutoff);
            && |live| <= |bucket| && live == log[|log| - |live|..]
            && forall i :: 0 <= i < |log| - |live| ==> log[i] <= cutoff
  {
    LiveIsSuffix(bucket, cutoff);
    var live := Live(bucket, cutoff);
    forall i | |log| - |bucket| <= i < |log| - |live|
      ensures log[i] <= cutoff
    {
      assert log[i] == bucket[i - (|log| - |bucket|)];
    }
  }

  /** A suffix of live entries after a prefix of dead ones is what the window counts. */
  lemma CountIsLive(log: seq<int>, live: seq<int>, cutoff: int, now: int)
    requires |live| <= |log| && live == log[|log| - |live|..] && Bounded(log, now)
    requires forall i :: 0 <= i < |log| - |live| ==> log[i] <= cutoff
    requires forall i :: 0 <= i < |live| ==> live[i] > cutoff
    ensures CountIn(log, cutoff, now) == |live|
  {
    var gone := log[..|log| - |live|];
    assert log == gone + live;
    CountConcat(gone, live, cutoff, now);
    CountBelow(gone, cutoff, now);
    forall i | 0 <= i < |live|
      ensures cutoff < live[i] <= now
    {
      assert live[i] == log[|log| - |live| + i];
    }
    CountAll(live, cutoff, now);
  }

  lemma SuffixSorted(bucket: seq<int>, log: seq<int>)
    requires Sorted(log) && |bucket| <= |log| && bucket == log[|log| - |bucket|..]
    ensures Sorted(bucket)
  {
  }

  /** The head of a full bucket is the entry whose expiry makes room. */
  lemma FullLive(live: seq<int>, log: seq<int>, scope: Scope, now: int)
    requires Limits(scope).max == |live| <= |log| && live == log[|log| - |live|..]
    requires forall i :: 0 <= i < |live| ==> live[i] > now - Limits(scope).windowMs
    ensures live[0] + Limits(scope).windowMs == ResetAt(log, scope) > now
  {
    assert live[0] == log[|log| - |live|];
  }

  /** The live part of a bucket counts the window of the full log, and its head decides the reset time. */
  lemma LiveAgrees(bucket: seq<int>, log: seq<int>, scope: Scope, lastNow: int, now: int)
    requires BucketFits(bucket, log, scope, lastNow) && lastNow <= now
    ensures var w, max := Limits(scope).windowMs, Limits(scope).max;
            var live := Live(bucket, now - w);
            && |live| == CountIn(log, now - w, now)
            && BucketFits(live, log, scope, now)
            && (|live| >= max ==> |log| >= max && live[0] + w == ResetAt(log, scope) > now)
  {
    var cutoff := now - Limits(scope).windowMs;
    var live := Live(bucket, cutoff);
    SuffixSorted(bucket, log);
    LiveSuffixOfLog(bucket, log, cutoff);
    CountIsLive(log, live, cutoff, now);
    if |live| == Limits(scope).max {
      FullLive(live, log, scope, now);
    }
  }

  function Max(a: int, b: int): int {
    if a < b then b else a
  }

  /** `Math.ceil(ms / 1000)`. */
  function CeilSeconds(ms: int): (s: int)
    ensures 1000 * (s - 1) < ms <= 1000 * s
  {
    (ms + 999) / 1000
  }

  /** The never-pruned logs of all buckets. */
  type Logs = map<(Scope, string), seq<int>>

  function LogIn(logs: Logs, scope: Scope, key: string): seq<int> {
    if (scope, key) in logs then logs[(scope, key)] else []
  }

  /** What one call does to the logs. */
  function Record(logs: Logs, c: Call): Logs {
    var log := LogIn(logs, c.scope, c.key);
    if Admits(log, c.scope, c.now) then logs[(c.scope, c.key) := log + [c.now]] else logs
  }

  ghost predicate Agree(logs: Logs, calls: seq<Call>) {
    forall scope, key :: LogIn(logs, scope, key) == AcceptedLog(calls, scope, key)
  }

  /** Recording calls one by one yields the accepted logs of the whole run. */
  lemma RecordFollowsRun(logs: Logs, calls: seq<Call>, c: Call)
    requires Agree(logs, calls)
    ensures Agree(Record(logs, c), calls + [c])
  {
    forall scope, key
      ensures LogIn(Record(logs, c), scope, key) == AcceptedLog(calls + [c], scope, key)
    {
      AcceptedStep(calls, c, scope, key);
    }
  }

  /** The pruned buckets agree with the never-pruned logs. */
  ghost predicate Consistent(buckets: map<string, seq<int>>, logs: Logs, lastNow: int) {
    forall scope, key :: BucketFits(BucketIn(buckets, scope, key), LogIn(logs, scope, key), scope, lastNow)
  }

  ghost predicate BucketFits(bucket: seq<int>, log: seq<int>, scope: Scope, lastNow: int) {
    Sorted(log) && Bounded(log, lastNow) && Prunes(bucket, log, scope, lastNow)
  }

  /** The reply at time `now` is right for the never-pruned log of its bucket. */
  ghost predicate Answers(r: Verdict, log: seq<int>, scope: Scope, now: int) {
    var w, max := Limits(scope).windowMs, Limits(scope).max;
    && r.limit == max
    // Accepted exactly when the log has room in (now - windowMs, now].
    && (r.success <==> Admits(log, scope, now))
    && r.remaining == (if r.success then max - 1 - CountIn(log, now - w, now) else 0)
    && (r.success ==> r.resetMs == now + w && r.retryAfterSeconds == 0)
    // The least whole number of seconds after which a rejected caller is let in.
    && (!r.success ==>
          && |log| >= max
          && r.resetMs == ResetAt(log, scope)
          && now + 1000 * (r.retryAfterSeconds - 1) < r.resetMs <= now + 1000 * r.retryAfterSeconds)
  }

  /** Storing an accepted call keeps the bucket fitting. */
  lemma StoreFits(live: seq<int>, log: seq<int>, scope: Scope, now: int)
    requires BucketFits(live, log, scope, now) && |live| < Limits(scope).max
    ensures BucketFits(live + [now], log + [now], scope, now)
  {
    var log' := log + [now];
    assert log'[|log'| - |live + [now]|..] == live + [now];
  }

  /** Storing a fitting bucket under its full key keeps all buckets consistent and touches no other one. */
  lemma StoreKeepsConsistent(buckets: map<string, seq<int>>, logs: Logs, lastNow: int, c: Call, bucket: seq<int>)
    requires Consistent(buckets, logs, lastNow) && lastNow <= c.now
    requires BucketFits(bucket, LogIn(Record(logs, c), c.scope, c.key), c.scope, c.now)
    ensures Consistent(buckets[FullKey(c.scope, c.key) := bucket], Record(logs, c), c.now)
    ensures SameElsewhere(buckets, buckets[FullKey(c.scope, c.key) := bucket], c.scope, c.key)
  {
    var buckets' := buckets[FullKey(c.scope, c.key) := bucket];
    forall s, k
      ensures BucketFits(BucketIn(buckets', s, k), LogIn(Record(logs, c), s, k), s, c.now)
      ensures s != c.scope || k != c.key ==> BucketIn(buckets', s, k) == BucketIn(buckets, s, k)
    {
      FullKeyInjective(s, k, c.scope, c.key);
      if s != c.scope || k != c.key {
        FitsLater(BucketIn(buckets, s, k), LogIn(logs, s, k), s, lastNow, c.now);
      }
    }
  }

  lemma FitsLater(bucket: seq<int>, log: seq<int>, scope: Scope, lastNow: int, now: int)
    requires BucketFits(bucket, log, scope, lastNow) && lastNow <= now
    ensures BucketFits(bucket, log, scope, now)
  {
  }

  ghost predicate SameElsewhere(before: map<string, seq<int>>, after: map<string, seq<int>>, scope: Scope,
                                key: string)
  {
    forall s, k :: s != scope || k != key ==> BucketIn(after, s, k) == BucketIn(before, s, k)
  }

  /** `memoryBuckets.get(fullKey) ?? []`. */
  function BucketIn(buckets: map<string, seq<int>>, scope: Scope, key: string): seq<int> {
    if FullKey(scope, key) in buckets then buckets[FullKey(scope, key)] else []
  }

  lemma RejectionAnswers(log: seq<int>, oldest: int, scope: Scope, now: int)
    requires CountIn(log, now - Limits(scope).windowMs, now) >= Limits(scope).max && |log| >= Limits(scope).max
    requires oldest + Limits(scope).windowMs == ResetAt(log, scope) > now
    ensures var resetMs := oldest + Limits(scope).windowMs;
            Answers(Verdict(false, Limits(scope).max, 0, resetMs, Max(1, CeilSeconds(resetMs - now))), log, scope, now)
  {
  }

  lemma AcceptanceAnswers(log: seq<int>, stored: nat, scope: Scope, now: int)
    requires CountIn(log, now - Limits(scope).windowMs, now) == stored - 1 < Limits(scope).max
    ensures Answers(Verdict(true, Limits(scope).max, Limits(scope).max - stored, now + Limits(scope).windowMs, 0), log,
                    scope, now)
  {
  }

  /** The decision of `memoryCheck` for one bucket: the reply and the bucket to store. */
  method Judge(previous: seq<int>, scope: Scope, now: int, ghost log: seq<int>, ghost lastNow: int)
    returns (r: Verdict, stored: seq<int>)
    requires BucketFits(previous, log, scope, lastNow) && lastNow <= now
    ensures Answers(r, log, scope, now)
    ensures BucketFits(stored, if Admits(log, scope, now) then log + [now] else log, scope, now)
  {
    var config := Limits(scope);
    var live := Live(previous, now - config.windowMs);
    LiveAgrees(previous, log, scope, lastNow, now);
    if |live| >= config.max {
      var oldest := if |live| > 0 then live[0] else now;
      var resetMs := oldest + config.windowMs;
      r := Verdict(false, config.max, 0, resetMs, Max(1, CeilSeconds(resetMs - now)));
      stored := live;
      RejectionAnswers(log, oldest, scope, now);
    } else {
      StoreFits(live, log, scope, now);
      stored := live + [now];
      AcceptanceAnswers(log, |stored|, scope, now);
      r := Verdict(true, config.max, config.max - |stored|, now + config.windowMs, 0);
    }
  }

  lemma RecordOwn(logs: Logs, c: Call)
    ensures var log := LogIn(logs, c.scope, c.key);
      LogIn(Record(logs, c), c.scope, c.key) == if Admits(log, c.scope, c.now) then log + [c.now] else log
  {
  }

  /** Appending a call that is not earlier than the ones before it. */
  lemma MonotoneStep(calls: seq<Call>, c: Call)
    requires Monotone(calls) && forall i :: 0 <= i < |calls| ==> calls[i].now <= c.now
    ensures Monotone(calls + [c]) && forall i :: 0 <= i < |calls + [c]| ==> (calls + [c])[i].now <= c.now
  {
  }

  /** What the pruned buckets have to answer for: the calls so far, and every one of them that was accepted. */
  datatype Past = Past(calls: seq<Call>, logs: Logs, lastNow: int)

  function Extend(past: Past, c: Call): Past {
    Past(past.calls + [c], Record(past.logs, c), c.now)
  }

  ghost predicate Follows(buckets: map<string, seq<int>>, past: Past) {
    && Consistent(buckets, past.logs, past.lastNow)
    && Agree(past.logs, past.calls)
    && Monotone(past.calls) && forall i :: 0 <= i < |past.calls| ==> past.calls[i].now <= past.lastNow
  }

  lemma FollowsHere(buckets: map<string, seq<int>>, past: Past, scope: Scope, key: string)
    requires Follows(buckets, past)
    ensures var log := AcceptedLog(past.calls, scope, key);
      LogIn(past.logs, scope, key) == log && BucketFits(BucketIn(buckets, scope, key), log, scope, past.lastNow)
  {
  }

  lemma StoreFollows(buckets: map<string, seq<int>>, past: Past, c: Call, bucket: seq<int>)
    requires Follows(buckets, past) && past.lastNow <= c.now
    requires var log := AcceptedLog(past.calls, c.scope, c.key);
      BucketFits(bucket, if Admits(log, c.scope, c.now) then log + [c.now] else log, c.scope, c.now)
    ensures Follows(buckets[FullKey(c.scope, c.key) := bucket], Extend(past, c))
    ensures SameElsewhere(buckets, buckets[FullKey(c.scope, c.key) := bucket], c.scope, c.key)
  {
    FollowsHere(buckets, past, c.scope, c.key);
    RecordOwn(past.logs, c);
    StoreKeepsConsistent(buckets, past.logs, past.lastNow, c, bucket);
    RecordFollowsRun(past.logs, past.calls, c);
    MonotoneStep(past.calls, c);
  }

  /** `memoryCheck` on the buckets as they are. */
  method CheckBuckets(buckets: map<string, seq<int>>, ghost past: Past, c: Call)
    returns (r: Verdict, after: map<string, seq<int>>)
    requires Follows(buckets, past) && past.lastNow <= c.now
    ensures Follows(after, Extend(past, c))
    ensures Answers(r, AcceptedLog(past.calls, c.scope, c.key), c.scope, c.now)
    ensures SameElsewhere(buckets, after, c.scope, c.key)
  {
    var stored;
    FollowsHere(buckets, past, c.scope, c.key);
    r, stored := Judge(BucketIn(buckets, c.scope, c.key), c.scope, c.now, AcceptedLog(past.calls, c.scope, c.key),
                       past.lastNow);
    StoreFollows(buckets, past, c, stored);
    after := buckets[FullKey(c.scope, c.key) := stored];
  }

  class Limiter {
    var buckets: map<string, seq<int>>
    ghost var past: Past

    ghost predicate Valid()
      reads this
    {
      Follows(buckets, past)
    }

    constructor (now: int)
      ensures Valid() && past == Past([], map[], now)
    {
      buckets, past := map[], Past([], map[], now);
    }

    /**
     `memoryCheck`. The clock does not go back between calls. The call is judged against every call that this
     object ever accepted, although the object has forgotten most of them.
     */
    method Check(scope: Scope, key: string, now: int) returns (r: Verdict)
      requires Valid() && past.lastNow <= now
      modifies this
      ensures Valid() && past == Extend(old(past), Call(scope, key, now))
      ensures Answers(r, AcceptedLog(old(past).calls, scope, key), scope, now)
      ensures SameElsewhere(old(buckets), buckets, scope, key)
    {
      var after;
      r, after := CheckBuckets(buckets, past, Call(scope, key, now));
      buckets, past := after, Extend(past, Call(scope, key, now));
    }
  }

  // ----- whole runs of one limiter -----

  /** Each reply is right for everything accepted before it. */
  ghost predicate Served(calls: seq<Call>, replies: seq<Verdict>) {
    && |replies| == |calls|
    && forall i :: 0 <= i < |calls| ==>
         Answers(replies[i], AcceptedLog(calls[..i], calls[i].scope, calls[i].key), calls[i].scope, calls[i].now)
  }

  lemma ServedStep(calls: seq<Call>, replies: seq<Verdict>, c: Call, r: Verdict)
    requires Served(calls, replies) && Answers(r, AcceptedLog(calls, c.scope, c.key), c.scope, c.now)
    ensures Served(calls + [c], replies + [r])
  {
    forall i | 0 <= i <= |calls| ensures (calls + [c])[..i] == calls[..i] {
    }
    FullPrefix(calls);
  }

  /** A run of a fresh limiter. */
  method Serve(limiter: Limiter, calls: seq<Call>) returns (replies: seq<Verdict>)
    requires limiter.Valid() && limiter.past.calls == []
    requires Monotone(calls) && forall i :: 0 <= i < |calls| ==> limiter.past.lastNow <= calls[i].now
    modifies limiter
    ensures limiter.Valid() && limiter.past.calls == calls && Served(calls, replies)
  {
    replies := [];
    for i := 0 to |calls|
      invariant limiter.Valid() && limiter.past.calls == calls[..i] && Served(calls[..i], replies)
      invariant i < |calls| ==> limiter.past.lastNow <= calls[i].now
    {
      var c := calls[i];
      PrefixStep(calls, i);
      var r := limiter.Check(c.scope, c.key, c.now);
      ServedStep(calls[..i], replies, c, r);
      replies := replies + [r];
    }
    FullPrefix(calls);
  }

  /** The times of the calls of one bucket that got a successful reply. */
  function AcceptedTimes(calls: seq<Call>, replies: seq<Verdict>, scope: Scope, key: string): seq<int>
    requires |replies| == |calls|
  {
    if calls == [] then []
    else
      var n := |calls| - 1;
      AcceptedTimes(calls[..n], replies[..n], scope, key)
      + if replies[n].success && calls[n].scope == scope && calls[n].key == key then [calls[n].now] else []
  }

  /** What reply `i` says about the log that its call found. */
  lemma ReplyAdmits(calls: seq<Call>, replies: seq<Verdict>, i: nat)
    requires Served(calls, replies) && i < |calls|
    ensures var c := calls[i];
      var log := AcceptedLog(calls[..i], c.scope, c.key);
      && (replies[i].success <==> Admits(log, c.scope, c.now))
      && (!replies[i].success ==> |log| >= Limits(c.scope).max && replies[i].resetMs == ResetAt(log, c.scope))
  {
    var c := calls[i];
    assert Answers(replies[i], AcceptedLog(calls[..i], c.scope, c.key), c.scope, c.now);
  }

  lemma ServedPrefix(calls: seq<Call>, replies: seq<Verdict>, n: nat)
    requires Served(calls, replies) && n <= |calls|
    ensures Served(calls[..n], replies[..n])
  {
    forall i | 0 <= i < n ensures calls[..n][..i] == calls[..i] {
    }
  }

  /** What the limiter let through is exactly what the full log accepts. */
  lemma {:induction false} RepliesAreTheLog(calls: seq<Call>, replies: seq<Verdict>, scope: Scope, key: string)
    requires Served(calls, replies)
    ensures AcceptedTimes(calls, replies, scope, key) == AcceptedLog(calls, scope, key)
  {
    if calls != [] {
      var n := |calls| - 1;
      ServedPrefix(calls, replies, n);
      RepliesAreTheLog(calls[..n], replies[..n], scope, key);
      ReplyAdmits(calls, replies, n);
    }
  }

  /** In every run of a limiter, no window holds more than the cap of calls that it let through. */
  lemma ServedWithinCap(calls: seq<Call>, replies: seq<Verdict>, scope: Scope, key: string, t: int)
    requires Monotone(calls) && Served(calls, replies)
    ensures CountIn(AcceptedTimes(calls, replies, scope, key), t - Limits(scope).windowMs, t) <= Limits(scope).max
  {
    RepliesAreTheLog(calls, replies, scope, key);
    WindowNeverExceedsCap(calls, scope, key, t);
  }

  /**
   In every run of a limiter: once a call is rejected, the next call of its bucket that comes at or after the announced
   `resetMs` is let through, and those before it are rejected, whatever the other buckets do.
   */
  lemma ServedRetries(calls: seq<Call>, replies: seq<Verdict>, i: nat, j: nat)
    requires Monotone(calls) && Served(calls, replies) && i < j < |calls|
    requires calls[j].scope == calls[i].scope && calls[j].key == calls[i].key && !replies[i].success
    requires forall k :: i < k < j && calls[k].scope == calls[i].scope && calls[k].key == calls[i].key
               ==> calls[k].now < replies[i].resetMs
    ensures replies[j].success <==> calls[j].now >= replies[i].resetMs
  {
    ReplyAdmits(calls, replies, i);
    ReplyAdmits(calls, replies, j);
    RetryBetween(calls, i, j);
  }

  ghost predicate NotAfter(calls: seq<Call>, now: int) {
    forall i :: 0 <= i < |calls| ==> calls[i].now <= now
  }

  ghost predicate NotBefore(calls: seq<Call>, now: int) {
    forall i :: 0 <= i < |calls| ==> now <= calls[i].now
  }

  /** The calls before the i-th, the i-th, and those between it and the j-th. */
  lemma Between(calls: seq<Call>, i: nat, j: nat)
    requires Monotone(calls) && i < j < |calls|
    ensures calls[..j] == calls[..i] + [calls[i]] + calls[i + 1..j]
    ensures Monotone(calls[..i]) && NotAfter(calls[..i], calls[i].now)
    ensures NotBefore(calls[i + 1..j], calls[i].now) && calls[i].now <= calls[j].now
  {
  }

  /** Calls of one bucket, all before `reset`. */
  ghost predicate ComeBefore(calls: seq<Call>, scope: Scope, key: string, reset: int) {
    forall l :: l in calls && l.scope == scope && l.key == key ==> l.now < reset
  }

  lemma ComeBeforeBetween(calls: seq<Call>, i: nat, j: nat, reset: int)
    requires i < j < |calls|
    requires forall k :: i < k < j && calls[k].scope == calls[i].scope && calls[k].key == calls[i].key ==>
               calls[k].now < reset
    ensures ComeBefore(calls[i + 1..j], calls[i].scope, calls[i].key, reset)
  {
  }

  lemma RetryBetween(calls: seq<Call>, i: nat, j: nat)
    requires Monotone(calls) && i < j < |calls| && calls[j].scope == calls[i].scope && calls[j].key == calls[i].key
    requires !Admits(AcceptedLog(calls[..i], calls[i].scope, calls[i].key), calls[i].scope, calls[i].now)
    requires |AcceptedLog(calls[..i], calls[i].scope, calls[i].key)| >= Limits(calls[i].scope).max
    requires forall k :: i < k < j && calls[k].scope == calls[i].scope && calls[k].key == calls[i].key ==>
               calls[k].now < ResetAt(AcceptedLog(calls[..i], calls[i].scope, calls[i].key), calls[i].scope)
    ensures Admits(AcceptedLog(calls[..j], calls[j].scope, calls[j].key), calls[j].scope, calls[j].now)
       <==> calls[j].now >= ResetAt(AcceptedLog(calls[..i], calls[i].scope, calls[i].key), calls[i].scope)
  {
    Between(calls, i, j);
    ComeBeforeBetween(calls, i, j, ResetAt(AcceptedLog(calls[..i], calls[i].scope, calls[i].key), calls[i].scope));
    RejectionStands(calls[..i], calls[i], calls[i + 1..j], calls[j].now);
  }

  /** A rejected call is not recorded, and nothing of its bucket is accepted before the log's reset time. */
  lemma RejectionStands(calls: seq<Call>, c: Call, later: seq<Call>, t: int)
    requires Monotone(calls) && NotAfter(calls, c.now) && NotBefore(later, c.now) && c.now <= t
    requires !Admits(AcceptedLog(calls, c.scope, c.key), c.scope, c.now)
    requires |AcceptedLog(calls, c.scope, c.key)| >= Limits(c.scope).max
    requires ComeBefore(later, c.scope, c.key, ResetAt(AcceptedLog(calls, c.scope, c.key), c.scope))
    ensures Admits(AcceptedLog(calls + [c] + later, c.scope, c.key), c.scope, t)
       <==> t >= ResetAt(AcceptedLog(calls, c.scope, c.key), c.scope)
  {
    RejectedLogStays(calls, c);
    RetryExactlyAtReset(calls + [c], later, c.scope, c.key, c.now, t);
  }

  lemma RejectedLogStays(calls: seq<Call>, c: Call)
    requires Monotone(calls) && NotAfter(calls, c.now)
    requires !Admits(AcceptedLog(calls, c.scope, c.key), c.scope, c.now)
    ensures AcceptedLog(calls + [c], c.scope, c.key) == AcceptedLog(calls, c.scope, c.key)
    ensures Monotone(calls + [c]) && NotAfter(calls + [c], c.now)
  {
    AcceptedStep(calls, c, c.scope, c.key);
    MonotoneStep(calls, c);
  }
}
