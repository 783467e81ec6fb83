/** The schedule of the chunked drivers (`fetch_prices_all_tickers_chunked_with_retry`
    and `fetch_prices_all`): the universe is cut into ceil(n / chunk_size)
    chunks; each chunk is attempted until an attempt succeeds or
    max_retries + 1 attempts have failed, with a backoff of 2^k seconds after
    the k-th failure when another attempt follows, and a pause of 200 ms after
    every chunk. Whether an attempt succeeds is given as ok(chunk, a), a
    being the number of failed attempts of that chunk before it. */
module Retry {
  import opened Batches

  /** What the drivers do, in order: attempts (1-based, as they log them)
      and sleeps. */
  datatype Event =
    | Attempt(chunk: nat, attempt: nat)
    | Backoff(seconds: nat)
    | Pause(millis: nat)

  /** The pause after each chunk, in milliseconds. */
  const CHUNK_PAUSE_MS: nat := 200

  /** The events of chunk c from its attempt a + 1 on, after a failures. */
  function ChunkEvents(c: nat, a: nat, maxRetries: nat, ok: (nat, nat) -> bool): seq<Event>
    requires a <= maxRetries
    decreases maxRetries - a
  {
    if ok(c, a) then [Attempt(c, a + 1)]
    else if a + 1 <= maxRetries then [Attempt(c, a + 1), Backoff(Pow2(a + 1))] + ChunkEvents(c, a + 1, maxRetries, ok)
    else [Attempt(c, a + 1)]
  }

  /** How many attempts chunk c gets from attempt a + 1 on: up to and
      including the first that succeeds, and never beyond attempt
      maxRetries + 1. */
  function Tries(c: nat, a: nat, maxRetries: nat, ok: (nat, nat) -> bool): (t: nat)
    requires a <= maxRetries
    ensures 1 <= t <= maxRetries + 1 - a
    ensures forall b | a <= b < a + t - 1 :: !ok(c, b)
    ensures ok(c, a + t - 1) || a + t - 1 == maxRetries
    decreases maxRetries - a
  {
    if ok(c, a) || a == maxRetries then 1 else 1 + Tries(c, a + 1, maxRetries, ok)
  }

  /** Whether chunk c is counted as successful: its last attempt succeeded. */
  predicate Succeeds(c: nat, maxRetries: nat, ok: (nat, nat) -> bool)
  {
    ok(c, Tries(c, 0, maxRetries, ok) - 1)
  }

  /** A chunk succeeds exactly when one of its max_retries + 1 attempts
      would; a chunk that fails has used all max_retries + 1 of them. */
  lemma SucceedsIff(c: nat, maxRetries: nat, ok: (nat, nat) -> bool)
    ensures Succeeds(c, maxRetries, ok) <==> exists a | 0 <= a <= maxRetries :: ok(c, a)
    ensures !Succeeds(c, maxRetries, ok) ==> Tries(c, 0, maxRetries, ok) == maxRetries + 1
  {
    var t := Tries(c, 0, maxRetries, ok);
    if a :| 0 <= a <= maxRetries && ok(c, a) {
      assert !(a < t - 1);
    }
  }

  /** One attempt of a driver's retry loop at chunk c, after `attempts`
      failures: what it leaves is appended to the chunk's log; when it
      succeeds or is the last, the chunk ends with it; otherwise a backoff
      follows and the next attempt comes. */
  lemma RetryStep<T>(c: nat, attempts: nat, maxRetries: nat, ok: (nat, nat) -> bool, log: (nat, nat) -> seq<T>,
                     events: seq<Event>, requests: seq<T>, asked: seq<T>)
    requires attempts <= maxRetries
    requires Tries(c, 0, maxRetries, ok) == attempts + Tries(c, attempts, maxRetries, ok)
    requires ChunkEvents(c, 0, maxRetries, ok) == events + ChunkEvents(c, attempts, maxRetries, ok)
    requires requests == AttemptLog(c, attempts, log) && asked == log(c, attempts)
    ensures requests + asked == AttemptLog(c, attempts + 1, log)
    ensures ok(c, attempts) || attempts == maxRetries ==>
      && Tries(c, 0, maxRetries, ok) == attempts + 1
      && (Succeeds(c, maxRetries, ok) <==> ok(c, attempts))
      && ChunkEvents(c, 0, maxRetries, ok) == events + [Attempt(c, attempts + 1)]
    ensures !ok(c, attempts) && attempts < maxRetries ==>
      && Tries(c, 0, maxRetries, ok) == (attempts + 1) + Tries(c, attempts + 1, maxRetries, ok)
      && ChunkEvents(c, 0, maxRetries, ok)
           == (events + [Attempt(c, attempts + 1), Backoff(Pow2(attempts + 1))]) + ChunkEvents(c, attempts + 1, maxRetries, ok)
  {
  }

  /** The chunk's events alternate attempts and backoffs: attempts a + 1 to
      a + t at the even positions, the k-th failure followed by a backoff of
      2^k seconds, and no backoff after the last attempt. */
  lemma ChunkEventsShape(c: nat, a: nat, maxRetries: nat, ok: (nat, nat) -> bool)
    requires a <= maxRetries
    ensures |ChunkEvents(c, a, maxRetries, ok)| == 2 * Tries(c, a, maxRetries, ok) - 1
    ensures forall j | 0 <= j < Tries(c, a, maxRetries, ok) ::
      ChunkEvents(c, a, maxRetries, ok)[2 * j] == Attempt(c, a + j + 1)
    ensures forall j | 0 <= j < Tries(c, a, maxRetries, ok) - 1 ::
      ChunkEvents(c, a, maxRetries, ok)[2 * j + 1] == Backoff(Pow2(a + j + 1))
  {
    ChunkAttemptsAt(c, a, maxRetries, ok);
    ChunkBackoffsAt(c, a, maxRetries, ok);
  }

  lemma {:induction false} ChunkAttemptsAt(c: nat, a: nat, maxRetries: nat, ok: (nat, nat) -> bool)
    requires a <= maxRetries
    ensures |ChunkEvents(c, a, maxRetries, ok)| == 2 * Tries(c, a, maxRetries, ok) - 1
    ensures forall j | 0 <= j < Tries(c, a, maxRetries, ok) ::
      ChunkEvents(c, a, maxRetries, ok)[2 * j] == Attempt(c, a + j + 1)
    decreases maxRetries - a
  {
    var ev := ChunkEvents(c, a, maxRetries, ok);
    var t := Tries(c, a, maxRetries, ok);
    if !ok(c, a) && a + 1 <= maxRetries {
      var rest := ChunkEvents(c, a + 1, maxRetries, ok);
      ChunkAttemptsAt(c, a + 1, maxRetries, ok);
      assert t == 1 + Tries(c, a + 1, maxRetries, ok);
      assert ev == [Attempt(c, a + 1), Backoff(Pow2(a + 1))] + rest;
      forall j | 0 <= j < t ensures ev[2 * j] == Attempt(c, a + j + 1) {
        if j > 0 { assert ev[2 * j] == rest[2 * (j - 1)]; }
      }
    } else {
      assert t == 1 && ev == [Attempt(c, a + 1)];
    }
  }

  lemma {:induction false} ChunkBackoffsAt(c: nat, a: nat, maxRetries: nat, ok: (nat, nat) -> bool)
    requires a <= maxRetries
    ensures |ChunkEvents(c, a, maxRetries, ok)| == 2 * Tries(c, a, maxRetries, ok) - 1
    ensures forall j | 0 <= j < Tries(c, a, maxRetries, ok) - 1 ::
      ChunkEvents(c, a, maxRetries, ok)[2 * j + 1] == Backoff(Pow2(a + j + 1))
    decreases maxRetries - a
  {
    var ev := ChunkEvents(c, a, maxRetries, ok);
    var t := Tries(c, a, maxRetries, ok);
    if !ok(c, a) && a + 1 <= maxRetries {
      var rest := ChunkEvents(c, a + 1, maxRetries, ok);
      ChunkBackoffsAt(c, a + 1, maxRetries, ok);
      assert t == 1 + Tries(c, a + 1, maxRetries, ok);
      assert ev == [Attempt(c, a + 1), Backoff(Pow2(a + 1))] + rest;
      forall j | 0 <= j < t - 1 ensures ev[2 * j + 1] == Backoff(Pow2(a + j + 1)) {
        if j > 0 { assert ev[2 * j + 1] == rest[2 * (j - 1) + 1]; }
      }
    } else {
      assert t == 1 && ev == [Attempt(c, a + 1)];
    }
  }

  /** The events of chunks 0 .. k-1, each followed by the pause. */
  function RunEvents(k: nat, maxRetries: nat, ok: (nat, nat) -> bool): seq<Event>
  {
    if k == 0 then [] else RunEvents(k - 1, maxRetries, ok) + ChunkEvents(k - 1, 0, maxRetries, ok) + [Pause(CHUNK_PAUSE_MS)]
  }

  /** One more chunk: its events and the pause are appended, and it is
      counted when it succeeds. */
  lemma RunStep(k: nat, maxRetries: nat, ok: (nat, nat) -> bool)
    ensures RunEvents(k + 1, maxRetries, ok) == RunEvents(k, maxRetries, ok) + ChunkEvents(k, 0, maxRetries, ok) + [Pause(CHUNK_PAUSE_MS)]
    ensures Successes(k + 1, maxRetries, ok) == Successes(k, maxRetries, ok) + (if Succeeds(k, maxRetries, ok) then 1 else 0)
  {
  }

  /** The state of a driver's chunk loop after chunks 0 .. k-1: their
      events, the successful ones counted in s and the failed ones in f. */
  predicate RunSoFar(k: nat, maxRetries: nat, ok: (nat, nat) -> bool, trace: seq<Event>, s: nat, f: nat)
  {
    trace == RunEvents(k, maxRetries, ok) && s == Successes(k, maxRetries, ok) && s + f == k
  }

  /** Chunk k run and paused after, counted where it belongs. */
  lemma RunSoFarStep(k: nat, maxRetries: nat, ok: (nat, nat) -> bool, trace: seq<Event>, s: nat, f: nat,
                     events: seq<Event>, succeeded: bool)
    requires RunSoFar(k, maxRetries, ok, trace, s, f)
    requires events == ChunkEvents(k, 0, maxRetries, ok) && succeeded == Succeeds(k, maxRetries, ok)
    ensures RunSoFar(k + 1, maxRetries, ok, trace + events + [Pause(CHUNK_PAUSE_MS)],
                     if succeeded then s + 1 else s, if succeeded then f else f + 1)
  {
    RunStep(k, maxRetries, ok);
  }

  /** What attempts 1 .. n of chunk c leave behind, in order, when attempt
      a + 1 leaves log(c, a) (the provider requests it makes, say). */
  function AttemptLog<T>(c: nat, n: nat, log: (nat, nat) -> seq<T>): seq<T>
  {
    if n == 0 then [] else AttemptLog(c, n - 1, log) + log(c, n - 1)
  }

  /** What the attempts of chunks 0 .. k-1 leave behind, chunk after chunk,
      each chunk with as many attempts as the schedule gives it. */
  function RunLog<T>(k: nat, maxRetries: nat, ok: (nat, nat) -> bool, log: (nat, nat) -> seq<T>): seq<T>
  {
    if k == 0 then [] else RunLog(k - 1, maxRetries, ok, log) + AttemptLog(k - 1, Tries(k - 1, 0, maxRetries, ok), log)
  }

  /** A driver's chunk loop after chunks 0 .. k-1, with what their
      attempts left behind. */
  ghost predicate LoggedSoFar<T>(k: nat, maxRetries: nat, ok: (nat, nat) -> bool, log: (nat, nat) -> seq<T>,
                                 trace: seq<Event>, s: nat, f: nat, requests: seq<T>)
  {
    RunSoFar(k, maxRetries, ok, trace, s, f) && requests == RunLog(k, maxRetries, ok, log)
  }

  /** Chunk k run, logged and paused after, counted where it belongs. */
  lemma LoggedStep<T>(k: nat, maxRetries: nat, ok: (nat, nat) -> bool, log: (nat, nat) -> seq<T>,
                      trace: seq<Event>, s: nat, f: nat, requests: seq<T>,
                      events: seq<Event>, succeeded: bool, asked: seq<T>)
    requires LoggedSoFar(k, maxRetries, ok, log, trace, s, f, requests)
    requires events == ChunkEvents(k, 0, maxRetries, ok) && succeeded == Succeeds(k, maxRetries, ok)
    requires asked == AttemptLog(k, Tries(k, 0, maxRetries, ok), log)
    ensures LoggedSoFar(k + 1, maxRetries, ok, log, trace + events + [Pause(CHUNK_PAUSE_MS)],
                        if succeeded then s + 1 else s, if succeeded then f else f + 1, requests + asked)
  {
    RunSoFarStep(k, maxRetries, ok, trace, s, f, events, succeeded);
  }

  lemma {:induction false} AttemptLogMembers<T>(c: nat, n: nat, log: (nat, nat) -> seq<T>)
    ensures forall x :: x in AttemptLog(c, n, log) <==> exists a | 0 <= a < n :: x in log(c, a)
  {
    if n > 0 {
      AttemptLogMembers(c, n - 1, log);
    }
  }

  /** The run's log holds exactly what the attempts the schedule makes leave. */
  lemma {:induction false} RunLogMembers<T>(k: nat, maxRetries: nat, ok: (nat, nat) -> bool, log: (nat, nat) -> seq<T>)
    ensures forall x :: x in RunLog(k, maxRetries, ok, log) <==>
      exists c, a | 0 <= c < k && 0 <= a < Tries(c, 0, maxRetries, ok) :: x in log(c, a)
  {
    if k > 0 {
      RunLogMembers(k - 1, maxRetries, ok, log);
      AttemptLogMembers(k - 1, Tries(k - 1, 0, maxRetries, ok), log);
    }
  }

  lemma {:induction false} AttemptLogLength<T>(c: nat, n: nat, log: (nat, nat) -> seq<T>)
    ensures (forall a | 0 <= a < n :: |log(c, a)| <= 1) ==> |AttemptLog(c, n, log)| <= n
    ensures (forall a | 0 <= a < n :: |log(c, a)| == 1) ==> |AttemptLog(c, n, log)| == n
  {
    if n > 0 {
      AttemptLogLength(c, n - 1, log);
    }
  }

  /** When every attempt leaves at most one entry (exactly one), the run's
      log has at most (exactly) as many entries as the run has attempts. */
  lemma {:induction false} RunLogLength<T>(k: nat, maxRetries: nat, ok: (nat, nat) -> bool, log: (nat, nat) -> seq<T>)
    ensures (forall c, a | 0 <= c < k :: |log(c, a)| <= 1) ==> |RunLog(k, maxRetries, ok, log)| <= TotalTries(k, maxRetries, ok)
    ensures (forall c, a | 0 <= c < k :: |log(c, a)| == 1) ==> |RunLog(k, maxRetries, ok, log)| == TotalTries(k, maxRetries, ok)
  {
    if k > 0 {
      RunLogLength(k - 1, maxRetries, ok, log);
      AttemptLogLength(k - 1, Tries(k - 1, 0, maxRetries, ok), log);
    }
  }

  /** The number of successful chunks among 0 .. k-1. */
  function Successes(k: nat, maxRetries: nat, ok: (nat, nat) -> bool): (n: nat)
    ensures n <= k
  {
    if k == 0 then 0 else Successes(k - 1, maxRetries, ok) + (if Succeeds(k - 1, maxRetries, ok) then 1 else 0)
  }

  /** Every chunk fails exactly when none succeeds; every chunk succeeds
      exactly when none is left to count as failed. */
  lemma {:induction false} SuccessesAll(k: nat, maxRetries: nat, ok: (nat, nat) -> bool)
    ensures Successes(k, maxRetries, ok) == k <==> forall c | 0 <= c < k :: Succeeds(c, maxRetries, ok)
    ensures Successes(k, maxRetries, ok) == 0 <==> forall c | 0 <= c < k :: !Succeeds(c, maxRetries, ok)
  {
    if k > 0 {
      SuccessesAll(k - 1, maxRetries, ok);
    }
  }

  /** The number of attempts and of pauses in a sequence of events. */
  function CountAttempts(ev: seq<Event>): nat
  {
    if ev == [] then 0 else CountAttempts(ev[..|ev| - 1]) + (if ev[|ev| - 1].Attempt? then 1 else 0)
  }

  function CountPauses(ev: seq<Event>): nat
  {
    if ev == [] then 0 else CountPauses(ev[..|ev| - 1]) + (if ev[|ev| - 1].Pause? then 1 else 0)
  }

  lemma {:induction false} CountConcat(a: seq<Event>, b: seq<Event>)
    ensures CountAttempts(a + b) == CountAttempts(a) + CountAttempts(b)
    ensures CountPauses(a + b) == CountPauses(a) + CountPauses(b)
    decreases |b|
  {
    if b == [] {
      assert a + b == a;
    } else {
      assert (a + b)[..|a + b| - 1] == a + b[..|b| - 1];
      CountConcat(a, b[..|b| - 1]);
    }
  }

  /** A chunk's events hold its Tries attempts and no pause. */
  lemma {:induction false} ChunkCounts(c: nat, a: nat, maxRetries: nat, ok: (nat, nat) -> bool)
    requires a <= maxRetries
    ensures CountAttempts(ChunkEvents(c, a, maxRetries, ok)) == Tries(c, a, maxRetries, ok)
    ensures CountPauses(ChunkEvents(c, a, maxRetries, ok)) == 0
    decreases maxRetries - a
  {
    var one := [Attempt(c, a + 1)];
    assert CountAttempts(one) == 1 && CountPauses(one) == 0 by {
      assert one[..0] == [];
    }
    if !ok(c, a) && a + 1 <= maxRetries {
      var two := [Attempt(c, a + 1), Backoff(Pow2(a + 1))];
      assert two[..1] == one;
      ChunkCounts(c, a + 1, maxRetries, ok);
      CountConcat(two, ChunkEvents(c, a + 1, maxRetries, ok));
    }
  }

  /** The sum of the chunks' attempt counts. */
  function TotalTries(k: nat, maxRetries: nat, ok: (nat, nat) -> bool): nat
  {
    if k == 0 then 0 else TotalTries(k - 1, maxRetries, ok) + Tries(k - 1, 0, maxRetries, ok)
  }

  /** A run over k chunks pauses k times and attempts each chunk as often as
      its Tries say. */
  lemma RunCounts(k: nat, maxRetries: nat, ok: (nat, nat) -> bool)
    ensures CountPauses(RunEvents(k, maxRetries, ok)) == k
    ensures CountAttempts(RunEvents(k, maxRetries, ok)) == TotalTries(k, maxRetries, ok)
  {
    RunPauses(k, maxRetries, ok);
    RunAttempts(k, maxRetries, ok);
  }

  lemma {:induction false} RunPauses(k: nat, maxRetries: nat, ok: (nat, nat) -> bool)
    ensures CountPauses(RunEvents(k, maxRetries, ok)) == k
  {
    if k > 0 {
      RunPauses(k - 1, maxRetries, ok);
      var pre := RunEvents(k - 1, maxRetries, ok);
      var ch := ChunkEvents(k - 1, 0, maxRetries, ok);
      ChunkCounts(k - 1, 0, maxRetries, ok);
      ChunkThenPause(pre, ch);
    }
  }

  lemma {:induction false} RunAttempts(k: nat, maxRetries: nat, ok: (nat, nat) -> bool)
    ensures CountAttempts(RunEvents(k, maxRetries, ok)) == TotalTries(k, maxRetries, ok)
  {
    if k > 0 {
      RunAttempts(k - 1, maxRetries, ok);
      var pre := RunEvents(k - 1, maxRetries, ok);
      var ch := ChunkEvents(k - 1, 0, maxRetries, ok);
      ChunkCounts(k - 1, 0, maxRetries, ok);
      ChunkThenPause(pre, ch);
    }
  }

  /** A chunk's events and the pause after it, appended to a run. */
  lemma ChunkThenPause(pre: seq<Event>, ch: seq<Event>)
    ensures CountAttempts(pre + ch + [Pause(CHUNK_PAUSE_MS)]) == CountAttempts(pre) + CountAttempts(ch)
    ensures CountPauses(pre + ch + [Pause(CHUNK_PAUSE_MS)]) == CountPauses(pre) + CountPauses(ch) + 1
  {
    CountConcat(pre, ch);
    var ev := pre + ch;
    assert (ev + [Pause(CHUNK_PAUSE_MS)])[..|ev|] == ev;
  }

  /** At most max_retries + 1 attempts per chunk: k * (max_retries + 1) in all. */
  lemma {:induction false} TotalTriesBound(k: nat, maxRetries: nat, ok: (nat, nat) -> bool)
    ensures TotalTries(k, maxRetries, ok) <= k * (maxRetries + 1)
  {
    if k > 0 {
      TotalTriesBound(k - 1, maxRetries, ok);
      MulSucc(k - 1, maxRetries + 1);
    }
  }
}
