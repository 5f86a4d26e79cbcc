/**
 The in-memory fixed-window rate limiter (frontend_rate_limiter.go): counters per key that are
 thrown away whenever the truncated timestamp changes.
 */
module RateLimiter {
  import opened Wrappers
  import opened Durations

  const UNIX_EPOCH: int := 62_135_596_800  // seconds from the zero time to 1970

  function TruncTS(now: Time, dur: int): int {
    Truncate(now, dur) / SECOND - UNIX_EPOCH
  }

  lemma TruncationIsMonotone(t: Time, u: Time, dur: int)
    requires t <= u
    ensures TruncTS(t, dur) <= TruncTS(u, dur)
  {
    RoundingIsMonotone(t, u, dur);
    RoundingIsMonotone(Truncate(t, dur), Truncate(u, dur), SECOND);
  }

  /** For durations of whole seconds two instants share a timestamp exactly when they share a truncated window. */
  lemma WholeSecondWindows(t: Time, u: Time, dur: int)
    requires dur > 0 && dur % SECOND == 0
    ensures TruncTS(t, dur) == TruncTS(u, dur) <==> Truncate(t, dur) == Truncate(u, dur)
    ensures t + dur <= u ==> TruncTS(t, dur) < TruncTS(u, dur)
  {
    WholeSecondMultiple(t, dur);
    WholeSecondMultiple(u, dur);
    NearestAndLastMultiple(t, dur);
    NearestAndLastMultiple(u, dur);
    if t + dur <= u {
      assert Truncate(t, dur) <= t < Truncate(u, dur);
    }
  }

  /** A truncated time is then a whole number of seconds, which the timestamp counts from 1970. */
  lemma WholeSecondMultiple(t: Time, dur: int)
    requires dur > 0 && dur % SECOND == 0
    ensures Truncate(t, dur) == SECOND * (TruncTS(t, dur) + 62_135_596_800)
  {
    var q, s := t / dur, dur / SECOND;
    assert t == dur * q + t % dur && dur == SECOND * s;
    assert Truncate(t, dur) == dur * q == SECOND * (s * q);
    MultipleIsMultiple(SECOND, s * q);
  }

  /** Shorter windows merge: with a duration of a millisecond the whole first second has one timestamp. */
  lemma SubSecondWindowsMerge(t: Time)
    requires 0 <= t < SECOND
    ensures TruncTS(t, 1_000_000) == TruncTS(0, 1_000_000)
  {
  }

  // ---------------------------------------------------------------- the limiter on values

  datatype Generation = Generation(truncTS: int, keys: map<string, nat>)

  function Used(g: Generation, key: string): nat {
    if key in g.keys then g.keys[key] else 0
  }

  /** The generation that serves a call: the current one, or a fresh one when the truncated time has changed. */
  function Current(state: Option<Generation>, truncTS: int): Generation {
    if state.Some? && state.value.truncTS == truncTS then state.value else Generation(truncTS, map[])
  }

  datatype Attempt = Attempt(now: Time, key: string)

  function Next(state: Option<Generation>, a: Attempt, dur: int): Option<Generation> {
    var g := Current(state, TruncTS(a.now, dur));
    Some(g.(keys := g.keys[a.key := Used(g, a.key) + 1]))
  }

  predicate Allowed(state: Option<Generation>, a: Attempt, dur: int, max: int) {
    Used(Current(state, TruncTS(a.now, dur)), a.key) < max
  }

  /** The limiter after a run of attempts. */
  function After(run: seq<Attempt>, dur: int): Option<Generation> {
    if run == [] then None else Next(After(run[..|run| - 1], dur), run[|run| - 1], dur)
  }

  /** Whether attempt i of the run was granted. */
  predicate Granted(run: seq<Attempt>, i: nat, dur: int, max: int)
    requires i < |run|
  {
    Allowed(After(run[..i], dur), run[i], dur, max)
  }

  predicate ClockMoves(run: seq<Attempt>) {
    forall i, j | 0 <= i < j < |run| :: run[i].now <= run[j].now
  }

  /** Attempts of a key in one truncated window, and how many of them were granted. */
  function Attempts(run: seq<Attempt>, window: int, key: string, dur: int): nat {
    if run == [] then 0
    else
      var last := run[|run| - 1];
      Attempts(run[..|run| - 1], window, key, dur) + if TruncTS(last.now, dur) == window && last.key == key then 1 else 0
  }

  function Grants(run: seq<Attempt>, window: int, key: string, dur: int, max: int): nat {
    if run == [] then 0
    else
      var last := run[|run| - 1];
      Grants(run[..|run| - 1], window, key, dur, max) +
      if TruncTS(last.now, dur) == window && last.key == key && Granted(run, |run| - 1, dur, max) then 1 else 0
  }

  /** Grants of a key at times from `from` up to but not including `to`. */
  function GrantsBetween(run: seq<Attempt>, from: Time, to: Time, key: string, dur: int, max: int): nat {
    if run == [] then 0
    else
      var last := run[|run| - 1];
      GrantsBetween(run[..|run| - 1], from, to, key, dur, max) +
      if from <= last.now < to && last.key == key && Granted(run, |run| - 1, dur, max) then 1 else 0
  }

  function Min(a: int, b: int): int {
    if a < b then a else b
  }

  function Limit(max: int): nat {
    if max < 0 then 0 else max
  }

  lemma {:induction false} NoAttemptsYet(run: seq<Attempt>, window: int, key: string, dur: int)
    requires forall i | 0 <= i < |run| :: TruncTS(run[i].now, dur) < window
    ensures Attempts(run, window, key, dur) == 0
  {
    if run == [] {
    } else {
      NoAttemptsYet(run[..|run| - 1], window, key, dur);
    }
  }

  /** The current generation counts exactly the attempts of its window. */
  lemma {:induction false} GenerationCounts(run: seq<Attempt>, window: int, key: string, dur: int)
    requires ClockMoves(run)
    requires forall i | 0 <= i < |run| :: TruncTS(run[i].now, dur) <= window
    ensures Used(Current(After(run, dur), window), key) == Attempts(run, window, key, dur)
  {
    if run == [] {
    } else {
      var init, last := run[..|run| - 1], run[|run| - 1];
      var w := TruncTS(last.now, dur);
      if w == window {
        GenerationCounts(init, window, key, dur);
      } else {
        forall i | 0 <= i < |run| ensures TruncTS(run[i].now, dur) < window {
          TruncationIsMonotone(run[i].now, last.now, dur);
        }
        NoAttemptsYet(run, window, key, dur);
      }
    }
  }

  /** In every truncated window every key is granted exactly min(max, attempts) takes, whatever the mix of keys. */
  lemma {:induction false} GrantsPerWindow(run: seq<Attempt>, window: int, key: string, dur: int, max: int)
    requires ClockMoves(run)
    ensures Grants(run, window, key, dur, max) == Min(Limit(max), Attempts(run, window, key, dur))
  {
    if run == [] {
    } else {
      var init, last := run[..|run| - 1], run[|run| - 1];
      GrantsPerWindow(init, window, key, dur, max);
      if TruncTS(last.now, dur) == window && last.key == key {
        forall i | 0 <= i < |init| ensures TruncTS(init[i].now, dur) <= window {
          TruncationIsMonotone(run[i].now, last.now, dur);
        }
        GenerationCounts(init, window, key, dur);
      }
    }
  }

  /** A key that was not used for a whole duration, in whole seconds, is granted again. */
  lemma GrantedAgain(run: seq<Attempt>, i: nat, dur: int, max: int)
    requires ClockMoves(run) && i < |run| && max > 0 && dur > 0 && dur % SECOND == 0
    requires forall j | 0 <= j < i && run[j].key == run[i].key :: run[j].now + dur <= run[i].now
    ensures Granted(run, i, dur, max)
  {
    var window, key, past := TruncTS(run[i].now, dur), run[i].key, run[..i];
    forall j | 0 <= j < i ensures TruncTS(past[j].now, dur) <= window {
      TruncationIsMonotone(run[j].now, run[i].now, dur);
    }
    GenerationCounts(past, window, key, dur);
    forall j | 0 <= j < i ensures past[j].key == key ==> TruncTS(past[j].now, dur) < window {
      WholeSecondWindows(run[j].now, run[i].now, dur);
    }
    NotUsed(past, window, key, dur);
  }

  lemma {:induction false} NotUsed(run: seq<Attempt>, window: int, key: string, dur: int)
    requires forall j | 0 <= j < |run| :: run[j].key == key ==> TruncTS(run[j].now, dur) < window
    ensures Attempts(run, window, key, dur) == 0
  {
    if run == [] {
    } else {
      NotUsed(run[..|run| - 1], window, key, dur);
    }
  }

  lemma {:induction false} SpanGrantsSplit(run: seq<Attempt>, from: Time, key: string, dur: int, max: int)
    requires dur > 0
    ensures GrantsBetween(run, from, from + dur, key, dur, max) <=
            Grants(run, TruncTS(from, dur), key, dur, max) + Grants(run, TruncTS(from + dur - 1, dur), key, dur, max)
  {
    if run == [] {
    } else {
      var last := run[|run| - 1];
      SpanGrantsSplit(run[..|run| - 1], from, key, dur, max);
      if from <= last.now < from + dur {
        SpanTouchesTwoMultiples(from, last.now, dur);
      }
    }
  }

  lemma {:induction false} EmptySpan(run: seq<Attempt>, from: Time, to: Time, key: string, dur: int, max: int)
    requires to <= from
    ensures GrantsBetween(run, from, to, key, dur, max) == 0
  {
    if run == [] {
    } else {
      EmptySpan(run[..|run| - 1], from, to, key, dur, max);
    }
  }

  /** In any half-open span of the configured duration a key is granted at most twice the maximum. */
  lemma GrantsPerSpan(run: seq<Attempt>, from: Time, key: string, dur: int, max: int)
    requires ClockMoves(run)
    ensures GrantsBetween(run, from, from + dur, key, dur, max) <= 2 * Limit(max)
  {
    if dur > 0 {
      SpanGrantsSplit(run, from, key, dur, max);
      GrantsPerWindow(run, TruncTS(from, dur), key, dur, max);
      GrantsPerWindow(run, TruncTS(from + dur - 1, dur), key, dur, max);
    } else {
      EmptySpan(run, from, from + dur, key, dur, max);
    }
  }

  // ---------------------------------------------------------------- the limiter as it runs

  class LimitedKeys {
    const truncTS: int
    var keys: map<string, nat>

    function State(): Generation
      reads this
    {
      Generation(truncTS, keys)
    }

    constructor (t: int)
      ensures State() == Generation(t, map[])
    {
      truncTS, keys := t, map[];
    }

    method Take(key: string, max: int) returns (ok: bool)
      modifies this
      ensures ok <==> old(Used(State(), key)) < max
      ensures keys == old(keys)[key := old(Used(State(), key)) + 1]
    {
      var val := 0;
      if key in keys {
        val := keys[key];
      } else {
        keys := keys[key := 0];
      }
      keys := keys[key := val + 1];
      ok := val < max;
    }
  }

  class MemoryFrontendRateLimiter {
    var currGeneration: LimitedKeys?
    const dur: int
    const max: int

    /** Every attempt so far. */
    ghost var run: seq<Attempt>

    function State(): Option<Generation>
      reads this, currGeneration
    {
      if currGeneration == null then None else Some(currGeneration.State())
    }

    ghost predicate Valid()
      reads this, currGeneration
    {
      State() == After(run, dur)
    }

    constructor (dur: int, max: int)
      ensures Valid() && run == [] && this.dur == dur && this.max == max
    {
      this.dur, this.max := dur, max;
      currGeneration := null;
      run := [];
    }

    method Take(key: string, now: Time) returns (ok: bool)
      requires Valid()
      modifies this, currGeneration
      ensures Valid()
      ensures run == old(run) + [Attempt(now, key)]
      ensures ok <==> Granted(run, |old(run)|, dur, max)
    {
      var truncTS := TruncTS(now, dur);
      ghost var before := State();
      if currGeneration == null || currGeneration.truncTS != truncTS {
        currGeneration := new LimitedKeys(truncTS);
      }
      assert currGeneration.State() == Current(before, truncTS);
      ok := currGeneration.Take(key, max);
      run := run + [Attempt(now, key)];
      assert run[..|old(run)|] == old(run);
    }
  }
}
