/**
 * The in-memory sliding-window rate limiter that guards password-reset
 * requests (examples/python/security-example.py, class RateLimiter).
 *
 * Times are integers counting seconds; the caller supplies the current time
 * `now` instead of reading the clock.
 */
module RateLimiting {

  /** At most this many attempts per key are admitted within one window. */
  const MAX_ATTEMPTS: nat := 3
  /** Length of the sliding window: 15 minutes, in seconds. */
  const WINDOW_SECONDS: nat := 15 * 60

  /**
   * The attempts of `history` strictly later than `cutoff`, with their
   * multiplicities; PruneAppend states that their order is kept.
   */
  function Prune(history: seq<int>, cutoff: int): (kept: seq<int>)
    ensures |kept| <= |history|
    ensures forall t :: multiset(kept)[t] == if t > cutoff then multiset(history)[t] else 0
  {
    if history == [] then []
    else
      assert history == [history[0]] + history[1..];
      (if history[0] > cutoff then [history[0]] else []) + Prune(history[1..], cutoff)
  }

  /** Pruning a concatenation prunes each part in place: the kept attempts stay in their original order. */
  lemma {:induction false} PruneAppend(front: seq<int>, back: seq<int>, cutoff: int)
    ensures Prune(front + back, cutoff) == Prune(front, cutoff) + Prune(back, cutoff)
  {
    if front != [] {
      PruneAppend(front[1..], back, cutoff);
      var head := if front[0] > cutoff then [front[0]] else [];
      assert (front + back)[0] == front[0];
      assert (front + back)[1..] == front[1..] + back;
      calc {
        Prune(front + back, cutoff);
        head + Prune(front[1..] + back, cutoff);
        head + (Prune(front[1..], cutoff) + Prune(back, cutoff));
        (head + Prune(front[1..], cutoff)) + Prune(back, cutoff);
        Prune(front, cutoff) + Prune(back, cutoff);
      }
    } else {
      assert front + back == back;
    }
  }

  /** What one call of check_rate_limit decides, and the list it leaves behind for the key. */
  datatype Admission = Admission(allowed: bool, kept: seq<int>)

  /** One call of check_rate_limit on a key whose recorded attempts are `history`. */
  function Admit(history: seq<int>, now: int): (d: Admission)
    ensures d.allowed <==> |Prune(history, now - WINDOW_SECONDS)| < MAX_ATTEMPTS
    ensures forall t ::
      t in d.kept <==> (t in history && t > now - WINDOW_SECONDS) || (d.allowed && t == now)
    ensures multiset(d.kept) ==
      multiset(Prune(history, now - WINDOW_SECONDS)) + if d.allowed then multiset{now} else multiset{}
    ensures d.allowed ==> |d.kept| <= MAX_ATTEMPTS
    ensures !d.allowed ==> MAX_ATTEMPTS <= |d.kept| <= |history|
  {
    var recent := Prune(history, now - WINDOW_SECONDS);
    assert forall t :: t in recent <==> t in history && t > now - WINDOW_SECONDS by {
      forall t ensures t in recent <==> t in history && t > now - WINDOW_SECONDS {
        assert t in recent <==> multiset(recent)[t] > 0;
        assert t in history <==> multiset(history)[t] > 0;
      }
    }
    if |recent| >= MAX_ATTEMPTS then Admission(false, recent)
    else Admission(true, recent + [now])
  }

  /** The limiter's state: for every key, the times of its recorded attempts. */
  class RateLimiter {
    var attempts: map<string, seq<int>>

    /** No key ever holds more attempts than the limit admits. */
    ghost predicate Valid()
      reads this
    {
      forall key :: key in attempts ==> |attempts[key]| <= MAX_ATTEMPTS
    }

    /** The attempts recorded for `key`; a key never seen has none. */
    function History(key: string): seq<int>
      reads this
    {
      if key in attempts then attempts[key] else []
    }

    constructor ()
      ensures Valid() && attempts == map[]
    {
      attempts := map[];
    }

    /**
     * Drops the key's attempts that fell out of the window, refuses when the
     * limit is already reached, and otherwise records `now` and admits.
     */
    method CheckRateLimit(key: string, now: int) returns (allowed: bool)
      requires Valid()
      modifies this
      ensures Valid()
      ensures var d := Admit(old(History(key)), now);
        allowed == d.allowed && attempts == old(attempts)[key := d.kept]
    {
      var cutoff := now - WINDOW_SECONDS;
      ghost var recent := Prune(History(key), cutoff);
      if key in attempts {
        attempts := attempts[key := Prune(attempts[key], cutoff)];
      } else {
        attempts := attempts[key := []];
      }
      assert attempts == old(attempts)[key := recent];
      if |attempts[key]| >= MAX_ATTEMPTS {
        return false;
      }
      attempts := attempts[key := attempts[key] + [now]];
      return true;
    }
  }

  // ---------------------------------------------------------------------------
  // Successive calls on one key.  CheckRateLimit changes only the entry of the
  // key it is given, so the history of each key evolves on its own, as below.
  // ---------------------------------------------------------------------------

  /** The history left for one key, and the times of the admitted calls, after calls at `times`. */
  datatype Replay = Replay(history: seq<int>, accepted: seq<int>)

  function ReplayKey(times: seq<int>): (run: Replay)
  {
    if times == [] then Replay([], [])
    else
      var before := ReplayKey(times[..|times| - 1]);
      var now := times[|times| - 1];
      var d := Admit(before.history, now);
      Replay(d.kept, if d.allowed then before.accepted + [now] else before.accepted)
  }

  /**
   * A fresh limiter called on one key at each of `times` in turn holds, for
   * that key, the history ReplayKey gives.
   */
  method CallsFollowReplay(key: string, times: seq<int>) returns (limiter: RateLimiter, decisions: seq<bool>)
    ensures limiter.Valid()
    ensures limiter.History(key) == ReplayKey(times).history
    ensures |decisions| == |times|
    ensures forall i :: 0 <= i < |times| ==>
      decisions[i] == Admit(ReplayKey(times[..i]).history, times[i]).allowed
  {
    limiter := new RateLimiter();
    decisions := [];
    for n := 0 to |times|
      invariant limiter.Valid()
      invariant limiter.History(key) == ReplayKey(times[..n]).history
      invariant |decisions| == n
      invariant forall i :: 0 <= i < n ==>
        decisions[i] == Admit(ReplayKey(times[..i]).history, times[i]).allowed
    {
      ReplayStep(times, n);
      ghost var d := Admit(ReplayKey(times[..n]).history, times[n]);
      var allowed := limiter.CheckRateLimit(key, times[n]);
      assert allowed == d.allowed && key in limiter.attempts && limiter.attempts[key] == d.kept;
      DecisionsExtend(times, decisions, allowed);
      decisions := decisions + [allowed];
    }
    assert times[..|times|] == times;
  }

  /** The replay of the first n + 1 calls is one more Admit on the replay of the first n. */
  lemma ReplayStep(times: seq<int>, n: nat)
    requires n < |times|
    ensures ReplayKey(times[..n + 1]).history == Admit(ReplayKey(times[..n]).history, times[n]).kept
  {
    assert times[..n + 1][..n] == times[..n];
  }

  /** Recording the decision of call n keeps decisions[i] the decision of call i. */
  lemma DecisionsExtend(times: seq<int>, decisions: seq<bool>, allowed: bool)
    requires |decisions| < |times|
    requires forall i :: 0 <= i < |decisions| ==>
      decisions[i] == Admit(ReplayKey(times[..i]).history, times[i]).allowed
    requires allowed == Admit(ReplayKey(times[..|decisions|]).history, times[|decisions|]).allowed
    ensures forall i :: 0 <= i <= |decisions| ==>
      (decisions + [allowed])[i] == Admit(ReplayKey(times[..i]).history, times[i]).allowed
  {
    forall i | 0 <= i <= |decisions|
      ensures (decisions + [allowed])[i] == Admit(ReplayKey(times[..i]).history, times[i]).allowed
    {
      if i < |decisions| {
        assert (decisions + [allowed])[i] == decisions[i];
      }
    }
  }

  ghost predicate NonDecreasing(s: seq<int>)
  {
    forall i, j :: 0 <= i <= j < |s| ==> s[i] <= s[j]
  }

  /** Any MAX_ATTEMPTS + 1 consecutive admitted attempts span at least one whole window. */
  ghost predicate Spaced(accepted: seq<int>)
  {
    forall j :: 0 <= j && j + MAX_ATTEMPTS < |accepted| ==>
      accepted[j + MAX_ATTEMPTS] - accepted[j] >= WINDOW_SECONDS
  }

  /** A history entirely after the cutoff is kept whole. */
  lemma {:induction false} PruneAllLater(history: seq<int>, cutoff: int)
    requires forall i :: 0 <= i < |history| ==> history[i] > cutoff
    ensures Prune(history, cutoff) == history
  {
    if history != [] {
      PruneAllLater(history[1..], cutoff);
      assert [history[0]] + history[1..] == history;
    }
  }

  /** On an ordered history, pruning drops a prefix, and everything dropped is at or before the cutoff. */
  lemma {:induction false} PruneOrderedDropsPrefix(history: seq<int>, cutoff: int)
    requires NonDecreasing(history)
    ensures var kept := Prune(history, cutoff);
      && kept == history[|history| - |kept|..]
      && forall i :: 0 <= i < |history| - |kept| ==> history[i] <= cutoff
  {
    if history != [] {
      var rest := history[1..];
      assert NonDecreasing(rest);
      PruneOrderedDropsPrefix(rest, cutoff);
      var keptRest := Prune(rest, cutoff);
      if history[0] > cutoff {
        // every later attempt is later than history[0], hence kept
        assert forall i :: 0 <= i < |rest| ==> rest[i] > cutoff by {
          forall i | 0 <= i < |rest| ensures rest[i] > cutoff {
            assert history[0] <= history[i + 1] == rest[i];
          }
        }
        PruneAllLater(rest, cutoff);
        assert Prune(history, cutoff) == [history[0]] + rest == history;
      } else {
        assert Prune(history, cutoff) == keptRest;
        forall i | 0 <= i < |history| - |keptRest| ensures history[i] <= cutoff {
          if i > 0 {
            assert history[i] == rest[i - 1];
          }
        }
        assert keptRest == history[|history| - |keptRest|..];
      }
    }
  }

  /**
   * What a run on one key keeps true when the clock never goes back, `last`
   * being the time of its latest call: the stored history is the tail of the
   * admitted attempts, every admitted attempt before that tail is out of the
   * latest call's window, and the admitted attempts are ordered and spaced.
   */
  ghost predicate RunInvariant(run: Replay, last: int)
  {
    var acc := run.accepted;
    && |run.history| <= |acc|
    && run.history == acc[|acc| - |run.history|..]
    && (forall i :: 0 <= i < |acc| - |run.history| ==> acc[i] <= last - WINDOW_SECONDS)
    && (forall i :: 0 <= i < |acc| ==> acc[i] <= last)
    && NonDecreasing(acc)
    && Spaced(acc)
  }

  /** The stored history, a tail of the ordered admitted attempts, is ordered. */
  lemma StoredHistoryOrdered(run: Replay, last: int)
    requires RunInvariant(run, last)
    ensures NonDecreasing(run.history)
  {
    var h, acc := run.history, run.accepted;
    var tail := |acc| - |h|;
    forall i, j | 0 <= i <= j < |h| ensures h[i] <= h[j] {
      assert h[i] == acc[tail + i] && h[j] == acc[tail + j];
    }
  }

  /** Pruning the stored history at the next call leaves a tail of the admitted attempts. */
  lemma PruneKeepsTail(run: Replay, last: int, now: int)
    requires RunInvariant(run, last) && last <= now
    ensures var p := Prune(run.history, now - WINDOW_SECONDS);
      var acc := run.accepted;
      && |p| <= |acc|
      && p == acc[|acc| - |p|..]
      && forall i :: 0 <= i < |acc| - |p| ==> acc[i] <= now - WINDOW_SECONDS
  {
    var h, acc := run.history, run.accepted;
    var cutoff := now - WINDOW_SECONDS;
    var tail := |acc| - |h|;
    StoredHistoryOrdered(run, last);
    PruneOrderedDropsPrefix(h, cutoff);
    var p := Prune(h, cutoff);
    var newTail := |acc| - |p|;
    forall i | 0 <= i < |p| ensures p[i] == acc[newTail + i] {
      assert p[i] == h[|h| - |p| + i];
    }
    forall i | 0 <= i < newTail ensures acc[i] <= cutoff {
      if i >= tail {
        assert acc[i] == h[i - tail];
      }
    }
  }

  /** An admitted call at `now`, with at most MAX_ATTEMPTS - 1 attempts left in the window, keeps the run invariant. */
  lemma AdmittedKeepsRunInvariant(run: Replay, last: int, now: int)
    requires RunInvariant(run, last) && last <= now
    requires var p := Prune(run.history, now - WINDOW_SECONDS); |p| < MAX_ATTEMPTS
    ensures RunInvariant(Replay(Prune(run.history, now - WINDOW_SECONDS) + [now], run.accepted + [now]), now)
  {
    PruneKeepsTail(run, last, now);
    var acc := run.accepted;
    var p := Prune(run.history, now - WINDOW_SECONDS);
    var newTail := |acc| - |p|;
    var acc' := acc + [now];
    var h' := p + [now];
    assert h' == acc'[newTail..];
    assert forall i :: 0 <= i < |acc'| - |h'| ==> acc'[i] <= now - WINDOW_SECONDS;
    assert forall i :: 0 <= i < |acc'| ==> acc'[i] <= now;
    AppendKeepsOrder(acc, now);
    AppendKeepsSpaced(acc, now, newTail);
  }

  lemma AppendKeepsOrder(acc: seq<int>, now: int)
    requires NonDecreasing(acc) && forall i :: 0 <= i < |acc| ==> acc[i] <= now
    ensures NonDecreasing(acc + [now])
  {
    var acc' := acc + [now];
    forall i, j | 0 <= i <= j < |acc'| ensures acc'[i] <= acc'[j] {
      if j < |acc| {
        assert acc'[i] == acc[i] && acc'[j] == acc[j];
      }
    }
  }

  /** Admitting `now` keeps the admitted attempts spaced when fewer than MAX_ATTEMPTS of them are still in its window. */
  lemma AppendKeepsSpaced(acc: seq<int>, now: int, newTail: nat)
    requires Spaced(acc) && newTail <= |acc| && |acc| - newTail < MAX_ATTEMPTS
    requires forall i :: 0 <= i < newTail ==> acc[i] <= now - WINDOW_SECONDS
    ensures Spaced(acc + [now])
  {
    var acc' := acc + [now];
    forall j | 0 <= j && j + MAX_ATTEMPTS < |acc'|
      ensures acc'[j + MAX_ATTEMPTS] - acc'[j] >= WINDOW_SECONDS
    {
      if j + MAX_ATTEMPTS < |acc| {
        assert acc'[j + MAX_ATTEMPTS] == acc[j + MAX_ATTEMPTS] && acc'[j] == acc[j];
      } else {
        assert j < newTail;
        assert acc'[j] == acc[j];
      }
    }
  }

  /** A refused call at `now` keeps the run invariant. */
  lemma RefusedKeepsRunInvariant(run: Replay, last: int, now: int)
    requires RunInvariant(run, last) && last <= now
    ensures RunInvariant(Replay(Prune(run.history, now - WINDOW_SECONDS), run.accepted), now)
  {
    PruneKeepsTail(run, last, now);
  }

  /** One more call, at a time no earlier than the last, keeps the run invariant. */
  lemma AdmitKeepsRunInvariant(run: Replay, last: int, now: int)
    requires RunInvariant(run, last) && last <= now
    ensures var d := Admit(run.history, now);
      RunInvariant(Replay(d.kept, if d.allowed then run.accepted + [now] else run.accepted), now)
  {
    var p := Prune(run.history, now - WINDOW_SECONDS);
    if |p| < MAX_ATTEMPTS {
      AdmittedKeepsRunInvariant(run, last, now);
    } else {
      RefusedKeepsRunInvariant(run, last, now);
    }
  }

  /** Every run on one key with a clock that never goes back keeps the run invariant. */
  lemma {:induction false} ReplayInvariant(times: seq<int>)
    requires NonDecreasing(times) && times != []
    ensures RunInvariant(ReplayKey(times), times[|times| - 1])
  {
    var prefix := times[..|times| - 1];
    if prefix == [] {
      assert ReplayKey(prefix) == Replay([], []);
    } else {
      assert NonDecreasing(prefix);
      ReplayInvariant(prefix);
      AdmitKeepsRunInvariant(ReplayKey(prefix), prefix[|prefix| - 1], times[|times| - 1]);
    }
  }

  /**
   * The rate limit as a guarantee: with a clock that never goes back, a key
   * never has more than MAX_ATTEMPTS admitted attempts inside any window of
   * WINDOW_SECONDS, and its stored history never exceeds MAX_ATTEMPTS entries.
   */
  lemma AdmittedAttemptsSpaced(times: seq<int>)
    requires NonDecreasing(times)
    ensures Spaced(ReplayKey(times).accepted)
    ensures |ReplayKey(times).history| <= MAX_ATTEMPTS
  {
    if times != [] {
      ReplayInvariant(times);
    }
  }
}
