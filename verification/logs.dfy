/**
 * Append-only logs and their "recent entries" views: the vitals table shows
 * `tail(6)` of a profile's log (app.py:394-398) and the landing page shows
 * `tail(5)` of the pilot requests (app.py:285-287).
 */
module Logs {
  import opened Common

  /** `log.tail(n)`: the last `min(n, |log|)` entries, in insertion order. */
  function Tail<T>(log: seq<T>, n: nat): (r: seq<T>)
    ensures |r| == Min(n, |log|)
    ensures log == log[..|log| - |r|] + r
  {
    log[|log| - Min(n, |log|)..]
  }

  /** An empty log has an empty view, whatever the window. */
  lemma TailOfEmpty<T>(log: seq<T>, n: nat)
    requires log == []
    ensures Tail(log, n) == []
  {
  }

  /** A window at least as long as the log shows all of it. */
  lemma TailCoversShortLog<T>(log: seq<T>, n: nat)
    requires |log| <= n
    ensures Tail(log, n) == log
  {
  }

  /** The view slides as the log grows: after an append, the window is the
      previous `n - 1` newest entries followed by the new one. */
  lemma TailAfterAppend<T>(log: seq<T>, e: T, n: nat)
    requires n >= 1
    ensures Tail(log + [e], n) == Tail(log, n - 1) + [e]
  {
    var r := Tail(log + [e], n);
    var q := Tail(log, n - 1);
    assert |r| == |q| + 1;
    assert (log + [e])[..|log| + 1 - |r|] + r == log + [e];
    assert log[..|log| - |q|] + q == log;
    forall i | 0 <= i < |r|
      ensures r[i] == (q + [e])[i]
    {
      if i < |q| {
        assert r[i] == (log + [e])[|log| + 1 - |r| + i];
        assert q[i] == log[|log| - |q| + i];
      } else {
        assert r[i] == (log + [e])[|log|];
      }
    }
  }

  /** Appending keeps every earlier entry where it was: the old log is a
      prefix of the new one and the new entry is last. */
  function Append<T>(log: seq<T>, e: T): (r: seq<T>)
    ensures log <= r
    ensures |r| == |log| + 1 && r[|log|] == e
  {
    log + [e]
  }
}
