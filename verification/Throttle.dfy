/** The sliding-window throttle on reconnect attempts.  Times are whole clock ticks. */
module Throttle {
  /** The attempts younger than the window at `now`. */
  function Young(acc: seq<int>, window: nat, now: int): seq<int> {
    if acc == [] then []
    else (if now - acc[0] < window then [acc[0]] else []) + Young(acc[1..], window, now)
  }

  /** The attempts in lo..hi, hi excluded. */
  function Between(acc: seq<int>, lo: int, hi: int): seq<int> {
    if acc == [] then []
    else (if lo <= acc[0] < hi then [acc[0]] else []) + Between(acc[1..], lo, hi)
  }

  /** The reference: which of the calls at these times are accepted, looking at the whole history. */
  function Replay(window: nat, max: nat, times: seq<int>): seq<int> {
    if times == [] then []
    else
      var acc, now := Replay(window, max, times[..|times| - 1]), times[|times| - 1];
      if |Young(acc, window, now)| < max then acc + [now] else acc
  }

  predicate Sorted(s: seq<int>) {
    forall i, j :: 0 <= i <= j < |s| ==> s[i] <= s[j]
  }

  /** Attempts before place k are old, the others young. */
  ghost predicate IsCut(acc: seq<int>, window: nat, now: int, k: nat) {
    && k <= |acc|
    && (forall i :: 0 <= i < k ==> now - acc[i] >= window)
    && (forall i :: k <= i < |acc| ==> now - acc[i] < window)
  }

  /** Of a sorted history, the young attempts are the last ones. */
  lemma {:induction false} YoungIsSuffix(acc: seq<int>, window: nat, now: int) returns (k: nat)
    requires Sorted(acc)
    ensures IsCut(acc, window, now, k) && Young(acc, window, now) == acc[k..]
  {
    if acc == [] {
      k := 0;
    } else if now - acc[0] < window {
      k := 0;
      AllYoung(acc, window, now);
    } else {
      k := YoungIsSuffix(acc[1..], window, now);
      CutBehind(acc, window, now, k);
      k := k + 1;
    }
  }

  lemma CutBehind(acc: seq<int>, window: nat, now: int, k: nat)
    requires acc != [] && now - acc[0] >= window
    requires IsCut(acc[1..], window, now, k) && Young(acc[1..], window, now) == acc[1..][k..]
    ensures IsCut(acc, window, now, k + 1) && Young(acc, window, now) == acc[k + 1..]
  {
    assert forall i :: 1 <= i < |acc| ==> acc[i] == acc[1..][i - 1];
    assert acc[1..][k..] == acc[k + 1..];
  }

  lemma {:induction false} AllYoung(acc: seq<int>, window: nat, now: int)
    requires forall i :: 0 <= i < |acc| ==> now - acc[i] < window
    ensures Young(acc, window, now) == acc
  {
    if acc != [] {
      AllYoung(acc[1..], window, now);
      assert [acc[0]] + acc[1..] == acc;
    }
  }

  /** Attempts `max` places apart are at least a window apart. */
  ghost predicate Spaced(acc: seq<int>, window: nat, max: nat) {
    forall i, j :: 0 <= i && j == i + max && j < |acc| ==> acc[j] - acc[i] >= window
  }

  /** Every accepted history is sorted and spaced. */
  lemma {:induction false} ReplaySpaced(window: nat, max: nat, times: seq<int>)
    requires Sorted(times)
    ensures var acc := Replay(window, max, times);
      && Sorted(acc) && Spaced(acc, window, max)
      && (forall i :: 0 <= i < |acc| ==> times != [] && acc[i] <= times[|times| - 1])
  {
    if times != [] {
      var before, now := times[..|times| - 1], times[|times| - 1];
      ReplaySpaced(window, max, before);
      var acc := Replay(window, max, before);
      var k := YoungIsSuffix(acc, window, now);
      var all := Replay(window, max, times);
      forall i, j | 0 <= i && j == i + max && j < |all| ensures all[j] - all[i] >= window {
        if j == |acc| {
          assert i < k;
        }
      }
    }
  }

  lemma {:induction false} FewBelow(acc: seq<int>, lo: int, hi: int, m: nat)
    requires forall i :: m <= i < |acc| ==> acc[i] >= hi
    ensures |Between(acc, lo, hi)| <= m
  {
    if acc != [] { FewBelow(acc[1..], lo, hi, if m == 0 then 0 else m - 1); }
  }

  lemma {:induction false} SpacedBound(acc: seq<int>, window: nat, max: nat, lo: int)
    requires Sorted(acc) && Spaced(acc, window, max)
    ensures |Between(acc, lo, lo + window)| <= max
  {
    if acc != [] {
      if lo <= acc[0] < lo + window {
        forall i | max <= i < |acc| ensures acc[i] >= lo + window {
          assert acc[max] - acc[0] >= window;
        }
        FewBelow(acc, lo, lo + window, max);
      } else {
        SpacedBound(acc[1..], window, max, lo);
      }
    }
  }

  /** No half-open interval of window length ever holds more than `max` accepted attempts. */
  lemma AtMostMaxPerWindow(window: nat, max: nat, times: seq<int>, lo: int)
    requires Sorted(times)
    ensures |Between(Replay(window, max, times), lo, lo + window)| <= max
  {
    ReplaySpaced(window, max, times);
    SpacedBound(Replay(window, max, times), window, max, lo);
  }

  ghost predicate AllOld(s: seq<int>, window: nat, now: int) {
    forall i :: 0 <= i < |s| ==> now - s[i] >= window
  }

  ghost predicate UpTo(s: seq<int>, now: int) {
    Sorted(s) && forall i :: 0 <= i < |s| ==> s[i] <= now
  }

  lemma AllOldConcat(a: seq<int>, b: seq<int>, window: nat, since: int, now: int)
    requires AllOld(a, window, since) && since <= now && AllOld(b, window, now)
    ensures AllOld(a, window, now) && AllOld(a + b, window, now)
  {
  }

  lemma {:induction false} YoungBehindOld(stale: seq<int>, s: seq<int>, window: nat, now: int)
    requires AllOld(stale, window, now)
    ensures Young(stale + s, window, now) == Young(s, window, now)
  {
    if stale == [] {
      assert stale + s == s;
    } else {
      assert (stale + s)[1..] == stale[1..] + s;
      YoungBehindOld(stale[1..], s, window, now);
    }
  }

  /** The pruning loop leaves exactly the young attempts. */
  method DropOld(attempts: seq<int>, window: nat, now: int) returns (kept: seq<int>, ghost dropped: seq<int>)
    requires UpTo(attempts, now)
    ensures attempts == dropped + kept && AllOld(dropped, window, now)
    ensures kept == Young(attempts, window, now) && UpTo(kept, now)
  {
    kept, dropped := attempts, [];
    while |kept| > 0 && now - kept[0] >= window
      invariant attempts == dropped + kept && AllOld(dropped, window, now) && UpTo(kept, now)
    {
      assert dropped + kept == dropped + [kept[0]] + kept[1..];
      kept, dropped := kept[1..], dropped + [kept[0]];
    }
    YoungBehindOld(dropped, kept, window, now);
    AllYoung(kept, window, now);
  }

  lemma ReplayNext(window: nat, max: nat, times: seq<int>, now: int)
    ensures var acc := Replay(window, max, times);
      Replay(window, max, times + [now]) == if |Young(acc, window, now)| < max then acc + [now] else acc
  {
    assert (times + [now])[..|times|] == times;
  }

  lemma UpToPush(times: seq<int>, since: int, now: int)
    requires UpTo(times, since) && since <= now
    ensures UpTo(times, now) && UpTo(times + [now], now)
  {
  }

  lemma ConcatAssoc(a: seq<int>, b: seq<int>, c: seq<int>)
    ensures a + b + c == a + (b + c)
  {
  }

  /** The young attempts are those of the last `window` ticks. */
  lemma {:induction false} YoungIsRecent(acc: seq<int>, window: nat, now: int)
    requires forall i :: 0 <= i < |acc| ==> acc[i] <= now
    ensures Young(acc, window, now) == Between(acc, now - window + 1, now + 1)
  {
    if acc != [] { YoungIsRecent(acc[1..], window, now); }
  }

  /** A call at `now` is accepted if and only if fewer than `max` calls were accepted in the last `window` ticks. */
  lemma AcceptedExactlyWhen(window: nat, max: nat, times: seq<int>, now: int)
    requires Sorted(times + [now])
    ensures var acc := Replay(window, max, times);
      Replay(window, max, times + [now]) ==
        if |Between(acc, now - window + 1, now + 1)| < max then acc + [now] else acc
  {
    var acc := Replay(window, max, times);
    var all := times + [now];
    assert forall i, j :: 0 <= i <= j < |times| ==> times[i] == all[i] && times[j] == all[j];
    assert times != [] ==> all[|times| - 1] <= all[|times|];
    ReplaySpaced(window, max, times);
    YoungIsRecent(acc, window, now);
    ReplayNext(window, max, times, now);
  }

  /** `reconnect_attempts` with its configured throttle; `calls` records the times of all calls and
      `dropped` the accepted attempts no longer in the deque. */
  class Throttle {
    const window: nat
    const max: nat
    var attempts: seq<int>
    ghost var calls: seq<int>
    ghost var dropped: seq<int>
    ghost var last: int

    ghost function Accepted(): seq<int>
      reads this
    {
      Replay(window, max, calls)
    }

    /** The deque is what is left of the accepted attempts, and what it has dropped is too old to matter. */
    ghost predicate Valid()
      reads this
    {
      && Accepted() == dropped + attempts
      && AllOld(dropped, window, last)
      && UpTo(calls, last) && UpTo(attempts, last)
    }

    constructor (window: nat, max: nat, now: int)
      ensures Valid() && calls == [] && last == now && this.window == window && this.max == max
    {
      this.window, this.max := window, max;
      attempts, calls, dropped, last := [], [], [], now;
    }

    /** `record_reconnect_attempt` at time `now`, on a clock that does not run backwards: accepted exactly
        when fewer than `max` earlier accepted attempts are younger than the window. */
    method Record(now: int) returns (ok: bool)
      requires Valid() && last <= now
      modifies this
      ensures Valid() && calls == old(calls) + [now] && last == now
      ensures ok <==> |Young(old(Accepted()), window, now)| < max
      ensures Accepted() == if ok then old(Accepted()) + [now] else old(Accepted())
      ensures attempts == Young(old(Accepted()), window, now) + if ok then [now] else []
    {
      UpToPush(calls, last, now);
      UpToPush(attempts, last, now);
      var kept, gone := DropOld(attempts, window, now);
      UpToPush(kept, now, now);
      AllOldConcat(dropped, gone, window, last, now);
      YoungBehindOld(dropped, attempts, window, now);
      ReplayNext(window, max, calls, now);
      ConcatAssoc(dropped, gone, kept);
      ConcatAssoc(dropped + gone, kept, [now]);
      attempts, dropped := kept, dropped + gone;
      calls, last := calls + [now], now;
      if |attempts| >= max { return false; }
      attempts := attempts + [now];
      return true;
    }
  }
}
