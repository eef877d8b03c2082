/** Going round: which endpoints a reconnect tries, and which candidate the default pick returns. */
module Rotation {
  import opened Wrappers
  import opened Bits
  import opened Topology

  // ------------------------------------------------------------------ the round of a reconnect

  /** s from place `start` on, round to the place before it. */
  function Rotated(s: seq<Endpoint>, start: nat): (r: seq<Endpoint>)
    ensures |r| == |s|
  {
    seq(|s|, i requires 0 <= i < |s| => s[(start + i) % |s|])
  }

  /** The first n of a rotation. */
  function RotatedTo(s: seq<Endpoint>, start: nat, n: nat): seq<Endpoint>
    requires n <= |s|
  {
    Rotated(s, start)[..n]
  }

  lemma RotatedNext(s: seq<Endpoint>, start: nat, n: nat)
    requires n < |s|
    ensures RotatedTo(s, start, n + 1) == RotatedTo(s, start, n) + [s[(start + n) % |s|]]
  {
  }

  lemma RotatedEnds(s: seq<Endpoint>, start: nat)
    ensures RotatedTo(s, start, 0) == [] && RotatedTo(s, start, |s|) == Rotated(s, start)
  {
  }

  lemma RotatedSplits(s: seq<Endpoint>, start: nat)
    requires start < |s|
    ensures Rotated(s, start) == s[start..] + s[..start]
  {
    forall i | 0 <= i < |s| ensures Rotated(s, start)[i] == (s[start..] + s[..start])[i] {
      if start + i < |s| {
        DivModUnique(start + i, |s|, 0, start + i);
      } else {
        DivModUnique(start + i, |s|, 1, start + i - |s|);
      }
    }
  }

  lemma RotatedIsPermutation(s: seq<Endpoint>, start: nat)
    requires start < |s|
    ensures multiset(Rotated(s, start)) == multiset(s)
  {
    RotatedSplits(s, start);
    assert s == s[..start] + s[start..];
  }

  lemma StartWraps(k: nat, n: nat)
    requires k < n
    ensures (k + 1) % n == if k + 1 < n then k + 1 else 0
  {
    DivModUnique(k + 1, n, if k + 1 < n then 0 else 1, if k + 1 < n then k + 1 else 0);
  }

  lemma FailedIsLast(endpoints: seq<Endpoint>, failed: Endpoint)
    requires failed in endpoints
    ensures Rotated(endpoints, NextAfter(endpoints, failed))[|endpoints| - 1] == failed
  {
    var start := NextAfter(endpoints, failed);
    StartWraps(First(endpoints, failed), |endpoints|);
    RotatedSplits(endpoints, start);
    var last := |endpoints| - 1;
    assert (endpoints[start..] + endpoints[..start])[last] ==
      if start == 0 then endpoints[last] else endpoints[start - 1];
  }

  /** A list that names every endpoint exactly once, the failed one last. */
  ghost predicate FullRound(tried: seq<Endpoint>, endpoints: seq<Endpoint>, failed: Endpoint) {
    && multiset(tried) == multiset(endpoints) && (forall e :: e in endpoints ==> e in tried)
    && (failed in endpoints ==> tried != [] && tried[|tried| - 1] == failed)
  }

  /** Started behind the failed endpoint, a round of failures is a full round. */
  lemma EveryEndpointOnce(tried: seq<Endpoint>, endpoints: seq<Endpoint>, failed: Endpoint)
    requires tried == Rotated(endpoints, NextAfter(endpoints, failed))
    ensures FullRound(tried, endpoints, failed)
  {
    if endpoints != [] {
      RotatedIsPermutation(endpoints, NextAfter(endpoints, failed));
      forall e | e in endpoints ensures e in tried {
        assert e in multiset(endpoints);
      }
      if failed in endpoints { FailedIsLast(endpoints, failed); }
    }
  }

  // ------------------------------------------------------------------ the default pick

  const WORD: nat := 0x1_0000_0000_0000_0000

  /** `start.wrapping_add(step) % len` on a 64-bit `usize`. */
  function ScanIndex(word: nat, start: nat, len: nat, step: nat): (i: nat)
    requires 0 < len && word > 0
    ensures i < len
  {
    (start + step) % word % len
  }

  /** The scan finds nothing in its first n steps. */
  ghost predicate NoneBefore(available: seq<bool>, counter: nat, n: nat) {
    available != [] && forall step :: 0 <= step < n ==> !available[ScanIndex(WORD, counter, |available|, step)]
  }

  /** `default_channel` outside data-centre routing: the pick, and the counter after it.  None stands for
      the fall-back to the active channel. */
  method PickDefault(available: seq<bool>, counter: nat) returns (pick: Option<nat>, counter': nat)
    requires counter < WORD && |available| < WORD
    ensures pick.Some? ==> pick.value < |available| && available[pick.value]
    ensures counter' == if |available| < 2 then counter else (counter + 1) % WORD
    ensures |available| < 2 ==> (pick.None? <==> forall i :: 0 <= i < |available| ==> !available[i])
    ensures |available| >= 2 && pick.None? ==> NoneBefore(available, counter, |available|)
    ensures |available| >= 2 && pick.Some? ==> exists step ::
        0 <= step < |available| && pick.value == ScanIndex(WORD, counter, |available|, step)
          && NoneBefore(available, counter, step)
    ensures |available| > 0 && Undisturbed(WORD, counter, |available|) ==>
        (pick.None? <==> forall i :: 0 <= i < |available| ==> !available[i])
  {
    var len := |available|;
    counter' := counter;
    if len == 0 { return None, counter'; }
    if len == 1 {
      if available[0] { return Some(0), counter'; }
      return None, counter';
    }
    counter' := (counter + 1) % WORD;
    for step := 0 to len
      invariant NoneBefore(available, counter, step)
    {
      var i := ScanIndex(WORD, counter, len, step);
      if available[i] { return Some(i), counter'; }
    }
    pick := None;
    if Undisturbed(WORD, counter, len) {
      forall i | 0 <= i < len ensures !available[i] {
        UndisturbedReaches(WORD, counter, len, i);
      }
    }
  }

  /** Some step of the scan looks at candidate i. */
  ghost predicate Reached(word: nat, start: nat, len: nat, i: nat)
    requires 0 < len && word > 0
  {
    exists step :: 0 <= step < len && ScanIndex(word, start, len, step) == i
  }

  /** The counter does not overflow during the scan, or overflowing does not disturb the rotation. */
  predicate Undisturbed(word: nat, start: nat, len: nat)
    requires 0 < len
  {
    start + len <= word || word % len == 0
  }

  lemma ModAdd(a: nat, len: nat, step: nat)
    requires 0 < len && step < len
    ensures (a + step) % len == if a % len + step < len then a % len + step else a % len + step - len
  {
    var q, r := a / len, a % len;
    assert a == len * q + r;
    if r + step < len {
      DivModUnique(a + step, len, q, r + step);
    } else {
      assert a + step == len * (q + 1) + (r + step - len);
      DivModUnique(a + step, len, q + 1, r + step - len);
    }
  }

  lemma ModSub(w: nat, len: nat, d: nat)
    requires 0 < d <= len <= w
    ensures (w - d) % len == if d <= w % len then w % len - d else w % len - d + len
  {
    var q, r := w / len, w % len;
    assert w == len * q + r;
    if d <= r {
      DivModUnique(w - d, len, q, r - d);
    } else {
      assert w - d == len * (q - 1) + (r - d + len);
      DivModUnique(w - d, len, q - 1, r - d + len);
    }
  }

  lemma ModMultiple(x: nat, w: nat, len: nat)
    requires 0 < len && w % len == 0 && x >= w
    ensures (x - w) % len == x % len
  {
    var k, q, r := w / len, x / len, x % len;
    assert w == len * k && x == len * q + r;
    assert x - w == len * (q - k) + r;
    DivModUnique(x - w, len, q - k, r);
  }

  /** An undisturbed scan looks at (start + step) mod len. */
  lemma ScanIsRotation(word: nat, start: nat, len: nat, step: nat)
    requires 0 < len <= word && start < word && step < len && Undisturbed(word, start, len)
    ensures ScanIndex(word, start, len, step) == (start + step) % len
  {
    if start + step < word {
      DivModUnique(start + step, word, 0, start + step);
    } else {
      DivModUnique(start + step, word, 1, start + step - word);
      ModMultiple(start + step, word, len);
    }
  }

  lemma UndisturbedReaches(word: nat, start: nat, len: nat, i: nat)
    requires 0 < len <= word && start < word && i < len && Undisturbed(word, start, len)
    ensures Reached(word, start, len, i)
  {
    var r := start % len;
    var step := if i >= r then i - r else i - r + len;
    ScanIsRotation(word, start, len, step);
    ModAdd(start, len, step);
  }

  /** A disturbed scan skips this candidate. */
  function Skipped(word: nat, start: nat, len: nat): int
    requires 0 < len
  {
    var m, r := start + len - word, word % len;
    (if r + m < len then r + m else len) - 1
  }

  lemma DisturbedSkips(word: nat, start: nat, len: nat)
    requires 0 < len <= word && start < word && !Undisturbed(word, start, len)
    ensures 0 <= Skipped(word, start, len) < len && !Reached(word, start, len, Skipped(word, start, len))
  {
    var z := Skipped(word, start, len);
    forall step | 0 <= step < len ensures ScanIndex(word, start, len, step) != z {
      if start + step < word {
        DivModUnique(start + step, word, 0, start + step);
        ModSub(word, len, word - start - step);
      } else {
        DivModUnique(start + step, word, 1, start + step - word);
        DivModUnique(start + step - word, len, 0, start + step - word);
      }
    }
  }

  /** The scan looks at every candidate exactly when it is undisturbed. */
  lemma ScanCoversExactlyWhen(start: nat, len: nat)
    requires 0 < len < WORD && start < WORD
    ensures (forall i :: 0 <= i < len ==> Reached(WORD, start, len, i)) <==> Undisturbed(WORD, start, len)
  {
    if Undisturbed(WORD, start, len) {
      forall i | 0 <= i < len ensures Reached(WORD, start, len, i) {
        UndisturbedReaches(WORD, start, len, i);
      }
    } else {
      DisturbedSkips(WORD, start, len);
    }
  }

  /** Different steps of an undisturbed scan look at different candidates. */
  lemma StepsDiffer(start: nat, len: nat, j: nat, k: nat)
    requires 0 < len < WORD && start < WORD && j < k < len && Undisturbed(WORD, start, len)
    ensures ScanIndex(WORD, start, len, j) != ScanIndex(WORD, start, len, k)
  {
    ScanIsRotation(WORD, start, len, j);
    ScanIsRotation(WORD, start, len, k);
    ModAdd(start, len, j);
    ModAdd(start, len, k);
  }

  /** Each of 0..n exactly once. */
  ghost predicate IsPermutation(picks: seq<nat>, n: nat) {
    && |picks| == n && Distinct(picks)
    && (forall k :: 0 <= k < n ==> picks[k] < n)
    && forall i: nat :: i < n ==> i in picks
  }

  /** n picks in a row on n available candidates return each of them exactly once, if and only if the counter does not
      overflow meanwhile or n divides 2^64. */
  method PickRound(n: nat, counter: nat) returns (picks: seq<nat>, counter': nat)
    requires 0 < n < WORD && counter < WORD
    ensures |picks| == n && counter' == if n < 2 then counter else (counter + n) % WORD
    ensures IsPermutation(picks, n) <==> Undisturbed(WORD, counter, n)
  {
    picks, counter' := [], counter;
    var available := seq(n, _ => true);
    SmallCounter(counter);
    for k := 0 to n
      invariant |picks| == k && counter' < WORD
      invariant counter' == if n < 2 then counter else (counter + k) % WORD
      invariant forall j :: 0 <= j < k ==> picks[j] == ScanIndex(WORD, counter, n, j)
    {
      PickIsStep(WORD, counter, n, k);
      NextCounter(counter, k);
      var pick;
      ghost var i := ScanIndex(WORD, counter', n, 0);
      assert available[i];
      pick, counter' := PickDefault(available, counter');
      picks := picks + [pick.value];
    }
    RoundIsPermutation(picks, n, counter);
  }

  lemma SmallCounter(counter: nat)
    requires counter < WORD
    ensures counter % WORD == counter
  {
  }

  lemma NextCounter(counter: nat, k: nat)
    ensures ((counter + k) % WORD + 1) % WORD == (counter + k + 1) % WORD
  {
  }

  lemma RoundIsPermutation(picks: seq<nat>, n: nat, counter: nat)
    requires 0 < n < WORD && counter < WORD && |picks| == n
    requires forall j :: 0 <= j < n ==> picks[j] == ScanIndex(WORD, counter, n, j)
    ensures IsPermutation(picks, n) <==> Undisturbed(WORD, counter, n)
  {
    if Undisturbed(WORD, counter, n) {
      forall i, j | 0 <= i < j < n ensures picks[i] != picks[j] { StepsDiffer(counter, n, i, j); }
      forall i: nat | i < n ensures i in picks { UndisturbedReaches(WORD, counter, n, i); }
    } else {
      DisturbedSkips(WORD, counter, n);
      var z := Skipped(WORD, counter, n);
      forall j | 0 <= j < n ensures picks[j] != z {
        assert !(ScanIndex(WORD, counter, n, j) == z);
      }
      assert z !in picks;
    }
  }

  lemma PickIsStep(word: nat, start: nat, len: nat, k: nat)
    requires 0 < len <= word
    ensures ScanIndex(word, (start + k) % word, len, 0) == ScanIndex(word, start, len, k)
  {
    var x := (start + k) % word;
    DivModUnique(x, word, 0, x);
  }

  /** The overflow does bite: three candidates, counter at its maximum. */
  lemma OverflowSkipsCandidate()
    ensures !Reached(WORD, WORD - 1, 3, 2)
  {
  }
}
