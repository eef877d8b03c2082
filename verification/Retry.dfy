/** The retry loop: how often a request is sent, with what bytes, and when it stops. */
module Retry {
  import opened Wire

  datatype Policy = Again | Stop | PolicyFails

  /** What one attempt meets: a reply, success or server failure alike, or a broken channel together with the
      retry policy's answer and the outcome of the reconnect. */
  datatype Attempt = Replied(serverFailure: bool) | Broke(policy: Policy, reconnects: bool)

  datatype Verdict = Reply(serverFailure: bool) | SendFailed | PolicyError | ReconnectError | ContextLost

  /** Attempt number k is followed by another. */
  predicate GoesOn(a: Attempt, k: nat, limit: nat) {
    a.Broke? && a.policy.Again? && a.reconnects && k < limit
  }

  function VerdictOf(a: Attempt, k: nat, limit: nat): Verdict {
    match a
    case Replied(f) => Reply(f)
    case Broke(PolicyFails, _) => PolicyError
    case Broke(Stop, _) => SendFailed
    case Broke(Again, _) => if k >= limit then SendFailed else ReconnectError
  }

  /** The number of the last attempt, counting from k. */
  function LastAttempt(env: nat -> Attempt, k: nat, limit: nat): (n: nat)
    requires k <= limit
    ensures k <= n <= limit
    ensures !GoesOn(env(n), n, limit)
    ensures forall j :: k <= j < n ==> GoesOn(env(j), j, limit)
    decreases limit - k
  {
    if GoesOn(env(k), k, limit) then LastAttempt(env, k + 1, limit) else k
  }

  /** The bytes of attempt k: `mem::take` hands the buffer over in attempt limit - 1 already, so an attempt
      after that has nothing left to send. */
  function BytesOf(frame: Bytes, k: nat, limit: nat): Bytes {
    if k == 0 || k < limit then frame else []
  }

  function Sends(frame: Bytes, env: nat -> Attempt, limit: nat): (sent: seq<Bytes>)
    ensures |sent| == LastAttempt(env, 0, limit) + 1
    ensures forall k :: 0 <= k < |sent| ==> sent[k] == BytesOf(frame, k, limit)
  {
    seq(LastAttempt(env, 0, limit) + 1, k requires 0 <= k => BytesOf(frame, k, limit))
  }

  /** What n sends and their verdict say about the attempts they met: all but the last broke, were to be repeated and
      reconnected; the last is the first that was not, or the one at the limit, and it alone decides the verdict. */
  ghost predicate Explains(n: int, verdict: Verdict, env: nat -> Attempt, limit: nat) {
    && 1 <= n <= limit + 1
    && (forall k :: 0 <= k < n - 1 ==> env(k) == Broke(Again, true))
    && (n - 1 == limit || env(n - 1) != Broke(Again, true))
    && (env(n - 1).Replied? ==> verdict == Reply(env(n - 1).serverFailure))
    && (env(n - 1).Broke? && env(n - 1).policy.Stop? ==> verdict == SendFailed)
    && (env(n - 1).Broke? && env(n - 1).policy.PolicyFails? ==> verdict == PolicyError)
    && (env(n - 1).Broke? && env(n - 1).policy.Again? && n - 1 == limit ==> verdict == SendFailed)
    && (env(n - 1).Broke? && env(n - 1).policy.Again? && n - 1 < limit ==> verdict == ReconnectError)
  }

  /** `round_trip_internal` with `retry_limit` = limit. */
  method RoundTripInternal(frame: Bytes, limit: nat, env: nat -> Attempt) returns (sent: seq<Bytes>, verdict: Verdict)
    ensures sent == Sends(frame, env, limit)
    ensures verdict == VerdictOf(env(|sent| - 1), |sent| - 1, limit)
    ensures Explains(|sent|, verdict, env, limit)
    ensures forall k :: 0 <= k < |sent| ==> sent[k] == if k == 0 || k < limit then frame else []
  {
    var request, attempt := frame, 0;
    sent := [];
    while true
      invariant 0 <= attempt <= limit && |sent| == attempt
      invariant forall k :: 0 <= k < attempt ==> GoesOn(env(k), k, limit) && sent[k] == BytesOf(frame, k, limit)
      invariant request == if attempt == 0 || attempt < limit then frame else []
      decreases limit - attempt
    {
      var isLast := attempt + 1 >= limit;
      var req := request;
      if isLast { request := []; }
      sent := sent + [req];
      var outcome := env(attempt);
      if outcome.Replied? { verdict := Reply(outcome.serverFailure); break; }
      if outcome.policy.PolicyFails? { verdict := PolicyError; break; }
      if outcome.policy.Stop? { verdict := SendFailed; break; }
      if attempt >= limit { verdict := SendFailed; break; }
      if !outcome.reconnects { verdict := ReconnectError; break; }
      attempt := attempt + 1;
    }
    LastIs(env, 0, limit, attempt);
  }

  lemma LastIs(env: nat -> Attempt, k: nat, limit: nat, n: nat)
    requires k <= n <= limit && !GoesOn(env(n), n, limit) && forall j :: k <= j < n ==> GoesOn(env(j), j, limit)
    ensures LastAttempt(env, k, limit) == n
    decreases n - k
  {
  }

  /** At most limit + 1 sends; only a broken channel is ever followed by another send, so a reply, even one
      carrying a server failure, is the last; the first max(1, limit) sends carry the frame. */
  lemma RetryBounds(frame: Bytes, env: nat -> Attempt, limit: nat)
    ensures var sent := Sends(frame, env, limit);
      && 1 <= |sent| <= limit + 1
      && (forall k :: 0 <= k < |sent| - 1 ==> env(k).Broke?)
      && (forall k :: 0 <= k < |sent| && k < (if limit < 1 then 1 else limit) ==> sent[k] == frame)
  {
  }

  /** Every send carries the frame exactly when the loop stops before attempt number limit, the one after
      the hand-over. */
  lemma AllFullExactlyWhen(frame: Bytes, env: nat -> Attempt, limit: nat)
    requires frame != []
    ensures (forall k :: 0 <= k < |Sends(frame, env, limit)| ==> Sends(frame, env, limit)[k] == frame)
        <==> (limit == 0 || exists k :: 0 <= k < limit && !GoesOn(env(k), k, limit))
  {
    var sent := Sends(frame, env, limit);
    if limit > 0 {
      if k :| 0 <= k < limit && !GoesOn(env(k), k, limit) {
        assert |sent| - 1 <= k;
      } else {
        LastIs(env, 0, limit, limit);
        assert sent[limit] == [];
      }
    }
  }

  /** The hand-over does bite: with one retry allowed, the retry sends nothing. */
  lemma RetrySendsNothing(frame: Bytes)
    ensures Sends(frame, _ => Broke(Again, true), 1) == [frame, []]
  {
  }

  // ------------------------------------------------------------------ routes

  datatype Route = Default | Pinned | Preferred

  /** `round_trip_with_route`; `selected` says whether a channel for the route was found, `first` what the
      send on it meets. */
  method RoundTripWithRoute(frame: Bytes, route: Route, selected: bool, first: Attempt, limit: nat, env: nat -> Attempt)
    returns (sent: seq<Bytes>, verdict: Verdict)
    ensures sent == RoutedSends(frame, route, selected, first, limit, env)
    ensures route.Pinned? ==> |sent| <= 1
    ensures route.Default? ==> 1 <= |sent| <= limit + 1
    ensures route.Preferred? ==> 1 <= |sent| <= limit + 2
    ensures !route.Default? && selected && first.Replied? ==> |sent| == 1 && verdict == Reply(first.serverFailure)
    ensures route.Pinned? && !selected ==> sent == [] && verdict == ContextLost
    ensures route.Pinned? && selected && first.Broke? ==> sent == [frame] && verdict == SendFailed
    ensures route.Default? || (route.Preferred? && !selected) ==> Explains(|sent|, verdict, env, limit)
    ensures route.Preferred? && selected && first.Broke? ==> Explains(|sent| - 1, verdict, env, limit)
    ensures |sent| > 0 ==> sent[0] == frame
  {
    if route.Default? {
      sent, verdict := RoundTripInternal(frame, limit, env);
      return;
    }
    if !selected {
      if !route.Pinned? {
        sent, verdict := RoundTripInternal(frame, limit, env);
        return;
      }
      return [], ContextLost;
    }
    if first.Replied? { return [frame], Reply(first.serverFailure); }
    if route.Preferred? {
      var more;
      more, verdict := RoundTripInternal(frame, limit, env);
      return [frame] + more, verdict;
    }
    return [frame], SendFailed;
  }

  function RoutedSends(frame: Bytes, route: Route, selected: bool, first: Attempt, limit: nat, env: nat -> Attempt)
    : seq<Bytes>
  {
    if route.Default? || (route.Preferred? && !selected) then Sends(frame, env, limit)
    else if !selected then []
    else if first.Broke? && route.Preferred? then [frame] + Sends(frame, env, limit)
    else [frame]
  }

  /** A reply is the last thing any route sends for. */
  lemma NothingAfterReply(frame: Bytes, route: Route, selected: bool, first: Attempt, limit: nat, env: nat -> Attempt,
      k: nat)
    requires var sent := RoutedSends(frame, route, selected, first, limit, env); k + 1 < |sent|
    ensures var direct := selected && !route.Default?;
      if direct then (if k == 0 then first.Broke? else env(k - 1).Broke?) else env(k).Broke?
  {
  }
}
