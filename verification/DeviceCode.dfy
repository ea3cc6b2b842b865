/** The RFC 8628 device-code polling loop (cmd/devicecode.go) against an arbitrary
    environment: how long each poll takes, how late each timer fires, what the server
    answers and when the context is cancelled are all free.  Times are nanoseconds. */
module DeviceCode {
  import opened Options

  const SECOND := 1_000_000_000
  const MIN_INTERVAL := SECOND
  const DEFAULT_INTERVAL := 5 * SECOND
  const SLOW_DOWN_INCREMENT := 5 * SECOND

  datatype Response<T> = Pending | SlowDown | Complete(value: T) | Failed(err: Option<string>)

  /** What the environment does in one round of the loop. */
  datatype Turn<T> = Turn(
    checkDelay: nat,         // time until the clock is read at the top of the loop
    cancelledAtCheck: bool,
    response: Response<T>,
    pollTime: nat,           // how long the poll takes
    cancelledInSleep: bool,
    lateness: nat)           // how long after its due time the timer fires

  datatype Outcome<T> = Granted(value: T) | Rejected(err: Option<string>) | Cancelled | TimedOut | StillPolling

  function InitialInterval(intervalSeconds: int): (i: int)
    ensures i >= MIN_INTERVAL
    ensures i == if intervalSeconds <= 0 then DEFAULT_INTERVAL else intervalSeconds * SECOND
  {
    var interval := intervalSeconds * SECOND;
    var interval := if interval <= 0 then DEFAULT_INTERVAL else interval;
    if interval < MIN_INTERVAL then MIN_INTERVAL else interval
  }

  function SlowDowns<T>(turns: seq<Turn<T>>): nat {
    if turns == [] then 0
    else SlowDowns(turns[..|turns| - 1]) + if turns[|turns| - 1].response.SlowDown? then 1 else 0
  }

  /** The interval in force after n replies: the initial one and five more seconds for every
      slow_down among them (RFC 8628, section 3.5). */
  function IntervalAfter<T>(intervalSeconds: int, turns: seq<Turn<T>>, n: nat): int
    requires n <= |turns|
  {
    InitialInterval(intervalSeconds) + SLOW_DOWN_INCREMENT * SlowDowns(turns[..n])
  }

  lemma IntervalStep<T>(intervalSeconds: int, turns: seq<Turn<T>>, n: nat)
    requires n < |turns|
    ensures IntervalAfter(intervalSeconds, turns, 0) == InitialInterval(intervalSeconds)
    ensures IntervalAfter(intervalSeconds, turns, n + 1) == IntervalAfter(intervalSeconds, turns, n)
              + if turns[n].response.SlowDown? then SLOW_DOWN_INCREMENT else 0
    ensures IntervalAfter(intervalSeconds, turns, n) >= InitialInterval(intervalSeconds)
  {
    assert turns[..n + 1][..n] == turns[..n];
    assert turns[..0] == [];
  }

  ghost predicate WellSpaced<T>(polls: seq<int>, intervalSeconds: int, turns: seq<Turn<T>>) {
    |polls| <= |turns|
    && forall k :: 0 <= k < |polls| - 1 ==> polls[k + 1] - polls[k] >= IntervalAfter(intervalSeconds, turns, k + 1)
  }

  /** When the loop is back at its top after the given polls, were there no deadline. */
  function Ready<T>(polls: seq<int>, intervalSeconds: int, start: int, turns: seq<Turn<T>>): int
    requires |polls| <= |turns|
  {
    var n := |polls|;
    if n == 0 then start
    else polls[n - 1] + turns[n - 1].pollTime + IntervalAfter(intervalSeconds, turns, n) + turns[n - 1].lateness
  }

  /** Nothing but the environment's own delays is added to the required interval: a poll that
      still happens before the deadline was not put off by it. */
  ghost predicate PolledOnTime<T>(polls: seq<int>, intervalSeconds: int, start: int, turns: seq<Turn<T>>) {
    && |polls| <= |turns|
    && forall k :: 0 <= k < |polls| ==>
         polls[k] == Ready(polls[..k], intervalSeconds, start, turns) + turns[k].checkDelay
  }

  lemma NoPollsYet<T>(intervalSeconds: int, start: int, turns: seq<Turn<T>>)
    ensures PolledOnTime([], intervalSeconds, start, turns)
  {
  }

  lemma OneMorePoll<T>(polls: seq<int>, now: int, intervalSeconds: int, start: int, turns: seq<Turn<T>>)
    requires PolledOnTime(polls, intervalSeconds, start, turns) && |polls| < |turns|
    requires now == Ready(polls, intervalSeconds, start, turns) + turns[|polls|].checkDelay
    ensures PolledOnTime(polls + [now], intervalSeconds, start, turns)
  {
    hide Ready;
    var more := polls + [now];
    forall k | 0 <= k < |more|
      ensures more[k] == Ready(more[..k], intervalSeconds, start, turns) + turns[k].checkDelay
    {
      assert more[..k] == polls[..k];
      assert polls[..|polls|] == polls;
    }
  }

  /** No cancellation was overlooked on the way to the last poll. */
  predicate NotCancelledBefore<T>(polls: seq<int>, turns: seq<Turn<T>>) {
    && |polls| <= |turns|
    && (forall k :: 0 <= k < |polls| ==> !turns[k].cancelledAtCheck)
    && (forall k :: 0 <= k < |polls| - 1 ==> !turns[k].cancelledInSleep)
  }

  function CheckDelay<T>(polls: seq<int>, turns: seq<Turn<T>>): nat {
    if |polls| < |turns| then turns[|polls|].checkDelay else 0
  }

  predicate GoesOn<T>(r: Response<T>) {
    r.Pending? || r.SlowDown?
  }

  datatype Rest = Expired | Interrupted | Awake(at: int)

  /** The wait between two polls: for the interval, but never past the deadline. */
  method Sleep<T>(now: int, interval: int, deadline: Option<int>, turn: Turn<T>) returns (rest: Rest)
    requires interval >= 0
    ensures rest.Expired? <==> deadline.Some? && deadline.value <= now
    ensures rest.Interrupted? <==> !rest.Expired? && turn.cancelledInSleep
    ensures rest.Awake? ==>
              rest.at == turn.lateness + if deadline.Some? && deadline.value < now + interval then deadline.value
                                         else now + interval
  {
    var wait := interval;
    if deadline.Some? {
      var remaining := deadline.value - now;
      if remaining <= 0 {
        return Expired;
      } else if remaining < wait {
        wait := remaining;
      }
    }
    if turn.cancelledInSleep {
      return Interrupted;
    }
    return Awake(now + wait + turn.lateness);
  }

  /** polls[k] is the clock reading that admitted poll k, `ended` the time of the return; the
      end of `turns` means that the loop is observed before it returns. */
  method PollDeviceCode<T>(intervalSeconds: int, expiresInSeconds: int, start: int, turns: seq<Turn<T>>)
    returns (outcome: Outcome<T>, polls: seq<int>, ended: int)
    ensures expiresInSeconds > 0 ==>
              forall k :: 0 <= k < |polls| ==> polls[k] < start + expiresInSeconds * 1_000_000_000
    ensures PolledOnTime(polls, intervalSeconds, start, turns)
    ensures forall k :: 0 <= k < |polls| - 1 ==> turns[k].response.Pending? || turns[k].response.SlowDown?
    ensures outcome.Granted? <==> polls != [] && turns[|polls| - 1].response.Complete?
    ensures outcome.Granted? ==> outcome.value == turns[|polls| - 1].response.value
    ensures outcome.Rejected? <==> polls != [] && turns[|polls| - 1].response.Failed?
    ensures outcome.Rejected? ==> outcome.err == turns[|polls| - 1].response.err
    ensures NotCancelledBefore(polls, turns)
    ensures outcome.Cancelled? ==>
              || (|polls| < |turns| && turns[|polls|].cancelledAtCheck)
              || (polls != [] && turns[|polls| - 1].cancelledInSleep)
    ensures outcome.TimedOut? ==>
              && expiresInSeconds > 0
              && Ready(polls, intervalSeconds, start, turns) + CheckDelay(polls, turns)
                 >= start + expiresInSeconds * 1_000_000_000
    // no sleep lasts beyond the deadline: it gives up in time, but for the environment's delays
    ensures outcome.TimedOut? ==>
              start + expiresInSeconds * 1_000_000_000 <= ended
              <= start + expiresInSeconds * 1_000_000_000 + CheckDelay(polls, turns)
                 + if polls == [] then 0 else turns[|polls| - 1].pollTime + turns[|polls| - 1].lateness
    ensures outcome.StillPolling? ==> |polls| == |turns|
  {
    hide IntervalAfter, InitialInterval, PolledOnTime;
    assert PolledOnTime([], intervalSeconds, start, turns) by {
      NoPollsYet(intervalSeconds, start, turns);
    }
    polls := [];
    var now := start;
    var interval := InitialInterval(intervalSeconds);
    var deadline: Option<int> := None;
    if expiresInSeconds > 0 {
      deadline := Some(start + expiresInSeconds * SECOND);
    }
    if turns != [] {
      IntervalStep(intervalSeconds, turns, 0);
    }
    for n := 0 to |turns|
      invariant |polls| == n
      invariant interval >= 0 && (n < |turns| || n > 0 ==> interval == IntervalAfter(intervalSeconds, turns, n))
      invariant forall k :: 0 <= k < n ==> GoesOn(turns[k].response)
      invariant forall k :: 0 <= k < n ==> !turns[k].cancelledAtCheck && !turns[k].cancelledInSleep
      invariant deadline.Some? ==> forall k :: 0 <= k < n ==> polls[k] < deadline.value
      invariant PolledOnTime(polls, intervalSeconds, start, turns)
      invariant deadline.Some? ==> now <= deadline.value + if n == 0 then 0 else turns[n - 1].lateness
      invariant var ready := Ready(polls, intervalSeconds, start, turns);
                now == ready || (deadline.Some? && deadline.value <= now <= ready)
    {
      var turn := turns[n];
      IntervalStep(intervalSeconds, turns, n);
      now := now + turn.checkDelay;
      if turn.cancelledAtCheck {
        return Cancelled, polls, now;
      }
      if deadline.Some? && !(now < deadline.value) {
        return TimedOut, polls, now;
      }
      OneMorePoll(polls, now, intervalSeconds, start, turns);
      polls := polls + [now];
      now := now + turn.pollTime;
      match turn.response {
        case Complete(value) => return Granted(value), polls, now;
        case Failed(err) => return Rejected(err), polls, now;
        case SlowDown => interval := interval + SLOW_DOWN_INCREMENT;
        case Pending =>
      }
      var rest := Sleep(now, interval, deadline, turn);
      match rest {
        case Expired => return TimedOut, polls, now;
        case Interrupted => return Cancelled, polls, now;
        case Awake(at) => now := at;
      }
    }
    return StillPolling, polls, now;
  }

  /** The slow_down replies among the first n. */
  function SlowDownReplies<T>(turns: seq<Turn<T>>, n: nat): set<nat>
    requires n <= |turns|
  {
    set j: nat | j < n && turns[j].response.SlowDown?
  }

  lemma {:induction false} SlowDownsCount<T>(turns: seq<Turn<T>>, n: nat)
    requires n <= |turns|
    ensures SlowDowns(turns[..n]) == |SlowDownReplies(turns, n)|
  {
    if n == 0 {
    } else {
      SlowDownsCount(turns, n - 1);
      assert turns[..n][..n - 1] == turns[..n - 1];
      assert SlowDownReplies(turns, n)
          == SlowDownReplies(turns, n - 1) + if turns[n - 1].response.SlowDown? then {n - 1} else {};
    }
  }

  lemma {:induction false} IntervalInSeconds<T>(intervalSeconds: int, turns: seq<Turn<T>>, n: nat)
    requires n <= |turns|
    ensures IntervalAfter(intervalSeconds, turns, n)
         == ((if intervalSeconds <= 0 then 5 else intervalSeconds) + 5 * |SlowDownReplies(turns, n)|) * 1_000_000_000
  {
    SlowDownsCount(turns, n);
    hide SlowDowns, SlowDownReplies;
  }

  /** Each poll after the first comes when the reply before it, the interval in force and the
      environment's own delays have passed, the interval being the requested one in seconds (5
      when none was requested) and 5 seconds more for every slow_down received so far. */
  lemma {:induction false} NextPollIsDue<T>(polls: seq<int>, intervalSeconds: int, start: int, turns: seq<Turn<T>>,
                                            k: nat)
    requires PolledOnTime(polls, intervalSeconds, start, turns) && k + 1 < |polls|
    ensures polls[k + 1] == polls[k] + turns[k].pollTime + turns[k].lateness + turns[k + 1].checkDelay
              + ((if intervalSeconds <= 0 then 5 else intervalSeconds) + 5 * |SlowDownReplies(turns, k + 1)|)
                * 1_000_000_000
  {
    var next := k + 1;
    assert polls[next] == Ready(polls[..next], intervalSeconds, start, turns) + turns[next].checkDelay;
    IntervalInSeconds(intervalSeconds, turns, next);
    hide IntervalAfter, SlowDownReplies;
  }

  /** RFC 8628, sections 3.2 and 3.5: consecutive polls are at least the initial interval
      apart, and five seconds more for every slow_down received by then. */
  lemma PollsAreWellSpaced<T>(polls: seq<int>, intervalSeconds: int, start: int, turns: seq<Turn<T>>)
    requires PolledOnTime(polls, intervalSeconds, start, turns)
    ensures WellSpaced(polls, intervalSeconds, turns)
    ensures polls != [] ==> start <= polls[0]
  {
    forall k | 0 <= k < |polls| - 1
      ensures polls[k + 1] - polls[k] >= IntervalAfter(intervalSeconds, turns, k + 1)
    {
      var next := k + 1;
      assert polls[next] == Ready(polls[..next], intervalSeconds, start, turns) + turns[next].checkDelay;
    }
  }

  lemma {:induction false} PollsSpreadOut<T>(polls: seq<int>, intervalSeconds: int, turns: seq<Turn<T>>, k: nat)
    requires WellSpaced(polls, intervalSeconds, turns) && k < |polls|
    ensures polls[k] >= polls[0] + k * InitialInterval(intervalSeconds)
  {
    if k == 0 {
    } else {
      PollsSpreadOut(polls, intervalSeconds, turns, k - 1);
      assert polls[k - 1 + 1] - polls[k - 1] >= IntervalAfter(intervalSeconds, turns, k - 1 + 1);
      IntervalStep(intervalSeconds, turns, k);
      assert k * InitialInterval(intervalSeconds)
          == (k - 1) * InitialInterval(intervalSeconds) + InitialInterval(intervalSeconds);
    }
  }

  function CeilDiv(a: int, b: int): int
    requires b > 0
  {
    (a + b - 1) / b
  }

  lemma {:induction false} CeilDivBound(n: int, a: int, b: int)
    requires b > 0 && (n - 1) * b < a
    ensures n <= CeilDiv(a, b)
  {
    var q := CeilDiv(a, b);
    assert a <= q * b;
    assert q <= n - 1 ==> q * b <= (n - 1) * b;
  }

  /** Polls inside a lifetime of E seconds number at most ceil(E / I). */
  lemma PollCountIsBounded<T>(polls: seq<int>, intervalSeconds: int, expiresInSeconds: int, start: int,
                              turns: seq<Turn<T>>)
    requires expiresInSeconds > 0 && PolledOnTime(polls, intervalSeconds, start, turns)
    requires forall k :: 0 <= k < |polls| ==> polls[k] < start + expiresInSeconds * 1_000_000_000
    ensures |polls| <= CeilDiv(expiresInSeconds, if intervalSeconds <= 0 then 5 else intervalSeconds)
    ensures |polls| <= CeilDiv(expiresInSeconds * SECOND, InitialInterval(intervalSeconds))
  {
    var e, i := expiresInSeconds * SECOND, InitialInterval(intervalSeconds);
    if polls != [] {
      PollsAreWellSpaced(polls, intervalSeconds, start, turns);
      PollsSpreadOut(polls, intervalSeconds, turns, |polls| - 1);
      CeilDivBound(|polls|, e, i);
      SecondsOf(|polls|, expiresInSeconds, if intervalSeconds <= 0 then 5 else intervalSeconds);
    } else {
      CeilDivBound(0, e, i);
      CeilDivBound(0, expiresInSeconds, if intervalSeconds <= 0 then 5 else intervalSeconds);
    }
  }

  lemma SecondsOf(n: nat, e: int, i: int)
    requires i > 0 && (n - 1) * (i * SECOND) < e * SECOND
    ensures n <= CeilDiv(e, i)
  {
    assert (n - 1) * (i * SECOND) == ((n - 1) * i) * SECOND;
    CeilDivBound(n, e, i);
  }
}
