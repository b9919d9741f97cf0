/**
 * The bounded push retry of `sendPushMessageWithRetry`: every attempt probes
 * the recipient's profile (advisory only) and then pushes; the first accepted
 * push ends the run, a rejected one is followed by a back-off wait while
 * attempts remain, and the last rejection is raised to the caller.
 */
module Retry {
  import opened Gateway

  /** The retry budget the server always uses: one retry, two attempts. */
  const DefaultMaxRetries: int := 1

  /**
   * How a run ended. `NotAttempted` is the loop that never starts (a negative
   * budget): the function then resolves without a value and without raising.
   */
  datatype Delivery = Delivered | Undelivered(reason: string) | NotAttempted

  /** The ending, the calls made on the way, and how many attempts were made. */
  datatype Run<M> = Run(delivery: Delivery, trace: seq<Action<M>>, attempts: nat)

  /**
   * Attempts `i`, `i + 1`, ..., up to `maxRetries`, stopping at the first
   * accepted push. `script[t]` is the gateway's answer to attempt `t`.
   */
  function AttemptFrom<M>(to: UserId, body: M, script: seq<Attempt>, maxRetries: int, i: nat): (r: Run<M>)
    requires i <= maxRetries < |script|
    ensures 1 <= r.attempts <= maxRetries + 1 - i
    ensures !r.delivery.NotAttempted?
    decreases maxRetries - i
  {
    var a := script[i];
    var step := [Probe(to, a.profileOk), Push(to, body, a.push.Sent?)];
    if a.push.Sent? then Run(Delivered, step, 1)
    else if i < maxRetries then
      var rest := AttemptFrom(to, body, script, maxRetries, i + 1);
      Run(rest.delivery, step + [Wait] + rest.trace, rest.attempts + 1)
    else Run(Undelivered(a.push.reason), step, 1)
  }

  /**
   * The action at position `phase` (0 probe, 1 push, 2 wait) of attempt `t`
   * in a run: an index-based description of the trace, independent of the
   * recursion above.
   */
  function Slot<M>(to: UserId, body: M, script: seq<Attempt>, t: nat, phase: nat): Action<M>
    requires t < |script|
  {
    if phase == 0 then Probe(to, script[t].profileOk)
    else if phase == 1 then Push(to, body, script[t].push.Sent?)
    else Wait
  }

  /** A trace is `attempts` probe/push pairs, starting at attempt `first`, separated by waits. */
  ghost predicate Layout<M>(to: UserId, body: M, script: seq<Attempt>, first: nat, trace: seq<Action<M>>, attempts: nat)
  {
    && first + attempts <= |script|
    && |trace| == (if attempts == 0 then 0 else 3 * attempts - 1)
    && forall j :: 0 <= j < |trace| ==> trace[j] == Slot(to, body, script, first + j / 3, j % 3)
  }

  lemma {:induction false} AttemptFromLayout<M>(to: UserId, body: M, script: seq<Attempt>, maxRetries: int, i: nat)
    requires i <= maxRetries < |script|
    ensures var r := AttemptFrom(to, body, script, maxRetries, i);
      && 1 <= r.attempts <= maxRetries + 1 - i
      && Layout(to, body, script, i, r.trace, r.attempts)
    decreases maxRetries - i
  {
    var r := AttemptFrom(to, body, script, maxRetries, i);
    var pair := [Slot(to, body, script, i, 0), Slot(to, body, script, i, 1)];
    if script[i].push.Sent? || i == maxRetries {
      assert r.trace == pair && r.attempts == 1;
      forall j | 0 <= j < 2
        ensures pair[j] == Slot(to, body, script, i + j / 3, j % 3)
      {
      }
      assert Layout(to, body, script, i, pair, 1);
    } else {
      var rest := AttemptFrom(to, body, script, maxRetries, i + 1);
      AttemptFromLayout(to, body, script, maxRetries, i + 1);
      var trace := pair + [Slot(to, body, script, i, 2)] + rest.trace;
      LayoutPrepend(to, body, script, i, rest.trace, rest.attempts);
      assert r.trace == trace && r.attempts == rest.attempts + 1;
      assert Layout(to, body, script, i, trace, rest.attempts + 1);
    }
  }

  /** One failed attempt in front of a laid-out run gives a laid-out run starting one attempt earlier. */
  lemma LayoutPrepend<M>(to: UserId, body: M, script: seq<Attempt>, i: nat, rest: seq<Action<M>>, n: nat)
    requires n >= 1 && Layout(to, body, script, i + 1, rest, n)
    ensures Layout(to, body, script, i, [Slot(to, body, script, i, 0), Slot(to, body, script, i, 1)] + [Slot(to, body, script, i, 2)] + rest, n + 1)
  {
    var step := [Slot(to, body, script, i, 0), Slot(to, body, script, i, 1)] + [Slot(to, body, script, i, 2)];
    var trace := step + rest;
    forall j | 0 <= j < |trace|
      ensures trace[j] == Slot(to, body, script, i + j / 3, j % 3)
    {
      if j < 3 {
        assert trace[j] == step[j];
      } else {
        assert trace[j] == rest[j - 3];
        ShiftByOneAttempt(j);
      }
    }
  }

  lemma ShiftByOneAttempt(j: int)
    requires j >= 3
    ensures (j - 3) / 3 == j / 3 - 1 && (j - 3) % 3 == j % 3
  {
  }

  lemma {:induction false} AttemptFromOutcome<M>(to: UserId, body: M, script: seq<Attempt>, maxRetries: int, i: nat)
    requires i <= maxRetries < |script|
    ensures var r := AttemptFrom(to, body, script, maxRetries, i);
      && i + r.attempts <= maxRetries + 1
      && !r.delivery.NotAttempted?
      && (r.delivery.Delivered? <==> exists t :: i <= t <= maxRetries && script[t].push.Sent?)
      && (r.delivery.Delivered? ==> i + r.attempts - 1 <= maxRetries && script[i + r.attempts - 1].push.Sent?)
      && (forall t :: i <= t < i + r.attempts - 1 ==> !script[t].push.Sent?)
      && (r.delivery.Undelivered? ==>
            && r.attempts == maxRetries + 1 - i
            && script[maxRetries].push == Rejected(r.delivery.reason))
    decreases maxRetries - i
  {
    AttemptFromLayout(to, body, script, maxRetries, i);
    if !script[i].push.Sent? && i < maxRetries {
      AttemptFromOutcome(to, body, script, maxRetries, i + 1);
      AttemptFromLayout(to, body, script, maxRetries, i + 1);
    }
  }

  /**
   * `sendPushMessageWithRetry(to, body, maxRetries)` against the scripted
   * gateway. The script must answer every attempt the budget allows.
   */
  function SendPushWithRetry<M>(to: UserId, body: M, script: seq<Attempt>, maxRetries: int): (r: Run<M>)
    requires maxRetries < |script|
    // the attempt bound, and every call goes to the recipient
    ensures maxRetries < 0 ==> r == Run(NotAttempted, [], 0)
    ensures maxRetries >= 0 ==> 1 <= r.attempts <= maxRetries + 1 && !r.delivery.NotAttempted?
    ensures Layout(to, body, script, 0, r.trace, r.attempts)
    // delivered exactly when some allowed attempt is accepted, and then at the first one
    ensures r.delivery.Delivered? <==> exists t :: 0 <= t <= maxRetries && script[t].push.Sent?
    ensures r.delivery.Delivered? ==> script[r.attempts - 1].push.Sent?
    ensures forall t :: 0 <= t < r.attempts - 1 ==> !script[t].push.Sent?
    // exhausted: every attempt was made and the last attempt's reason is raised
    ensures r.delivery.Undelivered? ==>
      && r.attempts == maxRetries + 1
      && script[maxRetries].push == Rejected(r.delivery.reason)
  {
    if maxRetries < 0 then Run(NotAttempted, [], 0)
    else
      AttemptFromLayout(to, body, script, maxRetries, 0);
      AttemptFromOutcome(to, body, script, maxRetries, 0);
      AttemptFrom(to, body, script, maxRetries, 0)
  }

  /**
   * The attempt bound stated on the calls themselves: a run pushes exactly
   * once per attempt, so at most `maxRetries + 1` times, and never ends on a
   * wait.
   */
  lemma {:induction false} PushesPerRun<M>(to: UserId, body: M, script: seq<Attempt>, maxRetries: int)
    requires maxRetries < |script|
    ensures var r := SendPushWithRetry(to, body, script, maxRetries);
      && PushCount(r.trace) == r.attempts
      && (maxRetries >= 0 ==> PushCount(r.trace) <= maxRetries + 1)
      && (|r.trace| > 0 ==> r.trace[|r.trace| - 1] == Push(to, body, script[r.attempts - 1].push.Sent?))
  {
    var r := SendPushWithRetry(to, body, script, maxRetries);
    if maxRetries >= 0 {
      AttemptFromPushCount(to, body, script, maxRetries, 0);
    }
    if |r.trace| > 0 {
      var j := |r.trace| - 1;
      assert j / 3 == r.attempts - 1 && j % 3 == 1;
    }
  }

  /** Every call of a run, probe or push, addresses the recipient, and every push carries the body. */
  lemma RunRecipients<M>(to: UserId, body: M, script: seq<Attempt>, maxRetries: int)
    requires maxRetries < |script|
    ensures var r := SendPushWithRetry(to, body, script, maxRetries);
      forall j :: 0 <= j < |r.trace| && r.trace[j].Push? ==> r.trace[j].to == to && r.trace[j].body == body
  {
    var r := SendPushWithRetry(to, body, script, maxRetries);
    forall j | 0 <= j < |r.trace| && r.trace[j].Push?
      ensures r.trace[j].to == to && r.trace[j].body == body
    {
      assert r.trace[j] == Slot(to, body, script, j / 3, j % 3);
    }
  }

  lemma {:induction false} AttemptFromPushCount<M>(to: UserId, body: M, script: seq<Attempt>, maxRetries: int, i: nat)
    requires i <= maxRetries < |script|
    ensures var r := AttemptFrom(to, body, script, maxRetries, i); PushCount(r.trace) == r.attempts
    decreases maxRetries - i
  {
    var a := script[i];
    var pair: seq<Action<M>> := [Probe(to, a.profileOk), Push(to, body, a.push.Sent?)];
    var probe: seq<Action<M>> := [pair[0]];
    assert probe[..0] == [];
    assert PushCount(probe) == 0;
    assert pair[..1] == probe;
    assert PushCount(pair) == 1;
    if !a.push.Sent? && i < maxRetries {
      var rest := AttemptFrom(to, body, script, maxRetries, i + 1);
      AttemptFromPushCount(to, body, script, maxRetries, i + 1);
      var step := pair + [Wait];
      assert step[..|step| - 1] == pair;
      PushCountAppend(step, rest.trace);
    }
  }

  /** Two scripts that differ at most in their profile probes. */
  ghost predicate SamePushes(s1: seq<Attempt>, s2: seq<Attempt>)
  {
    |s1| == |s2| && forall t :: 0 <= t < |s1| ==> s1[t].push == s2[t].push
  }

  /**
   * The profile probe is advisory: its outcome never aborts an attempt and
   * never changes how the run ends or how many pushes it makes.
   */
  lemma {:induction false} ProbeIsAdvisory<M>(to: UserId, body: M, s1: seq<Attempt>, s2: seq<Attempt>, maxRetries: int)
    requires maxRetries < |s1|
    requires SamePushes(s1, s2)
    ensures var r1 := SendPushWithRetry(to, body, s1, maxRetries);
      var r2 := SendPushWithRetry(to, body, s2, maxRetries);
      r1.delivery == r2.delivery && r1.attempts == r2.attempts
  {
    if maxRetries >= 0 {
      ProbeIsAdvisoryFrom(to, body, s1, s2, maxRetries, 0);
    }
  }

  lemma {:induction false} ProbeIsAdvisoryFrom<M>(to: UserId, body: M, s1: seq<Attempt>, s2: seq<Attempt>, maxRetries: int, i: nat)
    requires i <= maxRetries < |s1|
    requires SamePushes(s1, s2)
    ensures var r1 := AttemptFrom(to, body, s1, maxRetries, i);
      var r2 := AttemptFrom(to, body, s2, maxRetries, i);
      r1.delivery == r2.delivery && r1.attempts == r2.attempts
    decreases maxRetries - i
  {
    assert s1[i].push == s2[i].push;
    if !s1[i].push.Sent? && i < maxRetries {
      ProbeIsAdvisoryFrom(to, body, s1, s2, maxRetries, i + 1);
    }
  }
}
