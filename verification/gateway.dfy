/**
 * The messaging gateway as the bot sees it: the calls it makes (profile probe,
 * push, reply, the retry back-off) recorded as actions, and the scripted
 * outcome of each call standing in for the remote service.
 */
module Gateway {

  /** An opaque user identifier of the messaging system. */
  type UserId = string

  /** The one-time token that lets the bot answer one inbound event. */
  type ReplyToken = string

  /** What the gateway answers to a push: accepted, or rejected with a reason. */
  datatype PushResult = Sent | Rejected(reason: string)

  /** The scripted outcome of one delivery attempt: the profile probe, then the push. */
  datatype Attempt = Attempt(profileOk: bool, push: PushResult)

  /**
   * One outbound call, with the outcome it met. `Wait` is the fixed
   * two-second back-off between delivery attempts.
   */
  datatype Action<M> =
    | Probe(user: UserId, ok: bool)
    | Push(to: UserId, body: M, ok: bool)
    | Reply(token: ReplyToken, body: M, ok: bool)
    | Wait

  /** The number of push calls in a list of actions. */
  function PushCount<M>(actions: seq<Action<M>>): nat
  {
    if |actions| == 0 then 0
    else PushCount(actions[..|actions| - 1]) + (if actions[|actions| - 1].Push? then 1 else 0)
  }

  lemma {:induction false} PushCountAppend<M>(a: seq<Action<M>>, b: seq<Action<M>>)
    ensures PushCount(a + b) == PushCount(a) + PushCount(b)
    decreases |b|
  {
    if |b| == 0 {
      assert a + b == a;
    } else {
      assert (a + b)[..|a + b| - 1] == a + b[..|b| - 1];
      PushCountAppend(a, b[..|b| - 1]);
    }
  }
}
