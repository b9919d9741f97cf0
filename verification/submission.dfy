/**
 * The body of the `/api/report` handler: validate the three required
 * fields, insert a pending report under a drawn four-digit id, start the
 * background notifications, answer the form.
 */
module Submission {
  import opened Wrappers
  import opened Gateway
  import opened Ledger
  import opened Messages
  import Bot

  /** The JSON body; a field the form left out is `None`. */
  datatype Body = Body(userId: Option<string>, displayName: Option<string>, pointId: Option<string>)

  /** A field passes `!field` only when it is present and not the empty string. */
  predicate Present(field: Option<string>)
  {
    field.Some? && field.value != ""
  }

  predicate Valid(body: Body)
  {
    Present(body.userId) && Present(body.displayName) && Present(body.pointId)
  }

  /** The HTTP answer: 400, 500, or 200 with the new report's id. */
  datatype Response = BadRequest | ServerError | Created(reportId: int)

  /**
   * A notification started without waiting for it: the admin alert is a
   * single push, the acknowledgement to the reporter a retried one. Their
   * outcomes never reach the response.
   */
  datatype Spawned = Spawned(to: UserId, body: Message, retried: bool)

  datatype Submitted = Submitted(response: Response, store: Store, spawned: seq<Spawned>)

  /** The range of `Math.floor(1000 + Math.random() * 9000)`. */
  const MinId: int := 1000
  const MaxId: int := 9999

  /**
   * One submission. `draw` is the random id and `insertOk` whether the
   * database accepted the insert.
   */
  function Submit(body: Body, admin: Option<UserId>, store: Store, draw: int, insertOk: bool): (r: Submitted)
    requires MinId <= draw <= MaxId
    // a missing field is a 400 and nothing else happens
    ensures r.response.BadRequest? <==> !Valid(body)
    ensures r.response.ServerError? <==> Valid(body) && !insertOk
    ensures !r.response.Created? ==> r.store == store && r.spawned == []
    // success: exactly one new pending row, with a four-digit id, appended as the newest
    ensures r.response.Created? ==>
      && MinId <= r.response.reportId <= MaxId
      && |r.store| == |store| + 1
      && r.store[..|store|] == store
      && r.store[|store|] == PendingReport(r.response.reportId, body.userId.value, body.displayName.value, body.pointId.value)
      && LatestPending(r.store) == Some(|store|)
    // the admin is alerted exactly when configured; the reporter is always acknowledged
    ensures r.response.Created? ==>
      r.spawned ==
        (if Bot.AdminConfigured(admin)
         then [Spawned(admin.value, NewReport(body.displayName.value, body.pointId.value, r.response.reportId), false)]
         else [])
        + [Spawned(body.userId.value, Received(body.pointId.value), true)]
  {
    if !Valid(body) then Submitted(BadRequest, store, [])
    else if !insertOk then Submitted(ServerError, store, [])
    else
      var user := body.userId.value;
      var name := body.displayName.value;
      var point := body.pointId.value;
      var alert := if Bot.AdminConfigured(admin) then [Spawned(admin.value, NewReport(name, point, draw), false)] else [];
      Submitted(Created(draw), store + [PendingReport(draw, user, name, point)], alert + [Spawned(user, Received(point), true)])
  }

  /** A submission keeps `completed_at` set exactly on completed reports. */
  lemma SubmitKeepsWellFormed(body: Body, admin: Option<UserId>, store: Store, draw: int, insertOk: bool)
    requires MinId <= draw <= MaxId
    requires WellFormed(store)
    ensures WellFormed(Submit(body, admin, store, draw, insertOk).store)
  {
  }

  /**
   * A successful submission raises the pending count by exactly one and
   * every other outcome leaves it as it was.
   */
  lemma {:induction false} SubmitRaisesPending(body: Body, admin: Option<UserId>, store: Store, draw: int, insertOk: bool)
    requires MinId <= draw <= MaxId
    ensures var r := Submit(body, admin, store, draw, insertOk);
      PendingCount(r.store) == PendingCount(store) + (if r.response.Created? then 1 else 0)
  {
    var r := Submit(body, admin, store, draw, insertOk);
    if r.response.Created? {
      var row := r.store[|store|];
      assert r.store == store + [row];
      PendingCountAppend(store, [row]);
      assert [row][..0] == [];
    }
  }
}
