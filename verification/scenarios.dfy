/**
 * Submission and admin commands together: the intended round trip from a
 * new report to its completion notice, and what a repeated random id does
 * to it.
 */
module Scenarios {
  import opened Wrappers
  import opened Gateway
  import opened Ledger
  import opened Text
  import opened Messages
  import opened Bot
  import opened Submission
  import BotProperties
  import Retry

  /** The command the new-report alert suggests: the close keyword, a space, `#` and the id. */
  function CloseCommand(id: nat): string
  {
    CloseKeyword + " #" + Show(id)
  }

  lemma CloseCommandParses(id: nat)
    ensures Trim(CloseCommand(id)) == CloseCommand(id)
    ensures Contains(CloseCommand(id), CloseKeyword)
    ensures HashNumber(CloseCommand(id)) == Some(id)
  {
    var c := CloseCommand(id);
    TrimOfUnpadded(c);
    assert OccursAt(c, CloseKeyword, 0);
    HashNumberOfShow(CloseKeyword + " ", id, "");
    assert c == CloseKeyword + " " + "#" + Show(id) + "";
  }

  lemma BareCloseParses()
    ensures Trim(CloseKeyword) == CloseKeyword
    ensures Contains(CloseKeyword, CloseKeyword)
    ensures HashNumber(CloseKeyword).None?
  {
    TrimOfUnpadded(CloseKeyword);
    assert OccursAt(CloseKeyword, CloseKeyword, 0);
    HashNumberSkipsPrefix(CloseKeyword, "");
    assert CloseKeyword + "" == CloseKeyword;
  }

  /** A fresh id makes the submitted report the first pending row with that id. */
  lemma FreshSubmissionIsFound(body: Body, admin: Option<UserId>, store: Store, draw: int)
    requires Valid(body) && MinId <= draw <= MaxId
    requires forall k :: 0 <= k < |store| ==> !PendingWithId(store[k], draw)
    ensures var s := Submit(body, admin, store, draw, true);
      && s.response == Created(draw)
      && s.store[..|store|] == store
      && s.store[|store|] == PendingReport(draw, body.userId.value, body.displayName.value, body.pointId.value)
      && LatestPending(s.store) == Some(|store|)
      && FindPending(s.store, draw) == Some(|store|)
  {
    var s := Submit(body, admin, store, draw, true);
    assert FindPending(s.store[..|store|], draw).None?;
  }

  /**
   * A report submitted under an id no other pending report has is closed
   * by the command its alert suggests: it becomes completed at `now`, the
   * admin's confirmation names its reporter, point and id, and the first
   * completion push goes to its reporter.
   */
  lemma SubmitThenCloseById(body: Body, admin: UserId, store: Store, draw: int, token: ReplyToken, gw: Script, now: Time)
    requires Valid(body) && MinId <= draw <= MaxId
    requires admin != ""
    requires forall k :: 0 <= k < |store| ==> !PendingWithId(store[k], draw)
    requires Complete(gw) && gw.replyOk
    ensures var s := Submit(body, Some(admin), store, draw, true);
      var r := HandleEvent(MessageEvent(token, Some(admin), TextMessage(CloseCommand(draw))), Some(admin), s.store, gw, now);
      && s.response == Created(draw)
      && |r.store| == |store| + 1
      && r.store[|store|].status == Completed && r.store[|store|].completedAt == Some(now)
      && |r.actions| >= 3
      && r.actions[0] == Reply(token, Confirmed(body.displayName.value, body.pointId.value, draw), true)
      && r.actions[2] == Push(body.userId.value, Resolved(body.pointId.value), gw.reporter[0].push.Sent?)
  {
    var s := Submit(body, Some(admin), store, draw, true);
    CloseCommandParses(draw);
    var text := CloseCommand(draw);
    var ev := MessageEvent(token, Some(admin), TextMessage(text));
    assert BotProperties.AdminText(ev, Some(admin), text);
    FreshSubmissionIsFound(body, Some(admin), store, draw);
    assert CloseTarget(text, s.store) == Some(draw);
    BotProperties.CloseCompletes(ev, Some(admin), text, s.store, gw, now);
    BotProperties.CloseNotifiesReporter(ev, Some(admin), text, s.store, gw, now);
  }

  /**
   * The bare close keyword completes the report just submitted: it is the
   * newest pending one.
   */
  lemma SubmitThenCloseLatest(body: Body, admin: UserId, store: Store, draw: int, token: ReplyToken, gw: Script, now: Time)
    requires Valid(body) && MinId <= draw <= MaxId
    requires admin != ""
    requires forall k :: 0 <= k < |store| ==> !PendingWithId(store[k], draw)
    requires Complete(gw) && gw.replyOk
    ensures var s := Submit(body, Some(admin), store, draw, true);
      var r := HandleEvent(MessageEvent(token, Some(admin), TextMessage(CloseKeyword)), Some(admin), s.store, gw, now);
      && r.store[|store|].status == Completed && r.store[|store|].completedAt == Some(now)
      && |r.actions| >= 1
      && r.actions[0] == Reply(token, Confirmed(body.displayName.value, body.pointId.value, draw), true)
  {
    BareCloseParses();
    SubmitThenCloseUntargeted(body, admin, store, draw, MessageEvent(token, Some(admin), TextMessage(CloseKeyword)), CloseKeyword, gw, now);
  }

  /** The same for any admin text carrying the close keyword and no `#id`. */
  lemma SubmitThenCloseUntargeted(body: Body, admin: UserId, store: Store, draw: int, ev: Event, text: string, gw: Script, now: Time)
    requires Valid(body) && MinId <= draw <= MaxId
    requires admin != ""
    requires forall k :: 0 <= k < |store| ==> !PendingWithId(store[k], draw)
    requires Complete(gw) && gw.replyOk
    requires BotProperties.AdminText(ev, Some(admin), text) && Contains(text, CloseKeyword) && HashNumber(text).None?
    ensures var s := Submit(body, Some(admin), store, draw, true);
      var r := HandleEvent(ev, Some(admin), s.store, gw, now);
      && r.store[|store|].status == Completed && r.store[|store|].completedAt == Some(now)
      && |r.actions| >= 1
      && r.actions[0] == Reply(ev.replyToken, Confirmed(body.displayName.value, body.pointId.value, draw), true)
  {
    var s := Submit(body, Some(admin), store, draw, true);
    FreshSubmissionIsFound(body, Some(admin), store, draw);
    BotProperties.CloseLatest(ev, Some(admin), text, s.store, gw, now, |store|);
  }

  /**
   * A repeated id misdirects the close: when an older report is still
   * pending under the drawn id, closing that id completes both reports,
   * while the confirmation and every completion push concern the older
   * one, so the new reporter is never told.
   */
  lemma CollisionMisdirectsClose(body: Body, admin: UserId, store: Store, draw: int, k: nat, token: ReplyToken, gw: Script, now: Time)
    requires Valid(body) && MinId <= draw <= MaxId
    requires admin != ""
    requires FindPending(store, draw) == Some(k)
    requires body.userId.value != store[k].userId && body.userId.value != admin
    requires Complete(gw) && gw.replyOk
    ensures var s := Submit(body, Some(admin), store, draw, true);
      var r := HandleEvent(MessageEvent(token, Some(admin), TextMessage(CloseCommand(draw))), Some(admin), s.store, gw, now);
      && |r.store| == |store| + 1
      && r.store[k].status == Completed
      && r.store[|store|].status == Completed
      && r.actions[0] == Reply(token, Confirmed(store[k].displayName, store[k].pointId, draw), true)
      && forall j :: 0 <= j < |r.actions| && r.actions[j].Push? ==> r.actions[j].to != body.userId.value
  {
    var s := Submit(body, Some(admin), store, draw, true);
    CloseCommandParses(draw);
    var text := CloseCommand(draw);
    assert CloseTarget(text, s.store) == Some(draw);
    assert s.store[..|store|] == store;
    assert FindPending(s.store, draw) == Some(k) by {
      assert PendingWithId(s.store[k], draw);
      assert forall m :: 0 <= m < k ==> s.store[m] == store[m];
    }
    var ev := MessageEvent(token, Some(admin), TextMessage(text));
    assert BotProperties.AdminText(ev, Some(admin), text);
    BotProperties.CloseUpdatesLedger(ev, Some(admin), text, s.store, gw, now);
    BotProperties.CloseNotifiesReporter(ev, Some(admin), text, s.store, gw, now);
    BotProperties.ClosePushRecipients(ev, Some(admin), text, s.store, gw, now);
    var u := CompleteId(s.store, draw, now);
    assert u[k] == CompleteRow(s.store[k], draw, now);
    assert u[|store|] == CompleteRow(s.store[|store|], draw, now);
  }

  /**
   * The completion update does not filter on status: when a report that
   * was completed earlier shares its id with a pending one, closing that id
   * re-stamps the earlier report's `completed_at`.
   */
  lemma CompletionRestampsDuplicate(ev: Event, admin: Option<UserId>, text: string, store: Store, gw: Script, now: Time, k: nat)
    requires Complete(gw)
    requires BotProperties.AdminText(ev, admin, text) && Contains(text, CloseKeyword)
    requires Truthy(CloseTarget(text, store))
    requires FindPending(store, CloseTarget(text, store).value).Some?
    requires k < |store| && store[k].reportId == CloseTarget(text, store).value
    requires store[k].status == Completed && store[k].completedAt != Some(now)
    ensures var r := HandleEvent(ev, admin, store, gw, now);
      r.store[k].completedAt == Some(now) && r.store[k].completedAt != store[k].completedAt
  {
    BotProperties.CloseUpdatesLedger(ev, admin, text, store, gw, now);
  }
}
