/** What `handleEvent` guarantees, stated over every event, ledger and gateway script. */
module BotProperties {
  import opened Wrappers
  import opened Gateway
  import opened Ledger
  import opened Text
  import opened Messages
  import opened Bot
  import Retry

  /** An event that reaches the admin command interpreter with `text` (after trimming). */
  predicate AdminText(ev: Event, admin: Option<UserId>, text: string)
  {
    && ev.MessageEvent?
    && ev.content.TextMessage?
    && !Outsider(admin, ev.sender)
    && Trim(ev.content.text) == text
  }

  /** No status or help keyword contains the close keyword. */
  lemma KeywordsDisjoint(text: string)
    requires Contains(text, CloseKeyword)
    ensures text !in StatusKeywords && text !in HelpKeywords
  {
    var w := "ช่วยเหลือ";
    forall i | 0 <= i <= |w| - |CloseKeyword|
      ensures !OccursAt(w, CloseKeyword, i)
    {
      assert w[i..i + |CloseKeyword|][0] != CloseKeyword[0];
    }
  }

  /**
   * After a successful close, control falls through to the status and help
   * checks; they add nothing, since the text holds the close keyword.
   */
  lemma FallThroughIsSilent(text: string, token: ReplyToken, store: Store, gw: Script)
    requires Contains(text, CloseKeyword)
    ensures Commands(text, token, store, gw) == []
  {
    KeywordsDisjoint(text);
  }

  /**
   * Event-type filtering: an event other than a message or a follow, and a
   * message that is not text, produce nothing; a follow produces exactly
   * one greeting reply. None of them touch the ledger.
   */
  lemma EventFiltering(ev: Event, admin: Option<UserId>, store: Store, gw: Script, now: Time)
    requires Complete(gw)
    ensures var r := HandleEvent(ev, admin, store, gw, now);
      && (ev.OtherEvent? ==> r == Outcome(store, []))
      && (ev.MessageEvent? && ev.content.NonText? ==> r == Outcome(store, []))
      && (ev.FollowEvent? ==> r == Outcome(store, [Reply(ev.replyToken, Greeting, gw.replyOk)]))
  {
  }

  /**
   * Admin gating: when an admin is configured and someone else writes, the
   * ledger is untouched and the only possible output is one "staff only"
   * reply, sent exactly when the trimmed, lower-cased text is `help`.
   */
  lemma OutsiderGate(token: ReplyToken, sender: Option<UserId>, raw: string, admin: Option<UserId>, store: Store, gw: Script, now: Time)
    requires Complete(gw)
    requires Outsider(admin, sender)
    ensures var r := HandleEvent(MessageEvent(token, sender, TextMessage(raw)), admin, store, gw, now);
      && r.store == store
      && (Lower(Trim(raw)) == "help" <==> r.actions == [Reply(token, StaffOnly, gw.replyOk)])
      && (Lower(Trim(raw)) != "help" <==> r.actions == [])
  {
  }

  /**
   * Help is matched case-sensitively for the admin but case-insensitively
   * for outsiders: "HELP" from the admin gets no answer, while from anyone
   * else it gets the "staff only" reply.
   */
  lemma HelpCaseSensitivity(token: ReplyToken, who: UserId, stranger: UserId, store: Store, gw: Script, now: Time)
    requires Complete(gw)
    requires who != "" && stranger != who
    ensures HandleEvent(MessageEvent(token, Some(who), TextMessage("HELP")), Some(who), store, gw, now).actions == []
    ensures HandleEvent(MessageEvent(token, Some(stranger), TextMessage("HELP")), Some(who), store, gw, now).actions
      == [Reply(token, StaffOnly, gw.replyOk)]
  {
    TrimOfUnpadded("HELP");
    assert Lower("HELP") == "help";
    assert !Contains("HELP", CloseKeyword);
    assert "HELP" !in StatusKeywords && "HELP" !in HelpKeywords;
  }

  /**
   * The ledger changes only through a close command, and then exactly as
   * the completion update of the targeted id, which had a pending row.
   */
  lemma StoreChangesOnlyByClose(ev: Event, admin: Option<UserId>, store: Store, gw: Script, now: Time)
    requires Complete(gw)
    ensures var r := HandleEvent(ev, admin, store, gw, now);
      r.store == store ||
      exists text ::
        && AdminText(ev, admin, text)
        && Contains(text, CloseKeyword)
        && Truthy(CloseTarget(text, store))
        && FindPending(store, CloseTarget(text, store).value).Some?
        && r.store == CompleteId(store, CloseTarget(text, store).value, now)
  {
    var r := HandleEvent(ev, admin, store, gw, now);
    if r.store != store {
      var text := Trim(ev.content.text);
      assert AdminText(ev, admin, text);
    }
  }

  /** Every event keeps `completed_at` set exactly on completed reports. */
  lemma HandleEventKeepsWellFormed(ev: Event, admin: Option<UserId>, store: Store, gw: Script, now: Time)
    requires Complete(gw)
    requires WellFormed(store)
    ensures WellFormed(HandleEvent(ev, admin, store, gw, now).store)
  {
    StoreChangesOnlyByClose(ev, admin, store, gw, now);
    var r := HandleEvent(ev, admin, store, gw, now);
    if r.store != store {
      var text :| AdminText(ev, admin, text) && Contains(text, CloseKeyword) && Truthy(CloseTarget(text, store))
        && r.store == CompleteId(store, CloseTarget(text, store).value, now);
      CompleteIdKeepsWellFormed(store, CloseTarget(text, store).value, now);
    }
  }

  /**
   * Target selection: an explicit `#<digits>` is the target and there is
   * no fallback; without one the target is the newest pending report.
   */
  lemma CloseTargetChoice(text: string, store: Store)
    ensures HashNumber(text).Some? ==> CloseTarget(text, store) == Some(HashNumber(text).value)
    ensures HashNumber(text).None? && CloseTarget(text, store).Some? ==>
      exists k ::
        && 0 <= k < |store|
        && store[k].status == Pending
        && (forall m :: k < m < |store| ==> store[m].status != Pending)
        && CloseTarget(text, store) == Some(store[k].reportId)
    ensures HashNumber(text).None? ==>
      (CloseTarget(text, store).None? <==> forall k :: 0 <= k < |store| ==> store[k].status != Pending)
  {
    if HashNumber(text).None? && LatestPending(store).Some? {
      var k := LatestPending(store).value;
      assert store[k].status == Pending;
    }
  }

  /**
   * No target (no `#<digits>` and nothing pending, or the id 0): one "no
   * pending report" reply, nothing else, ledger untouched.
   */
  lemma CloseWithoutTarget(ev: Event, admin: Option<UserId>, text: string, store: Store, gw: Script, now: Time)
    requires Complete(gw)
    requires AdminText(ev, admin, text) && Contains(text, CloseKeyword)
    requires !Truthy(CloseTarget(text, store))
    ensures HandleEvent(ev, admin, store, gw, now) == Outcome(store, [Reply(ev.replyToken, NoPending, gw.replyOk)])
  {
  }

  /** "#0" names no report: the close is answered as if there were nothing pending. */
  lemma CloseOfZeroIsNoTarget(token: ReplyToken, sender: Option<UserId>, admin: Option<UserId>, store: Store, gw: Script, now: Time)
    requires Complete(gw)
    requires !Outsider(admin, sender)
    ensures var ev := MessageEvent(token, sender, TextMessage(CloseKeyword + " #0"));
      HandleEvent(ev, admin, store, gw, now) == Outcome(store, [Reply(token, NoPending, gw.replyOk)])
  {
    var text := CloseKeyword + " #0";
    TrimOfUnpadded(text);
    assert OccursAt(text, CloseKeyword, 0);
    assert Show(0) == "0";
    HashNumberOfShow(CloseKeyword + " ", 0, "");
    assert text == CloseKeyword + " " + "#" + Show(0) + "";
  }

  /**
   * The pending-only guard: a target with no pending row (unknown, or
   * already completed) gets the "not found or already closed" reply, with
   * no push and no ledger change.
   */
  lemma CloseOfNonPending(ev: Event, admin: Option<UserId>, text: string, store: Store, gw: Script, now: Time)
    requires Complete(gw)
    requires AdminText(ev, admin, text) && Contains(text, CloseKeyword)
    requires Truthy(CloseTarget(text, store))
    requires forall k :: 0 <= k < |store| ==> !PendingWithId(store[k], CloseTarget(text, store).value)
    ensures HandleEvent(ev, admin, store, gw, now) == Outcome(store, [Reply(ev.replyToken, NotFoundOrClosed, gw.replyOk)])
  {
  }

  /**
   * Closing the same explicit id twice completes it once: the second
   * command finds nothing pending under that id, changes nothing and
   * notifies nobody.
   */
  lemma CloseTwiceCompletesOnce(ev: Event, admin: Option<UserId>, text: string, store: Store, gw1: Script, gw2: Script, t1: Time, t2: Time)
    requires Complete(gw1) && Complete(gw2)
    requires AdminText(ev, admin, text) && Contains(text, CloseKeyword)
    requires HashNumber(text).Some?
    ensures var first := HandleEvent(ev, admin, store, gw1, t1);
      HandleEvent(ev, admin, first.store, gw2, t2) == Outcome(first.store, [Reply(ev.replyToken, NotFoundOrClosed, gw2.replyOk)])
        || (HashNumber(text) == Some(0) && first == Outcome(store, [Reply(ev.replyToken, NoPending, gw1.replyOk)]))
  {
    var n := HashNumber(text).value;
    var first := HandleEvent(ev, admin, store, gw1, t1);
    if n != 0 {
      assert CloseTarget(text, store) == Some(n) && CloseTarget(text, first.store) == Some(n);
      if FindPending(store, n).Some? {
        assert first.store == CompleteId(store, n, t1);
        CompleteIdEffect(store, n, t1);
      }
      assert FindPending(first.store, n).None?;
    }
  }

  /**
   * A close whose target has a pending row applies the completion update
   * for that id, whatever happens to the messages that follow.
   */
  lemma CloseUpdatesLedger(ev: Event, admin: Option<UserId>, text: string, store: Store, gw: Script, now: Time)
    requires Complete(gw)
    requires AdminText(ev, admin, text) && Contains(text, CloseKeyword)
    requires Truthy(CloseTarget(text, store))
    requires FindPending(store, CloseTarget(text, store).value).Some?
    ensures HandleEvent(ev, admin, store, gw, now).store == CompleteId(store, CloseTarget(text, store).value, now)
  {
  }

  /** An admin's text goes to the admin commands after trimming. */
  lemma AdminDispatch(ev: Event, admin: Option<UserId>, text: string, store: Store, gw: Script, now: Time)
    requires Complete(gw)
    requires AdminText(ev, admin, text)
    ensures HandleEvent(ev, admin, store, gw, now) == AdminCommand(text, ev.replyToken, admin, store, gw, now)
  {
  }

  /** `Close` on a target with a pending row, when the confirmation reply goes through. */
  lemma CloseFound(text: string, token: ReplyToken, admin: Option<UserId>, store: Store, gw: Script, now: Time)
    requires Complete(gw) && gw.replyOk
    requires Truthy(CloseTarget(text, store))
    requires FindPending(store, CloseTarget(text, store).value).Some?
    ensures var id := CloseTarget(text, store).value;
      var row := store[FindPending(store, id).value];
      var run := Retry.SendPushWithRetry(row.userId, Resolved(row.pointId), gw.reporter, Retry.DefaultMaxRetries);
      var c := Close(text, token, admin, store, gw, now);
      && c.store == CompleteId(store, id, now)
      && c.actions == [Reply(token, Confirmed(row.displayName, row.pointId, id), true)] + run.trace
           + (if run.delivery.Undelivered? && AdminConfigured(admin) then [Push(admin.value, UndeliveredAlert(id), gw.alertOk)] else [])
  {
  }

  /**
   * A successful completion: the ledger gets the completion update; the
   * admin's confirmation names the reporter, point and id of the first
   * pending row with that id; the reporter gets the retried completion
   * notice (at most two pushes, all to the reporter); and exactly one
   * extra single-attempt alert goes to the admin when both attempts were
   * rejected and an admin is configured.
   */
  lemma CloseCompletes(ev: Event, admin: Option<UserId>, text: string, store: Store, gw: Script, now: Time)
    requires Complete(gw)
    requires AdminText(ev, admin, text) && Contains(text, CloseKeyword)
    requires Truthy(CloseTarget(text, store))
    requires FindPending(store, CloseTarget(text, store).value).Some?
    requires gw.replyOk
    ensures var id := CloseTarget(text, store).value;
      var row := store[FindPending(store, id).value];
      var notice := Retry.SendPushWithRetry(row.userId, Resolved(row.pointId), gw.reporter, Retry.DefaultMaxRetries).trace;
      var failed := !gw.reporter[0].push.Sent? && !gw.reporter[1].push.Sent?;
      var r := HandleEvent(ev, admin, store, gw, now);
      && r.store == CompleteId(store, id, now)
      && PushCount(notice) <= 2
      && (forall j :: 0 <= j < |notice| && notice[j].Push? ==> notice[j].to == row.userId && notice[j].body == Resolved(row.pointId))
      && r.actions == [Reply(ev.replyToken, Confirmed(row.displayName, row.pointId, id), true)] + notice
           + (if failed && AdminConfigured(admin) then [Push(admin.value, UndeliveredAlert(id), gw.alertOk)] else [])
  {
    var id := CloseTarget(text, store).value;
    var row := store[FindPending(store, id).value];
    var run := Retry.SendPushWithRetry(row.userId, Resolved(row.pointId), gw.reporter, Retry.DefaultMaxRetries);
    Retry.PushesPerRun(row.userId, Resolved(row.pointId), gw.reporter, Retry.DefaultMaxRetries);
    Retry.RunRecipients(row.userId, Resolved(row.pointId), gw.reporter, Retry.DefaultMaxRetries);
    FallThroughIsSilent(text, ev.replyToken, CompleteId(store, id, now), gw);
    assert run.delivery.Undelivered? <==> !gw.reporter[0].push.Sent? && !gw.reporter[1].push.Sent?;
    CloseFound(text, ev.replyToken, admin, store, gw, now);
    AdminDispatch(ev, admin, text, store, gw, now);
    var c := Close(text, ev.replyToken, admin, store, gw, now);
    assert c.actions + [] == c.actions;
    assert AdminCommand(text, ev.replyToken, admin, store, gw, now) == Outcome(c.store, c.actions);
  }

  /** Every push in `acts` goes to `user` or to the configured `admin`. */
  ghost predicate PushesOnlyTo<M>(acts: seq<Action<M>>, user: UserId, admin: Option<UserId>)
  {
    forall j :: 0 <= j < |acts| && acts[j].Push? ==> acts[j].to == user || (admin.Some? && acts[j].to == admin.value)
  }

  lemma PushesOnlyToConcat<M>(a: seq<Action<M>>, b: seq<Action<M>>, user: UserId, admin: Option<UserId>)
    requires PushesOnlyTo(a, user, admin) && PushesOnlyTo(b, user, admin)
    ensures PushesOnlyTo(a + b, user, admin)
  {
    forall j | 0 <= j < |a + b| && (a + b)[j].Push?
      ensures (a + b)[j].to == user || (admin.Some? && (a + b)[j].to == admin.value)
    {
      if j >= |a| {
        assert (a + b)[j] == b[j - |a|];
      }
    }
  }

  /**
   * A close pushes only to the reporter of the first pending row with the
   * targeted id and to the admin.
   */
  lemma ClosePushRecipients(ev: Event, admin: Option<UserId>, text: string, store: Store, gw: Script, now: Time)
    requires Complete(gw)
    requires AdminText(ev, admin, text) && Contains(text, CloseKeyword)
    requires Truthy(CloseTarget(text, store))
    requires FindPending(store, CloseTarget(text, store).value).Some?
    ensures var row := store[FindPending(store, CloseTarget(text, store).value).value];
      var r := HandleEvent(ev, admin, store, gw, now);
      forall j :: 0 <= j < |r.actions| && r.actions[j].Push? ==>
        r.actions[j].to == row.userId || (admin.Some? && r.actions[j].to == admin.value)
  {
    if gw.replyOk {
      CloseCompletes(ev, admin, text, store, gw, now);
      var id := CloseTarget(text, store).value;
      var row := store[FindPending(store, id).value];
      var notice := Retry.SendPushWithRetry(row.userId, Resolved(row.pointId), gw.reporter, Retry.DefaultMaxRetries).trace;
      var r := HandleEvent(ev, admin, store, gw, now);
      var failed := !gw.reporter[0].push.Sent? && !gw.reporter[1].push.Sent?;
      var head := [Reply(ev.replyToken, Confirmed(row.displayName, row.pointId, id), true)];
      var alert := if failed && AdminConfigured(admin) then [Push(admin.value, UndeliveredAlert(id), gw.alertOk)] else [];
      assert r.actions == head + notice + alert;
      assert PushesOnlyTo(head, row.userId, admin);
      assert PushesOnlyTo(notice, row.userId, admin);
      assert PushesOnlyTo(alert, row.userId, admin);
      PushesOnlyToConcat(head, notice, row.userId, admin);
      PushesOnlyToConcat(head + notice, alert, row.userId, admin);
    }
  }

  /**
   * A close that finds a pending row confirms to the admin first and then
   * pushes the completion notice to that row's reporter.
   */
  lemma CloseNotifiesReporter(ev: Event, admin: Option<UserId>, text: string, store: Store, gw: Script, now: Time)
    requires Complete(gw) && gw.replyOk
    requires AdminText(ev, admin, text) && Contains(text, CloseKeyword)
    requires Truthy(CloseTarget(text, store))
    requires FindPending(store, CloseTarget(text, store).value).Some?
    ensures var id := CloseTarget(text, store).value;
      var row := store[FindPending(store, id).value];
      var r := HandleEvent(ev, admin, store, gw, now);
      && |r.actions| >= 3
      && r.actions[0] == Reply(ev.replyToken, Confirmed(row.displayName, row.pointId, id), true)
      && r.actions[2] == Push(row.userId, Resolved(row.pointId), gw.reporter[0].push.Sent?)
  {
    var id := CloseTarget(text, store).value;
    var row := store[FindPending(store, id).value];
    CloseCompletes(ev, admin, text, store, gw, now);
    var run := Retry.SendPushWithRetry(row.userId, Resolved(row.pointId), gw.reporter, Retry.DefaultMaxRetries);
    assert run.trace[1] == Retry.Slot(row.userId, Resolved(row.pointId), gw.reporter, 0, 1);
  }

  /**
   * A close without an explicit id completes the newest pending report
   * when it is also the first pending row with its id, and confirms that
   * report to the admin.
   */
  lemma CloseLatest(ev: Event, admin: Option<UserId>, text: string, store: Store, gw: Script, now: Time, k: nat)
    requires Complete(gw) && gw.replyOk
    requires AdminText(ev, admin, text) && Contains(text, CloseKeyword) && HashNumber(text).None?
    requires LatestPending(store) == Some(k) && store[k].reportId != 0
    requires FindPending(store, store[k].reportId) == Some(k)
    ensures var r := HandleEvent(ev, admin, store, gw, now);
      && |r.store| == |store|
      && r.store[k].status == Completed && r.store[k].completedAt == Some(now)
      && |r.actions| >= 1
      && r.actions[0] == Reply(ev.replyToken, Confirmed(store[k].displayName, store[k].pointId, store[k].reportId), true)
  {
    assert CloseTarget(text, store) == Some(store[k].reportId);
    CloseUpdatesLedger(ev, admin, text, store, gw, now);
    CloseNotifiesReporter(ev, admin, text, store, gw, now);
  }

  /**
   * Two closes of one id whose lookups both ran before either update
   * (events of one batch are handled concurrently) both pass the pending
   * guard: each confirms to the admin and each pushes the completion notice
   * to the same reporter, so the reporter is notified twice. Both
   * evaluations start from the same ledger to stand for that interleaving;
   * handled one after the other, the second close finds nothing (see
   * `CloseTwiceCompletesOnce`).
   */
  lemma RacingClosesNotifyTwice(ev1: Event, ev2: Event, admin: Option<UserId>, text1: string, text2: string, store: Store,
                                gw1: Script, gw2: Script, t1: Time, t2: Time)
    requires Complete(gw1) && Complete(gw2) && gw1.replyOk && gw2.replyOk
    requires AdminText(ev1, admin, text1) && Contains(text1, CloseKeyword)
    requires AdminText(ev2, admin, text2) && Contains(text2, CloseKeyword)
    requires CloseTarget(text1, store) == CloseTarget(text2, store)
    requires Truthy(CloseTarget(text1, store))
    requires FindPending(store, CloseTarget(text1, store).value).Some?
    ensures var row := store[FindPending(store, CloseTarget(text1, store).value).value];
      var r1 := HandleEvent(ev1, admin, store, gw1, t1);
      var r2 := HandleEvent(ev2, admin, store, gw2, t2);
      && |r1.actions| >= 3 && |r2.actions| >= 3
      && r1.actions[0].body.Confirmed? && r2.actions[0].body.Confirmed?
      && r1.actions[2] == Push(row.userId, Resolved(row.pointId), gw1.reporter[0].push.Sent?)
      && r2.actions[2] == Push(row.userId, Resolved(row.pointId), gw2.reporter[0].push.Sent?)
  {
    CloseNotifiesReporter(ev1, admin, text1, store, gw1, t1);
    CloseNotifiesReporter(ev2, admin, text2, store, gw2, t2);
  }

  /**
   * The ledger is completed before the admin is answered: if that reply is
   * refused, the report stays completed but its reporter is never told.
   */
  lemma RefusedConfirmationSkipsReporter(ev: Event, admin: Option<UserId>, text: string, store: Store, gw: Script, now: Time)
    requires Complete(gw)
    requires AdminText(ev, admin, text) && Contains(text, CloseKeyword)
    requires Truthy(CloseTarget(text, store))
    requires FindPending(store, CloseTarget(text, store).value).Some?
    requires !gw.replyOk
    ensures var r := HandleEvent(ev, admin, store, gw, now);
      && r.store == CompleteId(store, CloseTarget(text, store).value, now)
      && PushCount(r.actions) == 0
      && |r.actions| == 1 && r.actions[0].Reply? && r.actions[0].body.Confirmed?
  {
    var r := HandleEvent(ev, admin, store, gw, now);
    assert r.actions[..0] == [];
  }

  /**
   * The status query: one reply carrying the pending and total counts
   * (pending never exceeds total, and completed reports make up the rest)
   * and the newest `min(5, total)` reports, newest first.
   */
  lemma StatusReport(ev: Event, admin: Option<UserId>, text: string, store: Store, gw: Script, now: Time)
    requires Complete(gw)
    requires AdminText(ev, admin, text) && text in StatusKeywords
    ensures var r := HandleEvent(ev, admin, store, gw, now);
      && r.store == store
      && |r.actions| == 1
      && r.actions[0].Reply? && r.actions[0].token == ev.replyToken && r.actions[0].body.StatusBoard?
      && var board := r.actions[0].body;
         && board.total == |store|
         && board.pending <= board.total
         && board.pending + CompletedCount(store) == board.total
         && |board.recent| == (if |store| < 5 then |store| else 5)
         && forall j :: 0 <= j < |board.recent| ==> board.recent[j] == Summarize(store[|store| - 1 - j])
  {
    if Contains(text, CloseKeyword) {
      KeywordsDisjoint(text);
    }
    CountsPartitionTotal(store);
  }

  /** The help command: one reply with the command reference, nothing else. */
  lemma HelpReply(ev: Event, admin: Option<UserId>, text: string, store: Store, gw: Script, now: Time)
    requires Complete(gw)
    requires AdminText(ev, admin, text) && text in HelpKeywords
    ensures HandleEvent(ev, admin, store, gw, now) == Outcome(store, [Reply(ev.replyToken, HelpText, gw.replyOk)])
  {
    if Contains(text, CloseKeyword) {
      KeywordsDisjoint(text);
    }
  }
}
