/**
 * `handleEvent`: one inbound event of the messaging gateway turned into the
 * calls the bot makes and the new state of the report ledger.
 */
module Bot {
  import opened Wrappers
  import opened Gateway
  import opened Ledger
  import opened Text
  import opened Messages
  import Retry

  datatype Content = TextMessage(text: string) | NonText

  datatype Event =
    | MessageEvent(replyToken: ReplyToken, sender: Option<UserId>, content: Content)
    | FollowEvent(replyToken: ReplyToken)
    // every event type other than `message` and `follow`
    | OtherEvent

  /**
   * The gateway's scripted answers for one event: whether the reply is
   * accepted, the attempts of the retried push to the reporter, and
   * whether the single alert push to the admin is accepted.
   */
  datatype Script = Script(replyOk: bool, reporter: seq<Attempt>, alertOk: bool)

  /** A script long enough for every call the handler can make. */
  predicate Complete(gw: Script)
  {
    |gw.reporter| > Retry.DefaultMaxRetries
  }

  datatype Outcome = Outcome(store: Store, actions: seq<Action<Message>>)

  const CloseKeyword: string := "เรียบร้อย"
  const StatusKeywords: seq<string> := ["รายงาน", "status"]
  const HelpKeywords: seq<string> := ["help", "ช่วยเหลือ"]

  /** `ADMIN_USER_ID` is set to a non-empty string (JavaScript truthiness). */
  predicate AdminConfigured(admin: Option<UserId>)
  {
    admin.Some? && admin.value != ""
  }

  /** The sender is refused admin commands: an admin is configured and it is someone else. */
  predicate Outsider(admin: Option<UserId>, sender: Option<UserId>)
  {
    AdminConfigured(admin) && sender != Some(admin.value)
  }

  /**
   * The id a close command aims at, before the `if (reportId)` test: the
   * first `#<digits>` in the text, else the id of the newest pending report.
   */
  function CloseTarget(text: string, store: Store): (r: Option<int>)
    // an explicit id is taken as is; only its absence falls back to the ledger
    ensures HashNumber(text).Some? ==> r == Some(HashNumber(text).value)
    ensures HashNumber(text).None? ==> (r.None? <==> forall k :: 0 <= k < |store| ==> store[k].status != Pending)
  {
    match HashNumber(text)
    case Some(n) => Some(n)
    case None =>
      match LatestPending(store)
      case Some(k) => Some(store[k].reportId)
      case None => None
  }

  /** `if (reportId)`: a missing id and the id 0 both count as "no id". */
  predicate Truthy(target: Option<int>)
  {
    target.Some? && target.value != 0
  }

  /** The status and help commands (store untouched): exact, case-sensitive keywords. */
  function Commands(text: string, token: ReplyToken, store: Store, gw: Script): (r: seq<Action<Message>>)
    ensures |r| <= 1
    ensures r == [] <==> text !in StatusKeywords && text !in HelpKeywords
    ensures |r| == 1 ==> r[0].Reply? && r[0].token == token && r[0].ok == gw.replyOk
  {
    if text in StatusKeywords then
      [Reply(token, StatusBoard(PendingCount(store), |store|, SummarizeAll(Recent(store, 5))), gw.replyOk)]
    else if text in HelpKeywords then
      [Reply(token, HelpText, gw.replyOk)]
    else []
  }

  /**
   * The close branch. `proceeds` is false when the branch returns or throws,
   * so that control does not reach the status and help checks.
   */
  datatype CloseResult = CloseResult(store: Store, actions: seq<Action<Message>>, proceeds: bool)

  function Close(text: string, token: ReplyToken, admin: Option<UserId>, store: Store, gw: Script, now: Time): (r: CloseResult)
    requires Complete(gw)
    // the ledger changes only by completing a target that has a pending row
    ensures r.store == store
      || (&& Truthy(CloseTarget(text, store))
          && FindPending(store, CloseTarget(text, store).value).Some?
          && r.store == CompleteId(store, CloseTarget(text, store).value, now))
    // the first call is always one reply to the admin
    ensures |r.actions| >= 1 && r.actions[0].Reply? && r.actions[0].token == token
  {
    var target := CloseTarget(text, store);
    if !Truthy(target) then
      CloseResult(store, [Reply(token, NoPending, gw.replyOk)], false)
    else
      var id := target.value;
      match FindPending(store, id)
      case None => CloseResult(store, [Reply(token, NotFoundOrClosed, gw.replyOk)], false)
      case Some(k) =>
        var row := store[k];
        var updated := CompleteId(store, id, now);
        var confirm := Reply(token, Confirmed(row.displayName, row.pointId, id), gw.replyOk);
        if !gw.replyOk then
          // the awaited reply throws; the handler's catch ends the event
          CloseResult(updated, [confirm], false)
        else
          var run := Retry.SendPushWithRetry(row.userId, Resolved(row.pointId), gw.reporter, Retry.DefaultMaxRetries);
          if !run.delivery.Undelivered? then
            CloseResult(updated, [confirm] + run.trace, true)
          else if AdminConfigured(admin) then
            CloseResult(updated, [confirm] + run.trace + [Push(admin.value, UndeliveredAlert(id), gw.alertOk)], gw.alertOk)
          else
            CloseResult(updated, [confirm] + run.trace, true)
  }

  /** A text message from someone allowed to give admin commands. */
  function AdminCommand(text: string, token: ReplyToken, admin: Option<UserId>, store: Store, gw: Script, now: Time): (r: Outcome)
    requires Complete(gw)
    ensures !Contains(text, CloseKeyword) ==> r.store == store && |r.actions| <= 1
  {
    if Contains(text, CloseKeyword) then
      var c := Close(text, token, admin, store, gw, now);
      if c.proceeds then Outcome(c.store, c.actions + Commands(text, token, c.store, gw))
      else Outcome(c.store, c.actions)
    else Outcome(store, Commands(text, token, store, gw))
  }

  /** `handleEvent(event)`. */
  function HandleEvent(ev: Event, admin: Option<UserId>, store: Store, gw: Script, now: Time): (r: Outcome)
    requires Complete(gw)
    ensures |r.store| == |store|
    ensures !ev.MessageEvent? ==> r.store == store && |r.actions| <= 1
  {
    match ev
    case OtherEvent => Outcome(store, [])
    case FollowEvent(token) => Outcome(store, [Reply(token, Greeting, gw.replyOk)])
    case MessageEvent(token, sender, content) =>
      match content
      case NonText => Outcome(store, [])
      case TextMessage(raw) =>
        var text := Trim(raw);
        if Outsider(admin, sender) then
          if Lower(text) == "help" then Outcome(store, [Reply(token, StaffOnly, gw.replyOk)])
          else Outcome(store, [])
        else AdminCommand(text, token, admin, store, gw, now)
  }
}
