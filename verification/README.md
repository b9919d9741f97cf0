# Security-report bot: a Dafny model of its decision logic

The bot relays location-tagged incident reports between reporters and one
administrator over a chat messaging service. A reporter submits a report
through a web form (`/api/report`). The report is stored as `pending` and the
admin is alerted. Later the admin types a close command in the chat. The bot
then marks the report `completed`, confirms this to the admin and pushes a
completion notice to the reporter, retrying once.

This project models the three pieces of decision logic in `server.js` as pure
functions. The messaging gateway and the database are replaced by in-model
stand-ins:

- **Retry** models `sendPushMessageWithRetry`. It is a recursion over a
  scripted sequence of per-attempt outcomes (a profile probe, then a push). It
  returns how the run ended, how many attempts it made and the calls it made:
  probes, pushes and waits.
- **Bot** models `handleEvent`. It maps an event, the configured admin id, the
  report ledger, a gateway script and the current time to a new ledger plus
  the replies and pushes made. It covers event-type filtering, the greeting,
  admin gating, the close command with `#<digits>` extraction and fallback to
  the newest pending report, the pending-only guard, the reporter notice with
  its admin alert, the status board and help.
- **Submission** models the `/api/report` body. It validates the fields,
  inserts a pending report under a drawn id in 1000..9999, and records the
  notifications started in the background.

Supporting modules:

- `Ledger` is the `reports` table. It is a sequence of rows in insertion
  order; a row's position stands in for `created_at`, and `report_id` is not
  unique.
- `Text` covers `trim`, `toLowerCase`, `includes`, and the regular expression
  `#(\d+)` with `parseInt`.
- `Gateway` holds the recorded calls and the scripted outcomes.
- `Messages` holds the message bodies, reduced to the fields they carry.
- `Scenarios` puts submission and closing together.

Behaviour of the code worth knowing:

- Report ids are drawn without a uniqueness check.
- The completion `UPDATE` filters on `report_id` only. With a repeated id it
  also re-stamps `completed_at` on a report that was already completed
  (`Scenarios.CompletionRestampsDuplicate`). So "completed_at is set exactly
  once" holds only while ids are unique.
- Keyword matching is not uniformly case-folded:
  - the status and help keywords are matched exactly and case-sensitively for
    the admin;
  - only the outsiders' `help` check lower-cases the text;
  - an outsider's `help` gets a "staff only" reply, not the help text.
- When a close is aimed at `#0`, or the newest pending report has id 0, the
  admin gets the "no pending report" reply. This is the JavaScript truthiness
  test `if (reportId)`.
- The pending-only guard does not make completion happen once per report
  when closes race. The guard is a separate `SELECT` (server.js:133-136). The
  `UPDATE` that follows (server.js:140-141) has no status filter, and its row
  count is never read. The webhook answers before handling (server.js:83) and
  handles the events of one batch concurrently (server.js:87). So two closes
  of one id can both pass the guard, and the reporter is notified twice
  (`BotProperties.RacingClosesNotifyTwice`). `BotProperties.CloseTwiceCompletesOnce`
  covers only closes handled one after the other.

## Model

| member | source | states |
|---|---|---|
| Retry.SendPushWithRetry | server.js:45-75 | With a budget of zero or more, at least one and at most `maxRetries + 1` attempts, and the run always ends delivered or with an error raised; with a negative budget, no attempt. The run is delivered exactly when some allowed attempt's push is accepted, and then it stops at the first accepted one. If every attempt is rejected, all attempts were made and the last attempt's reason is raised. The trace is probe/push pairs separated by waits. |
| Retry.AttemptFrom | server.js:46-74 | The attempt loop from attempt `i` on makes at least one and at most `maxRetries + 1 - i` attempts, and always ends delivered or undelivered. Its trace layout is stated by `Retry.AttemptFromLayout`, and its ending by `Retry.AttemptFromOutcome`. |
| Retry.RunRecipients | server.js:51-57 | Every push of a run goes to the recipient and carries the message body. |
| Retry.AttemptFromLayout | server.js:46-72 | From attempt `i` on, the calls made are, for each attempt, a probe then a push. Consecutive attempts are separated by exactly one wait, and there are at most `maxRetries + 1 - i` attempts. |
| Retry.AttemptFromOutcome | server.js:56-72 | From attempt `i` on: delivered iff some later allowed push is accepted. Every attempt before the last one made was rejected. On exhaustion the reason is that of the attempt at index `maxRetries`. |
| Retry.PushesPerRun | server.js:46-59 | A run pushes exactly once per attempt, so at most `maxRetries + 1` times. Its last call is a push, never a wait. |
| Retry.AttemptFromPushCount | server.js:56-57 | Each attempt contributes exactly one push call. |
| Retry.ProbeIsAdvisory | server.js:49-57 | A failing profile probe never aborts an attempt. Two scripts that differ only in probe outcomes give the same ending and the same number of attempts. |
| Ledger.LatestPending | server.js:127-129 | Returns the position of the newest pending row, with no pending row after it. Returns nothing exactly when no row is pending. |
| Ledger.FindPending | server.js:133-137 | Returns the first pending row with the given id. Returns nothing exactly when no row with that id is pending. |
| Ledger.CompleteId | server.js:140-141 | The update keeps the number of rows. What it does to each row is stated by `Ledger.CompleteIdEffect`. |
| Ledger.PendingCount | server.js:176 | The pending count never exceeds the row count. `Ledger.PendingCountZero` states when it is zero, and `Ledger.CountsPartitionTotal` states how it adds up with the completed count. |
| Ledger.CompletedCount | server.js:176 | The completed count never exceeds the row count. `Ledger.CompletedCountZero` states when it is zero. |
| Ledger.PendingCountZero | server.js:176 | The pending count is zero exactly when no row is pending. |
| Ledger.CompletedCountZero | server.js:176 | The completed count is zero exactly when no row is completed. |
| Ledger.CompleteIdEffect | server.js:140-141 | After the update no row with the id is pending. Every row with the id, whatever its earlier status, is completed with `completed_at = now`. Rows with other ids are unchanged. Only status and `completed_at` of rows change, and the row count and order are kept. |
| Ledger.CompleteIdKeepsWellFormed | server.js:140-141 | The update keeps `completed_at` set exactly on completed rows. |
| Ledger.CompleteIdLowersPending | server.js:133-141 | The update never raises the pending count. It strictly lowers it when the id had a pending row, and leaves it unchanged otherwise. |
| Ledger.CountsPartitionTotal | server.js:176-178 | Pending plus completed equals total, so pending never exceeds total. |
| Ledger.Recent | server.js:181-182 | Returns `min(n, total)` rows, newest first: element `j` is the `j`-th row counting back from the newest. |
| Text.Trim | server.js:107 | `trim` never lengthens a text. A non-empty result starts and ends on a non-space character. The cut is stated by `Text.TrimBounds`. |
| Text.TrimIdempotent | server.js:107 | Trimming twice gives the same as trimming once. |
| Text.Lower | server.js:112 | `toLowerCase` keeps the length. `Text.LowerSpec` states what happens to each character. |
| Text.LowerSpec | server.js:112 | No ASCII capital survives lower-casing, and every other character is kept. |
| Text.LowerIsHelpIff | server.js:112 | A text lower-cases to `help` exactly when it is `help` in any mix of upper and lower case. |
| Text.Contains | server.js:119 | `includes` only finds a text no longer than the one searched, and always finds a prefix. |
| Text.HashNumber | server.js:121-124 | No number is found exactly when no `#` is directly followed by a digit. Which number is found is stated by `Text.HashNumberIsFirstMatch`. |
| Text.TrimBounds | server.js:107 | Everything `trim` cuts off is white space or a line terminator. What remains is empty, or starts and ends on a non-space character. |
| Text.TrimOfUnpadded | server.js:107 | Trimming leaves a text without surrounding white space unchanged. |
| Text.DigitRun | server.js:121 | `\d+` consumes the maximal run of ASCII digits: all of them, and stops at a non-digit or the end. |
| Text.Show | server.js:124 | The decimal form of an id is a non-empty digit string that `parseInt` reads back as the same id. |
| Text.HashNumberIsFirstMatch | server.js:121-124 | A number is found iff some `#` is directly followed by a digit. The number is the one captured at the leftmost such `#`. |
| Text.HashNumberOfShow | server.js:121-124 | `#` followed by an id's decimal form is read back as that id. This holds after any text without `#` and before any text not starting with a digit. |
| Text.HashNumberSkipsPrefix | server.js:121 | Text without `#` in front of the first match does not change the number found. |
| Bot.HandleEvent | server.js:94-208 | Handling an event never adds or removes reports. An event that is not a message changes nothing and makes at most one call. Its other properties are stated by the `BotProperties` lemmas below. |
| Bot.CloseTarget | server.js:120-130 | An explicit `#<digits>` is taken as is. Without one, there is no target exactly when no report is pending. |
| Bot.Close | server.js:119-171 | The ledger is either unchanged or completed for a target that has a pending row, and the first call is a reply to the admin. |
| Bot.AdminCommand | server.js:118-203 | A text without the close keyword leaves the ledger unchanged and is answered at most once. |
| Bot.Commands | server.js:175-203 | The status and help keywords are answered with exactly one reply, to the event's token. Any other text is not answered. |
| BotProperties.KeywordsDisjoint | server.js:119-198 | A text containing the close keyword is none of the status or help keywords. |
| BotProperties.FallThroughIsSilent | server.js:166-198 | The successful close branch does not return, but the status and help checks it falls through to add nothing. |
| BotProperties.EventFiltering | server.js:96-104 | Events other than message and follow, and non-text messages, produce no call and no ledger change. A follow produces exactly one greeting reply and no ledger change. |
| BotProperties.OutsiderGate | server.js:107-116 | With an admin configured and another sender, the ledger is unchanged. The only output is one "staff only" reply, sent exactly when the trimmed, lower-cased text is `help`. |
| BotProperties.HelpCaseSensitivity | server.js:111-116 | "HELP" from the admin gets no answer. From anyone else it gets the "staff only" reply. |
| BotProperties.StoreChangesOnlyByClose | server.js:119-141 | The ledger changes only through a close command whose target has a pending row, and then exactly by the completion update of that id. |
| BotProperties.HandleEventKeepsWellFormed | server.js:94-208 | Every event keeps `completed_at` set exactly on completed reports. |
| BotProperties.CloseTargetChoice | server.js:119-130 | An explicit `#<digits>` is the target, with no fallback. Without one the target is the newest pending report. There is no target exactly when nothing is pending. |
| BotProperties.CloseWithoutTarget | server.js:132-170 | With no target or the id 0, the only output is one "no pending report" reply, and the ledger is unchanged. |
| BotProperties.CloseOfZeroIsNoTarget | server.js:106-132 | The close keyword followed by `#0`, from the configured admin or from anyone when no admin is configured, is answered with "no pending report" and leaves the ledger unchanged. |
| BotProperties.CloseOfNonPending | server.js:133-167 | A target with no pending row (unknown or already completed) gets only the "not found or already closed" reply: no push and no ledger change. |
| BotProperties.CloseTwiceCompletesOnce | server.js:133-167 | Repeating a close with an explicit id finds nothing pending the second time. It changes nothing and notifies nobody. |
| BotProperties.CloseUpdatesLedger | server.js:136-141 | A close whose target has a pending row applies the completion update for that id, before any message is sent. |
| BotProperties.CloseCompletes | server.js:136-164 | After a successful completion, the admin's confirmation names the reporter, point and id. The reporter then gets the retried notice: at most two pushes, all to the reporter. Exactly one extra alert push goes to the admin when both attempts fail and an admin is configured. |
| BotProperties.ClosePushRecipients | server.js:136-164 | A close pushes only to the reporter of the first pending row with the targeted id, and to the admin. |
| BotProperties.AdminDispatch | server.js:106-116 | A text message from the admin, or from anyone when no admin is configured, goes to the admin commands with its text trimmed. |
| BotProperties.CloseFound | server.js:132-164 | A close whose target has a pending row, with the confirmation accepted, completes that id and makes exactly these calls: the confirmation, the retried notice, and the admin alert when the notice failed and an admin is configured. |
| BotProperties.CloseNotifiesReporter | server.js:136-154 | A close that finds a pending row replies the confirmation first and then pushes the completion notice to that row's reporter. |
| BotProperties.CloseLatest | server.js:125-154 | A close without an explicit id completes the newest pending report, when it is also the first pending row with its id, and confirms that report to the admin. |
| BotProperties.RacingClosesNotifyTwice | server.js:133-154 | Two closes of one id whose lookups both ran before either update both pass the guard. Each confirms to the admin and each pushes the completion notice to the same reporter. |
| BotProperties.RefusedConfirmationSkipsReporter | server.js:139-151 | If the confirmation reply is refused, the report stays completed but no push is made. |
| BotProperties.StatusReport | server.js:175-194 | One reply with `total` = the row count and `pending <= total`, with completed reports making up the rest. It lists `min(5, total)` reports, newest first. The ledger is unchanged. |
| BotProperties.HelpReply | server.js:198-202 | The admin's help keyword gets exactly one help reply, and the ledger is unchanged. |
| Submission.Submit | server.js:214-257 | Any missing or empty field gives 400, inserts nothing and starts nothing. An insert failure gives 500 with nothing inserted. Otherwise exactly one pending row is appended with an id in 1000..9999 and becomes the newest pending report. The admin alert is started exactly when an admin is configured, and the reporter acknowledgement always. |
| Submission.SubmitKeepsWellFormed | server.js:227-233 | A submission keeps `completed_at` set exactly on completed reports. |
| Submission.SubmitRaisesPending | server.js:227-233 | A successful submission raises the pending count by exactly one. Every other outcome leaves it unchanged. |
| Scenarios.FreshSubmissionIsFound | server.js:227-233 | A report submitted under an id no pending report has becomes both the newest pending report and the first pending row with that id. |
| Scenarios.CloseCommandParses | server.js:241 | The command suggested in the new-report alert is trimmed to itself, contains the close keyword, and is parsed back to the report's id. |
| Scenarios.SubmitThenCloseById | server.js:224-241 | A submission whose id no other pending report has is closed by the suggested command. It becomes completed, the confirmation names its reporter, point and id, and the first completion push goes to its reporter. |
| Scenarios.SubmitThenCloseLatest | server.js:126-129 | The bare close keyword completes the report just submitted. |
| Scenarios.SubmitThenCloseUntargeted | server.js:125-154 | Any admin text with the close keyword and no `#<digits>` completes the report just submitted, and the confirmation names it. |
| Scenarios.CollisionMisdirectsClose | server.js:224-233 | When an older pending report has the drawn id, closing that id completes both reports. The confirmation names the older report and no push reaches the new reporter. |
| Scenarios.CompletionRestampsDuplicate | server.js:140 | Closing an id re-stamps `completed_at` on an earlier completed report with the same id. |

## Left out

- Express routing, static files, the `/` and `/liff` routes and `app.listen` (server.js:30-35, 266-273): HTTP plumbing.
- The chat SDK client, the database pool and its connection test (server.js:9-28): foreign calls. They are replaced by scripted gateway outcomes and the in-model ledger.
- Database statement failures inside `handleEvent`: these are caught and logged by its outer `catch`. Every statement is assumed to succeed. The insert failure of `/api/report` is modelled as the 500 answer.
- The webhook's `Promise.all` fan-out over a batch (server.js:81-92): concurrent interleavings. Each event is modelled on its own. The one race stated is two closes of one id that both read the ledger before either update (`BotProperties.RacingClosesNotifyTwice`).
- The admin alert and the reporter acknowledgement started by `/api/report` (server.js:237-250): both are fire-and-forget. They are recorded as started notifications whose outcome is never observed.
- The random id draw (server.js:224): floating point. The id is a parameter constrained to 1000..9999.
- The 2-second `setTimeout` back-off (server.js:42, 67): recorded only as a `Wait` action.
- The time column of the status list (server.js:189): locale and time-zone formatting. A status line carries id, point and the pending marker.
- Message wording and console logging: messages are tagged variants carrying their fields.
- Environment loading: the admin id is an `Option` parameter. The empty string counts as not configured.
- Text.HashNumber: reads digit strings of any length exactly, whereas `parseInt` loses precision above 2^53. Ids in the ledger are unbounded integers.
- Text.Lower: lower-cases ASCII letters only. This is exact for the one comparison it serves (`=== 'help'`), since no other character lower-cases to `h`, `e`, `l` or `p`.
- Ledger.FindPending: the lookup has no `ORDER BY`. With a repeated id, SQL leaves the returned row unspecified; the model takes the first pending row in insertion order.
- Retry.SendPushWithRetry: requires the script to answer every attempt the budget allows. This is a requirement on the stand-in gateway, not on callers.
- The outcome of the replies that `handleEvent` returns without awaiting: they are recorded, but their failure changes nothing.
- Form fields that are JSON values other than strings: body fields are optional strings.
- The serial `id` column and `RETURNING id` of the insert: unused by the logic.
