/**
 * The texts the bot sends, reduced to the fields each one carries; the
 * wording and the emoji are left out.
 */
module Messages {
  import opened Ledger

  datatype Message =
    | Greeting                                                      // welcome on follow
    | StaffOnly                                                     // "staff only" to outsiders
    | Confirmed(displayName: string, pointId: string, reportId: int) // close confirmation to the admin
    | Resolved(pointId: string)                                     // completion notice to the reporter
    | UndeliveredAlert(reportId: int)                               // reporter could not be reached
    | NotFoundOrClosed                                              // no pending report with that id
    | NoPending                                                     // nothing to close
    | StatusBoard(pending: nat, total: nat, recent: seq<Summary>)   // counts and the newest reports
    | HelpText                                                      // the command reference
    | NewReport(displayName: string, pointId: string, reportId: int) // alert to the admin on submission
    | Received(pointId: string)                                     // acknowledgement to the reporter
}
