/**
 * The `reports` table as a sequence of rows in insertion order; a row's
 * position stands in for its `created_at`, so "newest" means "last".
 * Nothing makes `reportId` unique.
 */
module Ledger {
  import opened Wrappers

  /** An abstract timestamp (the database's NOW()). */
  type Time = int

  datatype Status = Pending | Completed

  datatype Report = Report(
    reportId: int,
    userId: string,
    displayName: string,
    pointId: string,
    status: Status,
    completedAt: Option<Time>)

  type Store = seq<Report>

  /** `completed_at` is set exactly for completed reports. */
  ghost predicate WellFormed(store: Store)
  {
    forall k :: 0 <= k < |store| ==> (store[k].completedAt.Some? <==> store[k].status == Completed)
  }

  /** The row `INSERT INTO reports ... 'pending'` adds. */
  function PendingReport(reportId: int, userId: string, displayName: string, pointId: string): Report
  {
    Report(reportId, userId, displayName, pointId, Pending, None)
  }

  /**
   * `SELECT report_id FROM reports WHERE status = 'pending' ORDER BY
   * created_at DESC LIMIT 1`, as the position of that row.
   */
  function LatestPending(store: Store): (r: Option<nat>)
    ensures r.Some? ==>
      && r.value < |store|
      && store[r.value].status == Pending
      && forall m :: r.value < m < |store| ==> store[m].status != Pending
    ensures r.None? ==> forall k :: 0 <= k < |store| ==> store[k].status != Pending
  {
    if |store| == 0 then None
    else if store[|store| - 1].status == Pending then Some(|store| - 1)
    else LatestPending(store[..|store| - 1])
  }

  /** A row the guarded lookup accepts for `id`. */
  predicate PendingWithId(row: Report, id: int)
  {
    row.reportId == id && row.status == Pending
  }

  /**
   * `SELECT * FROM reports WHERE report_id = $1 AND status = 'pending'`,
   * taking the first row in insertion order.
   */
  function FindPending(store: Store, id: int): (r: Option<nat>)
    ensures r.Some? ==>
      && r.value < |store|
      && PendingWithId(store[r.value], id)
      && forall m :: 0 <= m < r.value ==> !PendingWithId(store[m], id)
    ensures r.None? ==> forall k :: 0 <= k < |store| ==> !PendingWithId(store[k], id)
  {
    if |store| == 0 then None
    else match FindPending(store[..|store| - 1], id)
      case Some(k) => Some(k)
      case None => if PendingWithId(store[|store| - 1], id) then Some(|store| - 1) else None
  }

  /** One row under `UPDATE ... SET status = 'completed', completed_at = now WHERE report_id = id`. */
  function CompleteRow(row: Report, id: int, now: Time): Report
  {
    if row.reportId == id then row.(status := Completed, completedAt := Some(now)) else row
  }

  /** The whole update: it filters on `report_id` only, not on status. */
  function CompleteId(store: Store, id: int, now: Time): (r: Store)
    ensures |r| == |store|
  {
    seq(|store|, k requires 0 <= k < |store| => CompleteRow(store[k], id, now))
  }

  /** The update keeps `completed_at` set exactly on completed rows. */
  lemma CompleteIdKeepsWellFormed(store: Store, id: int, now: Time)
    requires WellFormed(store)
    ensures WellFormed(CompleteId(store, id, now))
  {
  }

  /**
   * After the update no row with `id` is pending, every row with another
   * id is untouched, and rows are neither added nor reordered.
   */
  lemma CompleteIdEffect(store: Store, id: int, now: Time)
    ensures var r := CompleteId(store, id, now);
      && |r| == |store|
      && (forall k :: 0 <= k < |r| ==> !PendingWithId(r[k], id))
      && (forall k :: 0 <= k < |r| && store[k].reportId == id ==> r[k].status == Completed && r[k].completedAt == Some(now))
      && (forall k :: 0 <= k < |r| && store[k].reportId != id ==> r[k] == store[k])
      && (forall k :: 0 <= k < |r| ==> r[k].(status := store[k].status, completedAt := store[k].completedAt) == store[k])
  {
  }

  /** `COUNT(CASE WHEN status = 'pending' THEN 1 END)`. */
  function PendingCount(store: Store): (n: nat)
    ensures n <= |store|
  {
    if |store| == 0 then 0
    else PendingCount(store[..|store| - 1]) + (if store[|store| - 1].status == Pending then 1 else 0)
  }

  /** The completed rows, counted the same way. */
  function CompletedCount(store: Store): (n: nat)
    ensures n <= |store|
  {
    if |store| == 0 then 0
    else CompletedCount(store[..|store| - 1]) + (if store[|store| - 1].status == Completed then 1 else 0)
  }

  /** No report is counted pending exactly when no row has that status. */
  lemma {:induction false} PendingCountZero(store: Store)
    ensures PendingCount(store) == 0 <==> forall k :: 0 <= k < |store| ==> store[k].status != Pending
  {
    if |store| > 0 {
      PendingCountZero(store[..|store| - 1]);
    }
  }

  /** The same for completed reports. */
  lemma {:induction false} CompletedCountZero(store: Store)
    ensures CompletedCount(store) == 0 <==> forall k :: 0 <= k < |store| ==> store[k].status != Completed
  {
    if |store| > 0 {
      CompletedCountZero(store[..|store| - 1]);
    }
  }

  /** Every report is pending or completed: the two counts make up the total. */
  lemma {:induction false} CountsPartitionTotal(store: Store)
    ensures PendingCount(store) + CompletedCount(store) == |store|
    ensures PendingCount(store) <= |store|
  {
    if |store| > 0 {
      CountsPartitionTotal(store[..|store| - 1]);
    }
  }

  lemma {:induction false} PendingCountAppend(a: Store, b: Store)
    ensures PendingCount(a + b) == PendingCount(a) + PendingCount(b)
    decreases |b|
  {
    if |b| == 0 {
      assert a + b == a;
    } else {
      assert (a + b)[..|a + b| - 1] == a + b[..|b| - 1];
      PendingCountAppend(a, b[..|b| - 1]);
    }
  }

  /**
   * Completing a report with a pending row strictly lowers the pending
   * count; otherwise the update changes no status at all.
   */
  lemma {:induction false} CompleteIdLowersPending(store: Store, id: int, now: Time)
    ensures PendingCount(CompleteId(store, id, now)) <= PendingCount(store)
    ensures FindPending(store, id).Some? ==> PendingCount(CompleteId(store, id, now)) < PendingCount(store)
    ensures FindPending(store, id).None? ==> PendingCount(CompleteId(store, id, now)) == PendingCount(store)
    decreases |store|
  {
    if |store| > 0 {
      var front := store[..|store| - 1];
      CompleteIdLowersPending(front, id, now);
      var r := CompleteId(store, id, now);
      var last := store[|store| - 1];
      assert r[..|r| - 1] == CompleteId(front, id, now);
      assert PendingCount(r) == PendingCount(CompleteId(front, id, now)) + (if r[|r| - 1].status == Pending then 1 else 0);
      if PendingWithId(last, id) {
        assert r[|r| - 1].status == Completed;
        assert PendingCount(store) == PendingCount(front) + 1;
      } else {
        assert r[|r| - 1].status == last.status;
        assert FindPending(store, id) == FindPending(front, id);
      }
    }
  }

  /**
   * `ORDER BY created_at DESC LIMIT n`: the newest `n` rows (or all of
   * them), newest first.
   */
  function Recent(store: Store, n: nat): (r: Store)
    ensures |r| == if n < |store| then n else |store|
    ensures forall j :: 0 <= j < |r| ==> r[j] == store[|store| - 1 - j]
  {
    if n == 0 || |store| == 0 then []
    else [store[|store| - 1]] + Recent(store[..|store| - 1], n - 1)
  }

  /** One line of the status board: id, point and a pending/completed marker. */
  datatype Summary = Summary(reportId: int, pointId: string, pending: bool)

  function Summarize(row: Report): Summary
  {
    Summary(row.reportId, row.pointId, row.status == Pending)
  }

  function SummarizeAll(rows: Store): (r: seq<Summary>)
    ensures |r| == |rows|
  {
    seq(|rows|, j requires 0 <= j < |rows| => Summarize(rows[j]))
  }
}
