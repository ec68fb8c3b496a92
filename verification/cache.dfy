/**
 * The offline queues of frontend/src/offline/cache.js: the three
 * queues of invoices, customers and payments waiting to be synced, the
 * health check on their length, the purge of old entries and the reset
 * after a sync. Persisting the queues is not part of this model.
 */
module OfflineQueues {
  const MaxQueueItems: nat := 1000

  datatype SyncTotals = SyncTotals(pending: int, synced: int, drafted: int)

  datatype Queues<T> = Queues(invoices: seq<T>, customers: seq<T>, payments: seq<T>, totals: SyncTotals)

  /** `queueHealthCheck`: some queue holds more than `limit` entries. */
  predicate QueueOverLimit<T>(q: Queues<T>, limit: nat)
  {
    |q.invoices| > limit || |q.customers| > limit || |q.payments| > limit
  }

  /** One queue with the oldest entries dropped so that at most `limit`
      remain; a queue within the limit is untouched. */
  function KeepNewest<T>(queue: seq<T>, limit: nat): (r: seq<T>)
    ensures |queue| <= limit ==> r == queue
    ensures |queue| > limit ==> |r| == limit
    ensures r == queue[|queue| - |r|..]
  {
    if |queue| > limit then queue[|queue| - limit..] else queue
  }

  /** `purgeOldQueueEntries`. */
  function PurgeOldQueueEntries<T>(q: Queues<T>, limit: nat): (r: Queues<T>)
    ensures !QueueOverLimit(r, limit)
    ensures r.invoices == KeepNewest(q.invoices, limit) && r.customers == KeepNewest(q.customers, limit)
            && r.payments == KeepNewest(q.payments, limit) && r.totals == q.totals
  {
    Queues(KeepNewest(q.invoices, limit), KeepNewest(q.customers, limit), KeepNewest(q.payments, limit), q.totals)
  }

  /** Purging is needed exactly when the health check fails: healthy
      queues are left as they are, and purging twice is purging once. */
  lemma PurgeOnlyWhenOverLimit<T>(q: Queues<T>, limit: nat)
    ensures !QueueOverLimit(q, limit) <==> PurgeOldQueueEntries(q, limit) == q
    ensures PurgeOldQueueEntries(PurgeOldQueueEntries(q, limit), limit) == PurgeOldQueueEntries(q, limit)
  {
    if PurgeOldQueueEntries(q, limit) == q {
      assert |q.invoices| <= limit && |q.customers| <= limit && |q.payments| <= limit;
    }
  }

  /** `resetOfflineState`: empty queues and zero totals. */
  function ResetOfflineState<T>(q: Queues<T>): (r: Queues<T>)
    ensures r.invoices == [] && r.customers == [] && r.payments == []
    ensures r.totals == SyncTotals(0, 0, 0)
    ensures !QueueOverLimit(r, 0)
  {
    Queues([], [], [], SyncTotals(0, 0, 0))
  }
}
