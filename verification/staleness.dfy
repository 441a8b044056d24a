/**
 The TTL decision of the refresh cycle: compare the age of the last stored
 timestamp against the configured number of minutes.
 */
module Staleness {
  import opened Rows

  const SecondsPerMinute: int := 60

  /** `UpToDate(last)` when the stored data may be served as is. */
  datatype Freshness = UpToDate(last: int) | Stale

  /** The decision as the source writes it: with no stored entry, the last
      date is replaced by the synthetic date `now - (deltaMins + 1)` minutes;
      the data is stale when its age is strictly greater than `deltaMins`
      minutes. Times are whole seconds. */
  function Decide(last: Option<int>, now: int, deltaMins: int): (r: Freshness)
    ensures r.Stale? <==> last.None? || now - last.value > deltaMins * SecondsPerMinute
    ensures r.UpToDate? ==> last == Some(r.last)
  {
    var lastDate := match last
      case Some(d) => d
      case None => now - (deltaMins + 1) * SecondsPerMinute;
    if now - lastDate > deltaMins * SecondsPerMinute then Stale else UpToDate(lastDate)
  }

  /** The boundary is inclusive: data exactly `deltaMins` minutes old is
      fresh, one second older is stale. */
  lemma TtlBoundary(d: int, deltaMins: int)
    ensures Decide(Some(d), d + deltaMins * SecondsPerMinute, deltaMins) == UpToDate(d)
    ensures Decide(Some(d), d + deltaMins * SecondsPerMinute + 1, deltaMins) == Stale
  {
  }

  /** A TTL of 10 minutes: 9 and 10 minutes old are fresh, 11 minutes old is
      stale, and an empty history is stale. */
  lemma TtlExample(now: int)
    ensures Decide(Some(now - 9 * 60), now, 10).UpToDate?
    ensures Decide(Some(now - 10 * 60), now, 10).UpToDate?
    ensures Decide(Some(now - 11 * 60), now, 10) == Stale
    ensures Decide(None, now, 10) == Stale
  {
  }
}
