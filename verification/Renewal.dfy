/** How an extension turns a number of days into an absolute expiry. Times are in
    seconds; a profile stores a real expiry and clients read it truncated to seconds. */
module Renewal {
  import opened Wrappers

  const DAY := 86400.0
  const HALF_DAY := 43200.0
  const MAX_PLAIN_DAYS: int := 10000

  /** Python's `round`: to the nearest integer, halves to the even one. */
  function Round(x: real): int {
    var f := x.Floor;
    var rest := x - f as real;
    if rest < 0.5 || (rest == 0.5 && f % 2 == 0) then f else f + 1
  }

  lemma RoundIsNearest(x: real)
    ensures -0.5 <= Round(x) as real - x <= 0.5
  {
  }

  function Max(a: int, b: int): int { if a >= b then a else b }

  /** `_days_left`: the truncated expiry, seen at `now`. */
  function DaysLeft(expire: Option<int>, now: real): nat {
    match expire
    case None => 0
    case Some(e) => Max(0, Round((e as real - now) / DAY))
  }

  /** `_coerce_days`: a count above 10000 is taken for a Unix timestamp. */
  function CoerceDays(days: int, now: real): int {
    if days > MAX_PLAIN_DAYS then Max(1, Round((days as real - now) / DAY)) else days
  }

  /** The expiry that `apply_extend` writes: the profile is read at `readAt`, written at `writeAt`. */
  function ExtendedUntil(expire: int, days: int, readAt: real, writeAt: real): real {
    writeAt + DAY * CoerceDays(DaysLeft(Some(expire), readAt) + days, writeAt) as real
  }

  /** The promised expiry, up to the rounding of the remaining time to whole days. */
  predicate WithinHalfDay(expire: int, days: int, latency: real, until: real) {
    var promised := expire as real + DAY * days as real;
    promised - HALF_DAY <= until <= promised + HALF_DAY + latency
  }

  /** Extending a live profile never shortens it and misses the promised expiry by at most
      half a day (plus the time between reading and writing). */
  lemma ExtensionDrift(expire: int, days: nat, readAt: real, writeAt: real)
    requires days >= 1 && readAt <= writeAt && readAt <= expire as real
    requires DaysLeft(Some(expire), readAt) + days <= MAX_PLAIN_DAYS
    ensures var until := ExtendedUntil(expire, days, readAt, writeAt);
            WithinHalfDay(expire, days, writeAt - readAt, until) && until >= expire as real
  {
    RoundIsNearest((expire as real - readAt) / DAY);
  }

  /** For a request answered within a day, the 10000-day limit is exactly what the bound needs: past it the whole total
      is taken for a timestamp, and (for any clock later than `total` seconds after the epoch) the
      profile is left with a single day. */
  lemma DriftBoundIff(expire: int, days: nat, readAt: real, writeAt: real)
    requires days >= 1 && readAt <= writeAt <= readAt + DAY && readAt <= expire as real
    requires (DaysLeft(Some(expire), readAt) + days) as real <= writeAt
    ensures var until := ExtendedUntil(expire, days, readAt, writeAt);
            var total := DaysLeft(Some(expire), readAt) + days;
            && (WithinHalfDay(expire, days, writeAt - readAt, until) <==> total <= MAX_PLAIN_DAYS)
            && (total > MAX_PLAIN_DAYS ==> until == writeAt + DAY)
  {
    var total := DaysLeft(Some(expire), readAt) + days;
    if total <= MAX_PLAIN_DAYS {
      ExtensionDrift(expire, days, readAt, writeAt);
    } else {
      RoundIsNearest((total as real - writeAt) / DAY);
    }
  }

  /** Thirty more days on a profile with 9990 left: one day remains. */
  lemma LongExtensionCollapses(now: int)
    requires now >= 1_000_000_000
    ensures ExtendedUntil(now + 9990 * 86400, 30, now as real, now as real) == now as real + DAY
  {
    var expire := now + 9990 * 86400;
    assert (expire as real - now as real) / DAY == 9990.0;
    DriftBoundIff(expire, 30, now as real, now as real);
  }

  /** An expired profile starts again at the moment of writing. */
  lemma ExpiredStartsAfresh(expire: int, days: nat, readAt: real, writeAt: real)
    requires expire as real <= readAt && days <= MAX_PLAIN_DAYS
    ensures ExtendedUntil(expire, days, readAt, writeAt) == writeAt + DAY * days as real
  {
    RoundIsNearest((expire as real - readAt) / DAY);
  }

  // ---- many extensions of one profile ----

  datatype Extension = Extension(days: nat, readAt: real, writeAt: real)

  function Step(stored: real, e: Extension): real {
    ExtendedUntil(stored.Floor, e.days, e.readAt, e.writeAt)
  }

  function After(stored: real, es: seq<Extension>): real
    decreases es
  {
    if es == [] then stored else After(Step(stored, es[0]), es[1..])
  }

  /** Every extension finds the profile live and stays under the plain-day limit. */
  predicate AllLive(stored: real, es: seq<Extension>)
    decreases es
  {
    es == [] ||
    (&& es[0].days >= 1
     && es[0].readAt <= es[0].writeAt && es[0].readAt <= stored.Floor as real
     && DaysLeft(Some(stored.Floor), es[0].readAt) + es[0].days <= MAX_PLAIN_DAYS
     && AllLive(Step(stored, es[0]), es[1..]))
  }

  function TotalDays(es: seq<Extension>): nat {
    if es == [] then 0 else es[0].days + TotalDays(es[1..])
  }

  function TotalLatency(es: seq<Extension>): real {
    if es == [] then 0.0 else es[0].writeAt - es[0].readAt + TotalLatency(es[1..])
  }

  /** `n` extensions drift by at most `n` half-days; each read also truncates one second. */
  lemma {:induction false} RepeatedDrift(stored: real, es: seq<Extension>)
    requires AllLive(stored, es)
    decreases es
    ensures var promised := stored + DAY * TotalDays(es) as real;
            && After(stored, es) >= promised - |es| as real * (HALF_DAY + 1.0)
            && After(stored, es) <= promised + |es| as real * HALF_DAY + TotalLatency(es)
  {
    if es != [] {
      ExtensionDrift(stored.Floor, es[0].days, es[0].readAt, es[0].writeAt);
      RepeatedDrift(Step(stored, es[0]), es[1..]);
      assert |es| as real == |es[1..]| as real + 1.0;
    }
  }

  /** A retry that recomputes the remaining days after the first write took effect grants the
      days again; this is what the delivery marker has to prevent. */
  lemma RecomputedRetryGrantsTwice(expire: int, days: nat, now: real)
    requires days >= 1 && now <= expire as real
    requires 2 * days + DaysLeft(Some(expire), now) <= MAX_PLAIN_DAYS
    ensures var first := ExtendedUntil(expire, days, now, now);
            ExtendedUntil(first.Floor, days, now, now) >= first + DAY * days as real - HALF_DAY - 1.0
  {
    var left := DaysLeft(Some(expire), now);
    var first := ExtendedUntil(expire, days, now, now);
    ExtensionDrift(expire, days, now, now);
    RoundIsNearest((expire as real - now) / DAY);
    assert first == now + DAY * (left + days) as real;
    RoundIsNearest((first.Floor as real - now) / DAY);
    assert DaysLeft(Some(first.Floor), now) <= left + days;
    ExtensionDrift(first.Floor, days, now, now);
  }
}
