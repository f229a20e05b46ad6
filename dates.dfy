// DateUtils.getMinMaxDates: a possibly open range, normalised into an
// ordered pair with the missing ends at the extreme dates or instants.
module Dates {
  import opened Common

  /** The pair of `d1` and `d2` in ascending order, as the two conditional expressions build it. */
  function Ordered(d1: int, d2: int): (r: (int, int))
    ensures r.0 <= r.1
    ensures multiset{r.0, r.1} == multiset{d1, d2}
  {
    (if d1 < d2 then d1 else d2, if d1 > d2 then d1 else d2)
  }

  /** The LocalDate overload: dates are epoch days, a null `from` is LocalDate.MIN, a null `to` LocalDate.MAX. */
  function MinMaxDates(from: Option<int>, to: Option<int>): (r: (int, int))
    ensures r.0 <= r.1
    ensures multiset{r.0, r.1} == multiset{GetOrDefault(from, MinEpochDay), GetOrDefault(to, MaxEpochDay)}
  {
    var d1 := GetOrDefault(from, MinEpochDay);
    var d2 := GetOrDefault(to, MaxEpochDay);
    Ordered(d1, d2)
  }

  /** The OffsetDateTime overload: a null `from` is OffsetDateTime.MIN, a null `to` OffsetDateTime.MAX. */
  function MinMaxInstants(from: Option<int>, to: Option<int>): (r: (int, int))
    ensures r.0 <= r.1
    ensures multiset{r.0, r.1} == multiset{GetOrDefault(from, MinInstant), GetOrDefault(to, MaxInstant)}
  {
    var d1 := GetOrDefault(from, MinInstant);
    var d2 := GetOrDefault(to, MaxInstant);
    Ordered(d1, d2)
  }

  /** Ordering forgets which argument came first, and equal ends give (d, d). */
  lemma OrderedSymmetric(d1: int, d2: int)
    ensures Ordered(d1, d2) == Ordered(d2, d1)
    ensures d1 == d2 ==> Ordered(d1, d2) == (d1, d1)
    ensures d1 <= d2 ==> Ordered(d1, d2) == (d1, d2)
  {
  }

  /** An unset end takes the extreme value, which leaves an in-range other end where it is. */
  lemma MinMaxDefaults(d: int)
    ensures MinMaxDates(None, None) == (MinEpochDay, MaxEpochDay)
    ensures MinEpochDay <= d ==> MinMaxDates(None, Some(d)) == (MinEpochDay, d)
    ensures d <= MaxEpochDay ==> MinMaxDates(Some(d), None) == (d, MaxEpochDay)
    ensures MinMaxInstants(None, None) == (MinInstant, MaxInstant)
    ensures MinInstant <= d ==> MinMaxInstants(None, Some(d)) == (MinInstant, d)
    ensures d <= MaxInstant ==> MinMaxInstants(Some(d), None) == (d, MaxInstant)
  {
  }

  /** Swapping the two given ends gives the same range. */
  lemma MinMaxSwap(a: int, b: int)
    ensures MinMaxDates(Some(a), Some(b)) == MinMaxDates(Some(b), Some(a))
    ensures MinMaxInstants(Some(a), Some(b)) == MinMaxInstants(Some(b), Some(a))
  {
    OrderedSymmetric(a, b);
  }
}
