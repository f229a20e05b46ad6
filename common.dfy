// Shared vocabulary of the trip manager model: identifiers, optional values,
// the exceptions the service raises, instants and dates, and the few
// sequence helpers (filtering, de-duplication, decimal text) that Java's
// streams and string conversions provide to the source.
module Common {

  /** A UUID; only equality matters, so any natural number will do. */
  type Uuid = nat

  newtype Byte = x: int | 0 <= x < 256

  datatype Option<T> = None | Some(value: T)

  /** `Optional.ofNullable(v).orElse(d)` */
  function GetOrDefault<T>(v: Option<T>, d: T): T
  {
    if v.Some? then v.value else d
  }

  /** `if (update.getX() != null) existing.setX(update.getX())`: the field after a non-null copy. */
  function Pick<T>(update: Option<T>, existing: Option<T>): Option<T>
  {
    if update.Some? then update else existing
  }

  /** The exceptions (and HTTP error answers) the service produces. */
  datatype Error =
    | NotFound(msg: string)          // EntityNotFoundException
    | BadRequest                     // ResponseEntity.badRequest()
    | IllegalState                   // IllegalStateException
    | IllegalArgument                // IllegalArgumentException
    | NullPointer                    // NullPointerException on an unboxed or dereferenced null
    | IndexOutOfBounds               // List.add(index, e) past the end
    | NoSuchElement                  // Iterator.next() past the end
    | UnsupportedOperation           // mutating an immutable list
    | CyclicGroups                   // CyclicGroupsException
    | AccessDenied                   // AccessDeniedException
    | AlreadyExists(msg: string)     // EntityAlreadyExistsException
    | InvalidTripRequest(msg: string) // InvalidTripRequestException
    | UserIdMissing                  // UserIdMissingException
    | DateTime                       // DateTimeException, e.g. ZoneOffset.ofHours out of range
    | IncorrectResultSize            // a single-result repository query matching several documents

  datatype Result<T> = Ok(value: T) | Err(error: Error)
  {
    predicate IsFailure() { Err? }
    function PropagateFailure<U>(): Result<U> requires Err? { Err(error) }
    function Extract(): T requires Ok? { value }
  }

  // ---------------------------------------------------------------------
  // Instants: an OffsetDateTime is its instant, in nanoseconds since
  // 1970-01-01T00:00Z.

  const NanosPerSecond: int := 1_000_000_000
  const NanosPerMinute: int := 60 * NanosPerSecond
  const NanosPerHour: int := 3600 * NanosPerSecond
  const NanosPerDay: int := 86400 * NanosPerSecond

  /** Epoch days of LocalDate.MIN (-999999999-01-01) and LocalDate.MAX (+999999999-12-31). */
  const MinEpochDay: int := -365243219162
  const MaxEpochDay: int := 365241780471

  /** OffsetDateTime.MIN is LocalDateTime.MIN at +18:00. */
  const MinInstant: int := (MinEpochDay * 86400 - 18 * 3600) * NanosPerSecond
  /** OffsetDateTime.MAX is LocalDateTime.MAX at -18:00. */
  const MaxInstant: int := (MaxEpochDay * 86400 + 86399 + 18 * 3600) * NanosPerSecond + 999_999_999
  /** OffsetDateTime.MAX.minusYears(1): year 999999999 has 365 days. */
  const MaxMinusOneYear: int := MaxInstant - 365 * NanosPerDay

  /** Java's `/` on longs: the quotient truncated toward zero. */
  function TruncDiv(a: int, b: int): (q: int)
    requires b > 0
    ensures q * b <= a < q * b + b || q * b - b < a <= q * b
    ensures (a >= 0 ==> q >= 0) && (a <= 0 ==> q <= 0)
  {
    if a >= 0 then
      DivBounds(a, b);
      a / b
    else
      DivBounds(-a, b);
      -((-a) / b)
  }

  lemma DivBounds(n: int, b: int)
    requires n >= 0 && b > 0
    ensures n / b >= 0 && (n / b) * b <= n < (n / b) * b + b
  {
    var q, r := n / b, n % b;
    assert n == q * b + r && 0 <= r < b;
  }

  /** ChronoUnit.HOURS.between(from, to): whole hours, truncated toward zero. */
  function HoursBetween(from: int, to: int): int
  {
    TruncDiv(to - from, NanosPerHour)
  }

  function Abs(x: int): nat
  {
    if x < 0 then -x else x
  }

  /** The whole-hour window of TripUtils: |HOURS.between| <= 2 exactly when the gap is under 3 hours. */
  lemma WithinTwoHours(from: int, to: int)
    ensures Abs(HoursBetween(from, to)) <= 2 <==> Abs(to - from) < 3 * NanosPerHour
  {
    var d := to - from;
    var h := NanosPerHour;
    if d >= 0 {
      assert HoursBetween(from, to) == d / h;
      if d < 3 * h {
        assert d / h <= 2;
      } else {
        assert d / h >= 3;
      }
    } else {
      assert HoursBetween(from, to) == -((-d) / h);
      if -d < 3 * h {
        assert (-d) / h <= 2;
      } else {
        assert (-d) / h >= 3;
      }
    }
  }

  /**
   * The calendar date of an instant seen at a fixed offset of `offsetHours`,
   * as an epoch day (`atZoneSameInstant(...).toLocalDate()` for a zone
   * without daylight saving).
   */
  function DateAt(t: int, offsetHours: int): int
  {
    (t + offsetHours * NanosPerHour) / NanosPerDay
  }

  lemma DateAtMonotone(t1: int, t2: int, offsetHours: int)
    requires t1 <= t2
    ensures DateAt(t1, offsetHours) <= DateAt(t2, offsetHours)
  {
  }

  /** OffsetDateTime.toEpochSecond(): floor of the instant in seconds. */
  function EpochSecond(t: int): int
  {
    t / NanosPerSecond
  }

  // ---------------------------------------------------------------------
  // Decimal text, as produced by Java's string concatenation of numbers.

  function DigitChar(d: nat): char
    requires d < 10
  {
    "0123456789"[d]
  }

  /** Long.toString / Integer.toString of a non-negative value. */
  function NatToString(n: nat): (s: string)
    ensures |s| >= 1
    decreases n
  {
    if n < 10 then [DigitChar(n)] else NatToString(n / 10) + [DigitChar(n % 10)]
  }

  function IntToString(i: int): string
  {
    if i < 0 then "-" + NatToString(-i) else NatToString(i)
  }

  function Pow10(k: nat): (p: nat)
    ensures p >= 1
  {
    if k == 0 then 1 else 10 * Pow10(k - 1)
  }

  /** A number of at least 10^k has more than k digits. */
  lemma {:induction false} NatToStringLength(n: nat, k: nat)
    requires n >= Pow10(k)
    ensures |NatToString(n)| > k
  {
    if k > 0 {
      assert n >= 10;
      assert n / 10 >= Pow10(k - 1);
      NatToStringLength(n / 10, k - 1);
    }
  }

  // ---------------------------------------------------------------------
  // Sequence helpers standing in for stream operations.

  /** `Stream.distinct()`: keeps the first occurrence of each value, in order. */
  function Distinct<T(==)>(s: seq<T>): (r: seq<T>)
  {
    DistinctAfter(s, {})
  }

  function DistinctAfter<T(==)>(s: seq<T>, seen: set<T>): (r: seq<T>)
    decreases |s|
  {
    if s == [] then []
    else if s[0] in seen then DistinctAfter(s[1..], seen)
    else [s[0]] + DistinctAfter(s[1..], seen + {s[0]})
  }

  predicate NoDuplicates<T(==)>(s: seq<T>)
  {
    forall i, j :: 0 <= i < j < |s| ==> s[i] != s[j]
  }

  lemma {:induction false} DistinctAfterProperties<T>(s: seq<T>, seen: set<T>)
    ensures NoDuplicates(DistinctAfter(s, seen))
    ensures forall x :: x in DistinctAfter(s, seen) <==> x in s && x !in seen
    decreases |s|
  {
    if s != [] {
      DistinctAfterProperties(s[1..], if s[0] in seen then seen else seen + {s[0]});
      if s[0] !in seen {
        var rest := DistinctAfter(s[1..], seen + {s[0]});
        assert DistinctAfter(s, seen) == [s[0]] + rest;
        forall x ensures x in DistinctAfter(s, seen) <==> x in s && x !in seen {
          assert x in s <==> x == s[0] || x in s[1..];
        }
      } else {
        forall x ensures x in DistinctAfter(s, seen) <==> x in s && x !in seen {
          assert x in s <==> x == s[0] || x in s[1..];
        }
      }
    }
  }

  /** `distinct()` removes repeats and nothing else. */
  lemma DistinctProperties<T>(s: seq<T>)
    ensures NoDuplicates(Distinct(s))
    ensures forall x :: x in Distinct(s) <==> x in s
    ensures |Distinct(s)| <= |s|
  {
    DistinctAfterProperties(s, {});
    DistinctAfterLength(s, {});
  }

  lemma {:induction false} DistinctAfterLength<T>(s: seq<T>, seen: set<T>)
    ensures |DistinctAfter(s, seen)| <= |s|
    decreases |s|
  {
    if s != [] {
      DistinctAfterLength(s[1..], if s[0] in seen then seen else seen + {s[0]});
    }
  }

  /** Removes the element at index k, as `List.remove(int)` does. */
  function RemoveAt<T>(s: seq<T>, k: nat): (r: seq<T>)
    requires k < |s|
    ensures |r| == |s| - 1
    ensures forall i :: 0 <= i < k ==> r[i] == s[i]
    ensures forall i :: k <= i < |r| ==> r[i] == s[i + 1]
  {
    s[..k] + s[k + 1..]
  }

  /** `List.add(k, x)`, defined for k <= |s| (otherwise Java throws). */
  function InsertAt<T>(s: seq<T>, k: nat, x: T): (r: seq<T>)
    requires k <= |s|
    ensures |r| == |s| + 1 && r[k] == x
    ensures forall i :: 0 <= i < k ==> r[i] == s[i]
    ensures forall i :: k < i < |r| ==> r[i] == s[i - 1]
  {
    s[..k] + [x] + s[k..]
  }

  // ---------------------------------------------------------------------
  // `List.sort` / `Stream.sorted`: a stable sort under a comparator, seen
  // through the "compares <= 0" relation `leq`.

  /** Places x before the first element it is `leq` to, so earlier equivalents stay first. */
  function InsertBy<T>(x: T, s: seq<T>, leq: (T, T) -> bool): (r: seq<T>)
    ensures |r| == |s| + 1
    ensures multiset(r) == multiset(s) + multiset{x}
  {
    if s == [] || leq(x, s[0]) then [x] + s
    else assert s == [s[0]] + s[1..]; [s[0]] + InsertBy(x, s[1..], leq)
  }

  function SortBy<T>(s: seq<T>, leq: (T, T) -> bool): (r: seq<T>)
    ensures |r| == |s|
    ensures multiset(r) == multiset(s)
  {
    if s == [] then [] else assert s == [s[0]] + s[1..]; InsertBy(s[0], SortBy(s[1..], leq), leq)
  }

  /** What a consistent comparator guarantees. */
  ghost predicate TotalPreorder<T(!new)>(leq: (T, T) -> bool)
  {
    (forall a, b :: leq(a, b) || leq(b, a)) &&
    (forall a, b, c :: leq(a, b) && leq(b, c) ==> leq(a, c))
  }

  ghost predicate SortedBy<T>(s: seq<T>, leq: (T, T) -> bool)
  {
    forall i, j :: 0 <= i < j < |s| ==> leq(s[i], s[j])
  }

  /** The elements of s the comparator ranks equal to z, in their order in s. */
  function EquivalentTo<T>(s: seq<T>, leq: (T, T) -> bool, z: T): (r: seq<T>)
  {
    if s == [] then []
    else (if leq(s[0], z) && leq(z, s[0]) then [s[0]] else []) + EquivalentTo(s[1..], leq, z)
  }

  lemma {:induction false} InsertBySorted<T(!new)>(x: T, s: seq<T>, leq: (T, T) -> bool)
    requires TotalPreorder(leq) && SortedBy(s, leq)
    ensures SortedBy(InsertBy(x, s, leq), leq)
  {
    if s != [] && !leq(x, s[0]) {
      InsertBySorted(x, s[1..], leq);
      var r := InsertBy(x, s, leq);
      var t := InsertBy(x, s[1..], leq);
      assert r == [s[0]] + t;
      assert leq(s[0], x);
      forall j | 1 <= j < |r| ensures leq(r[0], r[j]) {
        assert r[j] in multiset(t);
        assert r[j] in multiset(s[1..]) + multiset{x};
        if r[j] != x {
          assert r[j] in s[1..];
          var k :| 0 <= k < |s[1..]| && s[1..][k] == r[j];
          assert s[k + 1] == r[j];
        }
      }
    }
  }

  /** Sorting yields a list ordered by the comparator. */
  lemma {:induction false} SortBySorted<T(!new)>(s: seq<T>, leq: (T, T) -> bool)
    requires TotalPreorder(leq)
    ensures SortedBy(SortBy(s, leq), leq)
  {
    if s != [] {
      SortBySorted(s[1..], leq);
      InsertBySorted(s[0], SortBy(s[1..], leq), leq);
    }
  }

  lemma {:induction false} InsertByStable<T(!new)>(x: T, s: seq<T>, leq: (T, T) -> bool, z: T)
    requires TotalPreorder(leq)
    ensures EquivalentTo(InsertBy(x, s, leq), leq, z) ==
            (if leq(x, z) && leq(z, x) then [x] else []) + EquivalentTo(s, leq, z)
  {
    if s != [] && !leq(x, s[0]) {
      InsertByStable(x, s[1..], leq, z);
      var s0 := s[0];
      // x and s[0] cannot both rank equal to z: x would then rank at most s[0]
      assert leq(x, z) && leq(z, s0) ==> leq(x, s0);
      InsertByStableStep(x, s, leq, z);
    } else if s != [] {
      assert ([x] + s)[1..] == s;
    } else {
      assert [x][1..] == [];
    }
  }

  /** One step of InsertByStable: x passes over s[0], which cannot rank equal to z together with x. */
  lemma InsertByStableStep<T>(x: T, s: seq<T>, leq: (T, T) -> bool, z: T)
    requires s != [] && !leq(x, s[0])
    requires !(leq(x, z) && leq(z, x) && leq(s[0], z) && leq(z, s[0]))
    requires EquivalentTo(InsertBy(x, s[1..], leq), leq, z) ==
             (if leq(x, z) && leq(z, x) then [x] else []) + EquivalentTo(s[1..], leq, z)
    ensures EquivalentTo(InsertBy(x, s, leq), leq, z) ==
            (if leq(x, z) && leq(z, x) then [x] else []) + EquivalentTo(s, leq, z)
  {
    var r := InsertBy(x, s, leq);
    var t := InsertBy(x, s[1..], leq);
    assert r == [s[0]] + t;
    assert r[0] == s[0] && r[1..] == t;
    var mine: seq<T> := if leq(x, z) && leq(z, x) then [x] else [];
    var head: seq<T> := if leq(s[0], z) && leq(z, s[0]) then [s[0]] else [];
    var rest := EquivalentTo(s[1..], leq, z);
    assert EquivalentTo(r, leq, z) == head + EquivalentTo(r[1..], leq, z);
    assert EquivalentTo(s, leq, z) == head + rest;
    if mine == [] {
      assert mine + rest == rest && mine + (head + rest) == head + rest;
    } else {
      assert head == [];
      assert head + (mine + rest) == mine + rest && head + rest == rest;
    }
  }

  /** The sort is stable: elements the comparator ranks equal keep their relative order. */
  lemma {:induction false} SortByStable<T(!new)>(s: seq<T>, leq: (T, T) -> bool, z: T)
    requires TotalPreorder(leq)
    ensures EquivalentTo(SortBy(s, leq), leq, z) == EquivalentTo(s, leq, z)
  {
    if s != [] {
      SortByStable(s[1..], leq, z);
      InsertByStable(s[0], SortBy(s[1..], leq), leq, z);
    }
  }

  /** Sorting keeps exactly the elements it was given. */
  lemma SortByMembers<T>(s: seq<T>, leq: (T, T) -> bool)
    ensures forall x :: x in SortBy(s, leq) <==> x in s
  {
    forall x ensures x in SortBy(s, leq) <==> x in s {
      assert x in SortBy(s, leq) <==> x in multiset(SortBy(s, leq));
    }
  }

  /** A list that is already in order is left exactly as it is. */
  lemma {:induction false} SortByIdentity<T>(s: seq<T>, leq: (T, T) -> bool)
    requires SortedBy(s, leq)
    ensures SortBy(s, leq) == s
  {
    if s != [] {
      assert SortedBy(s[1..], leq) by {
        forall i, j | 0 <= i < j < |s[1..]| ensures leq(s[1..][i], s[1..][j]) {
          assert s[1..][i] == s[i + 1] && s[1..][j] == s[j + 1];
        }
      }
      SortByIdentity(s[1..], leq);
      assert s == [s[0]] + s[1..];
    }
  }

  /** Sorting twice is sorting once. */
  lemma SortByIdempotent<T(!new)>(s: seq<T>, leq: (T, T) -> bool)
    requires TotalPreorder(leq)
    ensures SortBy(SortBy(s, leq), leq) == SortBy(s, leq)
  {
    SortBySorted(s, leq);
    SortByIdentity(SortBy(s, leq), leq);
  }

  /** `Stream.min(comparator)`: the first element that no later element undercuts. */
  function MinBy<T>(s: seq<T>, leq: (T, T) -> bool): (r: Option<T>)
    ensures r.None? <==> s == []
    ensures r.Some? ==> r.value in s
  {
    if s == [] then None else Some(MinFrom(s[0], s[1..], leq))
  }

  /** The reduction `(acc, b) -> leq(acc, b) ? acc : b` of BinaryOperator.minBy. */
  function MinFrom<T>(acc: T, s: seq<T>, leq: (T, T) -> bool): (r: T)
    ensures r == acc || r in s
  {
    if s == [] then acc else MinFrom(if leq(acc, s[0]) then acc else s[0], s[1..], leq)
  }

  lemma {:induction false} MinFromIsLeast<T(!new)>(acc: T, s: seq<T>, leq: (T, T) -> bool)
    requires TotalPreorder(leq)
    ensures leq(MinFrom(acc, s, leq), acc)
    ensures forall x :: x in s ==> leq(MinFrom(acc, s, leq), x)
  {
    if s != [] {
      var next := if leq(acc, s[0]) then acc else s[0];
      MinFromIsLeast(next, s[1..], leq);
      forall x | x in s ensures leq(MinFrom(acc, s, leq), x) {
        if x != s[0] { assert x in s[1..]; }
      }
    }
  }

  /** A subset is no larger than its superset. */
  lemma SubsetSize<T>(a: set<T>, b: set<T>)
    requires a <= b
    ensures |a| <= |b|
  {
    assert b == a + (b - a);
  }

  // ---------------------------------------------------------------------
  // Keys that identify at most one element

  ghost predicate KeysDistinct<T, K>(s: seq<T>, f: T -> K)
  {
    forall i, j :: 0 <= i < j < |s| ==> f(s[i]) != f(s[j])
  }

  lemma RemoveAtMultiset<T>(s: seq<T>, k: nat)
    requires k < |s|
    ensures multiset(RemoveAt(s, k)) == multiset(s) - multiset{s[k]}
  {
    assert s == s[..k] + [s[k]] + s[k + 1..];
    assert multiset(s) == multiset(s[..k]) + multiset{s[k]} + multiset(s[k + 1..]);
  }

  lemma KeysDistinctReinsert<T, K>(b: seq<T>, m: nat, f: T -> K)
    requires m < |b| && KeysDistinct(RemoveAt(b, m), f)
    requires forall y :: y in RemoveAt(b, m) ==> f(y) != f(b[m])
    ensures KeysDistinct(b, f)
  {
    var b' := RemoveAt(b, m);
    forall i, j | 0 <= i < j < |b| ensures f(b[i]) != f(b[j]) {
      if i == m {
        assert b'[j - 1] == b[j];
      } else if j == m {
        assert b'[i] == b[i];
      } else {
        var i' := if i < m then i else i - 1;
        var j' := if j < m then j else j - 1;
        assert b'[i'] == b[i] && b'[j'] == b[j];
      }
    }
  }

  /** Reordering a sequence keeps its keys distinct. */
  lemma {:induction false} KeysDistinctPermutation<T, K>(a: seq<T>, b: seq<T>, f: T -> K)
    requires multiset(a) == multiset(b) && KeysDistinct(a, f)
    ensures KeysDistinct(b, f)
    decreases |a|
  {
    if a != [] {
      var x := a[0];
      assert x in multiset(a);
      assert x in b;
      var m :| 0 <= m < |b| && b[m] == x;
      RemoveAtMultiset(b, m);
      RemoveAtMultiset(a, 0);
      assert RemoveAt(a, 0) == a[1..];
      KeysDistinctPermutation(a[1..], RemoveAt(b, m), f);
      TailKeysDiffer(a, RemoveAt(b, m), f);
      KeysDistinctReinsert(b, m, f);
    } else {
      assert |b| == |multiset(b)| == 0;
    }
  }

  /** With distinct keys, nothing holding the same elements as the tail shares the head's key. */
  lemma TailKeysDiffer<T, K>(a: seq<T>, c: seq<T>, f: T -> K)
    requires a != [] && KeysDistinct(a, f) && multiset(c) == multiset(a[1..])
    ensures forall y :: y in c ==> f(y) != f(a[0])
  {
    forall y | y in c ensures f(y) != f(a[0]) {
      assert y in multiset(a[1..]);
      var t :| 0 <= t < |a[1..]| && a[1..][t] == y;
      assert a[t + 1] == y;
    }
  }

  // ---------------------------------------------------------------------
  // Stream.filter

  function Filter<T>(s: seq<T>, p: T -> bool): (r: seq<T>)
    ensures |r| <= |s|
  {
    if s == [] then []
    else (if p(s[0]) then [s[0]] else []) + Filter(s[1..], p)
  }

  /** The filter keeps exactly the elements that satisfy the predicate. */
  lemma {:induction false} FilterMembers<T>(s: seq<T>, p: T -> bool)
    ensures forall x :: x in Filter(s, p) <==> x in s && p(x)
    ensures forall i :: 0 <= i < |Filter(s, p)| ==> Filter(s, p)[i] in s && p(Filter(s, p)[i])
  {
    if s != [] {
      FilterMembers(s[1..], p);
      assert s == [s[0]] + s[1..];
    }
  }

  lemma {:induction false} FilterConcat<T>(a: seq<T>, b: seq<T>, p: T -> bool)
    ensures Filter(a + b, p) == Filter(a, p) + Filter(b, p)
  {
    if a == [] {
      assert a + b == b;
    } else {
      assert (a + b)[0] == a[0] && (a + b)[1..] == a[1..] + b;
      FilterConcat(a[1..], b, p);
      var h := if p(a[0]) then [a[0]] else [];
      assert Filter(a + b, p) == h + Filter(a[1..] + b, p);
    }
  }

  lemma FilterSplit<T>(front: seq<T>, x: T, back: seq<T>, p: T -> bool)
    ensures Filter(front + [x] + back, p) == Filter(front, p) + (if p(x) then [x] else []) + Filter(back, p)
    ensures Filter(front + back, p) == Filter(front, p) + Filter(back, p)
  {
    var fx := if p(x) then [x] else [];
    assert Filter([x], p) == fx by {
      assert [x][1..] == [];
    }
    FilterConcat(front, [x], p);
    FilterConcat(front + [x], back, p);
    FilterConcat(front, back, p);
  }

  lemma FilterRemoveAt<T>(b: seq<T>, m: nat, p: T -> bool)
    requires m < |b|
    ensures multiset(Filter(b, p)) ==
            multiset(Filter(RemoveAt(b, m), p)) + (if p(b[m]) then multiset{b[m]} else multiset{})
  {
    var front, back := b[..m], b[m + 1..];
    var fx := if p(b[m]) then [b[m]] else [];
    SplitAt(b, m);
    FilterSplit(front, b[m], back, p);
    MultisetOfThree(Filter(front, p), fx, Filter(back, p));
  }

  lemma SplitAt<T>(b: seq<T>, m: nat)
    requires m < |b|
    ensures b == b[..m] + [b[m]] + b[m + 1..]
    ensures RemoveAt(b, m) == b[..m] + b[m + 1..]
  {
  }

  lemma MultisetOfThree<T>(x: seq<T>, y: seq<T>, z: seq<T>)
    ensures multiset(x + y + z) == multiset(x + z) + multiset(y)
  {
    assert multiset(x + y + z) == multiset(x) + multiset(y) + multiset(z);
  }

  /** Filtering two reorderings of one list gives two reorderings of one list. */
  lemma {:induction false} FilterPermutation<T>(a: seq<T>, b: seq<T>, p: T -> bool)
    requires multiset(a) == multiset(b)
    ensures multiset(Filter(a, p)) == multiset(Filter(b, p))
    decreases |a|
  {
    if a != [] {
      var x := a[0];
      assert x in multiset(a);
      assert x in b;
      var m :| 0 <= m < |b| && b[m] == x;
      RemoveAtMultiset(b, m);
      RemoveAtMultiset(a, 0);
      assert RemoveAt(a, 0) == a[1..];
      FilterPermutation(a[1..], RemoveAt(b, m), p);
      FilterRemoveAt(b, m, p);
      FilterRemoveAt(a, 0, p);
    } else {
      assert |multiset(b)| == 0;
    }
  }

  /** A filter that no element passes leaves nothing. */
  lemma {:induction false} FilterNone<T>(s: seq<T>, p: T -> bool)
    requires forall x :: x in s ==> !p(x)
    ensures Filter(s, p) == []
  {
    if s != [] {
      assert s[0] in s;
      forall x | x in s[1..] ensures !p(x) {
        assert x in s;
      }
      FilterNone(s[1..], p);
    }
  }

  /** A filter that every element passes leaves the list as it was. */
  lemma {:induction false} FilterAll<T>(s: seq<T>, p: T -> bool)
    requires forall x :: x in s ==> p(x)
    ensures Filter(s, p) == s
  {
    if s != [] {
      assert s[0] in s;
      forall x | x in s[1..] ensures p(x) {
        assert x in s;
      }
      FilterAll(s[1..], p);
      assert s == [s[0]] + s[1..];
    }
  }

  /** Filtering keeps the survivors in their order: a sorted list stays sorted. */
  lemma {:induction false} FilterSorted<T>(s: seq<T>, p: T -> bool, leq: (T, T) -> bool)
    requires SortedBy(s, leq)
    ensures SortedBy(Filter(s, p), leq)
  {
    if s != [] {
      assert SortedBy(s[1..], leq) by {
        forall i, j | 0 <= i < j < |s[1..]| ensures leq(s[1..][i], s[1..][j]) {
          assert s[1..][i] == s[i + 1] && s[1..][j] == s[j + 1];
        }
      }
      FilterSorted(s[1..], p, leq);
      var rest := Filter(s[1..], p);
      if p(s[0]) {
        HeadBeforeFiltered(s, p, leq);
        var r := Filter(s, p);
        assert r == [s[0]] + rest;
        forall i, j | 0 <= i < j < |r| ensures leq(r[i], r[j]) {
          if i == 0 {
            assert r[j] == rest[j - 1];
          } else {
            assert r[i] == rest[i - 1] && r[j] == rest[j - 1];
          }
        }
      } else {
        assert Filter(s, p) == rest;
      }
    }
  }

  /** In a sorted sequence the head precedes every element the filter keeps of the tail. */
  lemma HeadBeforeFiltered<T>(s: seq<T>, p: T -> bool, leq: (T, T) -> bool)
    requires SortedBy(s, leq) && s != []
    ensures forall j :: 0 <= j < |Filter(s[1..], p)| ==> leq(s[0], Filter(s[1..], p)[j])
  {
    var rest := Filter(s[1..], p);
    FilterMembers(s[1..], p);
    forall j | 0 <= j < |rest| ensures leq(s[0], rest[j]) {
      assert rest[j] in s[1..];
      var k :| 0 <= k < |s[1..]| && s[1..][k] == rest[j];
      assert s[k + 1] == rest[j];
    }
  }

  /** Replacing one element by another the filter treats alike keeps the count. */
  lemma FilterUpdateCount<T>(s: seq<T>, i: nat, x: T, p: T -> bool)
    requires i < |s| && p(x) == p(s[i])
    ensures |Filter(s[i := x], p)| == |Filter(s, p)|
  {
    assert s == s[..i] + [s[i]] + s[i + 1..];
    assert s[i := x] == s[..i] + [x] + s[i + 1..];
    FilterConcat(s[..i] + [s[i]], s[i + 1..], p);
    FilterConcat(s[..i], [s[i]], p);
    FilterConcat(s[..i] + [x], s[i + 1..], p);
    FilterConcat(s[..i], [x], p);
    assert [x][1..] == [] && [s[i]][1..] == [];
  }
  /** Filtering by a stricter test after a weaker one is filtering by the stricter test alone. */
  lemma {:induction false} FilterFilter<T>(s: seq<T>, p: T -> bool, q: T -> bool)
    requires forall x :: q(x) ==> p(x)
    ensures Filter(Filter(s, p), q) == Filter(s, q)
  {
    if s != [] {
      FilterFilter(s[1..], p, q);
      var rest := Filter(s[1..], p);
      if p(s[0]) {
        var f := [s[0]] + rest;
        assert Filter(s, p) == f;
        assert f[0] == s[0] && f[1..] == rest;
      } else {
        assert Filter(s, p) == rest;
      }
    }
  }

  /** Filtering keeps keys distinct: the survivors are a subsequence. */
  lemma FilterKeysDistinct<T, K>(s: seq<T>, p: T -> bool, f: T -> K)
    requires KeysDistinct(s, f)
    ensures KeysDistinct(Filter(s, p), f)
  {
    var differ := (a: T, b: T) => f(a) != f(b);
    assert SortedBy(s, differ);
    FilterSorted(s, p, differ);
    var r := Filter(s, p);
    forall i, j | 0 <= i < j < |r| ensures f(r[i]) != f(r[j]) {
      assert differ(r[i], r[j]);
    }
  }

  /** Filtering a list without duplicates, or reordering it, leaves none. */
  lemma NoDuplicatesKept<T>(s: seq<T>, p: T -> bool, leq: (T, T) -> bool)
    requires NoDuplicates(s)
    ensures NoDuplicates(Filter(s, p))
    ensures NoDuplicates(SortBy(s, leq))
  {
    var same := (t: T) => t;
    assert KeysDistinct(s, same);
    FilterKeysDistinct(s, p, same);
    assert KeysDistinct(Filter(s, p), same);
    KeysDistinctPermutation(s, SortBy(s, leq), same);
    assert KeysDistinct(SortBy(s, leq), same);
  }

  // ---------------------------------------------------------------------
  // Java's 32-bit int

  const IntMin: int := -0x8000_0000
  const IntMax: int := 0x7fff_ffff

  predicate IsInt32(x: int) { IntMin <= x <= IntMax }

  /** Unary minus on a Java int: wraps around, so -MIN_VALUE is MIN_VALUE. */
  function Neg32(x: int): (r: int)
    ensures IsInt32(x) ==> IsInt32(r) && (x + r) % 0x1_0000_0000 == 0
    ensures IsInt32(x) && x != IntMin ==> x + r == 0
  {
    if x == IntMin then x else -x
  }

  /** A value brought back into Java's int range the way 32-bit arithmetic wraps it. */
  function Wrap32(x: int): (r: int)
    ensures IsInt32(r) && (r - x) % 0x1_0000_0000 == 0
    ensures IsInt32(x) ==> r == x
  {
    (x - IntMin) % 0x1_0000_0000 + IntMin
  }

  /** `a += b` on a Java int. */
  function Add32(a: int, b: int): (r: int)
    ensures IsInt32(r) && (r - (a + b)) % 0x1_0000_0000 == 0
    ensures IsInt32(a + b) ==> r == a + b
  {
    Wrap32(a + b)
  }
}
