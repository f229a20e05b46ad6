// WebSocketHandshakeInterceptor: the handshake's query string is split
// into parameters, and the connection is accepted when one of the "token"
// parameters is a valid token, which is then kept in the session's
// attributes. Token validity is a parameter of the model.
module HandshakeInterceptor {
  import opened Common

  // ---------------------------------------------------------------------
  // String.split with a one-character separator

  /** Every piece between separators, empty ones included. */
  function Pieces(s: string, sep: char): (r: seq<string>)
    ensures |r| >= 1
    ensures forall i :: 0 <= i < |r| ==> sep !in r[i]
  {
    if s == [] then [[]]
    else
      var rest := Pieces(s[1..], sep);
      if s[0] == sep then [[]] + rest else [[s[0]] + rest[0]] + rest[1..]
  }

  function JoinWith(pieces: seq<string>, sep: char): string
    requires |pieces| >= 1
  {
    if |pieces| == 1 then pieces[0] else pieces[0] + [sep] + JoinWith(pieces[1..], sep)
  }

  /** Splitting and joining again gives the text back. */
  lemma {:induction false} PiecesJoin(s: string, sep: char)
    ensures JoinWith(Pieces(s, sep), sep) == s
  {
    if s != [] {
      PiecesJoin(s[1..], sep);
      var rest := Pieces(s[1..], sep);
      if s[0] != sep {
        if |rest| == 1 {
          assert [s[0]] + rest[0] == s;
        } else {
          assert ([[s[0]] + rest[0]] + rest[1..])[1..] == rest[1..];
          assert s == [s[0]] + s[1..];
        }
      } else {
        assert ([[]] + rest)[1..] == rest;
      }
    }
  }

  function DropTrailingEmpty(pieces: seq<string>): (r: seq<string>)
    ensures |r| <= |pieces| && r == pieces[..|r|]
    ensures forall i :: |r| <= i < |pieces| ==> pieces[i] == []
    ensures |r| > 0 ==> r[|r| - 1] != []
  {
    if pieces == [] then []
    else if pieces[|pieces| - 1] == [] then DropTrailingEmpty(pieces[..|pieces| - 1])
    else pieces
  }

  /**
   * `s.split(sep)`: the text itself when the separator does not occur,
   * otherwise the pieces with the trailing empty ones removed.
   */
  function Split(s: string, sep: char): (r: seq<string>)
    ensures sep !in s ==> r == [s]
    ensures sep in s ==> r == DropTrailingEmpty(Pieces(s, sep))
  {
    if sep !in s then [s] else DropTrailingEmpty(Pieces(s, sep))
  }

  /**
   * The pieces of split contain no separator, none of the trailing pieces
   * left out holds text, and with them the pieces join to the text again.
   */
  lemma SplitProperties(s: string, sep: char)
    ensures var r := Split(s, sep);
            var all := Pieces(s, sep);
            (forall i :: 0 <= i < |r| ==> sep !in r[i]) &&
            r == all[..|r|] && (forall i :: |r| <= i < |all| ==> all[i] == []) &&
            JoinWith(all, sep) == s
  {
    PiecesJoin(s, sep);
    if sep !in s {
      assert Pieces(s, sep) == [s] by {
        PiecesWithoutSeparator(s, sep);
      }
    }
  }

  lemma {:induction false} PiecesWithoutSeparator(s: string, sep: char)
    requires sep !in s
    ensures Pieces(s, sep) == [s]
  {
    if s != [] {
      assert sep !in s[1..] by {
        forall i | 0 <= i < |s[1..]| ensures s[1..][i] != sep {
          assert s[1..][i] == s[i + 1];
        }
      }
      PiecesWithoutSeparator(s[1..], sep);
      assert [s[0]] + s[1..] == s;
    }
  }

  // ---------------------------------------------------------------------
  // splitQueryParameter

  function IndexOf(s: string, c: char): (r: Option<nat>)
    ensures r.Some? ==> r.value < |s| && s[r.value] == c && c !in s[..r.value]
    ensures r.None? ==> c !in s
  {
    if s == [] then None
    else if s[0] == c then Some(0)
    else match IndexOf(s[1..], c)
      case None => None
      case Some(k) =>
        assert s[..k + 1] == [s[0]] + s[1..][..k];
        Some(k + 1)
  }

  /** A parameter: its key and its value, null when there is none. */
  datatype Parameter = Parameter(key: string, value: Option<string>)

  /**
   * splitQueryParameter: the key is the text before the first '=' when
   * that '=' is not the first character, otherwise the whole piece; the
   * value is the text after that '=', null when nothing follows it.
   */
  function SplitQueryParameter(it: string): (r: Parameter)
    ensures IndexOf(it, '=').Some? && IndexOf(it, '=').value > 0 ==>
              r.key + "=" + GetOrDefault(r.value, "") == it && '=' !in r.key && r.key != "" &&
              (r.value.Some? <==> |it| > |r.key| + 1)
    ensures !(IndexOf(it, '=').Some? && IndexOf(it, '=').value > 0) ==> r == Parameter(it, None)
    ensures r.value.Some? ==> r.value.value != ""
  {
    var idx := IndexOf(it, '=');
    var key := if idx.Some? && idx.value > 0 then it[..idx.value] else it;
    var value := if idx.Some? && idx.value > 0 && |it| > idx.value + 1 then Some(it[idx.value + 1..]) else None;
    Parameter(key, value)
  }

  /** The edge cases: a leading '=' belongs to the key, and a bare or empty value is null. */
  lemma SplitQueryParameterCases()
    ensures SplitQueryParameter("=x") == Parameter("=x", None)
    ensures SplitQueryParameter("a=") == Parameter("a", None)
    ensures SplitQueryParameter("a") == Parameter("a", None)
    ensures SplitQueryParameter("a=b=c") == Parameter("a", Some("b=c"))
  {
    assert IndexOf("a=", '=') == Some(1);
    assert IndexOf("a=b=c", '=') == Some(1);
    assert "a=b=c"[..1] == "a" && "a=b=c"[2..] == "b=c";
  }

  // ---------------------------------------------------------------------
  // groupingBy(key, LinkedHashMap::new, mapping(value, toList()))

  /** A LinkedHashMap from keys to lists of values, in insertion order. */
  type Grouped = seq<(string, seq<Option<string>>)>

  function GroupKeys(g: Grouped): (r: seq<string>)
    ensures |r| == |g| && forall i :: 0 <= i < |g| ==> r[i] == g[i].0
  {
    seq(|g|, i requires 0 <= i < |g| => g[i].0)
  }

  function IndexOfKey(g: Grouped, key: string): (r: Option<nat>)
    ensures r.Some? ==> r.value < |g| && g[r.value].0 == key
    ensures r.None? <==> key !in GroupKeys(g)
  {
    if g == [] then None
    else if g[0].0 == key then
      assert GroupKeys(g)[0] == key;
      Some(0)
    else match IndexOfKey(g[1..], key)
      case None =>
        assert GroupKeys(g) == [g[0].0] + GroupKeys(g[1..]);
        None
      case Some(k) =>
        assert GroupKeys(g)[k + 1] == key;
        Some(k + 1)
  }

  /** The collector's step: append the value to its key's list, adding the key at the end if new. */
  function Accumulate(g: Grouped, p: Parameter): Grouped
  {
    match IndexOfKey(g, p.key)
    case Some(i) => g[i := (p.key, g[i].1 + [p.value])]
    case None => g + [(p.key, [p.value])]
  }

  /** The collected map: the parameters accumulated in order. */
  function GroupingBy(ps: seq<Parameter>): Grouped
  {
    if ps == [] then [] else Accumulate(GroupingBy(ps[..|ps| - 1]), ps[|ps| - 1])
  }

  function ParameterKeys(ps: seq<Parameter>): (r: seq<string>)
    ensures |r| == |ps| && forall i :: 0 <= i < |ps| ==> r[i] == ps[i].key
  {
    seq(|ps|, i requires 0 <= i < |ps| => ps[i].key)
  }

  /** The values of the parameters with this key, in order. */
  function ValuesOf(ps: seq<Parameter>, key: string): seq<Option<string>>
  {
    if ps == [] then []
    else ValuesOf(ps[..|ps| - 1], key) + (if ps[|ps| - 1].key == key then [ps[|ps| - 1].value] else [])
  }

  lemma {:induction false} ValuesOfAbsent(ps: seq<Parameter>, key: string)
    requires key !in ParameterKeys(ps)
    ensures ValuesOf(ps, key) == []
  {
    if ps != [] {
      var front := ps[..|ps| - 1];
      assert ParameterKeys(front) == ParameterKeys(ps)[..|ps| - 1];
      assert ps[|ps| - 1].key == ParameterKeys(ps)[|ps| - 1];
      ValuesOfAbsent(front, key);
    }
  }

  lemma {:induction false} DistinctAfterSnoc<T>(s: seq<T>, x: T, seen: set<T>)
    ensures DistinctAfter(s + [x], seen) == DistinctAfter(s, seen) + (if x in s || x in seen then [] else [x])
    decreases |s|
  {
    if s == [] {
      assert [] + [x] == [x];
    } else {
      assert (s + [x])[0] == s[0] && (s + [x])[1..] == s[1..] + [x];
      var next := if s[0] in seen then seen else seen + {s[0]};
      DistinctAfterSnoc(s[1..], x, next);
      assert x in s <==> x == s[0] || x in s[1..];
    }
  }

  /**
   * The collected map has each key once, in order of first appearance,
   * and holds for each key all of its values (nulls included) in input order.
   */
  lemma {:induction false} GroupingByCorrect(ps: seq<Parameter>)
    ensures var g := GroupingBy(ps);
            GroupKeys(g) == Distinct(ParameterKeys(ps)) &&
            forall i :: 0 <= i < |g| ==> g[i].1 == ValuesOf(ps, g[i].0)
  {
    if ps != [] {
      var front, last := ps[..|ps| - 1], ps[|ps| - 1];
      GroupingByCorrect(front);
      var g0 := GroupingBy(front);
      var g := GroupingBy(ps);
      assert ParameterKeys(ps) == ParameterKeys(front) + [last.key];
      DistinctAfterSnoc(ParameterKeys(front), last.key, {});
      DistinctProperties(ParameterKeys(front));
      match IndexOfKey(g0, last.key)
      case Some(k) =>
        assert last.key in GroupKeys(g0) by {
          assert GroupKeys(g0)[k] == last.key;
        }
        assert GroupKeys(g) == GroupKeys(g0);
        forall i | 0 <= i < |g| ensures g[i].1 == ValuesOf(ps, g[i].0) {
          if i != k {
            assert GroupKeys(g0)[i] != GroupKeys(g0)[k];
          }
        }
      case None =>
        ValuesOfAbsent(front, last.key);
        assert GroupKeys(g) == GroupKeys(g0) + [last.key];
        forall i | 0 <= i < |g| ensures g[i].1 == ValuesOf(ps, g[i].0) {
          if i < |g0| {
            assert g[i] == g0[i];
            assert GroupKeys(g0)[i] != last.key;
          }
        }
    }
  }

  // ---------------------------------------------------------------------
  // splitQuery and beforeHandshake

  /** `StringUtils.hasText`: some character is not white space. */
  predicate HasText(s: string)
  {
    exists i :: 0 <= i < |s| && !IsWhitespace(s[i])
  }

  /** `Character.isWhitespace` on the ASCII range. */
  predicate IsWhitespace(c: char)
  {
    c == ' ' || c == '\t' || c == '\n' || c == '\U{B}' || c == '\U{C}' || c == '\r' || '\U{1C}' <= c <= '\U{1F}'
  }

  /** splitQuery: no parameters without text; otherwise the pieces between '&', split and collected. */
  function SplitQuery(query: Option<string>): Grouped
  {
    if query.None? || !HasText(query.value) then []
    else
      var pieces := Split(query.value, '&');
      GroupingBy(seq(|pieces|, i requires 0 <= i < |pieces| => SplitQueryParameter(pieces[i])))
  }

  /**
   * A query without text has no parameters; otherwise each key of the
   * pieces between '&' appears once, in order of first appearance, with
   * all of its values in order.
   */
  lemma SplitQueryCorrect(query: Option<string>)
    ensures var g := SplitQuery(query);
            (query.None? || !HasText(query.value) ==> g == []) &&
            (query.Some? && HasText(query.value) ==>
               var pieces := Split(query.value, '&');
               var ps := seq(|pieces|, i requires 0 <= i < |pieces| => SplitQueryParameter(pieces[i]));
               GroupKeys(g) == Distinct(ParameterKeys(ps)) &&
               forall i :: 0 <= i < |g| ==> g[i].1 == ValuesOf(ps, g[i].0))
  {
    if query.Some? && HasText(query.value) {
      var pieces := Split(query.value, '&');
      GroupingByCorrect(seq(|pieces|, i requires 0 <= i < |pieces| => SplitQueryParameter(pieces[i])));
    }
  }

  /** `get("token")` through safeStream: the token values, none when there is no such key. */
  function TokenValues(query: Option<string>): seq<Option<string>>
  {
    var g := SplitQuery(query);
    match IndexOfKey(g, "token")
    case None => []
    case Some(i) => g[i].1
  }

  /**
   * The first token that is null or valid: `anyMatch` hands each value to
   * `isValid`, which dereferences it, so a null value reached before any
   * valid one is a NullPointerException.
   */
  predicate StopsAt(tokens: seq<Option<string>>, isValid: string -> bool, i: int)
  {
    0 <= i < |tokens| && (tokens[i].None? || isValid(tokens[i].value)) &&
    forall j :: 0 <= j < i ==> tokens[j].Some? && !isValid(tokens[j].value)
  }

  /** `anyMatch` stops at the first token that is valid, and throws at a null one before it. */
  function FirstValid(tokens: seq<Option<string>>, isValid: string -> bool): (r: Result<Option<string>>)
    ensures r.Err? ==> r.error == NullPointer
    ensures r.Err? <==> exists i :: StopsAt(tokens, isValid, i) && tokens[i].None?
    ensures r.Ok? && r.value.Some? ==> exists i :: StopsAt(tokens, isValid, i) && tokens[i] == r.value
    ensures r == Ok(None) <==> forall t :: t in tokens ==> t.Some? && !isValid(t.value)
  {
    if tokens == [] then Ok(None)
    else if tokens[0].None? then
      assert StopsAt(tokens, isValid, 0) && tokens[0] in tokens;
      Err(NullPointer)
    else if isValid(tokens[0].value) then
      assert StopsAt(tokens, isValid, 0);
      Ok(tokens[0])
    else
      var r := FirstValid(tokens[1..], isValid);
      assert forall t :: t in tokens ==> t == tokens[0] || t in tokens[1..];
      StopsAtTail(tokens, isValid);
      r
  }

  /** Past a non-null invalid head, the stopping points are those of the tail, shifted by one. */
  lemma StopsAtTail(tokens: seq<Option<string>>, isValid: string -> bool)
    requires tokens != [] && tokens[0].Some? && !isValid(tokens[0].value)
    ensures forall i :: StopsAt(tokens[1..], isValid, i) ==> StopsAt(tokens, isValid, i + 1)
    ensures forall i :: StopsAt(tokens, isValid, i) ==> i > 0 && StopsAt(tokens[1..], isValid, i - 1)
  {
    forall i | StopsAt(tokens[1..], isValid, i) ensures StopsAt(tokens, isValid, i + 1) {
      forall j | 0 <= j < i + 1 ensures tokens[j].Some? && !isValid(tokens[j].value) {
        if j > 0 {
          assert tokens[j] == tokens[1..][j - 1];
        }
      }
    }
    forall i | StopsAt(tokens, isValid, i) ensures i > 0 && StopsAt(tokens[1..], isValid, i - 1) {
      forall j | 0 <= j < i - 1 ensures tokens[1..][j].Some? && !isValid(tokens[1..][j].value) {
        assert tokens[1..][j] == tokens[j + 1];
      }
    }
  }

  /**
   * beforeHandshake: whether the handshake goes on and the session
   * attributes after it, or the exception a null token value raises.
   */
  function BeforeHandshake(query: Option<string>, isValid: string -> bool, attributes: map<string, string>)
    : Result<(bool, map<string, string>)>
  {
    match FirstValid(TokenValues(query), isValid)
    case Err(e) => Err(e)
    case Ok(None) => Ok((false, attributes))
    case Ok(Some(token)) => Ok((true, attributes["token" := token]))
  }

  /**
   * The handshake throws exactly when a "token" parameter without a value
   * comes before any valid one; otherwise it is accepted exactly when some
   * "token" value is valid, and then the first valid one is stored and
   * nothing else changes. Without any "token" parameter, or without text
   * in the query, it is refused and the attributes stay as they were.
   */
  lemma BeforeHandshakeCorrect(query: Option<string>, isValid: string -> bool, attributes: map<string, string>)
    ensures var r := BeforeHandshake(query, isValid, attributes);
            var tokens := TokenValues(query);
            (r.Err? <==> exists i :: StopsAt(tokens, isValid, i) && tokens[i].None?) &&
            (r.Err? ==> r.error == NullPointer) &&
            (r.Ok? ==> (r.value.0 <==> exists t :: t in tokens && t.Some? && isValid(t.value))) &&
            (r.Ok? && r.value.0 ==>
               var after := r.value.1;
               "token" in after && Some(after["token"]) in tokens && isValid(after["token"]) &&
               after - {"token"} == attributes - {"token"}) &&
            (r.Ok? && !r.value.0 ==> r.value.1 == attributes) &&
            ("token" !in GroupKeys(SplitQuery(query)) ==> r == Ok((false, attributes))) &&
            (query.None? || !HasText(query.value) ==> r == Ok((false, attributes)))
  {
    var tokens := TokenValues(query);
    var r := FirstValid(tokens, isValid);
    if r.Ok? && r.value.Some? {
      var i :| StopsAt(tokens, isValid, i) && tokens[i] == r.value;
      assert tokens[i] in tokens;
    }
    if r.Ok? && r.value.None? {
      assert forall t :: t in tokens ==> t.Some? && !isValid(t.value);
    }
  }
}
