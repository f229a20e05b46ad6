// AnalyticsUtils.getAnalytics: the driver-period CSV built from shift
// timelines. Each shift's completed events are walked in timeline order
// with a running passenger count; consecutive events bound one period.
module AnalyticsUtils {
  import opened Common
  import opened Model

  datatype Period = P1 | P2 | P3

  /** One output row: a driver, a period type and its bounds in epoch seconds. */
  datatype AnalyticsRow = AnalyticsRow(driverId: Option<Uuid>, period: Period, start: int, end: int)

  function IsComplete(e: Event): bool
  {
    e.complete == Some(true)
  }

  function CompleteEvents(events: seq<Event>): seq<Event>
  {
    Filter(events, IsComplete)
  }

  /**
   * The running passenger count once the deltas of events 1..k have been
   * added with Java's int wrap-around. The first event's delta is never read.
   */
  function Onboard(ce: seq<Event>, k: nat): int
    requires k < |ce|
  {
    if k == 0 then 0 else Add32(Onboard(ce, k - 1), GetOrDefault(ce[k].passengerDelta, 0))
  }

  /**
   * Where the first loop stops, searching from index j: the first index at
   * which someone is on board, or the start of the last pair of events.
   */
  function FirstPeriodFrom(ce: seq<Event>, j: nat): (k: nat)
    requires 2 <= |ce| && j <= |ce| - 2
    ensures j <= k <= |ce| - 2
    ensures Onboard(ce, k) != 0 || k == |ce| - 2
    ensures forall i :: j <= i < k ==> Onboard(ce, i) == 0
    decreases |ce| - j
  {
    if Onboard(ce, j) != 0 || j == |ce| - 2 then j else FirstPeriodFrom(ce, j + 1)
  }

  function Seconds(e: Event): int
  {
    EpochSecond(GetOrDefault(e.time, 0))
  }

  /** The second loop's label: P3 while someone is on board, P2 otherwise. */
  function Label(onboard: int): Period
  {
    if onboard > 0 then P3 else P2
  }

  /** The second loop's rows, for the pairs of events starting at index j. */
  function LaterRows(driver: Option<Uuid>, ce: seq<Event>, j: nat): (rows: seq<AnalyticsRow>)
    requires 1 <= j <= |ce| - 1
    ensures |rows| == |ce| - 1 - j
    ensures forall i :: 0 <= i < |rows| ==>
              rows[i] == AnalyticsRow(driver, Label(Onboard(ce, j + i)), Seconds(ce[j + i]), Seconds(ce[j + i + 1]))
    decreases |ce| - j
  {
    if j == |ce| - 1 then []
    else [AnalyticsRow(driver, Label(Onboard(ce, j)), Seconds(ce[j]), Seconds(ce[j + 1]))] + LaterRows(driver, ce, j + 1)
  }

  /**
   * The rows of two or more completed events, or the exception a null
   * delta or time that the loops read raises. The rows tile the timeline
   * from the first boarding to the last completed event: the first row is
   * the P1 period, each row ends where the next begins, every later row is
   * P3 exactly when someone is on board, and all rows carry the driver.
   */
  function PairRows(driver: Option<Uuid>, ce: seq<Event>): (r: Result<seq<AnalyticsRow>>)
    requires |ce| >= 2
    ensures r.Err? ==> r.error == NullPointer
    ensures r.Ok? ==>
              var j0 := FirstPeriodFrom(ce, 0);
              (forall i :: 0 <= i < j0 ==> Onboard(ce, i) == 0) && Tiles(driver, ce, j0, r.value)
  {
    if exists k :: 1 <= k <= |ce| - 2 && ce[k].passengerDelta.None? then Err(NullPointer)
    else
      var j0 := FirstPeriodFrom(ce, 0);
      if exists k :: j0 <= k < |ce| && ce[k].time.None? then Err(NullPointer)
      else
        RowsShape(driver, ce, j0);
        Ok(Tiling(driver, ce, j0))
  }

  /** The P1 row for the pair at j0, then the second loop's rows. */
  function Tiling(driver: Option<Uuid>, ce: seq<Event>, j0: nat): (rows: seq<AnalyticsRow>)
    requires |ce| >= 2 && j0 <= |ce| - 2
    ensures |rows| == |ce| - 1 - j0
    ensures rows[0] == AnalyticsRow(driver, P1, Seconds(ce[j0]), Seconds(ce[j0 + 1]))
    ensures rows[1..] == LaterRows(driver, ce, j0 + 1)
  {
    [AnalyticsRow(driver, P1, Seconds(ce[j0]), Seconds(ce[j0 + 1]))] + LaterRows(driver, ce, j0 + 1)
  }

  /**
   * The rows tile the events from j0 to the last one: the first row is the
   * P1 period starting at event j0, each row ends where the next begins,
   * every later row is P3 exactly when someone is on board at its start,
   * and all rows carry the driver.
   */
  predicate Tiles(driver: Option<Uuid>, ce: seq<Event>, j0: nat, rows: seq<AnalyticsRow>)
    requires |ce| >= 2 && j0 <= |ce| - 2
  {
    |rows| == |ce| - 1 - j0 >= 1 &&
    rows[0].period == P1 && rows[0].start == Seconds(ce[j0]) &&
    rows[|rows| - 1].end == Seconds(ce[|ce| - 1]) &&
    (forall i :: 0 <= i < |rows| - 1 ==> rows[i].end == rows[i + 1].start) &&
    (forall i :: 1 <= i < |rows| ==> (rows[i].period == P3 <==> Onboard(ce, j0 + i) > 0)) &&
    (forall i :: 0 <= i < |rows| ==> rows[i].driverId == driver)
  }

  lemma RowsShape(driver: Option<Uuid>, ce: seq<Event>, j0: nat)
    requires |ce| >= 2 && j0 <= |ce| - 2
    ensures Tiles(driver, ce, j0, Tiling(driver, ce, j0))
  {
    var rows := Tiling(driver, ce, j0);
    var later := LaterRows(driver, ce, j0 + 1);
    forall i | 0 <= i < |rows| ensures rows[i].driverId == driver && rows[i].end == Seconds(ce[j0 + i + 1]) {
      if i > 0 {
        assert rows[i] == later[i - 1];
      }
    }
    forall i | 0 <= i < |rows| - 1 ensures rows[i].end == rows[i + 1].start {
      assert rows[i + 1] == later[i];
    }
    forall i | 1 <= i < |rows| ensures rows[i].period == P3 <==> Onboard(ce, j0 + i) > 0 {
      assert rows[i] == later[i - 1];
    }
  }

  /**
   * The rows one shift contributes, or what it throws: a null event list,
   * a single completed event (the second `next()`), or what the loops
   * raise. A shift without completed events adds nothing.
   */
  function ShiftRows(shift: Shift): (r: Result<seq<AnalyticsRow>>)
    ensures r.Ok? ==> shift.events.Some? && (r.value == [] <==> CompleteEvents(shift.events.value) == [])
  {
    if shift.events.None? then Err(NullPointer)
    else
      var ce := CompleteEvents(shift.events.value);
      if |ce| == 0 then Ok([])
      else if |ce| == 1 then Err(NoSuchElement)
      else PairRows(shift.driverId, ce)
  }

  /** All shifts' rows in order; the first shift that throws ends the report. */
  function AllRows(shifts: seq<Shift>): Result<seq<AnalyticsRow>>
  {
    if shifts == [] then Ok([])
    else
      var first :- ShiftRows(shifts[0]);
      var rest :- AllRows(shifts[1..]);
      Ok(first + rest)
  }

  // ---------------------------------------------------------------------
  // The CSV text

  /** The first line, "driver_id,period,start_timestamp,end_timestamp", written as its fields and commas. */
  const Header: string := "driver_id" + "," + "period" + "," + "start_timestamp" + "," + "end_timestamp"

  function PeriodName(p: Period): string
  {
    match p
    case P1 => "P1"
    case P2 => "P2"
    case P3 => "P3"
  }

  /**
   * `AnalyticsRow.toCsv`. UUID.toString is not modelled: the caller
   * supplies the text of each driver id.
   */
  function RowText(row: AnalyticsRow, uuidText: Uuid -> string): string
    requires row.driverId.Some?
  {
    uuidText(row.driverId.value) + "," + PeriodName(row.period) + "," + IntToString(row.start) + "," + IntToString(row.end)
  }

  function RowTexts(rows: seq<AnalyticsRow>, uuidText: Uuid -> string): (texts: seq<string>)
    requires forall i :: 0 <= i < |rows| ==> rows[i].driverId.Some?
    ensures |texts| == |rows|
    ensures forall i :: 0 <= i < |rows| ==> texts[i] == RowText(rows[i], uuidText)
  {
    if rows == [] then [] else [RowText(rows[0], uuidText)] + RowTexts(rows[1..], uuidText)
  }

  /** `Collectors.joining("\n")`. */
  function JoinLines(parts: seq<string>): string
  {
    if parts == [] then ""
    else if |parts| == 1 then parts[0]
    else parts[0] + "\n" + JoinLines(parts[1..])
  }

  /** Splitting text at its line breaks. */
  function Lines(s: string): (lines: seq<string>)
    ensures |lines| >= 1
    decreases |s|
  {
    if '\n' !in s then [s]
    else
      var i := FirstNewline(s);
      [s[..i]] + Lines(s[i + 1..])
  }

  function FirstNewline(s: string): (i: nat)
    requires '\n' in s
    ensures i < |s| && s[i] == '\n' && '\n' !in s[..i]
  {
    if s[0] == '\n' then 0
    else
      assert '\n' in s[1..] by { assert s == [s[0]] + s[1..]; }
      var i := FirstNewline(s[1..]);
      assert s[..i + 1] == [s[0]] + s[1..][..i];
      i + 1
  }

  /** A report whose every driver id is set, as the method builds it. */
  function CsvAsWritten(rows: seq<AnalyticsRow>, uuidText: Uuid -> string): Result<string>
  {
    if exists i :: 0 <= i < |rows| && rows[i].driverId.None? then Err(NullPointer)
    else Ok(Header + JoinLines(RowTexts(rows, uuidText)))
  }

  /** The report with the header on a line of its own: header and rows joined by line breaks. */
  function Csv(rows: seq<AnalyticsRow>, uuidText: Uuid -> string): Result<string>
  {
    if exists i :: 0 <= i < |rows| && rows[i].driverId.None? then Err(NullPointer)
    else Ok(JoinLines([Header] + RowTexts(rows, uuidText)))
  }

  function Analytics(shifts: seq<Shift>, uuidText: Uuid -> string): Result<string>
  {
    var rows :- AllRows(shifts);
    Csv(rows, uuidText)
  }

  // Line structure of the two texts.

  lemma FirstNewlineAfter(p: string, q: string)
    requires '\n' !in p
    ensures '\n' in p + "\n" + q
    ensures FirstNewline(p + "\n" + q) == |p|
  {
    var s := p + "\n" + q;
    assert s[|p|] == '\n';
  }

  /** Lines undoes the joining of parts that hold no line break. */
  lemma {:induction false} LinesOfJoin(parts: seq<string>)
    requires parts != []
    requires forall i :: 0 <= i < |parts| ==> '\n' !in parts[i]
    ensures Lines(JoinLines(parts)) == parts
    decreases |parts|
  {
    if |parts| > 1 {
      var rest := JoinLines(parts[1..]);
      FirstNewlineAfter(parts[0], rest);
      var s := parts[0] + "\n" + rest;
      assert JoinLines(parts) == s;
      assert s[..|parts[0]|] == parts[0];
      assert s[|parts[0]| + 1..] == rest;
      assert Lines(s) == [parts[0]] + Lines(rest);
      LinesOfJoin(parts[1..]);
      assert parts == [parts[0]] + parts[1..];
    } else {
      assert JoinLines(parts) == parts[0];
    }
  }

  lemma HeaderIsOneLine()
    ensures '\n' !in Header
  {
    assert '\n' !in "driver_id";
    assert '\n' !in "period";
    assert '\n' !in "start_timestamp";
    assert '\n' !in "end_timestamp";
    assert '\n' !in ",";
  }

  lemma DigitsHaveNoNewline(n: nat)
    ensures '\n' !in NatToString(n)
  {
    if n >= 10 {
      DigitsHaveNoNewline(n / 10);
    }
  }

  lemma RowTextHasNoNewline(row: AnalyticsRow, uuidText: Uuid -> string)
    requires row.driverId.Some? && '\n' !in uuidText(row.driverId.value)
    ensures '\n' !in RowText(row, uuidText)
    ensures |RowText(row, uuidText)| > 0
  {
    DigitsHaveNoNewline(if row.start < 0 then -row.start else row.start);
    DigitsHaveNoNewline(if row.end < 0 then -row.end else row.end);
  }

  /** The report's first line is the header and every later line is one row. */
  lemma CsvLines(rows: seq<AnalyticsRow>, uuidText: Uuid -> string)
    requires forall u :: '\n' !in uuidText(u)
    requires Csv(rows, uuidText).Ok?
    ensures Lines(Csv(rows, uuidText).value) == [Header] + RowTexts(rows, uuidText)
  {
    var texts := RowTexts(rows, uuidText);
    var parts := [Header] + texts;
    assert Csv(rows, uuidText).value == JoinLines(parts);
    HeaderIsOneLine();
    forall i | 0 <= i < |texts|
      ensures '\n' !in texts[i]
    {
      RowTextHasNoNewline(rows[i], uuidText);
    }
    assert forall i :: 0 <= i < |parts| ==> '\n' !in parts[i] by {
      forall i | 0 <= i < |parts|
        ensures '\n' !in parts[i]
      {
        if i > 0 {
          assert parts[i] == texts[i - 1];
        }
      }
    }
    LinesOfJoin(parts);
  }

  /**
   * As written, nothing separates the header from the first row: with any
   * row at all, the first line is the header with that row glued to it.
   */
  lemma CsvAsWrittenMergesHeader(rows: seq<AnalyticsRow>, uuidText: Uuid -> string)
    requires forall u :: '\n' !in uuidText(u)
    requires CsvAsWritten(rows, uuidText).Ok? && rows != []
    ensures Lines(CsvAsWritten(rows, uuidText).value)[0] == Header + RowText(rows[0], uuidText)
    ensures Lines(CsvAsWritten(rows, uuidText).value)[0] != Header
  {
    var texts := RowTexts(rows, uuidText);
    var parts := [Header + texts[0]] + texts[1..];
    assert Header + JoinLines(texts) == JoinLines(parts) by {
      if |texts| > 1 {
        assert texts[1..] == parts[1..];
      }
    }
    HeaderIsOneLine();
    forall i | 0 <= i < |parts|
      ensures '\n' !in parts[i]
    {
      RowTextHasNoNewline(rows[i], uuidText);
    }
    LinesOfJoin(parts);
    RowTextHasNoNewline(rows[0], uuidText);
    assert |parts[0]| > |Header|;
  }

  // ---------------------------------------------------------------------
  // The loops

  /**
   * The first loop: from the first pair of completed events, move one
   * event on while nobody is on board and events remain. Fails on a null
   * delta; otherwise stops at FirstPeriodFrom.
   */
  method FirstLoop(ce: seq<Event>) returns (failed: bool, j: nat, passengers: int)
    requires |ce| >= 2
    ensures failed ==> exists k :: 1 <= k <= |ce| - 2 && ce[k].passengerDelta.None?
    ensures !failed ==> j == FirstPeriodFrom(ce, 0) && passengers == Onboard(ce, j) &&
                        forall k :: 1 <= k <= j ==> ce[k].passengerDelta.Some?
  {
    passengers := 0;
    var current, next := ce[0], ce[1];
    // current is ce[j], next is ce[j + 1]; the iterator stands at j + 2
    j := 0;
    while passengers == 0 && j + 2 < |ce|
      invariant 0 <= j <= |ce| - 2
      invariant current == ce[j] && next == ce[j + 1]
      invariant forall k :: 1 <= k <= j ==> ce[k].passengerDelta.Some?
      invariant passengers == Onboard(ce, j)
      invariant FirstPeriodFrom(ce, j) == FirstPeriodFrom(ce, 0)
    {
      current, next := next, ce[j + 2];
      if current.passengerDelta.None? {
        assert ce[j + 1].passengerDelta.None?;
        return true, j, passengers;
      }
      passengers := Add32(passengers, current.passengerDelta.value);
      j := j + 1;
    }
    failed := false;
  }

  /**
   * The P1 row and the second loop: one row per remaining pair, labelled
   * by the running count. Fails on a null delta or time.
   */
  method SecondLoop(driver: Option<Uuid>, ce: seq<Event>, j0: nat, onboard: int) returns (r: Result<seq<AnalyticsRow>>)
    requires |ce| >= 2 && j0 <= |ce| - 2 && onboard == Onboard(ce, j0)
    requires forall k :: 1 <= k <= j0 ==> ce[k].passengerDelta.Some?
    requires j0 == FirstPeriodFrom(ce, 0)
    ensures r == PairRows(driver, ce)
  {
    var passengers := onboard;
    var current, next := ce[j0], ce[j0 + 1];
    var j := j0;
    if current.time.None? || next.time.None? {
      assert ce[j].time.None? || ce[j + 1].time.None?;
      return Err(NullPointer);
    }
    var rows := [AnalyticsRow(driver, P1, EpochSecond(current.time.value), EpochSecond(next.time.value))];
    while j + 2 < |ce|
      invariant j0 <= j <= |ce| - 2
      invariant current == ce[j] && next == ce[j + 1]
      invariant forall k :: 1 <= k <= j ==> ce[k].passengerDelta.Some?
      invariant forall k :: j0 <= k <= j + 1 ==> ce[k].time.Some?
      invariant passengers == Onboard(ce, j)
      invariant |rows| == j - j0 + 1
      invariant rows[0] == AnalyticsRow(driver, P1, Seconds(ce[j0]), Seconds(ce[j0 + 1]))
      invariant forall i :: 1 <= i < |rows| ==>
                  rows[i] == AnalyticsRow(driver, Label(Onboard(ce, j0 + i)), Seconds(ce[j0 + i]), Seconds(ce[j0 + i + 1]))
    {
      current, next := next, ce[j + 2];
      if current.passengerDelta.None? {
        assert ce[j + 1].passengerDelta.None?;
        return Err(NullPointer);
      }
      passengers := Add32(passengers, current.passengerDelta.value);
      if next.time.None? {
        assert ce[j + 2].time.None?;
        return Err(NullPointer);
      }
      rows := rows + [AnalyticsRow(driver, if passengers > 0 then P3 else P2,
                                   EpochSecond(current.time.value), EpochSecond(next.time.value))];
      j := j + 1;
    }
    RowsFromP1(driver, ce, j0, rows);
    r := Ok(rows);
  }

  /** Rows built pair by pair from j0 to the end are the P1 row and the later rows. */
  lemma RowsFromP1(driver: Option<Uuid>, ce: seq<Event>, j0: nat, rows: seq<AnalyticsRow>)
    requires |ce| >= 2 && j0 == FirstPeriodFrom(ce, 0) && j0 <= |ce| - 2
    requires forall k :: 1 <= k <= |ce| - 2 ==> ce[k].passengerDelta.Some?
    requires forall k :: j0 <= k < |ce| ==> ce[k].time.Some?
    requires |rows| == |ce| - 1 - j0
    requires rows[0] == AnalyticsRow(driver, P1, Seconds(ce[j0]), Seconds(ce[j0 + 1]))
    requires forall i :: 1 <= i < |rows| ==>
               rows[i] == AnalyticsRow(driver, Label(Onboard(ce, j0 + i)), Seconds(ce[j0 + i]), Seconds(ce[j0 + i + 1]))
    ensures PairRows(driver, ce) == Ok(rows)
  {
    var later := LaterRows(driver, ce, j0 + 1);
    assert rows == [rows[0]] + later;
    assert !(exists k :: 1 <= k <= |ce| - 2 && ce[k].passengerDelta.None?);
    assert !(exists k :: j0 <= k < |ce| && ce[k].time.None?);
  }

  /** One shift's pass over its completed events. */
  method WalkShift(shift: Shift) returns (r: Result<seq<AnalyticsRow>>)
    ensures r == ShiftRows(shift)
  {
    if shift.events.None? {
      return Err(NullPointer);
    }
    var ce := CompleteEvents(shift.events.value);
    if |ce| == 0 {
      return Ok([]);
    }
    if |ce| == 1 {
      return Err(NoSuchElement);
    }
    var failed, j, passengers := FirstLoop(ce);
    if failed {
      return Err(NullPointer);
    }
    r := SecondLoop(shift.driverId, ce, j, passengers);
  }

  /** The rows of the shifts already walked, put in front of what the remaining ones give. */
  function After(output: seq<AnalyticsRow>, rest: Result<seq<AnalyticsRow>>): Result<seq<AnalyticsRow>>
  {
    if rest.Ok? then Ok(output + rest.value) else rest
  }

  /** Walking one more shift: its rows join the output, or its exception is the result. */
  lemma AllRowsStep(shifts: seq<Shift>, s: nat, output: seq<AnalyticsRow>)
    requires s < |shifts|
    ensures ShiftRows(shifts[s]).Err? ==> After(output, AllRows(shifts[s..])) == Err(ShiftRows(shifts[s]).error)
    ensures ShiftRows(shifts[s]).Ok? ==>
              After(output, AllRows(shifts[s..])) ==
                After(output + ShiftRows(shifts[s]).value, AllRows(shifts[s + 1..]))
  {
    assert shifts[s..][0] == shifts[s] && shifts[s..][1..] == shifts[s + 1..];
    var rest := AllRows(shifts[s + 1..]);
    if ShiftRows(shifts[s]).Ok? && rest.Ok? {
      var rows := ShiftRows(shifts[s]).value;
      assert output + (rows + rest.value) == (output + rows) + rest.value;
    }
  }

  /** getAnalytics: the shifts' rows in order, then the report text. */
  method GetAnalytics(shifts: seq<Shift>, uuidText: Uuid -> string) returns (r: Result<string>)
    ensures r == Analytics(shifts, uuidText)
  {
    var output: seq<AnalyticsRow> := [];
    var s := 0;
    assert shifts[s..] == shifts;
    assert After(output, AllRows(shifts)) == AllRows(shifts) by {
      if AllRows(shifts).Ok? {
        assert output + AllRows(shifts).value == AllRows(shifts).value;
      }
    }
    while s < |shifts|
      invariant 0 <= s <= |shifts|
      invariant AllRows(shifts) == After(output, AllRows(shifts[s..]))
    {
      AllRowsStep(shifts, s, output);
      var rows := WalkShift(shifts[s]);
      if rows.Err? {
        return Err(rows.error);
      }
      output := output + rows.value;
      s := s + 1;
    }
    assert shifts[s..] == [];
    assert output + [] == output;
    r := Csv(output, uuidText);
  }
}
