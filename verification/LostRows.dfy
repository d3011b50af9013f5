// Two rows that filter pushdown loses, with a service, casts and a printer that keep to all that
// is asked of them. The printer and the readers know whole numbers, which is enough here.
module LostRows {
  import opened AsciiText
  import opened BridgeWrite
  import opened CatalogClient
  import opened CatalogRules
  import opened CodaJson
  import opened CodaService
  import opened Doubles
  import opened DuckValues
  import opened Pushdown
  import opened PushdownMeaning
  import opened QueryText
  import opened ScanValues
  import opened Sequences
  import opened Wrappers

  // ------------------------------------------------------- whole numbers

  function ShowWhole(x: real): string {
    PrintInt(x.Floor) + ".0"
  }

  // What str::parse::<f64> makes of an integer; too large ones are left out.
  ghost function Rounded(n: int): Option<real> {
    if IsDouble(Round(n) as real) then Some(Round(n) as real) else None
  }

  ghost function ReadWhole(s: string): Option<real> {
    if |s| > 2 && s[|s| - 2..] == ".0" && IsInteger(s[..|s| - 2]) then Rounded(IntegerValue(s[..|s| - 2])) else None
  }

  ghost function ParseWhole(s: string): Option<real> {
    if IsInteger(s) then Rounded(IntegerValue(s)) else ReadWhole(s)
  }

  function CastText(s: string, t: LogicalType): Option<Value> {
    if t == VARCHAR then Some(VarcharValue(s)) else None
  }

  ghost const WHOLE: Numbers := Numbers(ShowWhole, ShowWhole, ReadWhole)
  ghost const WHOLE_CASTS: Casts := Casts(ParseWhole, CastText)

  lemma {:induction false} WholeIsRegular()
    ensures Regular(WHOLE_CASTS, WHOLE)
  {
    forall s | IsInteger(s) && IsDouble(IntegerValue(s) as real)
      ensures WHOLE_CASTS.parseDouble(s) == Some(IntegerValue(s) as real)
    {
      DoubleIsExact(IntegerValue(s));
    }
  }

  lemma {:induction false} WholeIsFaithful(n: int)
    requires IsDouble(n as real)
    ensures WHOLE.Faithful(JReal(n as real))
  {
    var s, digits := ShowWhole(n as real), PrintInt(n);
    assert (n as real).Floor == n && s == digits + ".0";
    assert s[..|s| - 2] == digits && s[|s| - 2..] == ".0";
    IntegerRoundTrip(n);
    DoubleIsExact(n);
    PrintedChars(n);
    assert s[|s| - 2] == '.';
    if IsInteger(s) {
      IntegerHasDigits(s, |s| - 2);
    }
  }

  lemma {:induction false} IntegerHasDigits(s: string, k: nat)
    requires IsInteger(s) && 0 < k < |s|
    ensures IsDigit(s[k])
  {
    assert s[0] == '-' ==> s[1..][k - 1] == s[k];
  }

  lemma {:induction false} PrintedChars(n: int)
    ensures PrintInt(n) != "" && forall i :: 0 <= i < |PrintInt(n)| ==> IsDigit(PrintInt(n)[i]) || PrintInt(n)[i] == '-'
  {
  }

  // ------------------------------------------------------- one column, one row

  // A service that compares JSON values.
  ghost predicate Answers(query: string, row: RowInfo) {
    match ReadQuery(WHOLE, query)
    case None => false
    case Some((id, j)) => HasCell(WHOLE, row, id, j)
  }

  // A column as the service lists it.
  function ColumnOf(format: string): ColumnInfo {
    ParseColumn(ColumnItem(Some("c"), Some("C"), Some(ColumnFormat(Some(format), None)), None)).value
  }

  ghost function MeaningOf(format: string): Semantics {
    Semantics(Get(0, [Physical(0)]), CatalogTableInfo("t", "T", 0, [ColumnOf(format)]), WHOLE_CASTS, (e, row) => Null)
  }

  // `c = v`, its text, and a row whose cell is a number.
  function Equals(v: Value): Expr {
    Equal(ColumnRef(0, 0), Constant(v))
  }

  ghost function TextOf(v: Value): string
    requires !v.Null?
  {
    "c:" + Literal(WHOLE, JsonOf(v))
  }

  function RowWith(number: string): RowInfo {
    RowInfo("r", "", "", false, [CellInfo("c", 4, number)])
  }

  lemma {:induction false} AllIsGiven(format: string, v: Value)
    requires HasType(v, DuckType(ColumnOf(format).logicalType)) && WHOLE.Faithful(JsonOf(v))
    ensures Given(WHOLE, MeaningOf(format), Answers, 0)
    ensures Pushed(WHOLE, MeaningOf(format), Equals(v), 0, v, TextOf(v))
  {
    WholeIsRegular();
    ParsedColumnSound(ColumnItem(Some("c"), Some("C"), Some(ColumnFormat(Some(format), None)), None));
    ColumnCapabilityRules(false, false);
    InputJson(v);
    assert "c" + ":" == "c:";
  }

  // The query has the row without pushdown and not with it.
  ghost predicate IsLost(meaning: Semantics, v: Value, row: RowInfo)
    requires !v.Null?
  {
    && meaning.Select([Equals(v)], [row]) == [row]
    && meaning.Select([], ReplyTo(Answers, TextOf(v), [row])) == []
  }

  lemma {:induction false} NotNativeIsLost(format: string, v: Value, number: string)
    requires HasType(v, DuckType(ColumnOf(format).logicalType)) && WHOLE.Faithful(JsonOf(v))
    requires MeaningOf(format).ColumnValue(0, RowWith(number)) == v
    requires !NativeCell(WHOLE, ColumnOf(format), RowWith(number))
    ensures IsLost(MeaningOf(format), v, RowWith(number))
  {
    var meaning, row := MeaningOf(format), RowWith(number);
    AllIsGiven(format, v);
    QueryMeansFilter(WHOLE, meaning, Answers, Equals(v), 0, v, TextOf(v), row);
    EqualityHolds(meaning, Equals(v), 0, v, row);
    assert meaning.AllHold([Equals(v)], row);
    OneRow((row: RowInfo) => meaning.AllHold([Equals(v)], row), row);
    OneRow((row: RowInfo) => Answers(TextOf(v), row), row);
  }

  lemma {:induction false} OneRow(keep: RowInfo -> bool, row: RowInfo)
    ensures Filter(keep, [row]) == if keep(row) then [row] else []
  {
    FilterPush(keep, [], row);
    assert [] + [row] == [row];
  }

  // ------------------------------------------------------- the two rows

  lemma {:induction false} CellOf(number: string)
    ensures FindCell(RowWith(number).cells, "c") == Some(CellInfo("c", 4, number))
  {
    assert EqIgnoreCase("c", "c");
  }

  // The number 5 in a text column: `c = '5'` holds for the row, and the service, asked for the
  // text "5", does not keep it.
  lemma {:induction false} NumberInTextLost()
    ensures Given(WHOLE, MeaningOf("text"), Answers, 0)
    ensures Pushed(WHOLE, MeaningOf("text"), Equals(VarcharValue("5")), 0, VarcharValue("5"), TextOf(VarcharValue("5")))
    ensures IsLost(MeaningOf("text"), VarcharValue("5"), RowWith("5"))
  {
    CellOf("5");
    assert DuckType(ColumnOf("text").logicalType) == VARCHAR;
    AllIsGiven("text", VarcharValue("5"));
    NotNativeIsLost("text", VarcharValue("5"), "5");
  }

  lemma {:induction false} NumberColumn()
    ensures DuckType(ColumnOf("number").logicalType) == DOUBLE
  {
    assert EqIgnoreCase(NUMERIC_FORMATS[0], "number");
  }

  lemma {:induction false} NumberShows(number: string)
    requires ParseWhole(number).Some?
    ensures MeaningOf("number").ColumnValue(0, RowWith(number)) == DoubleValue(ParseWhole(number).value)
  {
    CellOf(number);
    NumberColumn();
  }

  lemma {:induction false} NumberIsNative(number: string)
    ensures NativeCell(WHOLE, ColumnOf("number"), RowWith(number)) <==> IsNative(WHOLE, CellInfo("c", 4, number), DOUBLE)
  {
    CellOf(number);
    NumberColumn();
  }

  lemma {:induction false} IntegerIsRead(n: int, number: string)
    requires number == PrintInt(n)
    ensures ParseWhole(number) == Rounded(n) && CellValue(WHOLE, CellInfo("c", 4, number)) == Some(JInt(n))
  {
    IntegerRoundTrip(n);
  }

  lemma {:induction false} RoundedShows(n: int, x: real, number: string)
    requires !IsDouble(n as real) && Rounded(n) == Some(x) && number == PrintInt(n)
    ensures MeaningOf("number").ColumnValue(0, RowWith(number)) == DoubleValue(x)
    ensures !NativeCell(WHOLE, ColumnOf("number"), RowWith(number))
  {
    IntegerIsRead(n, number);
    NumberShows(number);
    NumberIsNative(number);
  }

  lemma {:induction false} NumberIsLost(v: Value, number: string)
    requires v.DoubleValue? && IsDouble(v.x) && WHOLE.Faithful(JsonOf(v))
    requires MeaningOf("number").ColumnValue(0, RowWith(number)) == v
    requires !NativeCell(WHOLE, ColumnOf("number"), RowWith(number))
    ensures Given(WHOLE, MeaningOf("number"), Answers, 0)
    ensures Pushed(WHOLE, MeaningOf("number"), Equals(v), 0, v, TextOf(v))
    ensures IsLost(MeaningOf("number"), v, RowWith(number))
  {
    NumberColumn();
    AllIsGiven("number", v);
    NotNativeIsLost("number", v, number);
  }

  lemma {:induction false} RoundedIsFaithful(n: int, x: real)
    requires Rounded(n) == Some(x)
    ensures IsDouble(x) && WHOLE.Faithful(JReal(x))
  {
    WholeIsFaithful(Round(n));
  }

  // An integer that is no double, in a number column: it shows as the double x that it is
  // rounded to, so `c = x` holds for the row, and the service, asked for x, does not keep it.
  lemma {:induction false} RoundedIntegerLost(n: int, x: real, number: string)
    requires !IsDouble(n as real) && Rounded(n) == Some(x) && number == PrintInt(n)
    ensures Given(WHOLE, MeaningOf("number"), Answers, 0)
    ensures Pushed(WHOLE, MeaningOf("number"), Equals(DoubleValue(x)), 0, DoubleValue(x), TextOf(DoubleValue(x)))
    ensures IsLost(MeaningOf("number"), DoubleValue(x), RowWith(number))
  {
    RoundedIsFaithful(n, x);
    RoundedShows(n, x, number);
    NumberIsLost(DoubleValue(x), number);
  }

  // 2^53 + 1 is such an integer.
  lemma {:induction false} BigIntegerLost()
    ensures IsLost(MeaningOf("number"), DoubleValue(TWO_TO_53 as real), RowWith(PrintInt(TWO_TO_53 + 1)))
  {
    SmallIsDouble(TWO_TO_53);
    BigOddIsRounded();
    BigOddIsNoDouble();
    RoundedIntegerLost(TWO_TO_53 + 1, TWO_TO_53 as real, PrintInt(TWO_TO_53 + 1));
  }
}
