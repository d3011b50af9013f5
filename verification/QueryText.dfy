// The text of a pushed equality, `column:literal`, and how it reads back.
module QueryText {
  import opened AsciiText
  import opened CodaService
  import opened Mutation
  import opened Wrappers

  // How floating point numbers are written and read; this model leaves it open.
  datatype Numbers = Numbers(show: real -> string, describe: real -> string, read: string -> Option<real>) {
    // Printing this value keeps its number, if it has one, and does not look like an integer
    // or another literal.
    predicate Faithful(j: Json) {
      j.JReal? ==> read(show(j.x)) == Some(j.x) && IsRealText(show(j.x))
    }
  }

  predicate IsRealText(s: string) {
    s != "" && !IsInteger(s) && forall i :: 0 <= i < |s| ==> IsDigit(s[i]) || s[i] in "+-.eE"
  }

  // ------------------------------------------------------- string literals

  function HexDigit(d: nat): char
    requires d < 16
  {
    if d < 10 then Digit(d) else ('a' as int + d - 10) as char
  }

  function HexValue(c: char): Option<nat> {
    if IsDigit(c) then Some(c as int - '0' as int)
    else if 'a' <= c <= 'f' then Some(c as int - 'a' as int + 10)
    else if 'A' <= c <= 'F' then Some(c as int - 'A' as int + 10)
    else None
  }

  // Section 7 of RFC 8259 in the form that serde_json writes: the short escapes where there
  // is one, \u00xx for other control characters, and everything else as it is.
  function EscapeChar(c: char): string {
    if c == '"' then "\\\""
    else if c == '\\' then "\\\\"
    else if c as int == 8 then "\\b"
    else if c as int == 9 then "\\t"
    else if c as int == 10 then "\\n"
    else if c as int == 12 then "\\f"
    else if c as int == 13 then "\\r"
    else if c as int < 32 then "\\u00" + [HexDigit(c as int / 16), HexDigit(c as int % 16)]
    else [c]
  }

  function Escape(s: string): string {
    if s == "" then "" else EscapeChar(s[0]) + Escape(s[1..])
  }

  // The character after a backslash, where it is a short escape.
  function ShortEscape(c: char): Option<char> {
    match c
    case '"' => Some('"')
    case '\\' => Some('\\')
    case '/' => Some('/')
    case 'b' => Some(8 as char)
    case 't' => Some(9 as char)
    case 'n' => Some(10 as char)
    case 'f' => Some(12 as char)
    case 'r' => Some(13 as char)
    case _ => None
  }

  // The four digits of a \u escape; surrogates are no characters.
  function ReadHex(s: string): Option<char>
    requires |s| == 4
  {
    match (HexValue(s[0]), HexValue(s[1]), HexValue(s[2]), HexValue(s[3]))
    case (Some(a), Some(b), Some(c), Some(d)) =>
      var code := a * 4096 + b * 256 + c * 16 + d;
      if code < 0xD800 || 0xE000 <= code < 0x10000 then Some(code as char) else None
    case _ => None
  }

  function Prepend(c: char, rest: Option<string>): Option<string> {
    match rest
    case Some(s) => Some([c] + s)
    case None => None
  }

  // The short escapes are those of the characters' own letters.
  lemma {:induction false} ShortEscapes()
    ensures EscapeChar('\"') == "\\\"" && EscapeChar('\\') == "\\\\"
    ensures EscapeChar('\n') == "\\n" && EscapeChar('\r') == "\\r" && EscapeChar('\t') == "\\t"
  {
  }

  // What stands between the quotes, the closing one included.
  function ReadString(t: string): Option<string> {
    if t == "" then None
    else if t[0] == '"' then if |t| == 1 then Some("") else None
    else if t[0] == '\\' then
      if |t| >= 2 && ShortEscape(t[1]).Some? then Prepend(ShortEscape(t[1]).value, ReadString(t[2..]))
      else if |t| >= 6 && t[1] == 'u' && ReadHex(t[2..6]).Some? then
        Prepend(ReadHex(t[2..6]).value, ReadString(t[6..]))
      else None
    else if t[0] as int < 32 then None
    else Prepend(t[0], ReadString(t[1..]))
  }

  lemma ReadEscaped(c: char, rest: string)
    ensures ReadString(EscapeChar(c) + rest) == Prepend(c, ReadString(rest))
  {
    var e, t := EscapeChar(c), EscapeChar(c) + rest;
    assert t[|e|..] == rest;
    if |e| == 6 {
      var hi, lo := c as int / 16, c as int % 16;
      assert t[2..6] == ['0', '0', HexDigit(hi), HexDigit(lo)];
      assert HexValue(HexDigit(hi)) == Some(hi) && HexValue(HexDigit(lo)) == Some(lo);
      assert ReadHex(t[2..6]) == Some(c);
    }
  }

  lemma {:induction false} StringRoundTrip(s: string)
    ensures ReadString(Escape(s) + "\"") == Some(s)
  {
    if s == "" {
      assert Escape(s) + "\"" == "\"";
    } else {
      StringRoundTrip(s[1..]);
      ReadEscaped(s[0], Escape(s[1..]) + "\"");
      assert Escape(s) + "\"" == EscapeChar(s[0]) + (Escape(s[1..]) + "\"");
      assert [s[0]] + s[1..] == s;
    }
  }

  // ------------------------------------------------------- literals

  predicate IsScalar(j: Json) {
    !j.JArray? && !j.JObject?
  }

  function Literal(numbers: Numbers, j: Json): string
    requires IsScalar(j)
  {
    match j
    case JNull => "null"
    case JBool(b) => if b then "true" else "false"
    case JInt(n) => PrintInt(n)
    case JReal(x) => numbers.show(x)
    case JString(s) => "\"" + Escape(s) + "\""
  }

  function ReadLiteral(numbers: Numbers, t: string): Option<Json> {
    if t == "null" then Some(JNull)
    else if t == "true" then Some(JBool(true))
    else if t == "false" then Some(JBool(false))
    else if t != "" && t[0] == '"' then
      match ReadString(t[1..]) {
        case Some(s) => Some(JString(s))
        case None => None
      }
    else if IsInteger(t) then Some(JInt(IntegerValue(t)))
    else
      match numbers.read(t)
      case Some(x) => Some(JReal(x))
      case None => None
  }

  lemma LiteralRoundTrip(numbers: Numbers, j: Json)
    requires IsScalar(j) && numbers.Faithful(j)
    ensures ReadLiteral(numbers, Literal(numbers, j)) == Some(j)
  {
    var t := Literal(numbers, j);
    match j {
      case JInt(n) =>
        IntegerRoundTrip(n);
        assert IsDigit(t[0]) || t[0] == '-';
      case JReal(x) =>
        assert IsRealText(numbers.show(x));
      case JString(s) =>
        assert t[1..] == Escape(s) + "\"";
        StringRoundTrip(s);
      case _ =>
    }
  }

  // ------------------------------------------------------- queries

  // build_equality_query: the query and its description.
  function BuildEqualityQuery(numbers: Numbers, columnId: string, columnName: string, value: InputValue<string>)
      : (r: Result<(string, string), Error>)
    ensures r.Failure? <==> value.valueType == 0
    ensures r.Success? ==> r.value.0 != ""
  {
    if value.valueType == 0 then Failure(NullQueryValue)
    else
      Success((columnId + ":" + Literal(numbers, InputValueJson(value)), columnName + " = " + Describe(numbers, value)))
  }

  function Describe(numbers: Numbers, value: InputValue<string>): string {
    match value.valueType
    case 1 => if value.boolValue then "true" else "false"
    case 2 => PrintInt(value.intValue)
    case 3 => Decimal(value.uintValue)
    case 4 => numbers.describe(value.doubleValue)
    case 5 => value.stringValue
    case _ => "NULL"
  }

  // A text at its first colon.
  function SplitColon(t: string): Option<(string, string)> {
    if t == "" then None
    else if t[0] == ':' then Some(("", t[1..]))
    else
      match SplitColon(t[1..])
      case Some((before, after)) => Some(([t[0]] + before, after))
      case None => None
  }

  lemma {:induction false} SplitColonFirst(id: string, rest: string)
    ensures var split := SplitColon(id + ":" + rest);
            split.Some? && (if ':' in id then |split.value.0| < |id| else split.value == (id, rest))
  {
    var t := id + ":" + rest;
    if id == "" {
      assert t == ":" + rest && t[1..] == rest;
    } else if id[0] != ':' {
      assert t[1..] == id[1..] + ":" + rest;
      SplitColonFirst(id[1..], rest);
      assert [id[0]] + id[1..] == id;
      assert ':' in id <==> ':' in id[1..];
    }
  }

  // A query as a service understands it: the column id and the value.
  function ReadQuery(numbers: Numbers, query: string): Option<(string, Json)> {
    match SplitColon(query)
    case None => None
    case Some((id, literal)) =>
      match ReadLiteral(numbers, literal)
      case None => None
      case Some(j) => Some((id, j))
  }

  // A query reads back as the column and the value it was built from exactly when the column
  // id has no colon.
  lemma QueryRoundTrip(numbers: Numbers, columnId: string, columnName: string, value: InputValue<string>)
    requires value.valueType != 0 && numbers.Faithful(InputValueJson(value))
    ensures var query := BuildEqualityQuery(numbers, columnId, columnName, value).value.0;
            ReadQuery(numbers, query) == Some((columnId, InputValueJson(value))) <==> ':' !in columnId
  {
    SplitColonFirst(columnId, Literal(numbers, InputValueJson(value)));
    LiteralRoundTrip(numbers, InputValueJson(value));
  }

  // ------------------------------------------------------- distinct queries

  lemma {:induction false} QuotesAreEscaped(s: string, i: nat)
    requires i < |Escape(s)| && Escape(s)[i] == '"'
    ensures i > 0 && Escape(s)[i - 1] == '\\'
  {
    var e := EscapeChar(s[0]);
    if i >= |e| {
      QuotesAreEscaped(s[1..], i - |e|);
    }
  }

  // Other literals have neither colons nor quotes.
  lemma PlainLiteral(numbers: Numbers, j: Json, i: nat)
    requires IsScalar(j) && numbers.Faithful(j) && !j.JString? && i < |Literal(numbers, j)|
    ensures Literal(numbers, j)[i] != ':' && Literal(numbers, j)[i] != '"'
  {
    match j {
      case JInt(n) =>
        assert n < 0 && i > 0 ==> IsDigit(Decimal(-n)[i - 1]);
        assert n >= 0 ==> IsDigit(Decimal(n)[i]);
      case JReal(x) =>
        assert IsRealText(numbers.show(x));
      case _ =>
    }
  }

  // A literal does not end with a colon and another literal.
  lemma NoLiteralInside(numbers: Numbers, j1: Json, j2: Json, k: nat)
    requires IsScalar(j1) && IsScalar(j2) && numbers.Faithful(j1) && numbers.Faithful(j2)
    requires k < |Literal(numbers, j1)| && Literal(numbers, j1)[k] == ':'
    ensures Literal(numbers, j1)[k + 1..] != Literal(numbers, j2)
  {
    var t1, t2 := Literal(numbers, j1), Literal(numbers, j2);
    if !j1.JString? {
      PlainLiteral(numbers, j1, k);
    } else if t1[k + 1..] == t2 {
      assert t2[|t2| - 1] == t1[|t1| - 1] == '"';
      if !j2.JString? {
        PlainLiteral(numbers, j2, |t2| - 1);
      } else {
        assert t2[0] == t1[k + 1];
        QuotesAreEscaped(j1.s, k);
      }
    }
  }

  // Distinct predicates have distinct queries, colons in the ids or not.
  lemma QueriesDistinct(numbers: Numbers, id1: string, id2: string, name1: string, name2: string,
                        v1: InputValue<string>, v2: InputValue<string>)
    requires v1.valueType != 0 && v2.valueType != 0
    requires numbers.Faithful(InputValueJson(v1)) && numbers.Faithful(InputValueJson(v2))
    requires BuildEqualityQuery(numbers, id1, name1, v1).value.0 == BuildEqualityQuery(numbers, id2, name2, v2).value.0
    ensures id1 == id2 && InputValueJson(v1) == InputValueJson(v2)
  {
    if |id1| <= |id2| {
      SameQuery(numbers, id1, id2, InputValueJson(v1), InputValueJson(v2));
    } else {
      SameQuery(numbers, id2, id1, InputValueJson(v2), InputValueJson(v1));
    }
  }

  lemma SameQuery(numbers: Numbers, id1: string, id2: string, j1: Json, j2: Json)
    requires IsScalar(j1) && IsScalar(j2) && numbers.Faithful(j1) && numbers.Faithful(j2) && |id1| <= |id2|
    requires id1 + ":" + Literal(numbers, j1) == id2 + ":" + Literal(numbers, j2)
    ensures id1 == id2 && j1 == j2
  {
    var q, t1, t2 := id1 + ":" + Literal(numbers, j1), Literal(numbers, j1), Literal(numbers, j2);
    assert q[|id1| + 1..] == t1 && q[|id2| + 1..] == t2 && q[|id2|] == ':';
    if |id1| < |id2| {
      var k := |id2| - |id1| - 1;
      assert t1[k] == q[|id2|];
      assert t1[k + 1..] == t2;
      NoLiteralInside(numbers, j1, j2, k);
    } else {
      assert q[..|id1|] == id1 && q[..|id2|] == id2;
      LiteralRoundTrip(numbers, j1);
      LiteralRoundTrip(numbers, j2);
    }
  }
}
