/**
 The row key of a table: the values of its key columns, each as `N` for NULL or as `S`, the
 decimal length, a colon and the text. The store computes it with an SQL expression and the undo
 log computes it from the statement; both must name the same row, and no two lists may clash.
 */
module RowKey {

  import opened Collections

  /** A column value as text; NULL is None. */
  type Value = Option<string>

  function Digit(n: nat): char
    requires n < 10
  {
    '0' + n as char
  }

  function Decimal(n: nat): string {
    if n < 10 then [Digit(n)] else Decimal(n / 10) + [Digit(n % 10)]
  }

  function EncodeValue(v: Value): string {
    match v
    case None => "N"
    case Some(text) => "S" + Decimal(|text|) + ":" + text
  }

  function EncodeKey(values: seq<Value>): string {
    if values == [] then "" else EncodeValue(values[0]) + EncodeKey(values[1..])
  }

  method Encode(values: seq<Value>) returns (result: string)
    ensures result == EncodeKey(values)
  {
    result := "";
    for i := 0 to |values|
      invariant result + EncodeKey(values[i..]) == EncodeKey(values)
    {
      ghost var more := EncodeKey(values[i + 1..]);
      assert values[i..][1..] == values[i + 1..];
      Regroup(result, EncodeValue(values[i]), more);
      if values[i] == None {
        result := result + "N";
        continue;
      }
      result := result + ("S" + Decimal(|values[i].value|) + ":" + values[i].value);
    }
    assert values[|values|..] == [] && result + "" == result;
  }

  lemma Regroup(a: string, b: string, c: string)
    ensures a + (b + c) == a + b + c
  {
  }

  // ---- Reading a key back ----

  predicate IsDigit(c: char) {
    '0' <= c <= '9'
  }

  /** Reads digits onto `n` and returns the number with what follows. */
  function ReadNumber(n: nat, s: string): (nat, string)
    decreases |s|
  {
    if s != "" && IsDigit(s[0]) then ReadNumber(10 * n + (s[0] - '0') as nat, s[1..]) else (n, s)
  }

  function DecodeKey(s: string): Option<seq<Value>>
    decreases |s|
  {
    if s == "" then Some([])
    else if s[0] == 'N' then
      match DecodeKey(s[1..]) case None => None case Some(vs) => Some([Option<string>.None] + vs)
    else if s[0] == 'S' then
      var (n, rest) := ReadNumber(0, s[1..]);
      if 1 + n <= |rest| < |s| && rest[0] == ':' then
        match DecodeKey(rest[1 + n..]) case None => None case Some(vs) => Some([Some(rest[1..1 + n])] + vs)
      else None
    else None
  }

  function Pow10(n: nat): nat {
    if n == 0 then 1 else 10 * Pow10(n - 1)
  }

  lemma {:induction false} ReadDecimal(m: nat, n: nat, rest: string)
    requires rest == "" || !IsDigit(rest[0])
    ensures ReadNumber(m, Decimal(n) + rest) == (m * Pow10(|Decimal(n)|) + n, rest)
    decreases n
  {
    ReadDigits(m, n, rest);
    assert ReadNumber(m * Pow10(|Decimal(n)|) + n, rest) == (m * Pow10(|Decimal(n)|) + n, rest);
  }

  lemma {:induction false} ReadDigits(m: nat, n: nat, rest: string)
    ensures ReadNumber(m, Decimal(n) + rest) == ReadNumber(m * Pow10(|Decimal(n)|) + n, rest)
    decreases n
  {
    if n < 10 {
      assert ([Digit(n)] + rest)[1..] == rest;
      assert Pow10(1) == 10 * Pow10(0);
    } else {
      var front, last := Decimal(n / 10), Digit(n % 10);
      assert front + [last] + rest == front + ([last] + rest);
      ReadDigits(m, n / 10, [last] + rest);
      var k := m * Pow10(|front|) + n / 10;
      assert ([last] + rest)[1..] == rest;
      assert ReadNumber(k, [last] + rest) == ReadNumber(10 * k + n % 10, rest);
      assert Pow10(|front| + 1) == 10 * Pow10(|front|);
      Shifted(m, Pow10(|front|), n);
    }
  }

  lemma Shifted(m: nat, power: nat, n: nat)
    ensures 10 * (m * power + n / 10) + n % 10 == m * (10 * power) + n
  {
    assert m * (10 * power) == 10 * (m * power);
  }

  lemma DecodeText(text: string, more: string)
    ensures DecodeKey(EncodeValue(Some(text)) + more) ==
            match DecodeKey(more) case None => None case Some(vs) => Some([Some(text)] + vs)
  {
    var rest := ":" + text + more;
    var s := EncodeValue(Some(text)) + more;
    assert s == "S" + (Decimal(|text|) + rest);
    assert s[1..] == Decimal(|text|) + rest;
    ReadDecimal(0, |text|, rest);
    assert rest[1 + |text|..] == more && rest[1..1 + |text|] == text;
  }

  /** Every list of values can be read back from its key. */
  lemma {:induction false} DecodeEncode(values: seq<Value>)
    ensures DecodeKey(EncodeKey(values)) == Some(values)
    decreases |values|
  {
    if values != [] {
      var more := EncodeKey(values[1..]);
      DecodeEncode(values[1..]);
      assert values == [values[0]] + values[1..];
      if values[0] == None {
        assert ("N" + more)[1..] == more;
      } else {
        DecodeText(values[0].value, more);
      }
    }
  }

  /** Equal keys come from equal lists of values. */
  lemma KeysAreUnique(a: seq<Value>, b: seq<Value>)
    requires EncodeKey(a) == EncodeKey(b)
    ensures a == b
  {
    DecodeEncode(a);
    DecodeEncode(b);
  }

  // ---- The materialised key column ----

  /** The SQL functions used by the key column, over nullable text. */
  datatype Sql =
    | Column(name: string)
    | Literal(text: string)
    | IfNull(value: Sql, other: Sql)
    | Length(value: Sql)
    | Concat(parts: seq<Sql>)
    | IfIsNull(value: Sql, then_: Sql, else_: Sql)

  /** `length` is rendered by toString; concat of a NULL is NULL. */
  function Eval(e: Sql, row: map<string, Value>): Value {
    match e
    case Column(name) => if name in row then row[name] else None
    case Literal(text) => Some(text)
    case IfNull(value, other) => if Eval(value, row) == None then Eval(other, row) else Eval(value, row)
    case Length(value) => if Eval(value, row) == None then None else Some(Decimal(|Eval(value, row).value|))
    case Concat(parts) => EvalConcat(parts, row)
    case IfIsNull(value, then_, else_) => if Eval(value, row) == None then Eval(then_, row) else Eval(else_, row)
  }

  function EvalConcat(parts: seq<Sql>, row: map<string, Value>): Value {
    if parts == [] then Some("")
    else
      var first, more := Eval(parts[0], row), EvalConcat(parts[1..], row);
      if first == None || more == None then None else Some(first.value + more.value)
  }

  function KeyPart(column: string): Sql {
    var value := IfNull(Column(column), Literal(""));
    IfIsNull(Column(column), Literal("N"), Concat([Literal("S"), Length(value), Literal(":"), value]))
  }

  function KeyParts(columns: seq<string>): seq<Sql> {
    if columns == [] then [] else [KeyPart(columns[0])] + KeyParts(columns[1..])
  }

  function KeyExpression(columns: seq<string>): Sql {
    Concat(KeyParts(columns))
  }

  function QuoteName(name: string): string {
    "`" + DoubleBackquotes(name) + "`"
  }

  function DoubleBackquotes(s: string): string {
    if s == "" then "" else (if s[0] == '`' then "``" else [s[0]]) + DoubleBackquotes(s[1..])
  }

  /** The text of an expression. `IfNull` takes the text form of its value, `Length` gives its own. */
  function Render(e: Sql): string {
    match e
    case Column(name) => QuoteName(name)
    case Literal(text) => "'" + text + "'"
    case IfNull(value, other) => "ifNull(toString(" + Render(value) + "), " + Render(other) + ")"
    case Length(value) => "toString(length(" + Render(value) + "))"
    case Concat(parts) => "concat(" + RenderAll(parts) + ")"
    case IfIsNull(value, then_, else_) =>
      "if(isNull(" + Render(value) + "), " + Render(then_) + ", " + Render(else_) + ")"
  }

  function RenderAll(parts: seq<Sql>): string {
    if parts == [] then ""
    else if |parts| == 1 then Render(parts[0])
    else Render(parts[0]) + ", " + RenderAll(parts[1..])
  }

  lemma {:induction false} RenderSnoc(parts: seq<Sql>, last: Sql)
    ensures RenderAll(parts + [last]) == if parts == [] then Render(last) else RenderAll(parts) + ", " + Render(last)
    decreases |parts|
  {
    hide Render;
    if parts == [] {
      assert [] + [last] == [last];
    } else {
      assert (parts + [last])[1..] == parts[1..] + [last];
      RenderSnoc(parts[1..], last);
      if |parts| > 1 { SameText(Render(parts[0]) + ", ", RenderAll(parts[1..]), ", ", Render(last)); }
    }
  }

  lemma SameText(a: string, b: string, c: string, d: string)
    ensures a + (b + c + d) == a + b + c + d
  {
  }

  lemma {:induction false} KeyPartsSnoc(columns: seq<string>, n: nat)
    requires n < |columns|
    ensures KeyParts(columns[..n + 1]) == KeyParts(columns[..n]) + [KeyPart(columns[n])]
    ensures |KeyParts(columns[..n])| == n
    decreases n
  {
    if n == 0 {
      assert columns[..1] == [columns[0]] && columns[..1][1..] == [] && columns[..0] == [];
    } else {
      KeyPartsSnoc(columns[1..], n - 1);
      assert columns[..n + 1][1..] == columns[1..][..n] && columns[..n][1..] == columns[1..][..n - 1];
    }
  }

  lemma RenderFour(a: Sql, b: Sql, c: Sql, d: Sql)
    ensures RenderAll([a, b, c, d]) == Render(a) + ", " + (Render(b) + ", " + (Render(c) + ", " + Render(d)))
  {
    hide Render;
    assert [a, b, c, d][1..] == [b, c, d] && [b, c, d][1..] == [c, d] && [c, d][1..] == [d];
    assert RenderAll([d]) == Render(d);
    assert RenderAll([c, d]) == Render(c) + ", " + RenderAll([d]);
  }

  function PartText(quoted: string, value: string): string {
    var parts := "'S'" + ", " + ("toString(length(" + value + "))" + ", " + ("':'" + ", " + value));
    "if(isNull(" + quoted + "), " + "'N'" + ", " + ("concat(" + parts + ")") + ")"
  }

  lemma KeyPartText(column: string)
    ensures Render(KeyPart(column)) ==
            PartText(QuoteName(column), "ifNull(toString(" + QuoteName(column) + "), " + "''" + ")")
  {
    hide RenderAll, QuoteName;
    var value := IfNull(Column(column), Literal(""));
    RenderFour(Literal("S"), Length(value), Literal(":"), value);
    assert Render(Literal("")) == "''" && Render(Literal("S")) == "'S'" && Render(Literal(":")) == "':'" &&
      Render(Literal("N")) == "'N'";
  }

  /** `clickHouseKeyExpression`: the text that defines the key column is that expression. */
  method KeyExpressionText(columns: seq<string>) returns (text: string)
    ensures text == Render(KeyExpression(columns))
  {
    hide Render, RenderAll, KeyPart, PartText;
    var parts := "";
    assert columns[..0] == [] && KeyParts([]) == [];
    NothingRendered();
    for i := 0 to |columns|
      invariant parts == RenderAll(KeyParts(columns[..i]))
    {
      var quoted := QuoteName(columns[i]);
      var value := "ifNull(toString(" + quoted + "), " + "''" + ")";
      KeyPartText(columns[i]);
      KeyPartsSnoc(columns, i);
      RenderSnoc(KeyParts(columns[..i]), KeyPart(columns[i]));
      parts := if i == 0 then PartText(quoted, value) else parts + ", " + PartText(quoted, value);
    }
    assert columns[..|columns|] == columns;
    ConcatText(KeyParts(columns));
    text := "concat(" + parts + ")";
  }

  lemma NothingRendered()
    ensures RenderAll([]) == ""
  {
  }

  lemma ConcatText(parts: seq<Sql>)
    ensures Render(Concat(parts)) == "concat(" + RenderAll(parts) + ")"
  {
  }

  /** The store's own key of a row is the key the undo log computes from the row's key columns. */
  lemma {:induction false} MaterialisedKeyAgrees(columns: seq<string>, row: map<string, Value>)
    requires forall c | c in columns :: c in row
    ensures Eval(KeyExpression(columns), row) ==
            Some(EncodeKey(seq(|columns|, i requires 0 <= i < |columns| => row[columns[i]])))
    decreases |columns|
  {
    var values := seq(|columns|, i requires 0 <= i < |columns| => row[columns[i]]);
    if columns != [] {
      var c := columns[0];
      assert forall d | d in columns[1..] :: d in columns;
      MaterialisedKeyAgrees(columns[1..], row);
      assert values[1..] == seq(|columns[1..]|, i requires 0 <= i < |columns[1..]| => row[columns[1..][i]]);
      assert KeyParts(columns)[1..] == KeyParts(columns[1..]);
      KeyPartAgrees(c, row);
    }
  }

  lemma KeyPartAgrees(column: string, row: map<string, Value>)
    requires column in row
    ensures Eval(KeyPart(column), row) == Some(EncodeValue(row[column]))
  {
    if row[column] != None {
      var value := IfNull(Column(column), Literal(""));
      var parts := [Literal("S"), Length(value), Literal(":"), value];
      var text := row[column].value;
      assert Eval(value, row) == Some(text);
      assert parts[1..] == [Length(value), Literal(":"), value];
      assert parts[1..][1..] == [Literal(":"), value];
      assert [Literal(":"), value][1..] == [value];
      assert [value][1..] == [];
      assert EvalConcat([value], row) == Some(text + "") && text + "" == text;
      assert EvalConcat([Literal(":"), value], row) == Some(":" + text);
      assert EvalConcat(parts[1..], row) == Some(Decimal(|text|) + (":" + text));
      assert EvalConcat(parts, row) == Some("S" + (Decimal(|text|) + (":" + text)));
      assert "S" + (Decimal(|text|) + (":" + text)) == EncodeValue(row[column]);
    }
  }
}
