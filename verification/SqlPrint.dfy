/**
 Printing INSERT statements and reading their row keys back. The reference is the printed
 statement itself: the placeholder at a position of the text is bound to the argument whose
 number is the count of placeholders before it.
 */
module SqlPrint {
  import opened SqlText
  import opened Collections
  import opened RowKey
  import opened SqlInsert

  /** An expression of a VALUES row or of a SELECT list. */
  datatype Expr =
    | Argument
    | Null
    | Text(text: string)
    | Code(code: string)

  function Double(s: string): string {
    if s == "" then "" else (if s[0] == '\'' then "''" else [s[0]]) + Double(s[1..])
  }

  function Show(e: Expr): string {
    match e
    case Argument => "?"
    case Null => "NULL"
    case Text(text) => "'" + Double(text) + "'"
    case Code(code) => code
  }

  function ShowAll(es: seq<Expr>): seq<string> {
    seq(|es|, i requires 0 <= i < |es| => Show(es[i]))
  }

  function Join(items: seq<string>): string {
    if items == [] then ""
    else if |items| == 1 then items[0]
    else items[0] + ", " + Join(items[1..])
  }

  // ---- Text that closes all it opens ----

  /**
   From `st` on, `s` closes every quote and parenthesis and no more than that; without `commas`
   it holds no comma outside quotes and parentheses.
   */
  predicate Closes(st: Lex, s: string, commas: bool)
    decreases |s|
  {
    if s == "" then st == START
    else
      && (st.mode == Plain && st.depth == 0 ==> s[0] != ')' && (s[0] == ',' ==> commas))
      && Closes(Next(st, s[0], false), s[1..], commas)
  }

  lemma {:induction false} ClosesRead(st: Lex, s: string, commas: bool)
    requires Closes(st, s, commas)
    ensures Read(st, s, false) == START
    decreases |s|
  {
    if s != "" { ClosesRead(Next(st, s[0], false), s[1..], commas); }
  }

  lemma {:induction false} ClosesAppend(st: Lex, a: string, b: string, commas: bool)
    requires Closes(st, a, commas) && Closes(START, b, commas)
    ensures Closes(st, a + b, commas)
    decreases |a|
  {
    if a == "" {
      assert a + b == b;
    } else {
      assert (a + b)[1..] == a[1..] + b;
      ClosesAppend(Next(st, a[0], false), a[1..], b, commas);
    }
  }

  lemma {:induction false} ClosesWithCommas(st: Lex, s: string)
    requires Closes(st, s, false)
    ensures Closes(st, s, true)
    decreases |s|
  {
    if s != "" { ClosesWithCommas(Next(st, s[0], false), s[1..]); }
  }

  /** Inside parentheses commas are hidden. */
  lemma {:induction false} ClosesOneDeeper(st: Lex, s: string)
    requires Closes(st, s, true) && st.depth >= 0
    ensures Closes(st.(depth := st.depth + 1), s + ")", false)
    ensures Close(st.mode, st.depth + 1, s + ")") == |s|
    decreases |s|
  {
    if s == "" {
      assert (s + ")")[1..] == "";
    } else {
      assert (s + ")")[1..] == s[1..] + ")";
      ClosesOneDeeper(Next(st, s[0], false), s[1..]);
    }
  }

  /** A parenthesised text closes, and its own parenthesis is the one that matches, whatever follows. */
  lemma ParenthesisedCloses(s: string, rest: string)
    requires Closes(START, s, true)
    ensures Closes(START, "(" + s + ")", false)
    ensures Close(Plain, 0, "(" + s + ")" + rest) == |s| + 1
  {
    ClosesOneDeeper(START, s);
    assert ("(" + s + ")")[1..] == s + ")";
    assert ("(" + s + ")" + rest)[1..] == s + ")" + rest;
    CloseBefore(Plain, 1, s + ")", rest);
  }

  lemma {:induction false} CloseBefore(m: Mode, depth: int, s: string, rest: string)
    requires Close(m, depth, s) >= 0
    ensures Close(m, depth, s + rest) == Close(m, depth, s)
    decreases |s|
  {
    if !(m == Plain && s[0] == ')' && depth == 1) {
      assert (s + rest)[1..] == s[1..] + rest;
      var d := if m != Plain then depth else if s[0] == '(' then depth + 1 else if s[0] == ')' then depth - 1
        else depth;
      CloseBefore(NextMode(m, s[0], false), d, s[1..], rest);
    }
  }

  /** A splitter passes over closing text without cutting it. */
  lemma {:induction false} ItemsPass(item: string, st: Lex, e: string, rest: string)
    requires Closes(st, e, false)
    ensures Items(item, st, e + rest) == Items(item + e, START, rest)
    decreases |e|
  {
    if e == "" {
      assert e + rest == rest && item + e == item;
    } else {
      assert (e + rest)[1..] == e[1..] + rest;
      assert item + e == (item + [e[0]]) + e[1..];
      ItemsPass(item + [e[0]], Next(st, e[0], false), e[1..], rest);
    }
  }

  predicate Item(e: string) {
    e != "" && Trimmed(e) && Closes(START, e, false)
  }

  /** Splitting undoes joining. */
  lemma {:induction false} SplitJoin(pad: string, items: seq<string>)
    requires items != [] && (forall i | 0 <= i < |items| :: Item(items[i]))
    requires forall c | c in pad :: IsSpace(c)
    ensures Items(pad, START, Join(items)) == items
    decreases |items|
  {
    hide Closes, TrimLeft, TrimRight, Trim, Trimmed;
    var e := items[0];
    TrimPadded(pad, e, "");
    assert pad + e + "" == pad + e;
    if |items| == 1 {
      assert e + "" == e;
      ItemsPass(pad, START, e, "");
    } else {
      var more := Join(items[1..]);
      ItemsPass(pad, START, e, ", " + more);
      assert Join(items) == e + (", " + more);
      assert (", " + more)[1..] == " " + more;
      assert (" " + more)[1..] == more && "" + [' '] == " ";
      assert Items("", START, " " + more) == Items(" ", START, more);
      SplitJoin(" ", items[1..]);
    }
  }

  lemma {:induction false} JoinCloses(items: seq<string>)
    requires forall i | 0 <= i < |items| :: Item(items[i])
    ensures Closes(START, Join(items), true)
    ensures items != [] ==> Join(items) != "" && Trimmed(Join(items))
    decreases |items|
  {
    if |items| == 1 {
      ClosesWithCommas(START, items[0]);
    } else if |items| > 1 {
      var more := Join(items[1..]);
      JoinCloses(items[1..]);
      ClosesWithCommas(START, items[0]);
      assert ", "[1..] == " " && " "[1..] == "";
      assert Closes(START, ", ", true);
      ClosesAppend(START, items[0], ", ", true);
      ClosesAppend(START, items[0] + ", ", more, true);
    }
  }

  // ---- Literals ----

  lemma {:induction false} UndoubleDouble(s: string)
    ensures Undouble(Double(s)) == s
    decreases |s|
  {
    if s != "" {
      UndoubleDouble(s[1..]);
      var more := Double(s[1..]);
      if s[0] == '\'' {
        assert ("''" + more)[2..] == more;
      } else {
        assert ([s[0]] + more)[1..] == more;
      }
      assert s == [s[0]] + s[1..];
    }
  }

  lemma ParseQuoted(s: string)
    requires |s| >= 2 && s[0] == '\'' && s[|s| - 1] == '\''
    ensures ParseLiteral(s) == Some(Undouble(s[1..|s| - 1]))
  {
    hide Trim, Undouble, Upper;
    assert Trim(s) == s by { TrimmedStays(s); }
    assert Upper(s) != "NULL" by { QuoteIsNotNull(s); }
  }

  lemma TrimmedStays(s: string)
    requires Trimmed(s)
    ensures Trim(s) == s
  {
    TrimPadded("", s, "");
    assert "" + s + "" == s;
  }

  lemma QuoteIsNotNull(s: string)
    requires s != "" && s[0] == '\''
    ensures Upper(s) != "NULL"
  {
    assert Upper(s)[0] == '\'' && "NULL"[0] == 'N';
  }

  lemma ParseShown(e: Expr)
    ensures e.Text? ==> ParseLiteral(Show(e)) == Some(e.text)
    ensures e.Null? ==> ParseLiteral(Show(e)) == None
  {
    if e.Text? {
      var shown := Show(e);
      assert shown[1..|shown| - 1] == Double(e.text);
      ParseQuoted(shown);
      UndoubleDouble(e.text);
    } else if e.Null? {
      TrimPadded("", "NULL", "");
      assert "" + "NULL" + "" == "NULL";
      assert Upper("NULL") == "NULL";
    }
  }

  lemma {:induction false} DoubledCloses(text: string)
    ensures Closes(Lex(Quoted('\''), 0), Double(text) + "'", false)
    decreases |text|
  {
    var more := Double(text[if text == "" then 0 else 1..]) + "'";
    if text == "" {
      assert Double(text) + "'" == "'" && "'"[1..] == "";
    } else {
      DoubledCloses(text[1..]);
      if text[0] == '\'' {
        assert Double(text) + "'" == "''" + more;
        assert ("''" + more)[1..] == "'" + more;
        assert ("'" + more)[1..] == more;
      } else {
        assert Double(text) + "'" == [text[0]] + more;
        assert ([text[0]] + more)[1..] == more;
      }
    }
  }

  /** Without backslashes both kinds of scanner agree. */
  lemma {:induction false} NoEscapes(st: Lex, s: string)
    requires '\\' !in s && !st.mode.Escaped?
    ensures Read(st, s, true) == Read(st, s, false)
    decreases |s|
  {
    if s != "" {
      assert forall c | c in s[1..] :: c in s;
      NoEscapes(Next(st, s[0], true), s[1..]);
    }
  }

  lemma {:induction false} DoubledNoPlaceholders(text: string)
    requires '\\' !in text
    ensures Placeholders(Double(text) + "'", Quoted('\'')) == 0
    ensures '\\' !in Double(text)
    decreases |text|
  {
    hide Placeholders;
    if text == "" {
      assert Double(text) + "'" == "'";
      ClosingQuote();
    } else {
      assert forall c | c in text[1..] :: c in text;
      DoubledNoPlaceholders(text[1..]);
      var more := Double(text[1..]) + "'";
      if text[0] == '\'' {
        assert Double(text) + "'" == "''" + more;
        DoubledQuote(more);
      } else {
        assert Double(text) + "'" == [text[0]] + more;
        QuotedCharacter(text[0], more);
      }
    }
  }

  lemma ClosingQuote()
    ensures Placeholders("'", Quoted('\'')) == 0
  {
    assert "'"[1..] == "";
  }

  lemma DoubledQuote(more: string)
    ensures Placeholders("''" + more, Quoted('\'')) == Placeholders(more, Quoted('\''))
  {
    assert ("''" + more)[1..] == "'" + more;
    assert ("'" + more)[1..] == more;
  }

  lemma QuotedCharacter(c: char, more: string)
    requires c != '\'' && c != '\\'
    ensures Placeholders([c] + more, Quoted('\'')) == Placeholders(more, Quoted('\''))
  {
    assert ([c] + more)[1..] == more;
  }

  // ---- Statements ----

  /** Any text may be quoted; other code closes what it opens, outside and after trimming. */
  predicate ValidExpr(e: Expr) {
    e.Code? ==> Item(e.code)
  }

  lemma ShownItem(e: Expr)
    requires ValidExpr(e)
    ensures Item(Show(e))
  {
    match e
    case Argument => assert "?"[1..] == "";
    case Null => assert "NULL"[1..] == "ULL" && "ULL"[1..] == "LL" && "LL"[1..] == "L" && "L"[1..] == "";
    case Text(text) =>
      assert Show(e)[1..] == Double(text) + "'";
      DoubledCloses(text);
    case Code(code) =>
  }

  /** The placeholders that are printed as such. */
  function Asked(e: Expr): nat {
    match e
    case Argument => 1
    case Code(code) => Placeholders(code, Plain)
    case _ => 0
  }

  /** The placeholders the scan sees in a quoted text. */
  function Hidden(e: Expr): nat {
    if e.Text? then Placeholders(Show(e), Plain) else 0
  }

  lemma SeenPlaceholders(e: Expr)
    ensures Placeholders(Show(e), Plain) == Asked(e) + Hidden(e)
  {
    assert "?"[1..] == "" && "NULL"[1..] == "ULL" && "ULL"[1..] == "LL" && "LL"[1..] == "L" && "L"[1..] == "";
  }

  /** Without backslashes nothing is hidden, and the scan ends outside quotes. */
  lemma NoBackslash(e: Expr)
    requires ValidExpr(e) && '\\' !in Show(e)
    ensures Hidden(e) == 0 && Read(START, Show(e), true) == START
  {
    ShownItem(e);
    ClosesRead(START, Show(e), false);
    NoEscapes(START, Show(e));
    if e.Text? {
      UnquotedBackslash(e.text);
      assert Show(e)[1..] == Double(e.text) + "'";
      DoubledNoPlaceholders(e.text);
    }
  }

  lemma UnquotedBackslash(text: string)
    ensures '\\' in text ==> '\\' in Show(Text(text))
  {
    DoubleKeeps(text, '\\');
    assert forall c | c in Double(text) :: c in Show(Text(text));
  }

  lemma {:induction false} DoubleKeeps(text: string, c: char)
    ensures c in text ==> c in Double(text)
    decreases |text|
  {
    if text != "" { DoubleKeeps(text[1..], c); }
  }

  /** How many placeholders the scan sees in a list of expressions. */
  function Count(es: seq<Expr>): nat {
    if es == [] then 0 else Placeholders(Show(es[0]), Plain) + Count(es[1..])
  }

  lemma {:induction false} CountSnoc(es: seq<Expr>, i: nat)
    requires i < |es|
    ensures Count(es[..i + 1]) == Count(es[..i]) + Placeholders(Show(es[i]), Plain)
    ensures Count(es[..i + 1]) <= Count(es)
    decreases i
  {
    if i == 0 {
      assert es[..1] == [es[0]] && [es[0]][1..] == [] && es[..0] == [];
    } else {
      CountSnoc(es[1..], i - 1);
      assert es[..i + 1][1..] == es[1..][..i] && es[..i][1..] == es[1..][..i - 1];
    }
  }

  /** The value of an expression; a placeholder takes argument `n`. */
  function ValueOf(e: Expr, args: seq<Value>, n: nat): Value {
    match e
    case Argument => if n < |args| then args[n] else None
    case Text(text) => Some(text)
    case _ => None
  }

  /** The value of expression `i` of a row as it is read, if the row's first placeholder takes argument `at`. */
  function ValueAt(row: seq<Expr>, i: nat, args: seq<Value>, at: nat): Value
    requires i < |row|
  {
    ValueOf(row[i], args, at + Count(row[..i]))
  }

  /** A key column can be read unless its text shows a placeholder or its argument is missing. */
  predicate Readable(keyColumns: seq<string>, column: string, e: Expr, args: seq<Value>, n: nat) {
    column in keyColumns ==>
      match e
      case Argument => n < |args|
      case Text(_) => Hidden(e) == 0
      case _ => true
  }

  predicate ReadableAt(keyColumns: seq<string>, columns: seq<string>, row: seq<Expr>, args: seq<Value>, at: nat, i: nat)
    requires i < |row| && i < |columns|
  {
    Readable(keyColumns, columns[i], row[i], args, at + Count(row[..i]))
  }

  predicate ReadableUpTo(keyColumns: seq<string>, columns: seq<string>, row: seq<Expr>, args: seq<Value>, at: nat,
                         n: nat)
    requires n <= |row| && n <= |columns|
  {
    forall i | 0 <= i < n :: ReadableAt(keyColumns, columns, row, args, at, i)
  }

  predicate ReadableRow(keyColumns: seq<string>, columns: seq<string>, row: seq<Expr>, args: seq<Value>, at: nat) {
    |row| == |columns| && ReadableUpTo(keyColumns, columns, row, args, at, |row|)
  }

  predicate Name(s: string) {
    s != "" && forall c | c in s :: IsNameByte(c)
  }

  predicate ValidRow(keyColumns: seq<string>, columns: seq<string>, row: seq<Expr>) {
    && |row| == |columns| > 0
    && (forall i | 0 <= i < |row| :: ValidExpr(row[i]) && (columns[i] in keyColumns ==> !row[i].Code?))
  }

  predicate ValidColumns(keyColumns: seq<string>, columns: seq<string>) {
    && (forall i | 0 <= i < |columns| :: Name(columns[i]))
    && (forall i, j | 0 <= i < j < |columns| :: columns[i] != columns[j])
    && (forall k | k in keyColumns :: k in columns)
  }

  function Position(columns: seq<string>, column: string): (r: nat)
    requires column in columns
    ensures r < |columns| && columns[r] == column
  {
    if columns[0] == column then 0 else 1 + Position(columns[1..], column)
  }

  /** The key of the row as it is read. */
  function RowKeyOf(keyColumns: seq<string>, columns: seq<string>, row: seq<Expr>, args: seq<Value>, at: nat): string
    requires ValidColumns(keyColumns, columns) && ValidRow(keyColumns, columns, row)
  {
    EncodeKey(seq(|keyColumns|, k requires 0 <= k < |keyColumns| =>
      ValueAt(row, Position(columns, keyColumns[k]), args, at)))
  }

  function RowKeysOf(keyColumns: seq<string>, columns: seq<string>, rows: seq<seq<Expr>>, args: seq<Value>,
                     at: nat): seq<string>
    requires ValidColumns(keyColumns, columns) && forall i | 0 <= i < |rows| :: ValidRow(keyColumns, columns, rows[i])
  {
    if rows == [] then []
    else
      [RowKeyOf(keyColumns, columns, rows[0], args, at)] +
      RowKeysOf(keyColumns, columns, rows[1..], args, at + Count(rows[0]))
  }

  function CountRows(rows: seq<seq<Expr>>): nat {
    if rows == [] then 0 else Count(rows[0]) + CountRows(rows[1..])
  }

  function ShowRows(rows: seq<seq<Expr>>): seq<seq<string>> {
    seq(|rows|, i requires 0 <= i < |rows| => ShowAll(rows[i]))
  }

  // ---- Binding one row ----

  lemma {:induction false} NameStays(s: string)
    requires Name(s)
    ensures Unquote(Trim(s)) == s && Item(s) && IndexOf(s, '(') == -1
    ensures '\\' !in s && Placeholders(s, Plain) == 0
  {
    assert s[0] in s && s[|s| - 1] in s;
    TrimPadded("", s, "");
    assert "" + s + "" == s;
    NameCloses(s);
  }

  lemma {:induction false} NameCloses(s: string)
    requires forall c | c in s :: IsNameByte(c)
    ensures Closes(START, s, false) && IndexOf(s, '(') == -1
    ensures Placeholders(s, Plain) == 0
    decreases |s|
  {
    if s != "" {
      assert s[0] in s && forall c | c in s[1..] :: c in s;
      NameCloses(s[1..]);
    }
  }

  /** One expression of a row is bound as its kind says. */
  lemma BindOne(keyColumns: seq<string>, columns: seq<string>, shown: seq<string>, args: seq<Value>,
                at: nat, values: map<string, Value>, i: nat, e: Expr)
    requires i < |shown| == |columns| && shown[i] == Show(e) && ValidExpr(e) && Name(columns[i])
    requires columns[i] in keyColumns ==> !e.Code?
    ensures RowValues(keyColumns, columns, shown, args, at, values, i) ==
            if Readable(keyColumns, columns[i], e, args, at) then
              RowValues(keyColumns, columns, shown, args, at + Placeholders(Show(e), Plain),
                        if columns[i] in keyColumns then values[columns[i] := ValueOf(e, args, at)] else values, i + 1)
            else Failed(Unsupported(columns[i]))
  {
    hide Closes, Undouble, Double, IndexOf;
    ShownItem(e);
    NameStays(columns[i]);
    ParseShown(e);
    ShownTrims(e);
    SeenPlaceholders(e);
  }

  /** Binding from expression `i` on, with the values of the expressions before it at hand. */
  lemma {:induction false} RowValuesFrom(keyColumns: seq<string>, columns: seq<string>, row: seq<Expr>,
                                         args: seq<Value>,
                                         at: nat, values: map<string, Value>, i: nat)
    returns (all: map<string, Value>)
    requires ValidColumns(keyColumns, columns) && ValidRow(keyColumns, columns, row) && i <= |row|
    requires ReadableRow(keyColumns, columns, row, args, at)
    requires forall j | 0 <= j < i && columns[j] in keyColumns ::
               columns[j] in values && values[columns[j]] == ValueAt(row, j, args, at)
    ensures RowValues(keyColumns, columns, ShowAll(row), args, at + Count(row[..i]), values, i) ==
            Ok((all, at + Count(row)))
    ensures forall j | 0 <= j < |row| && columns[j] in keyColumns ::
              columns[j] in all && all[columns[j]] == ValueAt(row, j, args, at)
    decreases |row| - i
  {
    hide RowValues, ValidExpr, Name, Placeholders, ValueOf, Count, Readable, Show;
    if i == |row| {
      assert row[..i] == row;
      BoundAll(keyColumns, columns, ShowAll(row), args, at + Count(row), values);
      all := values;
    } else {
      CountSnoc(row, i);
      assert ReadableAt(keyColumns, columns, row, args, at, i);
      BindOne(keyColumns, columns, ShowAll(row), args, at + Count(row[..i]), values, i, row[i]);
      var next := if columns[i] in keyColumns then values[columns[i] := ValueAt(row, i, args, at)] else values;
      all := RowValuesFrom(keyColumns, columns, row, args, at, next, i + 1);
    }
  }

  /** The first expression that cannot be read refuses the row. */
  lemma {:induction false} RowRefused(keyColumns: seq<string>, columns: seq<string>, row: seq<Expr>, args: seq<Value>,
                                      at: nat, values: map<string, Value>, i: nat, bad: nat)
    requires ValidColumns(keyColumns, columns) && ValidRow(keyColumns, columns, row) && i <= bad < |row|
    requires ReadableUpTo(keyColumns, columns, row, args, at, bad)
    requires !ReadableAt(keyColumns, columns, row, args, at, bad)
    ensures RowValues(keyColumns, columns, ShowAll(row), args, at + Count(row[..i]), values, i) ==
            Failed(Unsupported(columns[bad]))
    decreases bad - i
  {
    hide RowValues, ValidExpr, Name, Placeholders, ValueOf, Count, Readable, Show;
    CountSnoc(row, i);
    assert i < bad ==> ReadableAt(keyColumns, columns, row, args, at, i);
    BindOne(keyColumns, columns, ShowAll(row), args, at + Count(row[..i]), values, i, row[i]);
    if i < bad {
      var next := if columns[i] in keyColumns then values[columns[i] := ValueAt(row, i, args, at)] else values;
      RowRefused(keyColumns, columns, row, args, at, next, i + 1, bad);
    }
  }

  lemma BoundAll(keyColumns: seq<string>, columns: seq<string>, shown: seq<string>, args: seq<Value>, at: nat,
                 values: map<string, Value>)
    requires |shown| == |columns|
    ensures RowValues(keyColumns, columns, shown, args, at, values, |shown|) == Ok((values, at))
  {
  }

  lemma ShownTrims(e: Expr)
    requires ValidExpr(e)
    ensures Trim(Show(e)) == Show(e)
    ensures !e.Code? ==> (Show(e) == "?" <==> e.Argument?)
  {
    ShownItem(e);
    TrimPadded("", Show(e), "");
    assert "" + Show(e) + "" == Show(e);
  }

  function ValuesOf(keyColumns: seq<string>, values: map<string, Value>): seq<Value>
    requires forall i | 0 <= i < |keyColumns| :: keyColumns[i] in values
  {
    seq(|keyColumns|, k requires 0 <= k < |keyColumns| => values[keyColumns[k]])
  }

  lemma {:induction false} KeyValuesAre(keyColumns: seq<string>, values: map<string, Value>)
    requires forall i | 0 <= i < |keyColumns| :: keyColumns[i] in values
    ensures KeyValues(keyColumns, values) == Ok(ValuesOf(keyColumns, values))
    decreases |keyColumns|
  {
    if keyColumns == [] {
      assert ValuesOf(keyColumns, values) == [];
    } else {
      KeyValuesAre(keyColumns[1..], values);
      assert [values[keyColumns[0]]] + ValuesOf(keyColumns[1..], values) == ValuesOf(keyColumns, values);
    }
  }

  /** The key of one printed row. */
  lemma RowKeyIs(keyColumns: seq<string>, columns: seq<string>, row: seq<Expr>, args: seq<Value>, at: nat)
    returns (all: map<string, Value>)
    requires ValidColumns(keyColumns, columns) && ValidRow(keyColumns, columns, row) &&
             ReadableRow(keyColumns, columns, row, args, at)
    ensures RowValues(keyColumns, columns, ShowAll(row), args, at, map[], 0) == Ok((all, at + Count(row)))
    ensures KeyValues(keyColumns, all).Ok? &&
            EncodeKey(KeyValues(keyColumns, all).value) == RowKeyOf(keyColumns, columns, row, args, at)
  {
    assert row[..0] == [];
    all := RowValuesFrom(keyColumns, columns, row, args, at, map[], 0);
    hide RowValues, ShowAll, EncodeKey;
    forall i | 0 <= i < |keyColumns|
      ensures keyColumns[i] in all && all[keyColumns[i]] == ValueAt(row, Position(columns, keyColumns[i]), args, at)
    {
      assert keyColumns[i] in keyColumns;
      assert columns[Position(columns, keyColumns[i])] == keyColumns[i];
    }
    KeyValuesAre(keyColumns, all);
    assert ValuesOf(keyColumns, all)
        == seq(|keyColumns|, k requires 0 <= k < |keyColumns| =>
             ValueAt(row, Position(columns, keyColumns[k]), args, at));
  }

  predicate ReadableRows(keyColumns: seq<string>, columns: seq<string>, rows: seq<seq<Expr>>, args: seq<Value>,
                         at: nat) {
    forall r | 0 <= r < |rows| :: ReadableRow(keyColumns, columns, rows[r], args, at + CountRows(rows[..r]))
  }

  /** Expression `i` of row `r` is the first that cannot be read. */
  predicate FirstUnreadable(keyColumns: seq<string>, columns: seq<string>, rows: seq<seq<Expr>>, args: seq<Value>,
                            at: nat, r: nat, i: nat) {
    && r < |rows| && i < |rows[r]| == |columns|
    && ReadableRows(keyColumns, columns, rows[..r], args, at)
    && ReadableUpTo(keyColumns, columns, rows[r], args, at + CountRows(rows[..r]), i)
    && !ReadableAt(keyColumns, columns, rows[r], args, at + CountRows(rows[..r]), i)
  }

  /** What the scan must make of rows of expressions: their keys, or the first column it cannot read. */
  ghost predicate ReadAs(keyColumns: seq<string>, columns: seq<string>, rows: seq<seq<Expr>>, args: seq<Value>,
                         found: Result<seq<string>>)
    requires ValidColumns(keyColumns, columns) && forall i | 0 <= i < |rows| :: ValidRow(keyColumns, columns, rows[i])
  {
    if ReadableRows(keyColumns, columns, rows, args, 0) then found == Ok(RowKeysOf(keyColumns, columns, rows, args, 0))
    else exists r: nat, i: nat ::
      FirstUnreadable(keyColumns, columns, rows, args, 0, r, i) && found == Failed(Unsupported(columns[i]))
  }

  lemma CountFirst(rows: seq<seq<Expr>>, s: nat)
    requires s < |rows|
    ensures CountRows(rows[..s + 1]) == Count(rows[0]) + CountRows(rows[1..][..s])
    ensures CountRows(rows[..0]) == 0
  {
    assert rows[..s + 1][0] == rows[0] && rows[..s + 1][1..] == rows[1..][..s];
  }

  /** Every row of expressions gives its key. */
  lemma {:induction false} RowKeysAre(keyColumns: seq<string>, columns: seq<string>, rows: seq<seq<Expr>>,
                                      args: seq<Value>, at: nat)
    requires ValidColumns(keyColumns, columns)
    requires forall i | 0 <= i < |rows| :: ValidRow(keyColumns, columns, rows[i])
    requires ReadableRows(keyColumns, columns, rows, args, at)
    ensures RowKeys(keyColumns, columns, ShowRows(rows), args, at) == Ok(RowKeysOf(keyColumns, columns, rows, args, at))
    decreases |rows|
  {
    hide RowValues, KeyValues, EncodeKey, RowKeyOf, ValidColumns, ValidRow, Show, Count, Closes, Placeholders, Read,
         Position, Name, ValueAt, ReadableRow, CountRows;
    if rows == [] {
      assert ShowRows(rows) == [];
    } else {
      LaterReadable(keyColumns, columns, rows, args, at);
      var all := RowKeyIs(keyColumns, columns, rows[0], args, at);
      RowKeysAre(keyColumns, columns, rows[1..], args, at + Count(rows[0]));
      RowKeysStep(keyColumns, columns, rows, args, at, all);
    }
  }

  lemma LaterReadable(keyColumns: seq<string>, columns: seq<string>, rows: seq<seq<Expr>>, args: seq<Value>, at: nat)
    requires rows != [] && ReadableRows(keyColumns, columns, rows, args, at)
    ensures ReadableRow(keyColumns, columns, rows[0], args, at)
    ensures ReadableRows(keyColumns, columns, rows[1..], args, at + Count(rows[0]))
  {
    hide ReadableRow, CountRows, Count;
    CountFirst(rows, 0);
    assert ReadableRow(keyColumns, columns, rows[0], args, at + CountRows(rows[..0]));
    forall s | 0 <= s < |rows[1..]|
      ensures ReadableRow(keyColumns, columns, rows[1..][s], args, at + Count(rows[0]) + CountRows(rows[1..][..s]))
    {
      CountFirst(rows, s);
      assert ReadableRow(keyColumns, columns, rows[s + 1], args, at + CountRows(rows[..s + 1]));
    }
  }

  lemma LaterUnreadable(keyColumns: seq<string>, columns: seq<string>, rows: seq<seq<Expr>>, args: seq<Value>, at: nat,
                        r: nat, i: nat)
    requires FirstUnreadable(keyColumns, columns, rows, args, at, r, i) && r > 0
    ensures ReadableRow(keyColumns, columns, rows[0], args, at)
    ensures FirstUnreadable(keyColumns, columns, rows[1..], args, at + Count(rows[0]), r - 1, i)
  {
    hide ReadableRows, ReadableAt, ReadableUpTo, CountRows, Count;
    LaterReadable(keyColumns, columns, rows[..r], args, at);
    assert rows[..r][1..] == rows[1..][..r - 1];
    CountFirst(rows, r - 1);
  }

  /** The first expression that cannot be read refuses the statement. */
  lemma {:induction false} RowKeysRefused(keyColumns: seq<string>, columns: seq<string>, rows: seq<seq<Expr>>,
                                          args: seq<Value>, at: nat, r: nat, i: nat)
    requires ValidColumns(keyColumns, columns)
    requires forall j | 0 <= j < |rows| :: ValidRow(keyColumns, columns, rows[j])
    requires FirstUnreadable(keyColumns, columns, rows, args, at, r, i)
    ensures RowKeys(keyColumns, columns, ShowRows(rows), args, at) == Failed(Unsupported(columns[i]))
    decreases r
  {
    hide RowValues, KeyValues, EncodeKey, RowKeyOf, ValidColumns, ValidRow, Show, Count, CountRows, ReadableAt,
         ReadableUpTo, ReadableRow, Placeholders, Position, RowKeys, FirstUnreadable;
    FirstIsRow(keyColumns, columns, rows, args, at, r, i);
    var shown := ShowRows(rows);
    assert shown[0] == ShowAll(rows[0]) && shown[1..] == ShowRows(rows[1..]);
    if r == 0 {
      FirstRefused(keyColumns, columns, rows, args, at, i);
      RefusedRow(keyColumns, columns, shown, args, at, columns[i]);
    } else {
      LaterUnreadable(keyColumns, columns, rows, args, at, r, i);
      var all := RowKeyIs(keyColumns, columns, rows[0], args, at);
      RowKeysRefused(keyColumns, columns, rows[1..], args, at + Count(rows[0]), r - 1, i);
      FirstRowKey(keyColumns, columns, shown, args, at, all, at + Count(rows[0]));
    }
  }

  lemma FirstIsRow(keyColumns: seq<string>, columns: seq<string>, rows: seq<seq<Expr>>, args: seq<Value>, at: nat,
                   r: nat, i: nat)
    requires FirstUnreadable(keyColumns, columns, rows, args, at, r, i)
    requires forall j | 0 <= j < |rows| :: ValidRow(keyColumns, columns, rows[j])
    ensures r < |rows| && i < |columns| && ValidRow(keyColumns, columns, rows[0]) && |columns| == |ShowAll(rows[0])|
  {
    assert ValidRow(keyColumns, columns, rows[0]);
  }

  lemma FirstRefused(keyColumns: seq<string>, columns: seq<string>, rows: seq<seq<Expr>>, args: seq<Value>, at: nat,
                     i: nat)
    requires ValidColumns(keyColumns, columns)
    requires rows != [] && ValidRow(keyColumns, columns, rows[0])
    requires FirstUnreadable(keyColumns, columns, rows, args, at, 0, i)
    ensures RowValues(keyColumns, columns, ShowAll(rows[0]), args, at, map[], 0) == Failed(Unsupported(columns[i]))
  {
    hide RowValues, ReadableAt, ReadableUpTo, ReadableRows, ValidExpr, Show;
    assert rows[..0] == [] && rows[0][..0] == [];
    RowRefused(keyColumns, columns, rows[0], args, at, map[], 0, i);
  }

  lemma RefusedRow(keyColumns: seq<string>, columns: seq<string>, shown: seq<seq<string>>, args: seq<Value>, at: nat,
                   column: string)
    requires shown != [] && |columns| == |shown[0]|
    requires RowValues(keyColumns, columns, shown[0], args, at, map[], 0) == Failed(Unsupported(column))
    ensures RowKeys(keyColumns, columns, shown, args, at) == Failed(Unsupported(column))
  {
    hide RowValues;
  }

  /** One row in front of the others. */
  lemma RowKeysStep(keyColumns: seq<string>, columns: seq<string>, rows: seq<seq<Expr>>, args: seq<Value>, at: nat,
                    all: map<string, Value>)
    requires ValidColumns(keyColumns, columns) && rows != []
    requires forall i | 0 <= i < |rows| :: ValidRow(keyColumns, columns, rows[i])
    requires ValidRow(keyColumns, columns, rows[0])
    requires RowValues(keyColumns, columns, ShowAll(rows[0]), args, at, map[], 0) == Ok((all, at + Count(rows[0])))
    requires KeyValues(keyColumns, all).Ok? &&
             EncodeKey(KeyValues(keyColumns, all).value) == RowKeyOf(keyColumns, columns, rows[0], args, at)
    requires RowKeys(keyColumns, columns, ShowRows(rows[1..]), args, at + Count(rows[0])) ==
             Ok(RowKeysOf(keyColumns, columns, rows[1..], args, at + Count(rows[0])))
    ensures RowKeys(keyColumns, columns, ShowRows(rows), args, at) == Ok(RowKeysOf(keyColumns, columns, rows, args, at))
  {
    hide RowValues, KeyValues, EncodeKey, RowKeyOf, RowKeys, ValidColumns, ValidExpr, Show, Count, Closes,
         Placeholders, Read, Position, Name, ValueAt, CountRows;
    assert ShowRows(rows)[1..] == ShowRows(rows[1..]) && ShowRows(rows)[0] == ShowAll(rows[0]);
    FirstRowKey(keyColumns, columns, ShowRows(rows), args, at, all, at + Count(rows[0]));
  }

  lemma FirstRowKey(keyColumns: seq<string>, columns: seq<string>, shown: seq<seq<string>>, args: seq<Value>, at: nat,
                    all: map<string, Value>, next: nat)
    requires shown != [] && |columns| == |shown[0]|
    requires RowValues(keyColumns, columns, shown[0], args, at, map[], 0) == Ok((all, next)) &&
             KeyValues(keyColumns, all).Ok?
    ensures RowKeys(keyColumns, columns, shown, args, at) ==
            After([EncodeKey(KeyValues(keyColumns, all).value)], RowKeys(keyColumns, columns, shown[1..], args, next))
  {
    hide RowValues, KeyValues, EncodeKey;
  }

  // ---- Reading a printed source ----

  lemma ShownItems(row: seq<Expr>)
    requires forall i | 0 <= i < |row| :: ValidExpr(row[i])
    ensures forall i | 0 <= i < |row| :: Item(ShowAll(row)[i])
  {
    forall i | 0 <= i < |row| ensures Item(ShowAll(row)[i]) { ShownItem(row[i]); }
  }

  function ShowRow(row: seq<Expr>): string {
    "(" + Join(ShowAll(row)) + ")"
  }

  function Rendered(rows: seq<seq<Expr>>): seq<string> {
    seq(|rows|, i requires 0 <= i < |rows| => ShowRow(rows[i]))
  }

  lemma RowIsRead(row: seq<Expr>)
    requires row != [] && forall i | 0 <= i < |row| :: ValidExpr(row[i])
    ensures ListInParentheses(ShowRow(row)) == Some(ShowAll(row))
    ensures Item(ShowRow(row))
  {
    var inside := Join(ShowAll(row));
    ShownItems(row);
    JoinCloses(ShowAll(row));
    ParenthesisedCloses(inside, "");
    assert "(" + inside + ")" + "" == ShowRow(row);
    assert ShowRow(row)[0..] == ShowRow(row) && ShowRow(row)[1..|inside| + 1] == inside;
    SplitJoin("", ShowAll(row));
  }

  lemma {:induction false} GroupsAreRead(groups: seq<string>, rows: seq<seq<string>>)
    requires |groups| == |rows| && forall i | 0 <= i < |rows| :: ListInParentheses(groups[i]) == Some(rows[i])
    ensures Groups(groups) == Ok(rows)
    decreases |rows|
  {
    hide ListInParentheses;
    if rows != [] {
      GroupsAreRead(groups[1..], rows[1..]);
      assert rows == [rows[0]] + rows[1..];
    }
  }

  lemma ValuesAreRead(rows: seq<seq<Expr>>)
    requires rows != [] && forall j | 0 <= j < |rows| ::
               rows[j] != [] && forall i | 0 <= i < |rows[j]| :: ValidExpr(rows[j][i])
    ensures Trim(" " + ("VALUES " + Join(Rendered(rows)))) == "VALUES " + Join(Rendered(rows))
    ensures Rows("VALUES " + Join(Rendered(rows))) == Ok(ShowRows(rows))
  {
    hide Show, ValidExpr, Closes, ListInParentheses, Items, Placeholders, Read, Double, Close, Trim, HasPrefix, Upper,
         Groups;
    var groups := Rendered(rows);
    forall i | 0 <= i < |groups| ensures Item(groups[i]) && ListInParentheses(groups[i]) == Some(ShowRows(rows)[i]) {
      RowIsRead(rows[i]);
    }
    var list := Join(groups);
    var source := "VALUES" + " " + list;
    JoinCloses(groups);
    SplitJoin("", groups);
    GroupsAreRead(groups, ShowRows(rows));
    KeywordSource("VALUES", list);
    assert Trim(source[6..]) == list;
    assert "VALUES" + " " == "VALUES ";
  }

  /** Padding around a source is trimmed, and its first word is recognised and removed. */
  lemma KeywordSource(word: string, list: string)
    requires |word| == 6 && Upper(word) == word && Trimmed(word) && list != "" && Trimmed(list)
    ensures Trim(" " + (word + " " + list)) == word + " " + list
    ensures HasPrefix(Upper(word + " " + list), word) && Trim((word + " " + list)[6..]) == list
  {
    var source := word + " " + list;
    TrimPadded(" ", source, "");
    assert " " + source + "" == " " + source;
    assert source[6..] == " " + list && " " + list + "" == " " + list;
    TrimPadded(" ", list, "");
    assert Upper(source)[..6] == Upper(word);
  }

  /** The word printed after the list is at the top level exactly if the scan of the list ends there. */
  lemma PrintedWhere(list: string, condition: string)
    ensures KeywordAt(list + " WHERE " + condition, "WHERE", |list| + 1) <==> Read(START, list, true) == START
  {
    hide Read, WordAt, Upper, KeywordAt;
    var before, after := list + " ", " " + condition;
    var s := before + "WHERE" + after;
    assert list + " WHERE " + condition == s;
    assert s[..|before|] == before;
    WordIsPrinted(before, condition);
    WordIsKeyword(s, |before|);
    ReadAppend(START, list, " ", true);
    QuotesOnly(START, list);
    ReadSpace(Read(START, list, true));
  }

  lemma WordIsKeyword(s: string, at: nat)
    requires at < |s| && WordAt(Upper(s), "WHERE", at) && s[at] == 'W'
    ensures KeywordAt(s, "WHERE", at) <==> Read(START, s[..at], true) == START
  {
    hide Read, WordAt, Upper;
  }

  predicate KnownQuote(m: Mode) {
    m.Plain? || IsQuote(m.quote)
  }

  lemma {:induction false} QuotesOnly(st: Lex, s: string)
    requires KnownQuote(st.mode)
    ensures KnownQuote(Read(st, s, true).mode)
    decreases |s|
  {
    if s != "" { QuotesOnly(Next(st, s[0], true), s[1..]); }
  }

  lemma ReadSpace(st: Lex)
    requires KnownQuote(st.mode)
    ensures Read(st, " ", true) == START <==> st == START
  {
    assert " "[1..] == "";
  }

  lemma WordIsPrinted(before: string, condition: string)
    requires before != "" && before[|before| - 1] == ' '
    ensures var s := before + "WHERE" + (" " + condition); WordAt(Upper(s), "WHERE", |before|) && s[|before|] == 'W'
  {
    var s := before + "WHERE" + (" " + condition);
    var u := Upper(s);
    assert s[|before|..][..5] == "WHERE";
    assert forall k | 0 <= k < 5 :: s[|before| + k] == "WHERE"[k] && UpperChar("WHERE"[k]) == "WHERE"[k];
    assert u[|before|..][..5] == "WHERE";
    assert u[|before| - 1] == ' ' && u[|before| + 5] == ' ';
  }

  /** No word of the list is made by what is printed after it. */
  lemma EarlierWhere(list: string, tail: string, i: nat)
    requires i <= |list| && KeywordAt(list + tail, "WHERE", i) && tail != "" && tail[0] == ' '
    ensures KeywordAt(list, "WHERE", i)
  {
    hide Read;
    var s := list + tail;
    var word := Upper(s)[i..][..5];
    assert word == "WHERE" && forall k | 0 <= k < 5 :: Upper(s)[i + k] == word[k];
    assert forall k | i <= k < i + 5 :: Upper(s)[k] == word[k - i] != ' ';
    assert Upper(s)[|list|] == ' ';
    assert i + 5 <= |list|;
    assert s[..i] == list[..i];
    assert Upper(list)[i..][..5] == word;
  }

  /**
   The WHERE of a SELECT list without that word is found where it was printed exactly if the scan of
   the list ends at the top level.
   */
  lemma WhereIsFound(list: string, condition: string)
    requires forall i :: !KeywordAt(list, "WHERE", i)
    ensures KeywordIndex(list + " WHERE " + condition, "WHERE") == |list| + 1 <==> Read(START, list, true) == START
  {
    hide KeywordAt, Closes, KeywordIndex, Upper, Read;
    var tail := " WHERE " + condition;
    assert list + " WHERE " + condition == list + tail;
    PrintedWhere(list, condition);
    forall i | i < |list| + 1 ensures !KeywordAt(list + tail, "WHERE", i) {
      NoEarlierWhere(list, tail, i);
    }
    if Read(START, list, true) == START { KeywordUnique(list + tail, "WHERE", |list| + 1); }
  }

  lemma NoEarlierWhere(list: string, tail: string, i: int)
    requires i <= |list| && !KeywordAt(list, "WHERE", i) && tail != "" && tail[0] == ' '
    ensures !KeywordAt(list + tail, "WHERE", i)
  {
    if i >= 0 && KeywordAt(list + tail, "WHERE", i) {
      EarlierWhere(list, tail, i);
    }
  }

  function ShowSelect(row: seq<Expr>, condition: string): string {
    "SELECT " + Join(ShowAll(row)) + (if condition == "" then "" else " WHERE " + condition)
  }

  lemma SelectListIsRead(list: string, condition: string, text: string, source: string)
    requires list != "" && Trimmed(list) && (condition != "" ==> Read(START, list, true) == START)
    requires forall i :: !KeywordAt(list, "WHERE", i)
    requires text == if condition == "" then list else list + " WHERE " + condition
    requires Trim(source) == text
    ensures SelectList(source) == Split(list)
  {
    hide Closes, KeywordAt, Split, KeywordIndex, Upper, Read;
    if condition == "" {
      KeywordUnique(list, "WHERE", -1);
    } else {
      WhereIsFound(list, condition);
      assert text[..|list| + 1] == list + " ";
      TrimPadded("", list, " ");
      assert "" + list + " " == list + " ";
    }
  }

  lemma SourceOfSelect(list: string, condition: string, text: string)
    requires list != "" && Trimmed(list) && (condition != "" ==> Read(START, list, true) == START)
    requires forall i :: !KeywordAt(list, "WHERE", i)
    requires text == if condition == "" then list else list + " WHERE " + condition
    requires HasPrefix(Upper("SELECT " + text), "SELECT") && Trim(("SELECT " + text)[6..]) == text
    ensures Rows("SELECT " + text) == Ok([Split(list)])
  {
    hide Closes, KeywordAt, Split, SelectList, Trim, Read;
    SelectListIsRead(list, condition, text, ("SELECT " + text)[6..]);
    assert "SELECT"[0] == 'S' && "VALUES"[0] == 'V';
  }

  /** A printed list of expressions: trimmed, and split into its items. */
  lemma ListIsRead(row: seq<Expr>)
    requires row != [] && forall i | 0 <= i < |row| :: ValidExpr(row[i])
    ensures Join(ShowAll(row)) != "" && Trimmed(Join(ShowAll(row)))
    ensures Split(Join(ShowAll(row))) == ShowAll(row)
  {
    hide Show, ValidExpr, Closes, Items;
    forall i | 0 <= i < |row| ensures Item(ShowAll(row)[i]) { ShownItem(row[i]); }
    JoinCloses(ShowAll(row));
    SplitJoin("", ShowAll(row));
  }

  lemma SelectIsRead(row: seq<Expr>, condition: string)
    requires row != [] && (forall i | 0 <= i < |row| :: ValidExpr(row[i])) && Trimmed(condition)
    requires forall i :: !KeywordAt(Join(ShowAll(row)), "WHERE", i)
    requires condition != "" ==> Read(START, Join(ShowAll(row)), true) == START
    ensures Trim(" " + ShowSelect(row, condition)) == ShowSelect(row, condition)
    ensures Rows(ShowSelect(row, condition)) == Ok([ShowAll(row)])
  {
    hide Show, ValidExpr, Closes, Items, KeywordAt, KeywordIndex, Join, SelectList, Trim, HasPrefix, Rows, Split,
         Placeholders, Read, Double, Close;
    var list := Join(ShowAll(row));
    var text := if condition == "" then list else list + " WHERE " + condition;
    ListIsRead(row);
    assert Trimmed(text) && text != "";
    assert ShowSelect(row, condition) == "SELECT " + text;
    KeywordSource("SELECT", text);
    assert "SELECT" + " " == "SELECT ";
    SourceOfSelect(list, condition, text);
  }

  // ---- The whole statement ----

  function ShowInsert(table: string, columns: seq<string>, source: string): string {
    "INSERT INTO " + table + " (" + Join(columns) + ") " + source
  }

  lemma {:induction false} NameIsSkipped(s: string, i: nat, name: string, rest: string)
    requires i <= |s| && s[i..] == name + rest && (forall c | c in name :: IsNameByte(c))
    requires rest == "" || !IsNameByte(rest[0])
    ensures SkipName(s, i) == i + |name|
    decreases |name|
  {
    if name == "" {
      assert s[i..] == rest;
    } else {
      assert s[i] == name[0] && name[0] in name;
      assert s[i + 1..] == name[1..] + rest;
      assert forall c | c in name[1..] :: c in name;
      NameIsSkipped(s, i + 1, name[1..], rest);
    }
  }

  lemma TargetIsFound(table: string, rest: string)
    requires Name(table) && rest != "" && !IsNameByte(rest[0])
    ensures TargetEnd("INSERT INTO " + table + rest, 0) == Some(12 + |table|)
  {
    WordsAreFound("INSERT INTO " + table + rest, table, rest);
    FirstTarget("INSERT INTO " + table + rest, 12 + |table|);
  }

  lemma FirstTarget(s: string, end: nat)
    requires s != "" && s[0] == 'I' && TwoWords(s, 0, "INSERT", "INTO") == Some(end)
    ensures TargetEnd(s, 0) == Some(end)
  {
    hide TwoWords, AfterComment;
    assert SkipSpace(s, 0) == 0 && s[0..] == s;
    assert !HasPrefix(s, "/*") by { assert "/*"[0] == '/'; }
  }

  lemma WordsAreFound(s: string, table: string, rest: string)
    requires s == "INSERT INTO " + table + rest
    requires Name(table) && rest != "" && !IsNameByte(rest[0])
    ensures TwoWords(s, 0, "INSERT", "INTO") == Some(12 + |table|)
  {
    hide SkipName;
    assert s[0..] == s && s[7..][..4] == "INTO" && s[12..] == table + rest;
    UpperPrefix(s, "INSERT");
    UpperPrefix(s[7..], "INTO");
    assert table[0] in table && s[12] == table[0];
    assert SkipSpace(s, 7) == 7 && SkipSpace(s, 6) == 7;
    assert SkipSpace(s, 12) == 12 && SkipSpace(s, 11) == 12;
    NameIsSkipped(s, 12, table, rest);
  }

  lemma UpperPrefix(s: string, word: string)
    requires |word| <= |s| && s[..|word|] == word && Upper(word) == word
    ensures HasPrefix(Upper(s), word)
  {
    assert Upper(s)[..|word|] == Upper(word);
  }

  lemma ColumnsAreRead(keyColumns: seq<string>, columns: seq<string>, source: string, args: seq<Value>)
    requires columns != [] && ValidColumns(keyColumns, columns)
    ensures KeysOfRemainder(keyColumns, " (" + Join(columns) + ") " + source, args) ==
            KeysOfSource(keyColumns, columns, Trim(" " + source), args)
  {
    hide KeysOfSource, Items, Closes, Name, Trim;
    var list := Join(columns);
    var remainder := " (" + list + ") " + source;
    forall i | 0 <= i < |columns| ensures Item(columns[i]) { NameStays(columns[i]); }
    JoinCloses(columns);
    SplitJoin("", columns);
    ParenthesisedCloses(list, " " + source);
    assert remainder[1..] == "(" + list + ")" + (" " + source);
    assert IndexOf(remainder, '(') == 1;
    assert remainder[2..|list| + 2] == list && remainder[|list| + 3..] == " " + source;
  }

  /**
   For every printed INSERT ... VALUES the scan returns, row by row, the keys of its rows, unless a
   key column shows a placeholder in a text or misses its argument; the first such one is refused.
   */
  lemma InsertValuesKeys(table: string, keyColumns: seq<string>, columns: seq<string>, rows: seq<seq<Expr>>,
                         args: seq<Value>)
    requires Name(table) && ValidColumns(keyColumns, columns) && columns != []
    requires rows != [] && forall i | 0 <= i < |rows| :: ValidRow(keyColumns, columns, rows[i])
    ensures ReadAs(keyColumns, columns, rows, args,
                   InsertKeysOf(keyColumns, ShowInsert(table, columns, "VALUES " + Join(Rendered(rows))), args))
  {
    hide Rows, RowKeys, KeysOfRemainder, TargetEnd, ValidColumns, Trim, Name, Join, RowKeysOf, InsertKeysOf,
         ShowInsert, Rendered, ShowRows, ValidExpr, CountRows, Closes, Read, Placeholders, ReadableRows,
         FirstUnreadable;
    var source := "VALUES " + Join(Rendered(rows));
    ValuesAreRead(rows);
    StatementIsRead(table, keyColumns, columns, source, args);
    if ReadableRows(keyColumns, columns, rows, args, 0) {
      RowKeysAre(keyColumns, columns, rows, args, 0);
    } else {
      var r, i := FindUnreadable(keyColumns, columns, rows, args, 0);
      RowKeysRefused(keyColumns, columns, rows, args, 0, r, i);
    }
  }

  lemma FindUnreadable(keyColumns: seq<string>, columns: seq<string>, rows: seq<seq<Expr>>, args: seq<Value>, at: nat)
    returns (r: nat, i: nat)
    requires forall j | 0 <= j < |rows| :: ValidRow(keyColumns, columns, rows[j])
    requires !ReadableRows(keyColumns, columns, rows, args, at)
    ensures FirstUnreadable(keyColumns, columns, rows, args, at, r, i)
  {
    hide ReadableAt, ValidExpr, CountRows, Count;
    r := 0;
    while r < |rows| && ReadableRow(keyColumns, columns, rows[r], args, at + CountRows(rows[..r]))
      invariant r <= |rows|
      invariant forall s | 0 <= s < r :: ReadableRow(keyColumns, columns, rows[s], args, at + CountRows(rows[..s]))
      decreases |rows| - r
    {
      r := r + 1;
    }
    assert forall s | 0 <= s < r :: rows[..r][..s] == rows[..s];
    assert ValidRow(keyColumns, columns, rows[r]);
    var start := at + CountRows(rows[..r]);
    i := 0;
    while i < |columns| && ReadableAt(keyColumns, columns, rows[r], args, start, i)
      invariant i <= |columns| && ReadableUpTo(keyColumns, columns, rows[r], args, start, i)
      decreases |columns| - i
    {
      i := i + 1;
    }
  }

  /**
   The same for INSERT ... SELECT of one row. With a condition the scan of the list must end at the
   top level, or the printed WHERE is not found.
   */
  lemma InsertSelectKeys(table: string, keyColumns: seq<string>, columns: seq<string>, row: seq<Expr>,
                         condition: string, args: seq<Value>)
    requires Name(table) && ValidColumns(keyColumns, columns) && ValidRow(keyColumns, columns, row) &&
             Trimmed(condition)
    requires forall i :: !KeywordAt(Join(ShowAll(row)), "WHERE", i)
    requires condition != "" ==> Read(START, Join(ShowAll(row)), true) == START
    ensures ReadAs(keyColumns, columns, [row], args,
                   InsertKeysOf(keyColumns, ShowInsert(table, columns, ShowSelect(row, condition)), args))
  {
    hide Rows, RowKeys, KeysOfRemainder, TargetEnd, ValidColumns, Trim, Name, Join, RowKeyOf, ShowSelect, KeywordAt,
         ReadableRows, ReadableAt, Read, InsertKeysOf, Placeholders, Closes, ShowInsert, CountRows, Count;
    SelectIsRead(row, condition);
    assert ShowRows([row]) == [ShowAll(row)] && [row][1..] == [];
    StatementIsRead(table, keyColumns, columns, ShowSelect(row, condition), args);
    if ReadableRows(keyColumns, columns, [row], args, 0) {
      RowKeysAre(keyColumns, columns, [row], args, 0);
    } else {
      var r, i := FindUnreadable(keyColumns, columns, [row], args, 0);
      RowKeysRefused(keyColumns, columns, [row], args, 0, r, i);
    }
  }

  lemma StatementIsRead(table: string, keyColumns: seq<string>, columns: seq<string>, source: string, args: seq<Value>)
    requires Name(table) && ValidColumns(keyColumns, columns) && columns != []
    ensures InsertKeysOf(keyColumns, ShowInsert(table, columns, source), args) ==
            KeysOfSource(keyColumns, columns, Trim(" " + source), args)
  {
    hide KeysOfSource, KeysOfRemainder, TargetEnd, ValidColumns, Trim, Name, Join;
    var rest := " (" + Join(columns) + ") " + source;
    assert ShowInsert(table, columns, source) == "INSERT INTO " + table + rest;
    assert ("INSERT INTO " + table + rest)[12 + |table|..] == rest;
    TargetIsFound(table, rest);
    ColumnsAreRead(keyColumns, columns, source, args);
  }

  // ---- Which argument a printed placeholder takes ----

  /** Text after which the scan is outside quotes, so that it does not change how the rest is read. */
  predicate Whole(s: string) {
    Read(START, s, true).mode == Plain
  }

  /** Parentheses do not change what is inside quotes. */
  lemma {:induction false} ModeAtDepth(m: Mode, d: int, e: int, s: string)
    ensures Read(Lex(m, d), s, true).mode == Read(Lex(m, e), s, true).mode
    decreases |s|
  {
    if s != "" {
      ModeAtDepth(NextMode(m, s[0], true), Next(Lex(m, d), s[0], true).depth, Next(Lex(m, e), s[0], true).depth,
                  s[1..]);
    }
  }

  lemma WholeAppend(a: string, b: string)
    requires Whole(a) && Whole(b)
    ensures Whole(a + b) && Placeholders(a + b, Plain) == Placeholders(a, Plain) + Placeholders(b, Plain)
  {
    hide Read;
    var after := Read(START, a, true);
    ReadAppend(START, a, b, true);
    ModeAtDepth(Plain, after.depth, 0, b);
    PlaceholdersAppend(a, b, START);
  }

  function CountItems(items: seq<string>): nat {
    if items == [] then 0 else Placeholders(items[0], Plain) + CountItems(items[1..])
  }

  /** The text of a joined list in front of item `i`. */
  function Lead(items: seq<string>, i: nat): string
    requires i <= |items|
  {
    if i == 0 then "" else items[0] + ", " + Lead(items[1..], i - 1)
  }

  lemma {:induction false} JoinAt(items: seq<string>, i: nat) returns (after: string)
    requires i < |items|
    ensures Join(items) == Lead(items, i) + items[i] + after
    decreases i
  {
    if i == 0 {
      after := if |items| == 1 then "" else ", " + Join(items[1..]);
      assert Join(items) == "" + items[0] + after;
    } else {
      after := JoinAt(items[1..], i - 1);
      assert Join(items) == items[0] + ", " + (Lead(items[1..], i - 1) + items[i] + after);
    }
  }

  lemma CommaIsWhole()
    ensures Whole(", ") && Placeholders(", ", Plain) == 0
  {
    assert ", "[1..] == " " && " "[1..] == "";
  }

  lemma {:induction false} LeadCount(items: seq<string>, i: nat)
    requires i <= |items| && forall k | 0 <= k < |items| :: Whole(items[k])
    ensures Whole(Lead(items, i)) && Placeholders(Lead(items, i), Plain) == CountItems(items[..i])
    decreases i
  {
    hide Whole, Placeholders;
    if i == 0 {
      assert Whole("") && Placeholders("", Plain) == 0 by { EmptyIsWhole(); }
    } else {
      LeadCount(items[1..], i - 1);
      CommaIsWhole();
      WholeAppend(items[0], ", ");
      WholeAppend(items[0] + ", ", Lead(items[1..], i - 1));
      assert items[..i][1..] == items[1..][..i - 1] && items[..i][0] == items[0];
    }
  }

  lemma EmptyIsWhole()
    ensures Whole("") && Placeholders("", Plain) == 0
  {
  }

  lemma {:induction false} JoinCount(items: seq<string>)
    requires items != [] && forall k | 0 <= k < |items| :: Whole(items[k])
    ensures Whole(Join(items)) && Placeholders(Join(items), Plain) == CountItems(items)
    decreases |items|
  {
    hide Whole, Placeholders;
    if |items| == 1 {
      assert items[1..] == [];
    } else {
      JoinCount(items[1..]);
      CommaIsWhole();
      WholeAppend(items[0], ", ");
      WholeAppend(items[0] + ", ", Join(items[1..]));
    }
  }

  lemma {:induction false} CountShown(row: seq<Expr>)
    ensures Count(row) == CountItems(ShowAll(row))
    decreases |row|
  {
    if row != [] {
      CountShown(row[1..]);
      assert ShowAll(row)[1..] == ShowAll(row[1..]);
    }
  }

  /** An expression whose scan ends outside quotes. */
  predicate Ends(e: Expr) {
    Whole(Show(e))
  }

  lemma ShownWhole(row: seq<Expr>)
    requires forall i | 0 <= i < |row| :: Ends(row[i])
    ensures forall i | 0 <= i < |row| :: Whole(ShowAll(row)[i])
  {
  }

  lemma RowCount(row: seq<Expr>)
    requires row != [] && forall i | 0 <= i < |row| :: Ends(row[i])
    ensures Whole(ShowRow(row)) && Placeholders(ShowRow(row), Plain) == Count(row)
  {
    hide Whole, Ends, Show, Closes, Item;
    ShownWhole(row);
    var inside := Join(ShowAll(row));
    JoinCount(ShowAll(row));
    CountShown(row);
    InParentheses(inside);
  }

  lemma InParentheses(s: string)
    requires Whole(s)
    ensures Whole("(" + s + ")") && Placeholders("(" + s + ")", Plain) == Placeholders(s, Plain)
  {
    hide Whole;
    BracketsAreWhole();
    WholeAppend("(", s);
    WholeAppend("(" + s, ")");
  }

  lemma BracketsAreWhole()
    ensures Whole("(") && Whole(")") && Placeholders("(", Plain) == Placeholders(")", Plain) == 0
  {
    assert "("[1..] == "" && ")"[1..] == "";
  }

  lemma {:induction false} RowsCount(rows: seq<seq<Expr>>)
    requires forall j | 0 <= j < |rows| :: rows[j] != [] && forall i | 0 <= i < |rows[j]| :: Ends(rows[j][i])
    ensures forall j | 0 <= j < |rows| :: Whole(Rendered(rows)[j])
    ensures CountItems(Rendered(rows)) == CountRows(rows)
    decreases |rows|
  {
    hide Whole, Ends, ShowRow, Count, Placeholders;
    if rows != [] {
      RowCount(rows[0]);
      RowsCount(rows[1..]);
      assert Rendered(rows)[1..] == Rendered(rows[1..]);
      forall j | 0 <= j < |rows| ensures Whole(Rendered(rows)[j]) {
        if j > 0 { assert Rendered(rows)[j] == Rendered(rows[1..])[j - 1]; }
      }
    }
  }

  /** The text in front of expression `i` of row `r`. */
  function Before(table: string, columns: seq<string>, rows: seq<seq<Expr>>, r: nat, i: nat): string
    requires r < |rows| && i < |rows[r]|
  {
    "INSERT INTO " + table + " (" + Join(columns) + ") VALUES " + Lead(Rendered(rows),
      r) + "(" + Lead(ShowAll(rows[r]), i)
  }

  lemma BeforeIsPrinted(table: string, columns: seq<string>, rows: seq<seq<Expr>>, r: nat, i: nat)
    returns (after: string)
    requires r < |rows| && i < |rows[r]|
    ensures ShowInsert(table, columns, "VALUES " + Join(Rendered(rows))) ==
            Before(table, columns, rows, r, i) + Show(rows[r][i]) + after
  {
    hide Join, Lead, Show;
    var later := JoinAt(Rendered(rows), r);
    var more := JoinAt(ShowAll(rows[r]), i);
    after := more + ")" + later;
    var inside := Lead(ShowAll(rows[r]), i) + Show(rows[r][i]) + more;
    assert Rendered(rows)[r] == "(" + inside + ")";
    assert Join(Rendered(rows)) == Lead(Rendered(rows), r) + ("(" + inside + ")") + later;
  }

  lemma HeadIsWhole(table: string, columns: seq<string>)
    requires Name(table) && columns != [] && forall i | 0 <= i < |columns| :: Name(columns[i])
    ensures Whole("INSERT INTO " + table + " (" + Join(columns) + ") VALUES ")
    ensures Placeholders("INSERT INTO " + table + " (" + Join(columns) + ") VALUES ", Plain) == 0
  {
    hide Whole, Placeholders, Name, Join;
    forall i | 0 <= i < |columns| ensures Whole(columns[i]) && Placeholders(columns[i], Plain) == 0 {
      NameIsWhole(columns[i]);
    }
    NameIsWhole(table);
    JoinCount(columns);
    NoPlaceholders(columns);
    WordsAreWhole();
    InParentheses(Join(columns));
    WholeAppend("INSERT INTO ", table);
    WholeAppend("INSERT INTO " + table, " ");
    WholeAppend("INSERT INTO " + table + " ", "(" + Join(columns) + ")");
    WholeAppend("INSERT INTO " + table + " " + ("(" + Join(columns) + ")"), " VALUES ");
    assert "INSERT INTO " + table + " " + ("(" + Join(columns) + ")") + " VALUES " ==
      "INSERT INTO " + table + " (" + Join(columns) + ") VALUES ";
  }

  lemma NameIsWhole(s: string)
    requires Name(s)
    ensures Whole(s) && Placeholders(s, Plain) == 0
  {
    NameStays(s);
    ClosesRead(START, s, false);
    NoEscapes(START, s);
  }

  lemma {:induction false} NoPlaceholders(items: seq<string>)
    requires forall i | 0 <= i < |items| :: Placeholders(items[i], Plain) == 0
    ensures CountItems(items) == 0
    decreases |items|
  {
    if items != [] { NoPlaceholders(items[1..]); }
  }

  predicate IsLetterOrSpace(c: char) {
    'A' <= c <= 'Z' || c == ' '
  }

  lemma {:induction false} LettersAreWhole(s: string)
    requires forall c | c in s :: IsLetterOrSpace(c)
    ensures Whole(s) && Placeholders(s, Plain) == 0
    decreases |s|
  {
    if s != "" {
      assert s[0] in s && forall c | c in s[1..] :: c in s;
      LettersAreWhole(s[1..]);
    }
  }

  lemma WordsAreWhole()
    ensures Whole("INSERT INTO ") && Placeholders("INSERT INTO ", Plain) == 0
    ensures Whole(" VALUES ") && Placeholders(" VALUES ", Plain) == 0
    ensures Whole(" ") && Placeholders(" ", Plain) == 0
  {
    hide Whole, Placeholders, Closes;
    LettersAreWhole("INSERT INTO ");
    LettersAreWhole(" VALUES ");
    LettersAreWhole(" ");
  }

  /**
   The number of placeholders in front of an expression, counted in the whole printed statement, is
   the number of the argument `RowKeysOf` takes for it.
   */
  lemma ArgumentsAreBound(table: string, columns: seq<string>, rows: seq<seq<Expr>>, r: nat, i: nat)
    requires Name(table) && columns != [] && (forall k | 0 <= k < |columns| :: Name(columns[k]))
    requires forall j | 0 <= j < |rows| :: rows[j] != [] && forall k | 0 <= k < |rows[j]| :: Ends(rows[j][k])
    requires r < |rows| && i < |rows[r]|
    ensures Placeholders(Before(table, columns, rows, r, i), Plain) == CountRows(rows[..r]) + Count(rows[r][..i])
  {
    hide Whole, Ends, Name, Join, Lead, Show;
    var head := "INSERT INTO " + table + " (" + Join(columns) + ") VALUES ";
    HeadIsWhole(table, columns);
    RowsCount(rows);
    RowsCount(rows[..r]);
    LeadCount(Rendered(rows), r);
    assert Rendered(rows)[..r] == Rendered(rows[..r]);
    WholeAppend(head, Lead(Rendered(rows), r));
    ShownWhole(rows[r]);
    LeadCount(ShowAll(rows[r]), i);
    CountShown(rows[r][..i]);
    assert ShowAll(rows[r])[..i] == ShowAll(rows[r][..i]);
    OpenRow(head + Lead(Rendered(rows), r), Lead(ShowAll(rows[r]), i));
    assert Before(table, columns, rows, r, i) == head + Lead(Rendered(rows), r) + ("(" + Lead(ShowAll(rows[r]), i));
  }

  lemma OpenRow(a: string, b: string)
    requires Whole(a) && Whole(b)
    ensures Placeholders(a + ("(" + b), Plain) == Placeholders(a, Plain) + Placeholders(b, Plain)
  {
    hide Whole;
    BracketsAreWhole();
    WholeAppend("(", b);
    WholeAppend(a, "(" + b);
  }

  // ---- Backslashes ----

  function AskedIn(es: seq<Expr>): nat {
    if es == [] then 0 else Asked(es[0]) + AskedIn(es[1..])
  }

  function HiddenIn(es: seq<Expr>): nat {
    if es == [] then 0 else Hidden(es[0]) + HiddenIn(es[1..])
  }

  function AskedRows(rows: seq<seq<Expr>>): nat {
    if rows == [] then 0 else AskedIn(rows[0]) + AskedRows(rows[1..])
  }

  function HiddenRows(rows: seq<seq<Expr>>): nat {
    if rows == [] then 0 else HiddenIn(rows[0]) + HiddenRows(rows[1..])
  }

  lemma {:induction false} CountSplits(es: seq<Expr>)
    ensures Count(es) == AskedIn(es) + HiddenIn(es)
    decreases |es|
  {
    if es != [] {
      SeenPlaceholders(es[0]);
      CountSplits(es[1..]);
    }
  }

  lemma {:induction false} CountRowsSplits(rows: seq<seq<Expr>>)
    ensures CountRows(rows) == AskedRows(rows) + HiddenRows(rows)
    decreases |rows|
  {
    if rows != [] {
      CountSplits(rows[0]);
      CountRowsSplits(rows[1..]);
    }
  }

  /**
   The argument read for an expression is as many places too far as there are placeholders hidden in
   the quoted texts before it.
   */
  lemma ArgumentsShift(rows: seq<seq<Expr>>, r: nat, i: nat, args: seq<Value>)
    requires r < |rows| && i < |rows[r]|
    ensures ValueAt(rows[r], i, args, CountRows(rows[..r])) ==
            ValueOf(rows[r][i], args, AskedRows(rows[..r]) + AskedIn(rows[r][..i])
                                      + HiddenRows(rows[..r]) + HiddenIn(rows[r][..i]))
  {
    CountSplits(rows[r][..i]);
    CountRowsSplits(rows[..r]);
  }

  /** The value the statement writes for expression `i` of a row whose first placeholder takes argument `at`. */
  function WrittenAt(row: seq<Expr>, i: nat, args: seq<Value>, at: nat): Value
    requires i < |row|
  {
    ValueOf(row[i], args, at + AskedIn(row[..i]))
  }

  /** The key of the row the statement writes. */
  function WrittenKey(keyColumns: seq<string>, columns: seq<string>, row: seq<Expr>, args: seq<Value>, at: nat): string
    requires ValidColumns(keyColumns, columns) && ValidRow(keyColumns, columns, row)
  {
    EncodeKey(seq(|keyColumns|, k requires 0 <= k < |keyColumns| =>
      WrittenAt(row, Position(columns, keyColumns[k]), args, at)))
  }

  function WrittenKeys(keyColumns: seq<string>, columns: seq<string>, rows: seq<seq<Expr>>, args: seq<Value>,
                       at: nat): seq<string>
    requires ValidColumns(keyColumns, columns) && forall i | 0 <= i < |rows| :: ValidRow(keyColumns, columns, rows[i])
  {
    if rows == [] then []
    else
      [WrittenKey(keyColumns, columns, rows[0], args, at)] +
      WrittenKeys(keyColumns, columns, rows[1..], args, at + AskedIn(rows[0]))
  }

  /** Every key column of the row is read with the value that is written. */
  predicate UnmovedRow(keyColumns: seq<string>, columns: seq<string>, row: seq<Expr>, args: seq<Value>, at: nat,
                       asked: nat) {
    |row| == |columns| && forall i | 0 <= i < |row| && columns[i] in keyColumns ::
      ValueAt(row, i, args, at) == WrittenAt(row, i, args, asked)
  }

  /** `at` placeholders have been seen so far, and `asked` of them are printed ones. */
  predicate Unmoved(keyColumns: seq<string>, columns: seq<string>, rows: seq<seq<Expr>>, args: seq<Value>, at: nat,
                    asked: nat)
    decreases |rows|
  {
    rows == [] || (
      && UnmovedRow(keyColumns, columns, rows[0], args, at, asked)
      && Unmoved(keyColumns, columns, rows[1..], args, at + Count(rows[0]), asked + AskedIn(rows[0])))
  }

  lemma PositionOf(keyColumns: seq<string>, columns: seq<string>, i: nat)
    requires ValidColumns(keyColumns, columns) && i < |columns|
    ensures Position(columns, columns[i]) == i
  {
    hide Position;
    var p := Position(columns, columns[i]);
    assert !(p < i) && !(i < p);
  }

  /** Keys are unique, so a row's key is the written one exactly if all its key values are. */
  lemma SameKeyIff(keyColumns: seq<string>, columns: seq<string>, row: seq<Expr>, args: seq<Value>, at: nat, asked: nat)
    requires ValidColumns(keyColumns, columns) && ValidRow(keyColumns, columns, row)
    ensures RowKeyOf(keyColumns, columns, row, args, at) == WrittenKey(keyColumns, columns, row, args, asked) <==>
            UnmovedRow(keyColumns, columns, row, args, at, asked)
  {
    hide EncodeKey, ValueAt, WrittenAt, Position, Name, ValidExpr;
    var read := seq(|keyColumns|, k requires 0 <= k < |keyColumns| =>
      ValueAt(row, Position(columns, keyColumns[k]), args, at));
    var written := seq(|keyColumns|, k requires 0 <= k < |keyColumns| =>
      WrittenAt(row, Position(columns, keyColumns[k]), args, asked));
    if EncodeKey(read) == EncodeKey(written) {
      KeysAreUnique(read, written);
      forall i | 0 <= i < |row| && columns[i] in keyColumns
        ensures ValueAt(row, i, args, at) == WrittenAt(row, i, args, asked)
      {
        PositionOf(keyColumns, columns, i);
        var k :| 0 <= k < |keyColumns| && keyColumns[k] == columns[i];
        assert read[k] == written[k];
      }
    }
    if UnmovedRow(keyColumns, columns, row, args, at, asked) {
      forall k | 0 <= k < |keyColumns| ensures read[k] == written[k] {
        assert columns[Position(columns, keyColumns[k])] in keyColumns;
      }
      assert read == written;
    }
  }

  lemma {:induction false} SameKeysIff(keyColumns: seq<string>, columns: seq<string>, rows: seq<seq<Expr>>,
                                       args: seq<Value>, at: nat, asked: nat)
    requires ValidColumns(keyColumns, columns) && forall i | 0 <= i < |rows| :: ValidRow(keyColumns, columns, rows[i])
    ensures RowKeysOf(keyColumns, columns, rows, args, at) == WrittenKeys(keyColumns, columns, rows, args, asked) <==>
            Unmoved(keyColumns, columns, rows, args, at, asked)
    decreases |rows|
  {
    hide RowKeyOf, WrittenKey, UnmovedRow, Count, AskedIn, ValidColumns, ValidRow;
    if rows != [] {
      SameKeyIff(keyColumns, columns, rows[0], args, at, asked);
      SameKeysIff(keyColumns, columns, rows[1..], args, at + Count(rows[0]), asked + AskedIn(rows[0]));
      SameHeads(RowKeyOf(keyColumns, columns, rows[0], args, at), WrittenKey(keyColumns, columns, rows[0], args, asked),
                RowKeysOf(keyColumns, columns, rows[1..], args, at + Count(rows[0])),
                WrittenKeys(keyColumns, columns, rows[1..], args, asked + AskedIn(rows[0])));
    }
  }

  lemma SameHeads(a: string, b: string, more: seq<string>, others: seq<string>)
    ensures [a] + more == [b] + others <==> a == b && more == others
  {
    if [a] + more == [b] + others {
      assert ([a] + more)[0] == a && ([b] + others)[0] == b;
      assert ([a] + more)[1..] == more && ([b] + others)[1..] == others;
    }
  }

  /**
   The scan of a printed INSERT ... VALUES returns the keys of the rows it writes exactly if no key
   column is unreadable and no hidden placeholder has moved another argument into one.
   */
  lemma WrittenKeysIff(table: string, keyColumns: seq<string>, columns: seq<string>, rows: seq<seq<Expr>>,
                       args: seq<Value>)
    requires Name(table) && ValidColumns(keyColumns, columns) && columns != []
    requires rows != [] && forall i | 0 <= i < |rows| :: ValidRow(keyColumns, columns, rows[i])
    ensures var found := InsertKeysOf(keyColumns, ShowInsert(table, columns, "VALUES " + Join(Rendered(rows))), args);
            found == Ok(WrittenKeys(keyColumns, columns, rows, args, 0)) <==>
            ReadableRows(keyColumns, columns, rows, args, 0) && Unmoved(keyColumns, columns, rows, args, 0, 0)
  {
    hide InsertKeysOf, ShowInsert, Join, Rendered, ReadableRows, Unmoved, ValidRow, ValidColumns, Name, RowKeysOf,
         WrittenKeys, FirstUnreadable;
    InsertValuesKeys(table, keyColumns, columns, rows, args);
    SameKeysIff(keyColumns, columns, rows, args, 0, 0);
  }

  /** In particular if no quoted text hides a placeholder and every printed one has its argument. */
  lemma {:induction false} NothingHidden(keyColumns: seq<string>, columns: seq<string>, rows: seq<seq<Expr>>,
                                         args: seq<Value>, at: nat)
    requires forall r | 0 <= r < |rows| :: ValidRow(keyColumns, columns, rows[r]) && HiddenIn(rows[r]) == 0
    requires at + AskedRows(rows) <= |args|
    ensures ReadableRows(keyColumns, columns, rows, args, at) && Unmoved(keyColumns, columns, rows, args, at, at)
    decreases |rows|
  {
    hide ReadableRow, UnmovedRow, ValidRow, Count, AskedIn, HiddenIn;
    if rows != [] {
      assert ValidRow(keyColumns, columns, rows[0]);
      CountSplits(rows[0]);
      NothingHidden(keyColumns, columns, rows[1..], args, at + Count(rows[0]));
      NothingHiddenHere(keyColumns, columns, rows[0], args, at);
      forall r | 0 <= r < |rows| ensures ReadableRow(keyColumns, columns, rows[r], args, at + CountRows(rows[..r])) {
        CountFirst(rows, if r == 0 then 0 else r - 1);
        if r > 0 {
          assert ReadableRow(keyColumns, columns, rows[1..][r - 1], args,
                             at + Count(rows[0]) + CountRows(rows[1..][..r - 1]));
        }
      }
    }
  }

  lemma NothingHiddenHere(keyColumns: seq<string>, columns: seq<string>, row: seq<Expr>, args: seq<Value>, at: nat)
    requires ValidRow(keyColumns, columns, row) && HiddenIn(row) == 0 && at + AskedIn(row) <= |args|
    ensures ReadableRow(keyColumns, columns, row, args, at) && UnmovedRow(keyColumns, columns, row, args, at, at)
  {
    hide Placeholders, ValidExpr, Show, Asked, Hidden;
    CountSplits(row);
    forall i | 0 <= i < |row|
      ensures ReadableAt(keyColumns, columns, row, args, at, i) &&
              ValueAt(row, i, args, at) == WrittenAt(row, i, args, at)
    {
      HiddenBefore(row, i);
      CountSplits(row[..i]);
      CountSnoc(row, i);
      SeenPlaceholders(row[i]);
      AskedArgument(row[i]);
    }
  }

  lemma AskedArgument(e: Expr)
    ensures e.Argument? ==> Asked(e) == 1
  {
  }

  lemma {:induction false} HiddenBefore(es: seq<Expr>, i: nat)
    requires i < |es|
    ensures HiddenIn(es[..i]) + Hidden(es[i]) <= HiddenIn(es)
    decreases i
  {
    if i > 0 {
      HiddenBefore(es[1..], i - 1);
      assert es[..i][0] == es[0] && es[..i][1..] == es[1..][..i - 1];
    }
  }


  /** The placeholder scan takes a backslash as an escape, the printer does not: a text can show a placeholder. */
  lemma BackslashIsMisread()
    ensures Placeholders(Show(Text("\\'?")), Plain) == 1
  {
    var shown := "'\\''?'";
    assert Double("?") == "?" && Double("'?") == "''?" && Double("\\'?") == "\\''?" by {
      assert "?"[1..] == "" && "'?"[1..] == "?" && "\\'?"[1..] == "'?";
    }
    assert shown[1..] == "\\''?'" && "\\''?'"[1..] == "''?'" && "''?'"[1..] == "'?'" && "'?'"[1..] == "?'" &&
      "?'"[1..] == "'" && "'"[1..] == "";
  }

  /** A key text shows no placeholder, and none is hidden before a placeholder of a key column. */
  predicate InPlace(rows: seq<seq<Expr>>, r: nat, i: nat)
    requires r < |rows| && i < |rows[r]|
  {
    match rows[r][i]
    case Argument => HiddenRows(rows[..r]) + HiddenIn(rows[r][..i]) == 0
    case Text(_) => Hidden(rows[r][i]) == 0
    case _ => true
  }

  predicate AllInPlace(keyColumns: seq<string>, columns: seq<string>, rows: seq<seq<Expr>>) {
    forall r, i | 0 <= r < |rows| && 0 <= i < |rows[r]| && i < |columns| && columns[i] in keyColumns ::
      InPlace(rows, r, i)
  }

  /** The number of arguments an expression and all before it ask for. */
  lemma AskedBefore(rows: seq<seq<Expr>>, r: nat, i: nat)
    requires r < |rows| && i < |rows[r]|
    ensures AskedRows(rows[..r]) + AskedIn(rows[r][..i]) + Asked(rows[r][i]) <= AskedRows(rows)
  {
    AskedInBefore(rows[r], i);
    AskedRowsBefore(rows, r);
  }

  lemma {:induction false} AskedInBefore(es: seq<Expr>, i: nat)
    requires i < |es|
    ensures AskedIn(es[..i]) + Asked(es[i]) <= AskedIn(es)
    decreases i
  {
    if i > 0 {
      AskedInBefore(es[1..], i - 1);
      assert es[..i][0] == es[0] && es[..i][1..] == es[1..][..i - 1];
    }
  }

  lemma {:induction false} AskedRowsBefore(rows: seq<seq<Expr>>, r: nat)
    requires r < |rows|
    ensures AskedRows(rows[..r]) + AskedIn(rows[r]) <= AskedRows(rows)
    decreases r
  {
    if r > 0 {
      AskedRowsBefore(rows[1..], r - 1);
      assert rows[..r][0] == rows[0] && rows[..r][1..] == rows[1..][..r - 1];
    }
  }

  /** `Unmoved` row by row. */
  lemma {:induction false} UnmovedEach(keyColumns: seq<string>, columns: seq<string>, rows: seq<seq<Expr>>,
                                       args: seq<Value>,
                                       at: nat, asked: nat)
    ensures Unmoved(keyColumns, columns, rows, args, at, asked) <==>
            forall r | 0 <= r < |rows| ::
              UnmovedRow(keyColumns, columns, rows[r], args, at + CountRows(rows[..r]), asked + AskedRows(rows[..r]))
    decreases |rows|
  {
    hide UnmovedRow, Count, AskedIn, CountRows, AskedRows;
    if rows != [] {
      var at_, asked_ := at + Count(rows[0]), asked + AskedIn(rows[0]);
      UnmovedEach(keyColumns, columns, rows[1..], args, at_, asked_);
      CountFirst(rows, 0);
      AskedFirst(rows, 0);
      forall r | 0 <= r < |rows[1..]|
        ensures UnmovedRow(keyColumns, columns, rows[1..][r], args, at_ + CountRows(rows[1..][..r]),
                           asked_ + AskedRows(rows[1..][..r])) <==>
                UnmovedRow(keyColumns, columns, rows[r + 1], args, at + CountRows(rows[..r + 1]),
                           asked + AskedRows(rows[..r + 1]))
      {
        CountFirst(rows, r);
        AskedFirst(rows, r);
      }
    }
  }

  lemma AskedFirst(rows: seq<seq<Expr>>, s: nat)
    requires s < |rows|
    ensures AskedRows(rows[..s + 1]) == AskedIn(rows[0]) + AskedRows(rows[1..][..s])
    ensures AskedRows(rows[..0]) == 0
  {
    assert rows[..s + 1][0] == rows[0] && rows[..s + 1][1..] == rows[1..][..s];
  }

  /** An expression in its place is read, with the value that is written. */
  lemma PlaceIsRead(keyColumns: seq<string>, columns: seq<string>, rows: seq<seq<Expr>>, args: seq<Value>, r: nat,
                    i: nat)
    requires r < |rows| && i < |rows[r]| == |columns| && InPlace(rows, r, i) && AskedRows(rows) <= |args|
    ensures ReadableAt(keyColumns, columns, rows[r], args, CountRows(rows[..r]), i)
    ensures ValueAt(rows[r], i, args, CountRows(rows[..r])) == WrittenAt(rows[r], i, args, AskedRows(rows[..r]))
  {
    CountSplits(rows[r][..i]);
    CountRowsSplits(rows[..r]);
    AskedBefore(rows, r, i);
    AskedArgument(rows[r][i]);
  }

  /** Arguments for which an expression out of its place is refused, or read with another value. */
  lemma PlaceIsMissed(keyColumns: seq<string>, columns: seq<string>, rows: seq<seq<Expr>>, r: nat, i: nat)
    returns (args: seq<Value>)
    requires r < |rows| && i < |rows[r]| == |columns| && columns[i] in keyColumns && !InPlace(rows, r, i)
    ensures AskedRows(rows) <= |args|
    ensures !ReadableAt(keyColumns, columns, rows[r], args, CountRows(rows[..r]), i) ||
            ValueAt(rows[r], i, args, CountRows(rows[..r])) != WrittenAt(rows[r], i, args, AskedRows(rows[..r]))
  {
    hide Hidden;
    CountSplits(rows[r][..i]);
    CountRowsSplits(rows[..r]);
    var written, read := AskedRows(rows[..r]) + AskedIn(rows[r][..i]), CountRows(rows[..r]) + Count(rows[r][..i]);
    var size := AskedRows(rows) + read + 1;
    args := seq(size, k => if k == written then Some("") else None);
    assert written < size && read < size;
  }

  /**
   The scan of a printed INSERT ... VALUES returns the keys of the rows it writes, whatever the
   arguments, exactly if no text of a key column shows a placeholder and no text hides one before
   the placeholder of a key column.
   */
  lemma AlwaysWrittenIff(table: string, keyColumns: seq<string>, columns: seq<string>, rows: seq<seq<Expr>>)
    requires Name(table) && ValidColumns(keyColumns, columns) && columns != []
    requires rows != [] && forall i | 0 <= i < |rows| :: ValidRow(keyColumns, columns, rows[i])
    ensures (forall args: seq<Value> | AskedRows(rows) <= |args| ::
              FindsWritten(table, keyColumns, columns, rows, args)) <==>
            AllInPlace(keyColumns, columns, rows)
  {
    hide FindsWritten, InPlace, ReadableRows, Unmoved, ValidColumns, Name, ValidExpr;
    if AllInPlace(keyColumns, columns, rows) {
      forall args: seq<Value> | AskedRows(rows) <= |args| ensures FindsWritten(table, keyColumns, columns, rows, args) {
        InPlaceIsRead(keyColumns, columns, rows, args);
        FindsWrittenIff(table, keyColumns, columns, rows, args);
      }
    } else {
      var r, i :| 0 <= r < |rows| && 0 <= i < |rows[r]| && i < |columns| && columns[i] in keyColumns &&
        !InPlace(rows, r, i);
      assert ValidRow(keyColumns, columns, rows[r]);
      var args := PlaceIsMissed(keyColumns, columns, rows, r, i);
      MissedIsNotFound(keyColumns, columns, rows, args, r, i);
      FindsWrittenIff(table, keyColumns, columns, rows, args);
    }
  }

  /** The scan of the printed rows returns their keys. */
  ghost predicate FindsWritten(table: string, keyColumns: seq<string>, columns: seq<string>, rows: seq<seq<Expr>>,
                               args: seq<Value>)
    requires ValidColumns(keyColumns, columns) && forall i | 0 <= i < |rows| :: ValidRow(keyColumns, columns, rows[i])
  {
    InsertKeysOf(keyColumns, ShowInsert(table, columns, "VALUES " + Join(Rendered(rows))), args) ==
      Ok(WrittenKeys(keyColumns, columns, rows, args, 0))
  }

  lemma FindsWrittenIff(table: string, keyColumns: seq<string>, columns: seq<string>, rows: seq<seq<Expr>>,
                        args: seq<Value>)
    requires Name(table) && ValidColumns(keyColumns, columns) && columns != []
    requires rows != [] && forall i | 0 <= i < |rows| :: ValidRow(keyColumns, columns, rows[i])
    ensures FindsWritten(table, keyColumns, columns, rows, args) <==>
            ReadableRows(keyColumns, columns, rows, args, 0) && Unmoved(keyColumns, columns, rows, args, 0, 0)
  {
    hide InsertKeysOf, ShowInsert, Join, Rendered, ReadableRows, Unmoved, ValidColumns, Name, WrittenKeys, ValidExpr;
    WrittenKeysIff(table, keyColumns, columns, rows, args);
  }

  lemma InPlaceIsRead(keyColumns: seq<string>, columns: seq<string>, rows: seq<seq<Expr>>, args: seq<Value>)
    requires forall i | 0 <= i < |rows| :: ValidRow(keyColumns, columns, rows[i])
    requires AllInPlace(keyColumns, columns, rows) && AskedRows(rows) <= |args|
    ensures ReadableRows(keyColumns, columns, rows, args, 0) && Unmoved(keyColumns, columns, rows, args, 0, 0)
  {
    hide InPlace, ValueAt, WrittenAt, CountRows, AskedRows, Unmoved, ValidExpr, Count, Hidden;
    forall r | 0 <= r < |rows|
      ensures ReadableRow(keyColumns, columns, rows[r], args, 0 + CountRows(rows[..r]))
      ensures UnmovedRow(keyColumns, columns, rows[r], args, 0 + CountRows(rows[..r]), 0 + AskedRows(rows[..r]))
    {
      assert ValidRow(keyColumns, columns, rows[r]);
      forall i | 0 <= i < |rows[r]| && columns[i] in keyColumns
        ensures ReadableAt(keyColumns, columns, rows[r], args, CountRows(rows[..r]), i)
        ensures ValueAt(rows[r], i, args, CountRows(rows[..r])) == WrittenAt(rows[r], i, args, AskedRows(rows[..r]))
      {
        assert InPlace(rows, r, i);
        PlaceIsRead(keyColumns, columns, rows, args, r, i);
      }
    }
    UnmovedEach(keyColumns, columns, rows, args, 0, 0);
  }

  lemma MissedIsNotFound(keyColumns: seq<string>, columns: seq<string>, rows: seq<seq<Expr>>, args: seq<Value>, r: nat,
                         i: nat)
    requires r < |rows| && i < |rows[r]| == |columns| && columns[i] in keyColumns
    requires !ReadableAt(keyColumns, columns, rows[r], args, CountRows(rows[..r]), i) ||
             ValueAt(rows[r], i, args, CountRows(rows[..r])) != WrittenAt(rows[r], i, args, AskedRows(rows[..r]))
    ensures !(ReadableRows(keyColumns, columns, rows, args, 0) && Unmoved(keyColumns, columns, rows, args, 0, 0))
  {
    hide ReadableAt, ValueAt, WrittenAt, CountRows, AskedRows, Unmoved;
    UnmovedEach(keyColumns, columns, rows, args, 0, 0);
    if ReadableRows(keyColumns, columns, rows, args, 0) {
      assert ReadableRow(keyColumns, columns, rows[r], args, 0 + CountRows(rows[..r]));
    }
  }

  /** A statement without backslashes gives the keys of the rows it writes. */
  lemma PlainValuesKeys(table: string, keyColumns: seq<string>, columns: seq<string>, rows: seq<seq<Expr>>,
                        args: seq<Value>)
    requires Name(table) && ValidColumns(keyColumns, columns) && columns != []
    requires rows != [] && forall r | 0 <= r < |rows| :: ValidRow(keyColumns, columns, rows[r])
    requires forall r, i | 0 <= r < |rows| && 0 <= i < |rows[r]| :: '\\' !in Show(rows[r][i])
    requires AskedRows(rows) <= |args|
    ensures InsertKeysOf(keyColumns, ShowInsert(table, columns, "VALUES " + Join(Rendered(rows))), args)
         == Ok(WrittenKeys(keyColumns, columns, rows, args, 0))
  {
    hide InsertKeysOf, ShowInsert, Join, Rendered, ReadableRows, Unmoved, ValidColumns, Name, WrittenKeys, Show,
         ValidExpr, HiddenIn;
    forall r | 0 <= r < |rows| ensures ValidRow(keyColumns, columns, rows[r]) && HiddenIn(rows[r]) == 0 {
      assert ValidRow(keyColumns, columns, rows[r]);
      NothingHiddenIn(rows[r]);
    }
    NothingHidden(keyColumns, columns, rows, args, 0);
    WrittenKeysIff(table, keyColumns, columns, rows, args);
  }

  lemma {:induction false} NothingHiddenIn(es: seq<Expr>)
    requires forall i | 0 <= i < |es| :: ValidExpr(es[i]) && '\\' !in Show(es[i])
    ensures HiddenIn(es) == 0
    decreases |es|
  {
    if es != [] {
      NoBackslash(es[0]);
      NothingHiddenIn(es[1..]);
    }
  }

  const V := "v"
  const K := "k"
  const SHIFTING := [Text("\\'?"), Argument]

  lemma ShiftingRow()
    ensures ValidColumns([K], [V, K]) && ValidRow([K], [V, K], SHIFTING)
    ensures Count(SHIFTING[..0]) == 0 && Count(SHIFTING[..1]) == 1 && AskedIn(SHIFTING[..1]) == 0 &&
            Position([V, K], K) == 1
  {
    BackslashIsMisread();
    assert SHIFTING[..0] == [] && SHIFTING[..1] == [SHIFTING[0]] && [SHIFTING[0]][1..] == [];
    assert [V, K][1..] == [K];
  }

  lemma ShiftingKeys(x: Value, y: Value)
    ensures ValidColumns([K], [V, K]) && ValidRow([K], [V, K], SHIFTING)
    ensures WrittenKeys([K], [V, K], [SHIFTING], [x, y], 0) == [EncodeKey([x])]
    ensures RowKeysOf([K], [V, K], [SHIFTING], [x, y], 0) == [EncodeKey([y])]
  {
    hide EncodeKey, Count, AskedIn, ValidRow, ValidColumns, Placeholders, Position;
    ShiftingRow();
    assert [SHIFTING][1..] == [];
    assert seq(1, k requires 0 <= k < 1 => WrittenAt(SHIFTING, Position([V, K], [K][k]), [x, y], 0)) == [x];
    assert seq(1, k requires 0 <= k < 1 => ValueAt(SHIFTING, Position([V, K], [K][k]), [x, y], 0)) == [y];
  }

  lemma ShiftingRead(args: seq<Value>)
    ensures ReadableRows([K], [V, K], [SHIFTING], args, 0) <==> |args| >= 2
    ensures forall r: nat, i: nat :: FirstUnreadable([K], [V, K], [SHIFTING], args, 0, r, i) ==> i == 1
  {
    hide Count, Placeholders;
    ShiftingRow();
    assert [SHIFTING][..0] == [] && CountRows([]) == 0;
    assert ReadableAt([K], [V, K], SHIFTING, args, 0, 0);
    assert ReadableAt([K], [V, K], SHIFTING, args, 0, 1) <==> |args| >= 2;
    assert ReadableRow([K], [V, K], [SHIFTING][0], args, 0 + CountRows([SHIFTING][..0])) <==> |args| >= 2;
  }

  /** A text that hides a placeholder makes a later key column take the argument after its own. */
  lemma ShiftedKey(table: string, x: Value, y: Value)
    requires Name(table) && x != y
    ensures ValidColumns([K], [V, K]) && ValidRow([K], [V, K], SHIFTING)
    ensures WrittenKeys([K], [V, K], [SHIFTING], [x, y], 0) == [EncodeKey([x])]
    ensures var printed := ShowInsert(table, [V, K], "VALUES " + Join(Rendered([SHIFTING])));
            && InsertKeysOf([K], printed, [x, y]) == Ok([EncodeKey([y])])
            && InsertKeysOf([K], printed, [x]) == Failed(Unsupported(K))
    ensures EncodeKey([x]) != EncodeKey([y])
  {
    hide Name, InsertKeysOf, ShowInsert, Join, Rendered, EncodeKey, ReadableRows, FirstUnreadable, ValidRow,
         ValidColumns, RowKeysOf, WrittenKeys;
    ShiftingKeys(x, y);
    ShiftingRead([x, y]);
    ShiftingRead([x]);
    InsertValuesKeys(table, [K], [V, K], [SHIFTING], [x, y]);
    InsertValuesKeys(table, [K], [V, K], [SHIFTING], [x]);
    if EncodeKey([x]) == EncodeKey([y]) { KeysAreUnique([x], [y]); }
  }
}
