/**
 Finding the row keys of an INSERT in its text: `clickHouseInsertKeys`. The keys must be those of
 the rows the statement will write, for every INSERT printed from a table, columns and rows.
 */
module SqlInsert {
  import opened SqlText
  import opened Collections
  import opened RowKey

  datatype Failure =
    | UnknownTable | NoTarget | NoColumns | BadColumns | BadValues | BadSource
    | WrongCount | Unsupported(column: string) | KeyOmitted(column: string)

  datatype Result<T> = Ok(value: T) | Failed(reason: Failure)

  // ---- The target of a mutation ----

  predicate IsPatternSpace(c: char) {
    c == ' ' || c == '\t' || c == '\n' || c == '\U{C}' || c == '\r'
  }

  function SkipSpace(s: string, i: nat): (r: nat)
    requires i <= |s|
    ensures i <= r <= |s| && (r < |s| ==> !IsPatternSpace(s[r]))
    decreases |s| - i
  {
    if i < |s| && IsPatternSpace(s[i]) then SkipSpace(s, i + 1) else i
  }

  predicate IsNameByte(c: char) {
    c == '_' || 'A' <= c <= 'Z' || 'a' <= c <= 'z' || '0' <= c <= '9'
  }

  function SkipName(s: string, i: nat): (r: nat)
    requires i <= |s|
    ensures i <= r <= |s|
    decreases |s| - i
  {
    if i < |s| && IsNameByte(s[i]) then SkipName(s, i + 1) else i
  }

  /** Two words with white space between them, then white space and a name: the end of the name. */
  function TwoWords(s: string, i: nat, first: string, second: string): (r: Option<nat>)
    requires i <= |s|
    ensures r.Some? ==> r.value <= |s|
  {
    if !HasPrefix(Upper(s[i..]), first) then None
    else
      var j := SkipSpace(s, i + |first|);
      if j == i + |first| || !HasPrefix(Upper(s[j..]), second) then None
      else
        var k := SkipSpace(s, j + |second|);
        var end := SkipName(s, k);
        if k == j + |second| || end == k then None else Some(end)
  }

  /** Leading comments may end at any later comment end; the first that lets the rest match counts. */
  function TargetEnd(s: string, i: nat): (r: Option<nat>)
    requires i <= |s|
    ensures r.Some? ==> r.value <= |s|
    decreases |s| - i, 1
  {
    var j := SkipSpace(s, i);
    if HasPrefix(s[j..], "/*") then AfterComment(s, j + 2)
    else
      var insert := TwoWords(s, j, "INSERT", "INTO");
      if insert != None then insert else
      var alter := TwoWords(s, j, "ALTER", "TABLE");
      if alter != None then alter else
      var delete := TwoWords(s, j, "DELETE", "FROM");
      if delete != None then delete else TwoWords(s, j, "TRUNCATE", "TABLE")
  }

  function AfterComment(s: string, i: nat): (r: Option<nat>)
    requires i <= |s|
    ensures r.Some? ==> r.value <= |s|
    decreases |s| - i, 0
  {
    if i == |s| then None
    else
      var here := if HasPrefix(s[i..], "*/") then TargetEnd(s, i + 2) else None;
      if here != None then here else AfterComment(s, i + 1)
  }

  // ---- Values ----

  function IndexOf(s: string, c: char): (r: int)
    ensures -1 <= r < |s| && (r >= 0 ==> s[r] == c)
  {
    if s == "" then -1
    else if s[0] == c then 0
    else var r := IndexOf(s[1..], c); if r < 0 then -1 else r + 1
  }

  /** Removes backquotes and double quotes around a column name. */
  function Unquote(s: string): string
    decreases |s|
  {
    if s != "" && (s[0] == '`' || s[0] == '"') then Unquote(s[1..])
    else if s != "" && (s[|s| - 1] == '`' || s[|s| - 1] == '"') then Unquote(s[..|s| - 1])
    else s
  }

  /** Two single quotes stand for one. */
  function Undouble(s: string): string {
    if s == "" then ""
    else if |s| >= 2 && s[0] == '\'' && s[1] == '\'' then "'" + Undouble(s[2..])
    else [s[0]] + Undouble(s[1..])
  }

  function ParseLiteral(expression: string): Value {
    var trimmed := Trim(expression);
    if Upper(trimmed) == "NULL" then None
    else if |trimmed| >= 2 && trimmed[0] == '\'' && trimmed[|trimmed| - 1] == '\'' then
      Some(Undouble(trimmed[1..|trimmed| - 1]))
    else Some(trimmed)
  }

  lemma CloseAfterOpen(s: string)
    requires s != "" && s[0] == '('
    ensures Close(Plain, 0, s) != 0
  {
  }

  /** Items already found, in front of those still to be found. */
  function After<T>(done: seq<T>, rest: Result<seq<T>>): Result<seq<T>> {
    match rest
    case Failed(reason) => Failed(reason)
    case Ok(more) => Ok(done + more)
  }

  lemma AfterOne<T>(done: seq<T>, one: T, rest: Result<seq<T>>)
    ensures After(done, After([one], rest)) == After(done + [one], rest)
    ensures After([], rest) == rest
  {
    if rest.Ok? {
      assert done + ([one] + rest.value) == done + [one] + rest.value;
      assert [] + rest.value == rest.value;
    }
  }

  function ListInParentheses(s: string): Option<seq<string>> {
    var start := IndexOf(s, '(');
    if start < 0 then None
    else
      var end := Close(Plain, 0, s[start..]);
      if end < 0 then None else CloseAfterOpen(s[start..]); Some(Split(s[start + 1..start + end]))
  }

  function Groups(groups: seq<string>): Result<seq<seq<string>>> {
    if groups == [] then Ok([])
    else match ListInParentheses(groups[0])
      case None => Failed(BadValues)
      case Some(first) => After([first], Groups(groups[1..]))
  }

  /** The position of the first top-level `keyword`, or -1. */
  ghost function KeywordIndex(s: string, keyword: string): (r: int)
    ensures r == -1 ==> forall i :: !KeywordAt(s, keyword, i)
    ensures r != -1 ==> KeywordAt(s, keyword, r) && forall i | i < r :: !KeywordAt(s, keyword, i)
  {
    LeastKeyword(s, keyword, 0)
  }

  ghost function LeastKeyword(s: string, keyword: string, i: nat): (r: int)
    requires i <= |s| && forall j | j < i :: !KeywordAt(s, keyword, j)
    ensures r == -1 ==> forall j :: !KeywordAt(s, keyword, j)
    ensures r != -1 ==> KeywordAt(s, keyword, r) && forall j | j < r :: !KeywordAt(s, keyword, j)
    decreases |s| - i
  {
    if i == |s| then -1 else if KeywordAt(s, keyword, i) then i else LeastKeyword(s, keyword, i + 1)
  }

  ghost function SelectList(source: string): seq<string> {
    var values := Trim(source);
    var where_ := KeywordIndex(values, "WHERE");
    Split(if where_ >= 0 then Trim(values[..where_]) else values)
  }

  /** The expressions of every row of a VALUES or SELECT source. */
  ghost function Rows(source: string): Result<seq<seq<string>>> {
    if HasPrefix(Upper(source), "VALUES") then Groups(Split(Trim(source[6..])))
    else if HasPrefix(Upper(source), "SELECT") then Ok([SelectList(source[6..])])
    else Failed(BadSource)
  }

  /** The key column values of one row from its expression `i` on, and the next free argument. */
  function RowValues(keyColumns: seq<string>, columns: seq<string>, row: seq<string>, args: seq<Value>,
                     at: nat, values: map<string, Value>, i: nat): Result<(map<string, Value>, nat)>
    requires i <= |row| == |columns|
    decreases |row| - i
  {
    if i == |row| then Ok((values, at))
    else
      var count := Placeholders(row[i], Plain);
      var column := Unquote(Trim(columns[i]));
      if column !in keyColumns then RowValues(keyColumns, columns, row, args, at + count, values, i + 1)
      else if Trim(row[i]) == "?" && at < |args| then
        RowValues(keyColumns, columns, row, args, at + count, values[column := args[at]], i + 1)
      else if count == 0 then
        RowValues(keyColumns, columns, row, args, at + count, values[column := ParseLiteral(row[i])], i + 1)
      else Failed(Unsupported(column))
  }

  function KeyValues(keyColumns: seq<string>, values: map<string, Value>): Result<seq<Value>> {
    if keyColumns == [] then Ok([])
    else if keyColumns[0] !in values then Failed(KeyOmitted(keyColumns[0]))
    else After([values[keyColumns[0]]], KeyValues(keyColumns[1..], values))
  }

  function RowKeys(keyColumns: seq<string>, columns: seq<string>, rows: seq<seq<string>>, args: seq<Value>,
                   at: nat): Result<seq<string>>
    decreases |rows|
  {
    if rows == [] then Ok([])
    else if |columns| != |rows[0]| then Failed(WrongCount)
    else match RowValues(keyColumns, columns, rows[0], args, at, map[], 0)
      case Failed(reason) => Failed(reason)
      case Ok((values, next)) =>
        match KeyValues(keyColumns, values)
        case Failed(reason) => Failed(reason)
        case Ok(key) => After([EncodeKey(key)], RowKeys(keyColumns, columns, rows[1..], args, next))
  }

  /** What the scan of the text behind the table name returns. */
  ghost function KeysOfRemainder(keyColumns: seq<string>, remainder: string, args: seq<Value>): Result<seq<string>> {
    var start := IndexOf(remainder, '(');
    if start < 0 then Failed(NoColumns)
    else
      var close := Close(Plain, 0, remainder[start..]);
      if close < 0 then Failed(BadColumns)
      else
        CloseAfterOpen(remainder[start..]);
        KeysOfSource(keyColumns, Split(remainder[start + 1..start + close]), Trim(remainder[start + close + 1..]), args)
  }

  ghost function KeysOfSource(keyColumns: seq<string>, columns: seq<string>, source: string,
                              args: seq<Value>): Result<seq<string>> {
    match Rows(source)
    case Failed(reason) => Failed(reason)
    case Ok(rows) => RowKeys(keyColumns, columns, rows, args, 0)
  }

  ghost function InsertKeysOf(keyColumns: seq<string>, query: string, args: seq<Value>): Result<seq<string>> {
    match TargetEnd(query, 0)
    case None => Failed(NoTarget)
    case Some(end) => KeysOfRemainder(keyColumns, query[end..], args)
  }

  // ---- The scan itself ----

  method GroupRows(groups: seq<string>) returns (r: Result<seq<seq<string>>>)
    ensures r == Groups(groups)
  {
    var rows: seq<seq<string>> := [];
    assert groups[0..] == groups;
    AfterOne(rows, [], Groups(groups));
    for i := 0 to |groups|
      invariant Groups(groups) == After(rows, Groups(groups[i..]))
    {
      assert groups[i..][1..] == groups[i + 1..];
      var group := groups[i];
      var start := IndexOf(group, '(');
      if start < 0 { return Failed(BadValues); }
      var end := MatchingParenthesis(group, start);
      if end < 0 { return Failed(BadValues); }
      CloseAfterOpen(group[start..]);
      var row := SplitTopLevelList(group[start + 1..end]);
      AfterOne(rows, row, Groups(groups[i + 1..]));
      rows := rows + [row];
    }
    assert groups[|groups|..] == [] && rows + [] == rows;
    return Ok(rows);
  }

  method ExpressionRows(source: string) returns (r: Result<seq<seq<string>>>)
    ensures r == Rows(source)
  {
    var upper := Upper(source);
    if HasPrefix(upper, "VALUES") {
      var groups := SplitTopLevelList(Trim(source[6..]));
      r := GroupRows(groups);
    } else if HasPrefix(upper, "SELECT") {
      var values := Trim(source[6..]);
      var where_ := FindTopLevelKeyword(values, "WHERE");
      KeywordUnique(values, "WHERE", where_);
      if where_ >= 0 {
        values := Trim(values[..where_]);
      }
      var row := SplitTopLevelList(values);
      return Ok([row]);
    } else {
      return Failed(BadSource);
    }
  }

  lemma KeywordUnique(s: string, keyword: string, at: int)
    requires at == -1 ==> forall i :: !KeywordAt(s, keyword, i)
    requires at != -1 ==> KeywordAt(s, keyword, at) && forall i | i < at :: !KeywordAt(s, keyword, i)
    ensures at == KeywordIndex(s, keyword)
  {
    var r := KeywordIndex(s, keyword);
    if at != -1 && r != -1 {
      assert !(r < at) && !(at < r);
    }
  }

  /** Binds the key columns of one row; returns the position of the next free argument. */
  method BindRow(keyColumns: seq<string>, columns: seq<string>, row: seq<string>, args: seq<Value>, at: nat)
    returns (r: Result<(map<string, Value>, nat)>)
    requires |row| == |columns|
    ensures r == RowValues(keyColumns, columns, row, args, at, map[], 0)
  {
    var values: map<string, Value>, argument: nat := map[], at;
    for i := 0 to |row|
      invariant RowValues(keyColumns, columns, row, args, at, map[], 0) ==
                RowValues(keyColumns, columns, row, args, argument, values, i)
    {
      var count := CountPlaceholders(row[i]);
      var column := Unquote(Trim(columns[i]));
      if column in keyColumns {
        if Trim(row[i]) == "?" && argument < |args| {
          values := values[column := args[argument]];
        } else if count == 0 {
          values := values[column := ParseLiteral(row[i])];
        } else {
          return Failed(Unsupported(column));
        }
      }
      argument := argument + count;
    }
    return Ok((values, argument));
  }

  method KeyOfRow(keyColumns: seq<string>, values: map<string, Value>) returns (r: Result<seq<Value>>)
    ensures r == KeyValues(keyColumns, values)
  {
    var key: seq<Value> := [];
    assert keyColumns[0..] == keyColumns;
    AfterOne(key, None, KeyValues(keyColumns, values));
    for i := 0 to |keyColumns|
      invariant KeyValues(keyColumns, values) == After(key, KeyValues(keyColumns[i..], values))
    {
      assert keyColumns[i..][1..] == keyColumns[i + 1..];
      if keyColumns[i] !in values {
        return Failed(KeyOmitted(keyColumns[i]));
      }
      AfterOne(key, values[keyColumns[i]], KeyValues(keyColumns[i + 1..], values));
      key := key + [values[keyColumns[i]]];
    }
    assert keyColumns[|keyColumns|..] == [] && key + [] == key;
    return Ok(key);
  }

  method KeysOfRows(keyColumns: seq<string>, columns: seq<string>, rows: seq<seq<string>>, args: seq<Value>)
    returns (r: Result<seq<string>>)
    ensures r == RowKeys(keyColumns, columns, rows, args, 0)
  {
    var keys: seq<string>, argument: nat := [], 0;
    assert rows[0..] == rows;
    AfterOne(keys, "", RowKeys(keyColumns, columns, rows, args, 0));
    for i := 0 to |rows|
      invariant RowKeys(keyColumns, columns, rows, args, 0) ==
                After(keys, RowKeys(keyColumns, columns, rows[i..], args, argument))
    {
      assert rows[i..][1..] == rows[i + 1..];
      if |columns| != |rows[i]| {
        return Failed(WrongCount);
      }
      var bound := BindRow(keyColumns, columns, rows[i], args, argument);
      if bound.Failed? { return Failed(bound.reason); }
      var key := KeyOfRow(keyColumns, bound.value.0);
      if key.Failed? { return Failed(key.reason); }
      argument := bound.value.1;
      var text := Encode(key.value);
      AfterOne(keys, text, RowKeys(keyColumns, columns, rows[i + 1..], args, argument));
      keys := keys + [text];
    }
    assert rows[|rows|..] == [] && keys + [] == keys;
    return Ok(keys);
  }

  method SourceKeys(keyColumns: seq<string>, columns: seq<string>, source: string, args: seq<Value>)
    returns (r: Result<seq<string>>)
    ensures r == KeysOfSource(keyColumns, columns, source, args)
  {
    var rows := ExpressionRows(source);
    if rows.Failed? {
      return Failed(rows.reason);
    }
    r := KeysOfRows(keyColumns, columns, rows.value, args);
  }

  method InsertKeysAfterTarget(keyColumns: seq<string>, remainder: string, args: seq<Value>)
    returns (r: Result<seq<string>>)
    ensures r == KeysOfRemainder(keyColumns, remainder, args)
  {
    hide KeysOfSource, Split, Trim, Close, IndexOf;
    var start := IndexOf(remainder, '(');
    if start < 0 {
      return Failed(NoColumns);
    }
    var end := MatchingParenthesis(remainder, start);
    if end < 0 {
      return Failed(BadColumns);
    }
    CloseAfterOpen(remainder[start..]);
    var columns := SplitTopLevelList(remainder[start + 1..end]);
    r := SourceKeys(keyColumns, columns, Trim(remainder[end + 1..]), args);
  }

  /** The row keys of an INSERT statement, in row order. `schemas` gives the key columns of each table. */
  method InsertKeys(schemas: map<string, seq<string>>, table: string, query: string, args: seq<Value>)
    returns (r: Result<seq<string>>)
    ensures r == if table in schemas then InsertKeysOf(schemas[table], query, args) else Failed(UnknownTable)
  {
    if table !in schemas {
      return Failed(UnknownTable);
    }
    var target := TargetEnd(query, 0);
    if target == None {
      return Failed(NoTarget);
    }
    r := InsertKeysAfterTarget(schemas[table], query[target.value..], args);
  }
}
