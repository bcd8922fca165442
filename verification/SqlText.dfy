/**
 The quote-aware scanners that the ClickHouse undo log uses to find out which rows a statement
 will touch. Text is ASCII. The specification is one automaton that reads a character at a time;
 the scanners look ahead and skip, and are proved to agree with it.
 */
module SqlText {

  datatype Mode = Plain | Quoted(quote: char) | Escaped(quote: char)

  /** Where a scanner is: inside which quote, and how deep in parentheses. */
  datatype Lex = Lex(mode: Mode, depth: int)

  const START := Lex(Plain, 0)

  predicate IsQuote(c: char) {
    c == '\'' || c == '"' || c == '`'
  }

  /** `escapes`: a backslash inside quotes hides the next character. */
  function NextMode(m: Mode, c: char, escapes: bool): Mode {
    match m
    case Plain => if IsQuote(c) then Quoted(c) else Plain
    case Quoted(q) => if c == q then Plain else if escapes && c == '\\' then Escaped(q) else m
    case Escaped(q) => Quoted(q)
  }

  /** A closing parenthesis with nothing open is ignored. */
  function Next(st: Lex, c: char, escapes: bool): Lex {
    Lex(NextMode(st.mode, c, escapes),
        if st.mode != Plain then st.depth
        else if c == '(' then st.depth + 1
        else if c == ')' && st.depth > 0 then st.depth - 1
        else st.depth)
  }

  function Read(st: Lex, s: string, escapes: bool): Lex
    decreases |s|
  {
    if s == "" then st else Read(Next(st, s[0], escapes), s[1..], escapes)
  }

  lemma {:induction false} ReadAppend(st: Lex, a: string, b: string, escapes: bool)
    ensures Read(st, a + b, escapes) == Read(Read(st, a, escapes), b, escapes)
    decreases |a|
  {
    if a == "" {
      assert a + b == b;
    } else {
      assert (a + b)[1..] == a[1..] + b;
      ReadAppend(Next(st, a[0], escapes), a[1..], b, escapes);
    }
  }

  /** Reading one more character of a prefix. */
  lemma ReadSnoc(s: string, i: nat, escapes: bool)
    requires i < |s|
    ensures Read(START, s[..i + 1], escapes) == Next(Read(START, s[..i], escapes), s[i], escapes)
  {
    assert s[..i + 1] == s[..i] + [s[i]];
    ReadAppend(START, s[..i], [s[i]], escapes);
  }

  function ModeOf(quote: char, inQuote: bool): Mode {
    if inQuote then Quoted(quote) else Plain
  }

  // ---- Placeholders ----

  /** The question marks of `s` that stand outside quotes, read from mode `m`. */
  function Placeholders(s: string, m: Mode): nat {
    if s == "" then 0
    else (if m.Plain? && s[0] == '?' then 1 else 0) + Placeholders(s[1..], NextMode(m, s[0], true))
  }

  lemma {:induction false} PlaceholdersAppend(a: string, b: string, st: Lex)
    ensures Placeholders(a + b, st.mode) == Placeholders(a, st.mode) + Placeholders(b, Read(st, a, true).mode)
    decreases |a|
  {
    if a == "" {
      assert a + b == b;
    } else {
      assert (a + b)[1..] == a[1..] + b;
      PlaceholdersAppend(a[1..], b, Next(st, a[0], true));
    }
  }

  method CountPlaceholders(query: string) returns (count: nat)
    ensures count == Placeholders(query, Plain)
  {
    count := 0;
    var quote, inQuote := ' ', false;
    var index := 0;
    while index < |query|
      invariant 0 <= index <= |query| && (inQuote ==> IsQuote(quote))
      invariant count + Placeholders(query[index..], ModeOf(quote, inQuote)) == Placeholders(query, Plain)
    {
      var character := query[index];
      assert query[index..][1..] == query[index + 1..];
      if index + 1 < |query| {
        assert query[index + 1..][1..] == query[index + 2..];
      }
      if inQuote {
        if character == quote {
          if index + 1 < |query| && query[index + 1] == quote {
            assert Placeholders(query[index + 1..], Plain) == Placeholders(query[index + 2..], Quoted(quote));
            index := index + 2;
            continue;
          }
          inQuote := false;
        } else if character == '\\' && index + 1 < |query| {
          assert Placeholders(query[index + 1..], Escaped(quote)) == Placeholders(query[index + 2..], Quoted(quote));
          index := index + 1;
        }
        index := index + 1;
        continue;
      }
      if IsQuote(character) {
        quote, inQuote := character, true;
      } else if character == '?' {
        count := count + 1;
      }
      index := index + 1;
    }
  }

  // ---- Keywords ----

  function UpperChar(c: char): char {
    if 'a' <= c <= 'z' then c - 'a' + 'A' else c
  }

  function Upper(s: string): (r: string)
    ensures |r| == |s| && forall i | 0 <= i < |s| :: r[i] == UpperChar(s[i])
  {
    seq(|s|, i requires 0 <= i < |s| => UpperChar(s[i]))
  }

  predicate HasPrefix(s: string, prefix: string) {
    |prefix| <= |s| && s[..|prefix|] == prefix
  }

  predicate IsIdentifierByte(c: char) {
    c == '_' || 'A' <= c <= 'Z' || '0' <= c <= '9'
  }

  /** The upper-cased text has `keyword` at `i` with no identifier byte on either side. */
  predicate WordAt(upper: string, keyword: string, i: nat)
    requires i < |upper|
  {
    && HasPrefix(upper[i..], keyword)
    && (i == 0 || !IsIdentifierByte(upper[i - 1]))
    && (i + |keyword| == |upper| || !IsIdentifierByte(upper[i + |keyword|]))
  }

  /** `keyword` stands at `i` as a word of its own, outside quotes and parentheses. */
  ghost predicate KeywordAt(query: string, keyword: string, i: int) {
    && 0 <= i < |query|
    && Read(START, query[..i], true) == START
    && !IsQuote(query[i]) && query[i] != '(' && query[i] != ')'
    && WordAt(Upper(query), keyword, i)
  }

  method FindTopLevelKeyword(query: string, keyword: string) returns (at: int)
    ensures at == -1 ==> forall i :: !KeywordAt(query, keyword, i)
    ensures at != -1 ==> KeywordAt(query, keyword, at) && forall i | i < at :: !KeywordAt(query, keyword, i)
  {
    var upper := Upper(query);
    var depth, quote, inQuote := 0, ' ', false;
    var index := 0;
    while index < |query|
      invariant 0 <= index <= |query| && depth >= 0
      invariant inQuote ==> IsQuote(quote)
      invariant index < |query| ==> Read(START, query[..index], true) == Lex(ModeOf(quote, inQuote), depth)
      invariant forall i | i < index :: !KeywordAt(query, keyword, i)
    {
      var character := query[index];
      ReadSnoc(query, index, true);
      if index + 1 < |query| {
        ReadSnoc(query, index + 1, true);
      }
      if inQuote {
        if character == quote {
          if index + 1 < |query| && query[index + 1] == quote {
            index := index + 2;
            continue;
          }
          inQuote := false;
        } else if character == '\\' && index + 1 < |query| {
          index := index + 1;
        }
        index := index + 1;
        continue;
      }
      if IsQuote(character) {
        quote, inQuote := character, true;
      } else if character == '(' {
        depth := depth + 1;
      } else if character == ')' {
        if depth > 0 { depth := depth - 1; }
      } else if depth == 0 && WordAt(upper, keyword, index) {
        return index;
      }
      index := index + 1;
    }
    return -1;
  }

  // ---- White space ----

  predicate IsSpace(c: char) {
    c == ' ' || '\t' <= c <= '\r'
  }

  function TrimLeft(s: string): string {
    if s != "" && IsSpace(s[0]) then TrimLeft(s[1..]) else s
  }

  function TrimRight(s: string): string {
    if s != "" && IsSpace(s[|s| - 1]) then TrimRight(s[..|s| - 1]) else s
  }

  function Trim(s: string): string {
    TrimRight(TrimLeft(s))
  }

  predicate Trimmed(s: string) {
    s == "" || (!IsSpace(s[0]) && !IsSpace(s[|s| - 1]))
  }

  lemma {:induction false} TrimPadded(left: string, s: string, right: string)
    requires forall c | c in left + right :: IsSpace(c)
    requires Trimmed(s)
    ensures Trim(left + s + right) == s
    decreases |left| + |right|
  {
    if left != "" {
      assert left[0] in left + right;
      assert (left + s + right)[1..] == left[1..] + s + right;
      assert forall c | c in left[1..] + right :: c in left + right;
      TrimPadded(left[1..], s, right);
    } else if right != "" {
      assert left + s + right == s + right;
      if s == "" {
        assert right[0] in left + right;
        assert s + right == right && right[1..] == "" + "" + right[1..];
        assert forall c | c in "" + right[1..] :: c in left + right;
        TrimPadded("", "", right[1..]);
      } else {
        var last := right[|right| - 1];
        assert last in left + right;
        assert (s + right)[..|s + right| - 1] == s + right[..|right| - 1] == left + s + right[..|right| - 1];
        assert forall c | c in left + right[..|right| - 1] :: c in left + right;
        TrimPadded(left, s, right[..|right| - 1]);
        assert TrimLeft(s + right) == s + right;
        assert TrimLeft(left + s + right[..|right| - 1]) == left + s + right[..|right| - 1];
      }
    } else {
      assert left + s + right == s;
    }
  }

  // ---- Lists and parentheses; here a backslash is an ordinary character ----

  /** The items of a list: `item` is the text since the last comma outside quotes and parentheses. */
  function Items(item: string, st: Lex, rest: string): (r: seq<string>)
    decreases |rest|
  {
    if rest == "" then [Trim(item)]
    else if st == START && rest[0] == ',' then [Trim(item)] + Items("", st, rest[1..])
    else Items(item + [rest[0]], Next(st, rest[0], false), rest[1..])
  }

  function Split(value: string): seq<string> {
    Items("", START, value)
  }

  method SplitTopLevelList(value: string) returns (parts: seq<string>)
    ensures parts == Split(value)
  {
    parts := [];
    var start, depth, quote, inQuote := 0, 0, ' ', false;
    var index := 0;
    while index < |value|
      invariant 0 <= start <= index <= |value| && depth >= 0 && (inQuote ==> IsQuote(quote))
      invariant parts + Items(value[start..index], Lex(ModeOf(quote, inQuote), depth), value[index..]) == Split(value)
    {
      var character := value[index];
      ItemsStep(value, start, index, Lex(ModeOf(quote, inQuote), depth));
      if inQuote {
        if character == quote {
          if index + 1 < |value| && value[index + 1] == quote {
            ItemsStep(value, start, index + 1, Lex(Plain, depth));
            index := index + 2;
            continue;
          }
          inQuote := false;
        }
        index := index + 1;
        continue;
      }
      if IsQuote(character) {
        quote, inQuote := character, true;
      } else if character == '(' {
        depth := depth + 1;
      } else if character == ')' {
        if depth > 0 { depth := depth - 1; }
      } else if character == ',' {
        if depth == 0 {
          parts := parts + [Trim(value[start..index])];
          start := index + 1;
        }
      }
      index := index + 1;
    }
    assert value[index..] == "" && value[start..index] == value[start..];
    parts := parts + [Trim(value[start..])];
  }

  lemma ItemsStep(value: string, start: nat, index: nat, st: Lex)
    requires start <= index < |value|
    ensures Items(value[start..index], st, value[index..]) ==
            if st == START && value[index] ==
              ',' then [Trim(value[start..index])] + Items(value[index + 1..index + 1], st, value[index + 1..])
            else Items(value[start..index + 1], Next(st, value[index], false), value[index + 1..])
  {
    assert value[index..][1..] == value[index + 1..];
    assert value[start..index] + [value[index]] == value[start..index + 1];
    assert value[index + 1..index + 1] == "";
  }

  /** Depth here counts down from the first parenthesis and may go below zero. */
  function Close(m: Mode, depth: int, s: string): (r: int)
    ensures -1 <= r < |s| && (r >= 0 ==> s[r] == ')')
    decreases |s|
  {
    if s == "" then -1
    else if m == Plain && s[0] == ')' && depth == 1 then 0
    else
      var d := if m != Plain then depth else if s[0] == '(' then depth + 1 else if s[0] == ')' then depth - 1
        else depth;
      var r := Close(NextMode(m, s[0], false), d, s[1..]);
      if r < 0 then -1 else r + 1
  }

  /** The same, as an index into the text that is read from `index` on. */
  function CloseFrom(query: string, index: nat, m: Mode, depth: int): int
    requires index <= |query|
  {
    var r := Close(m, depth, query[index..]);
    if r < 0 then -1 else index + r
  }

  lemma CloseStep(query: string, index: nat, m: Mode, depth: int)
    requires index < |query|
    ensures CloseFrom(query, index, m, depth) ==
            if m == Plain && query[index] == ')' && depth == 1 then index
            else CloseFrom(query, index + 1, NextMode(m, query[index], false),
                           if m != Plain then depth else if query[index] == '(' then depth + 1
                           else if query[index] == ')' then depth - 1 else depth)
  {
    assert query[index..][1..] == query[index + 1..];
  }

  method MatchingParenthesis(query: string, start: nat) returns (at: int)
    requires start <= |query|
    ensures at == CloseFrom(query, start, Plain, 0)
  {
    var depth, quote, inQuote := 0, ' ', false;
    var index := start;
    while index < |query|
      invariant start <= index <= |query| && (inQuote ==> IsQuote(quote))
      invariant CloseFrom(query, start, Plain, 0) == CloseFrom(query, index, ModeOf(quote, inQuote), depth)
    {
      var character := query[index];
      CloseStep(query, index, ModeOf(quote, inQuote), depth);
      if inQuote {
        if character == quote {
          if index + 1 < |query| && query[index + 1] == quote {
            CloseStep(query, index + 1, Plain, depth);
            index := index + 2;
            continue;
          }
          inQuote := false;
        }
        index := index + 1;
        continue;
      }
      if IsQuote(character) {
        quote, inQuote := character, true;
      } else if character == '(' {
        depth := depth + 1;
      } else if character == ')' {
        depth := depth - 1;
        if depth == 0 {
          return index;
        }
      }
      index := index + 1;
    }
    return -1;
  }
}
