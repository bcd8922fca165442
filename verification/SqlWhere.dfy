/**
 Cutting a mutation at its WHERE clause, and rewriting UPDATE for ClickHouse. Both keep every
 placeholder bound to the argument it was bound to.
 */
module SqlWhere {
  import opened SqlText

  /** Text that neither quotes, escapes nor holds a placeholder. */
  predicate Neutral(s: string) {
    forall c | c in s :: !IsQuote(c) && c != '\\' && c != '?'
  }

  function Settle(m: Mode): Mode {
    if m.Escaped? then Quoted(m.quote) else m
  }

  lemma {:induction false} ReadNeutral(st: Lex, s: string)
    requires Neutral(s) && (st.mode.Plain? || IsQuote(st.mode.quote))
    ensures Read(st, s, true).mode == (if s == "" then st.mode else Settle(st.mode))
    ensures Placeholders(s, st.mode) == 0
    decreases |s|
  {
    if s != "" {
      assert s[0] in s && forall c | c in s[1..] :: c in s;
      ReadNeutral(Next(st, s[0], true), s[1..]);
    }
  }

  lemma {:induction false} ReadKeepsQuote(st: Lex, s: string)
    requires st.mode.Plain? || IsQuote(st.mode.quote)
    ensures Read(st, s, true).mode.Plain? || IsQuote(Read(st, s, true).mode.quote)
    decreases |s|
  {
    if s != "" { ReadKeepsQuote(Next(st, s[0], true), s[1..]); }
  }

  /** A cut outside quotes splits the placeholders exactly. */
  lemma CutSplitsPlaceholders(query: string, at: nat)
    requires at <= |query| && Read(START, query[..at], true).mode == Plain
    ensures Placeholders(query, Plain) == Placeholders(query[..at], Plain) + Placeholders(query[at..], Plain)
  {
    assert query == query[..at] + query[at..];
    PlaceholdersAppend(query[..at], query[at..], START);
  }

  /** White space around the clause holds no placeholder. */
  lemma {:induction false} TrimKeepsPlaceholders(s: string)
    requires s != "" && !IsSpace(s[0])
    ensures Placeholders(Trim(s), Plain) == Placeholders(s, Plain)
    ensures exists tail :: s == Trim(s) + tail && forall c | c in tail :: IsSpace(c)
  {
    assert TrimLeft(s) == s;
    var tail := TrimRightParts(s);
    PlaceholdersAppend(Trim(s), tail, START);
    ReadKeepsQuote(START, Trim(s));
    ReadNeutral(Read(START, Trim(s), true), tail);
  }

  lemma {:induction false} TrimRightParts(s: string) returns (tail: string)
    ensures s == TrimRight(s) + tail && Neutral(tail) && forall c | c in tail :: IsSpace(c)
    decreases |s|
  {
    if s != "" && IsSpace(s[|s| - 1]) {
      var t := TrimRightParts(s[..|s| - 1]);
      tail := t + [s[|s| - 1]];
      assert s == s[..|s| - 1] + [s[|s| - 1]];
      assert TrimRight(s) + tail == (TrimRight(s[..|s| - 1]) + t) + [s[|s| - 1]];
    } else {
      tail := "";
    }
  }

  lemma {:induction false} TrimLeftParts(s: string) returns (head: string)
    ensures s == head + TrimLeft(s) && Neutral(head) && forall c | c in head :: IsSpace(c)
    decreases |s|
  {
    if s != "" && IsSpace(s[0]) {
      var h := TrimLeftParts(s[1..]);
      head := [s[0]] + h;
      assert s == [s[0]] + s[1..];
      assert head + TrimLeft(s) == [s[0]] + (h + TrimLeft(s[1..]));
    } else {
      head := "";
    }
  }

  lemma TrimParts(s: string) returns (head: string, tail: string)
    ensures s == head + Trim(s) + tail && Neutral(head) && Neutral(tail)
    ensures forall c | c in head + tail :: IsSpace(c)
  {
    head := TrimLeftParts(s);
    tail := TrimRightParts(TrimLeft(s));
  }

  lemma KeywordBound(query: string, at: int)
    requires KeywordAt(query, "WHERE", at)
    ensures 0 <= at < |query| && Read(START, query[..at], true) == START
    ensures !IsSpace(query[at])
  {
    assert Upper(query)[at..][..5][0] == 'W' && Upper(query)[at..][0] == Upper(query)[at];
  }

  /** Reading the clause alone is reading it where it stands. */
  lemma ReadInPlace(query: string, at: nat, p: nat)
    requires at + p <= |query| && Read(START, query[..at], true) == START
    ensures Read(START, query[..at + p], true) == Read(START, query[at..][..p], true)
    ensures Placeholders(query[..at + p], Plain) ==
            Placeholders(query[..at], Plain) + Placeholders(query[at..][..p], Plain)
  {
    assert query[..at + p] == query[..at] + query[at..][..p];
    ReadAppend(START, query[..at], query[at..][..p], true);
    PlaceholdersAppend(query[..at], query[at..][..p], START);
  }

  /** The trimmed clause begins where the statement was cut; only white space is missing at its end. */
  lemma ClauseIsPrefix(query: string, at: nat)
    requires at < |query| && !IsSpace(query[at])
    ensures var clause := Trim(query[at..]);
            && at + |clause| <= |query| && clause == query[at..at + |clause|] == query[at..][..|clause|]
            && (forall i | at + |clause| <= i < |query| :: IsSpace(query[i]))
            && Placeholders(clause, Plain) == Placeholders(query[at..], Plain)
  {
    hide Trim;
    var clause := Trim(query[at..]);
    TrimKeepsPlaceholders(query[at..]);
    var tail :| query[at..] == clause + tail && forall c | c in tail :: IsSpace(c);
    forall i | at + |clause| <= i < |query| ensures IsSpace(query[i]) {
      assert query[i] == query[at..][i - at] == tail[i - at - |clause|];
    }
  }

  lemma PlaceholderInPlace(query: string, at: nat, clause: string, p: int)
    requires at + |clause| <= |query| && Read(START, query[..at], true) == START &&
             clause == query[at..][..|clause|] && p >= at
    requires forall i | at + |clause| <= i < |query| :: IsSpace(query[i])
    ensures PlaceholderAt(query, p) <==> PlaceholderAt(clause, p - at)
    ensures PlaceholderAt(query, p) ==>
              Placeholders(query[..p], Plain) ==
                Placeholders(query[..at], Plain) + Placeholders(clause[..p - at], Plain)
  {
    if p - at < |clause| {
      ReadInPlace(query, at, p - at);
      assert clause[..p - at] == query[at..][..p - at] && clause[p - at] == query[p];
    }
  }

  /**
   Running the WHERE clause alone with its own arguments binds each of its placeholders to the
   argument it has in the whole statement, and there are exactly as many as it needs.
   */
  lemma ClauseBinds<A>(query: string, args: seq<A>, at: nat)
    requires KeywordAt(query, "WHERE", at)
    ensures var before := Placeholders(query[..at], Plain);
            BindsTheSame(query, args, at, Trim(query[at..]), if before <= |args| then args[before..] else [])
  {
    hide Trim, KeywordAt, Read, Placeholders, PlaceholderAt;
    KeywordBound(query, at);
    ClauseIsPrefix(query, at);
    CutSplitsPlaceholders(query, at);
    var clause := Trim(query[at..]);
    forall p | p >= at
      ensures PlaceholderAt(query, p) <==> PlaceholderAt(clause, p - at)
    {
      PlaceholderInPlace(query, at, clause, p);
    }
    forall p | PlaceholderAt(clause, p)
      ensures 0 <= p < |clause| && Placeholders(query[..at + p], Plain) ==
              Placeholders(query[..at], Plain) + Placeholders(clause[..p], Plain)
    {
      InBounds(clause, p);
      assert at + p - at == p;
      PlaceholderInPlace(query, at, clause, at + p);
    }
  }

  lemma InBounds(s: string, p: int)
    requires PlaceholderAt(s, p)
    ensures 0 <= p < |s|
  {
  }

  /** A question mark outside quotes. */
  predicate PlaceholderAt(s: string, p: int) {
    0 <= p < |s| && s[p] == '?' && Read(START, s[..p], true).mode == Plain
  }

  /**
   The clause has the placeholders of the statement from `at` on, each takes the argument it takes
   in the statement, and if the statement has all its arguments, so does the clause.
   */
  ghost predicate BindsTheSame<A>(query: string, args: seq<A>, at: nat, clause: string, whereArgs: seq<A>) {
    && at + |clause| <= |query| && clause == query[at..at + |clause|]
    && (forall p | p >= at :: PlaceholderAt(query, p) <==> PlaceholderAt(clause, p - at))
    && (forall p | PlaceholderAt(clause, p) ::
          var n, whole := Placeholders(clause[..p], Plain), Placeholders(query[..at + p], Plain);
          && (n < |whereArgs| <==> whole < |args|)
          && (n < |whereArgs| ==> whereArgs[n] == args[whole]))
    && (|args| == Placeholders(query, Plain) ==> |whereArgs| == Placeholders(clause, Plain))
  }

  /** The arguments that belong to the WHERE clause, and the clause itself ("" if there is none). */
  method WhereClause<A>(query: string, args: seq<A>) returns (clause: string, whereArgs: seq<A>)
    ensures (exists i :: KeywordAt(query, "WHERE", i)) ==>
              exists i ::
                && KeywordAt(query, "WHERE", i) && (forall j | j < i :: !KeywordAt(query, "WHERE", j))
                && clause == Trim(query[i..])
                && whereArgs == (if Placeholders(query[..i],
                                                 Plain) <= |args| then args[Placeholders(query[..i], Plain)..] else [])
                && BindsTheSame(query, args, i, clause, whereArgs)
    ensures !(exists i :: KeywordAt(query, "WHERE", i)) ==> clause == "" && whereArgs == args
  {
    hide BindsTheSame, Trim, KeywordAt;
    var at := FindTopLevelKeyword(query, "WHERE");
    clause, whereArgs := "", args;
    if at >= 0 {
      KeywordBound(query, at);
      clause := Trim(query[at..]);
      var before := CountPlaceholders(query[..at]);
      whereArgs := args[(if before <= |args| then before else |args|)..];
      ClauseBinds(query, args, at);
    }
  }

  // ---- UPDATE t SET a = ... becomes ALTER TABLE t UPDATE a = ... ----

  predicate IsBlank(c: char) {
    c == ' ' || c == '\t' || c == '\r' || c == '\n'
  }

  /** The first blank of `s`, or its length. */
  function FirstBlank(s: string): (r: nat)
    ensures r <= |s| && (r < |s| ==> IsBlank(s[r])) && forall i | 0 <= i < r :: !IsBlank(s[i])
  {
    if s == "" || IsBlank(s[0]) then 0 else 1 + FirstBlank(s[1..])
  }

  function Rebind(query: string): string {
    var trimmed := Trim(query);
    if HasPrefix(Upper(trimmed), "UPDATE") && |trimmed| > 6 && IsBlank(Upper(trimmed)[6]) then
      var remainder := Trim(trimmed[6..]);
      var separator := FirstBlank(remainder);
      if 0 < separator < |remainder| then
        var assignment := Trim(remainder[separator..]);
        if |assignment| > 3 && Upper(assignment[..3]) == "SET" && IsBlank(assignment[3]) then
          "ALTER TABLE " + remainder[..separator] + " UPDATE " + Trim(assignment[3..])
        else query
      else query
    else query
  }

  /** A word in any letter case, with neutral text before and after it, peeled off the front. */
  lemma PeelWord(s: string, word: string) returns (head: string, rest: string, tail: string)
    requires |word| <= |s| && Upper(s)[..|word|] == word && Neutral(word) && forall c | c in word :: 'A' <= c <= 'Z'
    ensures rest == Trim(s[|word|..]) && s == s[..|word|] + head + rest + tail
    ensures Neutral(s[..|word|] + head) && Neutral(tail)
  {
    hide Trim, Upper;
    UpperNeutral(s, word);
    head, tail := TrimParts(s[|word|..]);
    rest := Trim(s[|word|..]);
    assert s == s[..|word|] + s[|word|..];
  }

  /** Both statements are the same table and assignment texts, set in words without placeholders. */
  lemma RebindParts(query: string) returns (lead: string, table: string, set_: string, rest: string, tail: string)
    requires Rebind(query) != query
    ensures query == lead + table + set_ + rest + tail
    ensures Rebind(query) == "ALTER TABLE " + table + " UPDATE " + rest
    ensures set_ != "" && Neutral(lead) && Neutral(set_) && Neutral(tail)
  {
    hide Placeholders, Read, TrimLeft, TrimRight, Trim;
    var trimmed := Trim(query);
    var head0, tail0 := TrimParts(query);
    var head1, remainder, tail1 := PeelWord(trimmed, "UPDATE");
    table := remainder[..FirstBlank(remainder)];
    var after := remainder[FirstBlank(remainder)..];
    var head2, tail2 := TrimParts(after);
    var assignment := Trim(after);
    assert Upper(assignment)[..3] == Upper(assignment[..3]);
    var head3, right, tail3 := PeelWord(assignment, "SET");
    rest := right;
    lead, set_, tail := head0 + (trimmed[..6] + head1), head2 + (assignment[..3] + head3),
      tail3 + tail2 + tail1 + tail0;
    assert remainder == table + after;
    Regroup(head0, trimmed[..6] + head1, table, head2, assignment[..3] + head3, rest, tail3, tail2, tail1, tail0);
  }

  lemma Regroup(a: string, b: string, c: string, d: string, e: string, f: string, g: string, h: string, i: string,
                j: string)
    ensures a + (b + (c + (d + (e + f + g) + h)) + i) + j == (a + b) + c + (d + e) + f + (g + h + i + j)
  {
  }

  lemma UpperNeutral(s: string, word: string)
    requires |word| <= |s| && Upper(s)[..|word|] == word && Neutral(word)
    requires forall c | c in word :: 'A' <= c <= 'Z'
    ensures Neutral(s[..|word|])
  {
    forall c | c in s[..|word|] ensures !IsQuote(c) && c != '\\' && c != '?' {
      var i :| 0 <= i < |word| && s[i] == c;
      assert UpperChar(c) == Upper(s)[..|word|][i] == word[i];
      assert word[i] in word;
    }
  }

  /** Rewriting an UPDATE keeps the number of placeholders, whatever the quoting. */
  lemma RebindKeepsPlaceholders(query: string)
    ensures Placeholders(Rebind(query), Plain) == Placeholders(query, Plain)
  {
    hide Rebind, Placeholders, Read;
    if Rebind(query) != query {
      var lead, table, set_, rest, tail := RebindParts(query);
      PlaceholdersOfParts(lead, table, set_, rest, tail);
      WordsNeutral();
      PlaceholdersOfParts("ALTER TABLE ", table, " UPDATE ", rest, "");
      assert "ALTER TABLE " + table + " UPDATE " + rest + "" == Rebind(query);
    }
  }

  lemma WordsNeutral()
    ensures Neutral("ALTER TABLE ") && Neutral(" UPDATE ") && Neutral("")
  {
  }

  /** Only `table` and `rest` hold placeholders, each read in the mode `table` and what precedes it set up. */
  lemma PlaceholdersOfParts(lead: string, table: string, set_: string, rest: string, tail: string)
    requires set_ != "" && Neutral(lead) && Neutral(set_) && Neutral(tail)
    ensures Placeholders(lead + table + set_ + rest + tail, Plain) ==
            Placeholders(table, Plain) + Placeholders(rest, Settle(Read(START, table, true).mode))
  {
    ReadNeutral(START, lead);
    var a := Read(START, lead, true);
    PlaceholdersAppend(lead + table + set_ + rest, tail, START);
    PlaceholdersAppend(lead + table + set_, rest, START);
    PlaceholdersAppend(lead + table, set_, START);
    PlaceholdersAppend(lead, table, START);
    ReadAppend(START, lead + table, set_, true);
    ReadAppend(START, lead, table, true);
    ModeOnly(a, START, table);
    ReadKeepsQuote(a, table);
    var b := Read(a, table, true);
    ReadNeutral(b, set_);
    ReadAppend(START, lead + table + set_, rest, true);
    ReadKeepsQuote(START, lead + table + set_ + rest);
    ReadNeutral(Read(START, lead + table + set_ + rest, true), tail);
  }

  lemma {:induction false} ModeOnly(a: Lex, b: Lex, s: string)
    requires a.mode == b.mode
    ensures Read(a, s, true).mode == Read(b, s, true).mode
    decreases |s|
  {
    if s != "" { ModeOnly(Next(a, s[0], true), Next(b, s[0], true), s[1..]); }
  }
}
