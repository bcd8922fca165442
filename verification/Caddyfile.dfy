/**
 Splicing the managed reverse-proxy block into a Caddyfile. The code works on byte offsets in a
 text; the reference works on lines. The hostname is the normalised one.
 */
module Caddyfile {
  import RowKey

  type Line = s: string | '\n' !in s

  datatype Marker = Begin | End

  datatype Failure = ZeroPort | Repeated(marker: Marker) | OneMarker | WrongOrder

  datatype Result<T> = Ok(value: T) | Failed(reason: Failure)

  /** What the characters of a normalised hostname have in common. */
  predicate Hostname(h: string) {
    h != "" && forall c | c in h :: c > ' ' && c != '#' && c != '{' && c != '}'
  }

  function BeginMarker(h: string): string {
    "# BEGIN RenoP managed reverse proxy: " + h
  }

  function EndMarker(h: string): string {
    "# END RenoP managed reverse proxy: " + h
  }

  function BlockLines(h: string, port: nat): seq<string> {
    [ BeginMarker(h),
      h + " {",
      "    reverse_proxy " + "127.0.0.1:" + RowKey.Decimal(port) + " {",
      "        flush_interval -1",
      "    }",
      "}",
      EndMarker(h) ]
  }

  // ---- Lines ----

  function Lines(s: string): (r: seq<Line>)
    ensures |r| > 0
  {
    if s == "" then [""]
    else if s[0] == '\n' then [""] + Lines(s[1..])
    else var r := Lines(s[1..]); [[s[0]] + r[0]] + r[1..]
  }

  /** `strings.Join(lines, "\n")`. */
  function Unlines(lines: seq<string>): string {
    if lines == [] then ""
    else if |lines| == 1 then lines[0]
    else lines[0] + "\n" + Unlines(lines[1..])
  }

  lemma {:induction false} UnlinesLines(s: string)
    ensures Unlines(Lines(s)) == s
  {
    if s != "" {
      UnlinesLines(s[1..]);
      var r := Lines(s[1..]);
      if s[0] == '\n' {
        assert ([""] + r)[1..] == r;
        assert s == "" + "\n" + s[1..];
      } else {
        var first := [s[0]] + r[0];
        assert ([first] + r[1..])[1..] == r[1..];
        if |r| > 1 {
          assert first + "\n" + Unlines(r[1..]) == [s[0]] + (r[0] + "\n" + Unlines(r[1..]));
        }
        assert s == [s[0]] + s[1..];
      }
    }
  }

  lemma {:induction false} LinesOfLine(line: Line)
    ensures Lines(line) == [line]
  {
    if line != "" {
      LinesOfLine(line[1..]);
      assert [line[0]] + line[1..] == line;
    }
  }

  lemma {:induction false} LinesAppend(line: Line, rest: string)
    ensures Lines(line + "\n" + rest) == [line] + Lines(rest)
    decreases |line|
  {
    var s := line + "\n" + rest;
    if line == "" {
      assert s[1..] == rest;
    } else {
      assert s[1..] == line[1..] + "\n" + rest;
      LinesAppend(line[1..], rest);
      assert [line[0]] + line[1..] == line;
    }
  }

  lemma {:induction false} LinesUnlines(lines: seq<Line>)
    requires lines != []
    ensures Lines(Unlines(lines)) == lines
  {
    if |lines| == 1 {
      LinesOfLine(lines[0]);
    } else {
      LinesUnlines(lines[1..]);
      LinesAppend(lines[0], Unlines(lines[1..]));
    }
  }

  /** The byte offset at which line `i` starts. */
  function Start(lines: seq<string>, i: nat): nat
    requires i <= |lines|
  {
    if i == 0 then 0 else |lines[0]| + 1 + Start(lines[1..], i - 1)
  }

  lemma {:induction false} StartNext(lines: seq<string>, i: nat)
    requires i < |lines|
    ensures Start(lines, i + 1) == Start(lines, i) + |lines[i]| + 1
  {
    if i > 0 { StartNext(lines[1..], i - 1); }
  }

  lemma {:induction false} StartsIncrease(lines: seq<string>, i: nat, j: nat)
    requires i <= j <= |lines|
    ensures Start(lines, i) <= Start(lines, j) && (i < j ==> Start(lines, i) < Start(lines, j))
  {
    if i < j {
      StartNext(lines, j - 1);
      StartsIncrease(lines, i, j - 1);
    }
  }

  /** Cutting the text at the start of a line cuts the list of lines there. */
  lemma {:induction false} CutAtLine(lines: seq<string>, i: nat)
    requires i < |lines|
    ensures Start(lines, i) <= |Unlines(lines)|
    ensures Unlines(lines)[Start(lines, i)..] == Unlines(lines[i..])
    ensures Unlines(lines)[..Start(lines, i)] == (if i == 0 then "" else Unlines(lines[..i]) + "\n")
  {
    var text := Unlines(lines);
    if i > 0 {
      CutAtLine(lines[1..], i - 1);
      var more, at := Unlines(lines[1..]), Start(lines[1..], i - 1);
      assert lines[1..][i - 1..] == lines[i..];
      assert text[Start(lines, i)..] == more[at..];
      assert lines[..i][1..] == lines[1..][..i - 1];
      assert text[..Start(lines, i)] == lines[0] + "\n" + more[..at];
      if i > 1 {
        assert lines[..i] != [] && lines[..i][0] == lines[0];
        assert lines[0] + "\n" + (Unlines(lines[..i][1..]) + "\n") == Unlines(lines[..i]) + "\n";
      } else {
        assert lines[..1] == [lines[0]];
      }
    } else {
      assert lines[0..] == lines;
    }
  }

  lemma {:induction false} UnlinesAppend(a: seq<string>, b: seq<string>)
    requires a != [] && b != []
    ensures Unlines(a + b) == Unlines(a) + "\n" + Unlines(b)
  {
    assert (a + b)[1..] == a[1..] + b;
    if |a| > 1 {
      UnlinesAppend(a[1..], b);
      assert a[0] + "\n" + (Unlines(a[1..]) + "\n" + Unlines(b)) == (a[0] + "\n" + Unlines(a[1..])) + "\n" + Unlines(b);
    } else {
      assert a[1..] + b == b;
    }
  }

  // ---- Line endings ----

  function Norm(s: string): string {
    if s == "" then ""
    else if |s| >= 2 && s[0] == '\r' && s[1] == '\n' then "\n" + Norm(s[2..])
    else [s[0]] + Norm(s[1..])
  }

  function Denorm(s: string): string {
    if s == "" then "" else (if s[0] == '\n' then "\r\n" else [s[0]]) + Denorm(s[1..])
  }

  predicate HasCrLf(s: string) {
    |s| >= 2 && ((s[0] == '\r' && s[1] == '\n') || HasCrLf(s[1..]))
  }

  lemma {:induction false} NormDenorm(s: string)
    ensures Norm(Denorm(s)) == s
  {
    if s != "" {
      NormDenorm(s[1..]);
      var more := Denorm(s[1..]);
      if s[0] == '\n' {
        assert ("\r\n" + more)[2..] == more;
      } else {
        assert ([s[0]] + more)[1..] == more;
        DenormStart(s[1..]);
      }
      assert s == [s[0]] + s[1..];
    }
  }

  lemma DenormStart(s: string)
    ensures Denorm(s) == "" || Denorm(s)[0] != '\n'
  {
  }

  lemma {:induction false} NormPlain(s: string)
    requires !HasCrLf(s)
    ensures Norm(s) == s
  {
    if s != "" {
      NormPlain(s[1..]);
      assert s == [s[0]] + s[1..];
    }
  }

  lemma {:induction false} DenormHasCrLf(s: string)
    requires '\n' in s
    ensures HasCrLf(Denorm(s))
  {
    var more := Denorm(s[1..]);
    if s[0] == '\n' {
      assert ("\r\n" + more)[0] == '\r' && ("\r\n" + more)[1] == '\n';
    } else {
      DenormHasCrLf(s[1..]);
      assert ([s[0]] + more)[1..] == more;
    }
  }

  lemma {:induction false} DenormPairs(s: string)
    ensures forall i | 0 <= i < |Denorm(s)| && Denorm(s)[i] == '\n' :: i > 0 && Denorm(s)[i - 1] == '\r'
  {
    if s != "" {
      DenormPairs(s[1..]);
      var d, more := Denorm(s), Denorm(s[1..]);
      DenormStart(s[1..]);
      var n := |d| - |more|;
      assert forall i | n <= i < |d| :: d[i] == more[i - n];
    }
  }

  lemma {:induction false} DenormAppend(a: string, b: string)
    ensures Denorm(a + b) == Denorm(a) + Denorm(b)
  {
    if a == "" {
      assert a + b == b;
    } else {
      assert (a + b)[1..] == a[1..] + b;
      DenormAppend(a[1..], b);
    }
  }

  predicate EndsInCr(s: string) {
    s != "" && s[|s| - 1] == '\r'
  }

  /** A text has CRLF exactly when a line other than its last ends in a carriage return. */
  lemma {:induction false} CrLfByLines(lines: seq<Line>)
    requires lines != []
    ensures HasCrLf(Unlines(lines)) <==> exists i | 0 <= i < |lines| - 1 :: EndsInCr(lines[i])
    ensures EndsInCr(Unlines(lines)) <==> EndsInCr(lines[|lines| - 1])
  {
    if |lines| == 1 {
      LineHasNoCrLf(lines[0]);
    } else {
      CrLfByLines(lines[1..]);
      CrLfOfTwo(lines[0], Unlines(lines[1..]));
      assert forall i | 0 <= i < |lines| - 2 :: lines[1..][i] == lines[i + 1];
      if i :| 0 <= i < |lines| - 1 && EndsInCr(lines[i]) {
        assert i == 0 || EndsInCr(lines[1..][i - 1]);
      }
    }
  }

  lemma {:induction false} LineHasNoCrLf(line: Line)
    ensures !HasCrLf(line)
  {
    if |line| >= 2 {
      assert line[1] in line;
      LineHasNoCrLf(line[1..]);
    }
  }

  lemma {:induction false} CrLfOfTwo(first: Line, more: string)
    ensures HasCrLf(first + "\n" + more) <==> EndsInCr(first) || HasCrLf(more)
    ensures EndsInCr(first + "\n" + more) <==> EndsInCr(more)
    decreases |first|
  {
    var text := first + "\n" + more;
    if first == "" {
      assert text[1..] == more && text[0] == '\n';
    } else {
      assert text[1..] == first[1..] + "\n" + more;
      CrLfOfTwo(first[1..], more);
      assert |first| > 1 ==> text[1] == first[1] && first[1] in first;
    }
  }

  // ---- The reference ----

  function Occurrences(lines: seq<string>, marker: string): (n: nat)
    ensures n == 0 <==> marker !in lines
  {
    if lines == [] then 0 else (if lines[0] == marker then 1 else 0) + Occurrences(lines[1..], marker)
  }

  /** The first line that equals `marker`. */
  function Find(lines: seq<string>, marker: string): (i: nat)
    requires marker in lines
    ensures i < |lines| && lines[i] == marker && marker !in lines[..i]
  {
    if lines[0] == marker then 0 else 1 + Find(lines[1..], marker)
  }

  function DropEmptyLines(lines: seq<Line>): (r: seq<Line>)
    requires lines != []
    ensures r != [] && |r| <= |lines| && r == lines[..|r|]
    ensures |r| == 1 || r[|r| - 1] != ""
  {
    if |lines| > 1 && lines[|lines| - 1] == "" then DropEmptyLines(lines[..|lines| - 1]) else lines
  }

  /** New lines of a file that has the block, and of one that has not. */
  function Spliced(lines: seq<Line>, h: string, port: nat): (r: Result<seq<string>>) 
    requires lines != []
  {
    var begin, end := BeginMarker(h), EndMarker(h);
    if Occurrences(lines, begin) > 1 then Failed(Repeated(Begin))
    else if Occurrences(lines, end) > 1 then Failed(Repeated(End))
    else if (begin in lines) != (end in lines) then Failed(OneMarker)
    else if begin in lines then
      var i, j := Find(lines, begin), Find(lines, end);
      if j < i then Failed(WrongOrder) else Ok(lines[..i] + BlockLines(h, port) + lines[j + 1..])
    else
      var kept := DropEmptyLines(lines);
      Ok((if kept == [""] then [] else kept + [""]) + BlockLines(h, port) + [""])
  }

  function Build(x: string, h: string, port: nat): Result<string> {
    if port == 0 then Failed(ZeroPort)
    else match Spliced(Lines(Norm(x)), h, port)
      case Failed(reason) => Failed(reason)
      case Ok(lines) => Ok(if HasCrLf(x) then Denorm(Unlines(lines)) else Unlines(lines))
  }

  // ---- The code ----

  function SplitAfter(s: string): (r: seq<string>)
    ensures |r| == |Lines(s)|
  {
    var lines := Lines(s);
    seq(|lines|, i requires 0 <= i < |lines| => if i + 1 < |lines| then lines[i] + "\n" else lines[i])
  }

  function TrimSuffix(s: string, c: char): string {
    if s != "" && s[|s| - 1] == c then s[..|s| - 1] else s
  }

  function TrimNewlines(s: string): string {
    if s != "" && s[|s| - 1] == '\n' then TrimNewlines(s[..|s| - 1]) else s
  }

  lemma PieceIsLine(s: string, i: nat)
    requires i < |Lines(s)|
    ensures TrimSuffix(SplitAfter(s)[i], '\n') == Lines(s)[i]
    ensures i + 1 < |Lines(s)| ==> |SplitAfter(s)[i]| == |Lines(s)[i]| + 1
  {
    var line := Lines(s)[i];
    if i + 1 < |Lines(s)| {
      assert (line + "\n")[..|line|] == line;
    } else if line != "" {
      assert line[|line| - 1] in line;
    }
  }

  lemma {:induction false} OccurrencesAppend(a: seq<string>, b: seq<string>, marker: string)
    ensures Occurrences(a + b, marker) == Occurrences(a, marker) + Occurrences(b, marker)
  {
    if a == [] {
      assert a + b == b;
    } else {
      assert (a + b)[1..] == a[1..] + b;
      OccurrencesAppend(a[1..], b, marker);
    }
  }

  /** One more line read. */
  lemma OccurrencesSnoc(lines: seq<string>, i: nat, marker: string)
    requires i < |lines|
    ensures Occurrences(lines[..i + 1], marker) == Occurrences(lines[..i], marker) + if lines[i] == marker then 1 else 0
    ensures Occurrences(lines[..i + 1], marker) <= Occurrences(lines, marker)
  {
    assert lines[..i + 1] == lines[..i] + [lines[i]] && [lines[i]][1..] == [];
    OccurrencesAppend(lines[..i], [lines[i]], marker);
    assert lines == lines[..i + 1] + lines[i + 1..];
    OccurrencesAppend(lines[..i + 1], lines[i + 1..], marker);
  }

  lemma {:induction false} FindIsFirst(lines: seq<string>, marker: string, i: nat)
    requires i < |lines| && lines[i] == marker && marker !in lines[..i]
    ensures Find(lines, marker) == i
  {
    if i > 0 {
      assert lines[0] == lines[..i][0] && lines[..i][1..] == lines[1..][..i - 1];
      assert forall m | m in lines[1..][..i - 1] :: m in lines[..i];
      FindIsFirst(lines[1..], marker, i - 1);
    }
  }

  method UniqueLineOffset(content: string, marker: string) returns (repeated: bool, offset: int)
    ensures repeated <==> Occurrences(Lines(content), marker) > 1
    ensures !repeated ==>
              offset == if marker in Lines(content) then Start(Lines(content), Find(Lines(content), marker)) else -1
  {
    hide Lines, SplitAfter, TrimSuffix, Start, Find, Occurrences;
    offset := -1;
    var cursor := 0;
    var pieces := SplitAfter(content);
    ghost var lines := Lines(content);
    StartsAtZero(lines, marker);
    for i := 0 to |pieces|
      invariant i < |lines| ==> cursor == Start(lines, i)
      invariant Occurrences(lines[..i], marker) == if offset >= 0 then 1 else 0
      invariant offset >= 0 ==> marker in lines && offset == Start(lines, Find(lines, marker))
      invariant offset >= -1
    {
      var candidate := TrimSuffix(pieces[i], '\n');
      PieceIsLine(content, i);
      StartNext(lines, i);
      OccurrencesSnoc(lines, i, marker);
      if candidate == marker {
        if offset >= 0 {
          return true, -1;
        }
        FindIsFirst(lines, marker, i);
        offset := cursor;
      }
      cursor := cursor + |pieces[i]|;
    }
    assert lines[..|lines|] == lines;
    repeated := false;
  }

  lemma StartsAtZero(lines: seq<string>, marker: string)
    ensures Start(lines, 0) == 0 && Occurrences(lines[..0], marker) == 0
  {
  }

  lemma {:induction false} TrimmedText(lines: seq<Line>)
    requires lines != []
    ensures TrimNewlines(Unlines(lines)) == Unlines(DropEmptyLines(lines))
  {
    var text, n := Unlines(lines), |lines|;
    if n > 1 {
      assert lines == lines[..n - 1] + [lines[n - 1]];
      UnlinesAppend(lines[..n - 1], [lines[n - 1]]);
    }
    if n > 1 && lines[n - 1] == "" {
      assert text == Unlines(lines[..n - 1]) + "\n";
      TrimmedText(lines[..n - 1]);
    } else if lines[n - 1] != "" {
      assert text[|text| - 1] == lines[n - 1][|lines[n - 1]| - 1] && text[|text| - 1] in lines[n - 1];
    }
  }

  /** The text up to a line, with a block behind it. */
  lemma SpliceHead(lines: seq<Line>, i: nat, block: seq<string>)
    requires i < |lines| && block != []
    ensures Start(lines, i) <= |Unlines(lines)|
    ensures Unlines(lines)[..Start(lines, i)] + Unlines(block) == Unlines(lines[..i] + block)
  {
    CutAtLine(lines, i);
    if i > 0 {
      UnlinesAppend(lines[..i], block);
    } else {
      assert lines[..i] + block == block;
    }
  }

  /** The end of line `j`, and where the text goes on behind its newline. */
  function LineEnd(lines: seq<string>, j: nat): nat
    requires j < |lines|
  {
    Start(lines, j) + |lines[j]|
  }

  lemma SpliceTail(lines: seq<Line>, j: nat)
    requires j < |lines|
    ensures var text, end := Unlines(lines), LineEnd(lines, j);
            end <= |text| && (end < |text| <==> j + 1 < |lines|) &&
            (end < |text| ==> text[end] == '\n' && text[end + 1..] == Unlines(lines[j + 1..]))
  {
    var text, end := Unlines(lines), LineEnd(lines, j);
    CutAtLine(lines, j);
    StartNext(lines, j);
    if j + 1 < |lines| {
      CutAtLine(lines, j + 1);
      assert text[..end + 1] == Unlines(lines[..j + 1]) + "\n";
      assert text[..end + 1][end] == '\n';
    } else {
      assert text[Start(lines, j)..] == Unlines(lines[j..]) == lines[j];
    }
  }

  /** The bytes from `start` to `end`, and a newline there, replaced by a block. */
  function ReplaceSpan(text: string, start: nat, end: nat, block: string): string
    requires start <= |text| && end <= |text|
  {
    if end < |text| && text[end] == '\n' then text[..start] + (block + "\n") + text[end + 1..]
    else text[..start] + block + text[end..]
  }

  /** Replacing bytes from the start of one line to the end of another replaces those lines. */
  lemma SpliceText(lines: seq<Line>, i: nat, j: nat, block: seq<string>)
    requires i <= j < |lines| && block != []
    ensures Start(lines, i) <= |Unlines(lines)| && LineEnd(lines, j) <= |Unlines(lines)|
    ensures ReplaceSpan(Unlines(lines), Start(lines, i), LineEnd(lines, j), Unlines(block)) ==
            Unlines(lines[..i] + block + lines[j + 1..])
  {
    hide Unlines, Start;
    var text, end := Unlines(lines), LineEnd(lines, j);
    SpliceHead(lines, i, block);
    SpliceTail(lines, j);
    var head := text[..Start(lines, i)];
    if j + 1 < |lines| {
      UnlinesAppend(lines[..i] + block, lines[j + 1..]);
      assert head + (Unlines(block) + "\n") + text[end + 1..] == (head + Unlines(block)) + "\n" + text[end + 1..];
    } else {
      assert lines[..i] + block + lines[j + 1..] == lines[..i] + block;
      assert text[end..] == "" && head + Unlines(block) + "" == head + Unlines(block);
    }
  }

  lemma AppendText(kept: seq<Line>, block: seq<string>)
    requires kept != [] && block != []
    ensures Unlines((if kept == [""] then [] else kept + [""]) + block + [""])
         == (if Unlines(kept) != "" then Unlines(kept) + "\n\n" else "") + (Unlines(block) + "\n")
    ensures Unlines(kept) == "" <==> kept == [""]
  {
    UnlinesAppend(block, [""]);
    assert Unlines(block + [""]) == Unlines(block) + "\n";
    if kept != [""] {
      UnlinesAppend(kept, [""]);
      UnlinesAppend(kept + [""], block + [""]);
      assert kept + [""] + block + [""] == (kept + [""]) + (block + [""]);
    } else {
      assert [] + block + [""] == block + [""];
    }
  }

  /** The end marker lies behind the begin marker in bytes exactly when it does in lines. */
  lemma SameOrder(lines: seq<Line>, h: string)
    requires BeginMarker(h) in lines && EndMarker(h) in lines
    ensures var i, j := Find(lines, BeginMarker(h)), Find(lines, EndMarker(h));
            i != j && (Start(lines, j) <= Start(lines, i) <==> j < i)
  {
    var i, j := Find(lines, BeginMarker(h)), Find(lines, EndMarker(h));
    assert BeginMarker(h)[2] == 'B' && EndMarker(h)[2] == 'E';
    StartsIncrease(lines, if i < j then i else j, if i < j then j else i);
  }

  /** The splice in terms of where the two markers are. */
  lemma SplicedCases(lines: seq<Line>, h: string, port: nat)
    requires lines != []
    ensures var begin, end := BeginMarker(h), EndMarker(h);
            Spliced(lines, h, port) ==
            if Occurrences(lines, begin) > 1 then Failed(Repeated(Begin))
            else if Occurrences(lines, end) > 1 then Failed(Repeated(End))
            else if begin !in lines && end !in lines then
              Ok((if DropEmptyLines(lines) == [""] then []
                else DropEmptyLines(lines) + [""]) + BlockLines(h, port) + [""])
            else if begin !in lines || end !in lines then Failed(OneMarker)
            else if Find(lines, end) < Find(lines, begin) then Failed(WrongOrder)
            else Ok(lines[..Find(lines, begin)] + BlockLines(h, port) + lines[Find(lines, end) + 1..])
  {
    hide BeginMarker, EndMarker, BlockLines, Occurrences, Find, DropEmptyLines;
  }

  method BuildCaddyfile(original: string, h: string, port: nat) returns (r: Result<string>)
    ensures r == Build(original, h, port)
  {
    hide BeginMarker, EndMarker, BlockLines, Unlines, Lines, Start, Occurrences, DropEmptyLines, Norm, Denorm, HasCrLf,
         TrimNewlines, Find, Spliced;
    if port == 0 { return Failed(ZeroPort); }
    var crlf := HasCrLf(original);
    var normalized := Norm(original);
    ghost var lines := Lines(normalized);
    UnlinesLines(normalized);
    SplicedCases(lines, h, port);
    r := SpliceBlock(normalized, h, port);
    if r.Ok? && crlf {
      r := Ok(Denorm(r.value));
    }
  }

  /** Replaces a span; a newline behind it stays behind the block. */
  method PutBlock(original: string, beginOffset: nat, end: nat, lines: string) returns (normalized: string)
    requires beginOffset <= |original| && end <= |original|
    ensures normalized == ReplaceSpan(original, beginOffset, end, lines)
  {
    var endOffset, block := end, lines;
    if endOffset < |original| && original[endOffset] == '\n' {
      endOffset := endOffset + 1;
      block := block + "\n";
    }
    normalized := original[..beginOffset] + block + original[endOffset..];
  }

  /** The text with `\n` line endings only. */
  method SpliceBlock(original: string, h: string, port: nat) returns (r: Result<string>)
    ensures match Spliced(Lines(original), h, port)
            case Failed(reason) => r == Failed(reason)
            case Ok(lines) => r == Ok(Unlines(lines))
  {
    hide BeginMarker, EndMarker, BlockLines, Unlines, Lines, Start, Occurrences, DropEmptyLines, TrimNewlines, Find,
         Spliced, ReplaceSpan;
    var normalized := original;
    var begin, end := BeginMarker(h), EndMarker(h);
    var block := Unlines(BlockLines(h, port));
    ghost var lines, blockLines := Lines(normalized), BlockLines(h, port);
    BlockMarkers(h, port);
    UnlinesLines(normalized);
    SplicedCases(lines, h, port);
    var repeated, beginOffset := UniqueLineOffset(normalized, begin);
    if repeated { return Failed(Repeated(Begin)); }
    var again, endOffset := UniqueLineOffset(normalized, end);
    if again { return Failed(Repeated(End)); }
    if (beginOffset < 0 && endOffset >= 0) || (beginOffset >= 0 && endOffset < 0) {
      return Failed(OneMarker);
    } else if beginOffset >= 0 {
      SameOrder(lines, h);
      if endOffset <= beginOffset { return Failed(WrongOrder); }
      SpliceText(lines, Find(lines, begin), Find(lines, end), blockLines);
      normalized := PutBlock(normalized, beginOffset, endOffset + |end|, block);
    } else {
      TrimmedText(lines);
      AppendText(DropEmptyLines(lines), blockLines);
      normalized := TrimNewlines(normalized);
      if normalized != "" {
        normalized := normalized + "\n\n";
      }
      normalized := normalized + (block + "\n");
    }
    return Ok(normalized);
  }

  lemma BlockMarkers(h: string, port: nat)
    ensures BlockLines(h, port) != []
  {
  }

  // ---- Building twice ----

  predicate Unmarked(lines: seq<string>, h: string) {
    BeginMarker(h) !in lines && EndMarker(h) !in lines
  }

  /** The lines kept above and below the block. */
  function Above(lines: seq<Line>, h: string): seq<Line>
    requires lines != []
  {
    var kept := DropEmptyLines(lines);
    if BeginMarker(h) in lines then lines[..Find(lines, BeginMarker(h))]
    else if kept == [""] then []
    else kept + [""]
  }

  function Below(lines: seq<Line>, h: string): seq<Line> {
    if EndMarker(h) in lines then lines[Find(lines, EndMarker(h)) + 1..] else [""]
  }

  lemma OnlyOne(lines: seq<string>, a: nat, b: nat, marker: string)
    requires a <= b <= |lines| && Occurrences(lines, marker) <= 1 && marker in lines[a..b]
    ensures marker !in lines[..a] && marker !in lines[b..]
  {
    assert lines == lines[..a] + lines[a..b] + lines[b..];
    OccurrencesAppend(lines[..a] + lines[a..b], lines[b..], marker);
    OccurrencesAppend(lines[..a], lines[a..b], marker);
  }

  /** Whether a splice succeeds does not depend on the port, and it keeps what is above and below. */
  lemma SplicedAround(lines: seq<Line>, h: string, port: nat, other: nat)
    requires lines != [] && Hostname(h) && Spliced(lines, h, port).Ok?
    ensures Spliced(lines, h, other) == Ok(Above(lines, h) + BlockLines(h, other) + Below(lines, h))
    ensures Unmarked(Above(lines, h), h) && Unmarked(Below(lines, h), h)
  {
    hide BlockLines, DropEmptyLines;
    var begin, end := BeginMarker(h), EndMarker(h);
    assert begin != "" && end != "";
    if begin in lines {
      var i, j := Find(lines, begin), Find(lines, end);
      assert lines[i..j + 1][0] == begin && lines[i..j + 1][j - i] == end;
      OnlyOne(lines, i, j + 1, begin);
      OnlyOne(lines, i, j + 1, end);
    } else {
      var kept := DropEmptyLines(lines);
      assert forall line | line in kept :: line in lines;
    }
  }

  lemma BlockMarked(h: string, port: nat)
    requires Hostname(h)
    ensures |BlockLines(h, port)| == 7 && BlockLines(h, port)[0] == BeginMarker(h) &&
            BlockLines(h, port)[6] == EndMarker(h)
    ensures Unmarked(BlockLines(h, port)[1..6], h) && BeginMarker(h) != EndMarker(h)
  {
    var block := BlockLines(h, port);
    assert BeginMarker(h)[2] == 'B' && EndMarker(h)[2] == 'E' && BeginMarker(h)[0] == EndMarker(h)[0] == '#';
    assert h[0] in h && block[1][0] == h[0];
    assert block[1..6] == [block[1], block[2], block[3], block[4], block[5]];
  }

  lemma BlockOccurs(above: seq<string>, below: seq<string>, block: seq<string>, marker: string)
    requires marker !in above && marker !in below
    ensures Occurrences(above + block + below, marker) == Occurrences(block, marker)
  {
    OccurrencesAppend(above + block, below, marker);
    OccurrencesAppend(above, block, marker);
  }

  /** A block between unmarked lines is found and replaced. */
  lemma BlockIsReplaced(above: seq<Line>, below: seq<Line>, block: seq<Line>, h: string, port: nat, other: nat)
    requires Hostname(h) && Unmarked(above, h) && Unmarked(below, h) && block == BlockLines(h, port)
    ensures Occurrences(above + block + below, BeginMarker(h)) == 1 == Occurrences(above + block + below, EndMarker(h))
    ensures Spliced(above + block + below, h, other) == Ok(above + BlockLines(h, other) + below)
  {
    hide BlockLines, BeginMarker, EndMarker, DropEmptyLines, Find, Hostname, Occurrences;
    BlockMarked(h, port);
    var lines, n := above + block + below, |above|;
    var begin, end := BeginMarker(h), EndMarker(h);
    BlockCount(block, begin, end);
    BlockOccurs(above, below, block, begin);
    BlockOccurs(above, below, block, end);
    assert lines[n] == begin && lines[n + 6] == end;
    assert lines[..n] == above && lines[n + 7..] == below;
    assert lines[..n + 6] == above + ([begin] + block[1..6]);
    FindIsFirst(lines, begin, n);
    FindIsFirst(lines, end, n + 6);
  }

  lemma BlockCount(block: seq<string>, begin: string, end: string)
    requires |block| == 7 && block[0] == begin && block[6] == end && begin != end
    requires begin !in block[1..6] && end !in block[1..6]
    ensures Occurrences(block, begin) == 1 == Occurrences(block, end)
  {
    assert block == [begin] + block[1..6] + [end];
    OccurrencesAppend([begin] + block[1..6], [end], begin);
    OccurrencesAppend([begin], block[1..6], begin);
    OccurrencesAppend([begin] + block[1..6], [end], end);
    OccurrencesAppend([begin], block[1..6], end);
    assert [begin][1..] == [] && [end][1..] == [];
  }

  lemma {:induction false} DecimalIsPlain(n: nat)
    ensures forall c | c in RowKey.Decimal(n) :: '0' <= c <= '9'
  {
    if n >= 10 { DecimalIsPlain(n / 10); }
  }

  predicate Plain(s: string) {
    forall c | c in s :: c != '\n' && c != '\r'
  }

  lemma PlainAppend(a: string, b: string)
    requires Plain(a) && Plain(b)
    ensures Plain(a + b)
  {
  }

  lemma BeginIsPlain()
    ensures Plain("# BEGIN RenoP managed reverse proxy: ")
  {
  }

  lemma EndIsPlain()
    ensures Plain("# END RenoP managed reverse proxy: ")
  {
  }

  lemma WordsArePlain()
    ensures Plain("    reverse_proxy 127.0.0.1:") && Plain(" {")
  {
  }

  lemma MoreWordsArePlain()
    ensures Plain("}") && Plain("    }") && Plain("        flush_interval -1")
  {
  }

  lemma BlockIsPlain(h: string, port: nat)
    requires Hostname(h)
    ensures forall i | 0 <= i < |BlockLines(h, port)| :: Plain(BlockLines(h, port)[i])
  {
    DecimalIsPlain(port);
    assert Plain(h) && Plain(RowKey.Decimal(port));
    hide Plain, RowKey.Decimal;
    BeginIsPlain();
    EndIsPlain();
    WordsArePlain();
    MoreWordsArePlain();
    PlainAppend("# BEGIN RenoP managed reverse proxy: ", h);
    PlainAppend("# END RenoP managed reverse proxy: ", h);
    PlainAppend(h, " {");
    assert "    reverse_proxy " + "127.0.0.1:" == "    reverse_proxy 127.0.0.1:";
    PlainAppend("    reverse_proxy 127.0.0.1:", RowKey.Decimal(port));
    PlainAppend("    reverse_proxy 127.0.0.1:" + RowKey.Decimal(port), " {");
  }

  function Ending(crlf: bool, text: string): string {
    if crlf then Denorm(text) else text
  }

  /** What the file reads as when its line endings are those of `x`. */
  function Reading(crlf: bool, text: string): string {
    if crlf then Norm(text) else text
  }

  /** The lines of a built file. */
  function Built(x: string, h: string, port: nat): seq<string> {
    Above(Lines(Norm(x)), h) + BlockLines(h, port) + Below(Lines(Norm(x)), h)
  }

  lemma BuiltIsResult(x: string, h: string, p: nat, q: nat)
    requires Hostname(h) && Build(x, h, p).Ok? && q != 0
    ensures Build(x, h, q) == Ok(Ending(HasCrLf(x), Unlines(Built(x, h, q))))
    ensures Lines(Unlines(Built(x, h, q))) == Built(x, h, q)
    ensures forall other :: Spliced(Built(x, h, q), h, other) == Ok(Built(x, h, other))
    ensures Occurrences(Built(x, h, q), BeginMarker(h)) == 1 == Occurrences(Built(x, h, q), EndMarker(h))
  {
    hide BlockLines, BeginMarker, EndMarker, Above, Below, Unlines, Lines, Hostname, Norm, Denorm, HasCrLf,
         Occurrences, Spliced, Unmarked;
    var lines := Lines(Norm(x));
    SplicedAround(lines, h, p, q);
    BlockIsPlain(h, q);
    BlockMarked(h, q);
    BlockIsReplaced(Above(lines, h), Below(lines, h), BlockLines(h, q), h, q, q);
    LinesUnlines(Above(lines, h) + BlockLines(h, q) + Below(lines, h));
    forall other ensures Spliced(Built(x, h, q), h, other) == Ok(Built(x, h, other)) {
      BlockIsReplaced(Above(lines, h), Below(lines, h), BlockLines(h, q), h, q, other);
    }
  }

  /** A built file has one begin and one end marker line. */
  lemma MarkersOnce(x: string, h: string, p: nat)
    requires Hostname(h) && Build(x, h, p).Ok?
    ensures var lines := Lines(Reading(HasCrLf(x), Build(x, h, p).value));
            Occurrences(lines, BeginMarker(h)) == 1 == Occurrences(lines, EndMarker(h))
  {
    hide Built, Occurrences, BeginMarker, EndMarker, Lines, Unlines, Hostname;
    BuiltIsResult(x, h, p, p);
    NormDenorm(Unlines(Built(x, h, p)));
  }

  /** The guard under which appending makes a CRLF that the file did not have. */
  predicate DanglingCr(x: string, h: string) {
    !HasCrLf(x) && BeginMarker(h) !in Lines(x) && EndsInCr(x)
  }

  lemma KeptCr(lines: seq<Line>)
    requires lines != [] && forall i | 0 <= i < |lines| - 1 :: !EndsInCr(lines[i])
    ensures var kept := DropEmptyLines(lines);
            (forall i | 0 <= i < |kept| - 1 :: !EndsInCr(kept[i])) &&
            (EndsInCr(kept[|kept| - 1]) <==> EndsInCr(lines[|lines| - 1]))
  {
    if lines[|lines| - 1] != "" {
      assert DropEmptyLines(lines) == lines;
    }
  }

  predicate NoCrBeforeLast(lines: seq<string>) {
    forall i | 0 <= i < |lines| - 1 :: !EndsInCr(lines[i])
  }

  lemma AboveCr(lines: seq<Line>, h: string)
    requires lines != [] && NoCrBeforeLast(lines) && ((BeginMarker(h) in lines) == (EndMarker(h) in lines))
    requires Hostname(h)
    ensures (exists i | 0 <= i < |Above(lines, h)| :: EndsInCr(Above(lines, h)[i])) <==>
            (BeginMarker(h) !in lines && EndsInCr(lines[|lines| - 1]))
    ensures NoCrBeforeLast(Below(lines, h))
  {
    hide BeginMarker, EndMarker, Hostname;
    var above := Above(lines, h);
    if BeginMarker(h) in lines {
      assert forall i | 0 <= i < |above| :: above[i] == lines[i];
    } else {
      KeptCr(lines);
      var kept := DropEmptyLines(lines);
      if kept != [""] {
        assert above[|kept|] == "" && forall i | 0 <= i < |kept| :: above[i] == kept[i];
      }
    }
  }

  lemma BuiltCr(above: seq<Line>, block: seq<Line>, below: seq<Line>)
    requires block != [] && (forall i | 0 <= i < |block| :: Plain(block[i])) && NoCrBeforeLast(below)
    ensures NoCrBeforeLast(above + block + below) <==> forall i | 0 <= i < |above| :: !EndsInCr(above[i])
  {
    var lines, n, m := above + block + below, |above|, |block|;
    forall i | 0 <= i < m ensures !EndsInCr(block[i]) {
      if block[i] != "" { assert block[i][|block[i]| - 1] in block[i]; }
    }
    assert forall i | 0 <= i < n :: lines[i] == above[i];
    forall i | n <= i < |lines| - 1 ensures !EndsInCr(lines[i]) {
      if i < n + m { assert lines[i] == block[i - n]; } else { assert lines[i] == below[i - n - m]; }
    }
  }

  lemma NewCrLf(x: string, h: string, p: nat)
    requires Hostname(h) && Build(x, h, p).Ok? && !HasCrLf(x)
    ensures HasCrLf(Unlines(Built(x, h, p))) <==> DanglingCr(x, h)
  {
    hide BlockLines, BeginMarker, EndMarker, Above, Below, Unlines, Lines, Hostname, Norm, Denorm, HasCrLf, Occurrences;
    NormPlain(x);
    var lines := Lines(x);
    UnlinesLines(x);
    CrLfByLines(lines);
    assert NoCrBeforeLast(lines);
    SplicedAround(lines, h, p, p);
    AboveCr(lines, h);
    BlockIsPlain(h, p);
    BlockMarked(h, p);
    var block: seq<Line> := BlockLines(h, p);
    BuiltCr(Above(lines, h), block, Below(lines, h));
    CrLfByLines(Above(lines, h) + block + Below(lines, h));
  }

  /**
   Building again for the same host gives what building once with the new port gives, unless the
   file had no block, no CRLF and a carriage return as its last character.
   */
  lemma BuildTwice(x: string, h: string, p: nat, q: nat)
    requires Hostname(h) && Build(x, h, p).Ok? && q != 0
    ensures Build(Build(x, h, p).value, h, q) == Build(x, h, q) <==> !DanglingCr(x, h)
  {
    hide Built, BeginMarker, EndMarker, Lines, Unlines, Hostname, DanglingCr, Norm, Denorm, HasCrLf, Spliced;
    BuiltIsResult(x, h, p, p);
    BuiltIsResult(x, h, p, q);
    var once, y := Unlines(Built(x, h, p)), Build(x, h, p).value;
    BuiltBreaks(x, h, p);
    if HasCrLf(x) {
      NormDenorm(once);
      DenormHasCrLf(once);
      assert !DanglingCr(x, h) by { NoDangling(x, h); }
    } else {
      NewCrLf(x, h, p);
      if HasCrLf(y) {
        BuiltBreaks(x, h, q);
        CrLfEverywhere(y, h, q);
      } else {
        NormPlain(y);
      }
    }
  }

  /** One such file: a single line that ends in a carriage return. */
  lemma SecondBuildDiffers(h: string, p: nat, q: nat)
    requires Hostname(h) && p != 0 && q != 0
    ensures Build("a\r", h, p).Ok? && Build(Build("a\r", h, p).value, h, q) != Build("a\r", h, q)
  {
    hide BlockLines, Hostname, Unlines;
    var x := "a\r";
    assert x[1..] == "\r" && "\r"[1..] == "" && !HasCrLf("\r") && !HasCrLf(x);
    NormPlain(x);
    LinesOfLine(x);
    assert BeginMarker(h)[0] == '#' && EndMarker(h)[0] == '#';
    assert DanglingCr(x, h);
    BuildTwice(x, h, p, q);
  }

  lemma NoDangling(x: string, h: string)
    requires HasCrLf(x)
    ensures !DanglingCr(x, h)
  {
  }

  predicate EveryLfHasCr(s: string) {
    forall i | 0 <= i < |s| && s[i] == '\n' :: i > 0 && s[i - 1] == '\r'
  }

  lemma CrLfEverywhere(x: string, h: string, port: nat)
    requires HasCrLf(x)
    ensures Build(x, h, port).Ok? ==> EveryLfHasCr(Build(x, h, port).value)
  {
    hide Spliced, Lines, Norm, HasCrLf, Denorm;
    if Build(x, h, port).Ok? {
      var lines := Spliced(Lines(Norm(x)), h, port).value;
      DenormPairs(Unlines(lines));
    }
  }

  /** A built text has a line break before its end marker, and no carriage return in front of it. */
  lemma BuiltBreaks(x: string, h: string, port: nat)
    requires Hostname(h)
    ensures '\n' in Unlines(Built(x, h, port)) && !EveryLfHasCr(Unlines(Built(x, h, port)))
  {
    var above, below, block := Above(Lines(Norm(x)), h), Below(Lines(Norm(x)), h), BlockLines(h, port);
    hide Above, Below, Unlines, Lines, Hostname, Norm, BeginMarker, EndMarker;
    assert above + block + below == (above + block[..6]) + (block[6..] + below) by {
      assert block == block[..6] + block[6..];
    }
    UnlinesAppend(above + block[..6], block[6..] + below);
    LastLine(above + block[..5], "}");
    assert above + block[..6] == above + block[..5] + ["}"];
    var head := Unlines(above + block[..6]);
    var text := Unlines(above + block + below);
    assert text[|head|] == '\n' && text[|head| - 1] == '}';
  }

  lemma LastLine(lines: seq<string>, line: string)
    requires line != ""
    ensures var text := Unlines(lines + [line]); text != "" && text[|text| - 1] == line[|line| - 1]
  {
    if lines != [] {
      UnlinesAppend(lines, [line]);
    } else {
      assert lines + [line] == [line];
    }
  }

  // ---- What is kept ----

  function Leading(lines: seq<string>): string {
    if lines == [] then "" else Unlines(lines) + "\n"
  }

  function Trailing(lines: seq<string>): string {
    if lines == [] then "" else "\n" + Unlines(lines)
  }

  lemma UnlinesThree(a: seq<string>, b: seq<string>, c: seq<string>)
    requires b != []
    ensures Unlines(a + b + c) == Leading(a) + Unlines(b) + Trailing(c)
  {
    hide Unlines;
    if a != [] { UnlinesAppend(a, b); } else { assert a + b == b; }
    if c != [] { UnlinesAppend(a + b, c); } else { assert a + b + c == a + b; }
    assert Unlines(a + b) == Leading(a) + Unlines(b);
    assert (Leading(a) + Unlines(b)) + Trailing(c) == Leading(a) + Unlines(b) + Trailing(c);
  }

  lemma SpanIsFound(lines: seq<Line>, h: string, p: nat)
    requires lines != [] && Spliced(lines, h, p).Ok? && BeginMarker(h) in lines
    ensures EndMarker(h) in lines
    ensures var i, j := Find(lines, BeginMarker(h)), Find(lines, EndMarker(h));
            i < j && Above(lines, h) == lines[..i] && Below(lines, h) == lines[j + 1..]
  {
    SameOrder(lines, h);
  }

  /** Where there is a block, it alone is replaced; the text around it is kept. */
  lemma SpanIsReplaced(x: string, h: string, p: nat) returns (head: string, replaced: seq<string>, tail: string)
    requires Hostname(h) && Build(x, h, p).Ok? && BeginMarker(h) in Lines(Norm(x))
    ensures |replaced| > 1 && replaced[0] == BeginMarker(h) && replaced[|replaced| - 1] == EndMarker(h)
    ensures Norm(x) == head + Unlines(replaced) + tail
    ensures Build(x, h, p) == Ok(Ending(HasCrLf(x), head + Unlines(BlockLines(h, p)) + tail))
  {
    hide Unlines, Lines, Norm, Denorm, HasCrLf, BlockLines, Hostname, Spliced, Above, Below, BeginMarker, EndMarker,
         Occurrences;
    var lines := Lines(Norm(x));
    BuiltIsResult(x, h, p, p);
    BlockMarked(h, p);
    UnlinesLines(Norm(x));
    SpanIsFound(lines, h, p);
    var i, j := Find(lines, BeginMarker(h)), Find(lines, EndMarker(h));
    replaced, head, tail := lines[i..j + 1], Leading(lines[..i]), Trailing(lines[j + 1..]);
    assert lines == lines[..i] + replaced + lines[j + 1..];
    UnlinesThree(lines[..i], replaced, lines[j + 1..]);
    UnlinesThree(lines[..i], BlockLines(h, p), lines[j + 1..]);
  }

  /** In a file with one kind of line ending every byte outside the block is kept. */
  lemma OutsideIsKept(x: string, h: string, p: nat) returns (head: string, replaced: string, tail: string)
    requires Hostname(h) && Build(x, h, p).Ok? && BeginMarker(h) in Lines(Norm(x))
    ensures OneEnding(x) ==> x == head + replaced + tail
    ensures OneEnding(x) ==> Build(x, h, p) == Ok(head + Ending(HasCrLf(x), Unlines(BlockLines(h, p))) + tail)
  {
    hide Unlines, Lines, Norm, Denorm, HasCrLf, BlockLines, Hostname;
    var a, o, c := SpanIsReplaced(x, h, p);
    var block, crlf := Unlines(BlockLines(h, p)), HasCrLf(x);
    head, replaced, tail := Ending(crlf, a), Ending(crlf, Unlines(o)), Ending(crlf, c);
    if crlf {
      DenormAppend(a + Unlines(o), c);
      DenormAppend(a, Unlines(o));
      DenormAppend(a + block, c);
      DenormAppend(a, block);
    } else {
      NormPlain(x);
    }
  }

  /** Every line break is CRLF, or none is. */
  predicate OneEnding(x: string) {
    HasCrLf(x) ==> Denorm(Norm(x)) == x
  }
}
