/** The unified-diff parser (gitstage/diff.go): `git diff` text in, hunks of
    classified lines out. Parsing never fails; malformed headers degrade to 0. */
module Diff {
  import opened Text
  import opened Types

  // ---------------------------------------------------------------------
  // Hunk headers

  /** parseRange: "A,B" gives (A, B) and "A" gives (A, 1); a part that is not
      a decimal number reads as 0. */
  function ParseRange(s: string): (r: (nat, nat))
    ensures ',' !in s ==> r == (ParseDecimal(s), 1)
    ensures ',' in s ==>
              var i := IndexOf(s, ',');
              r == (ParseDecimal(s[..i]), ParseDecimal(s[i + 1..]))
  {
    if ',' in s then
      var i := IndexOf(s, ',');
      assert s == s[..i] + "," + s[i + 1..];
      CutAfter(s[..i], ",", s[i + 1..]);
      RangeOfCut(s)
    else
      CutAbsent(s, ",");
      RangeOfCut(s)
  }

  /** The body of parseRange: strings.SplitN(s, ",", 2), then Atoi on each part. */
  function RangeOfCut(s: string): (nat, nat)
  {
    match Cut(s, ",")
    case None => (ParseDecimal(s), 1)
    case Some((a, b)) => (ParseDecimal(a), ParseDecimal(b))
  }

  /** The header a hunk starts with, as git writes it and as the patch
      reconstructor and the display list print it. */
  function HeaderText(origStart: int, origCount: int, newStart: int, newCount: int): string
  {
    "@@ -" + IntToString(origStart) + "," + IntToString(origCount)
    + " +" + IntToString(newStart) + "," + IntToString(newCount) + " @@"
  }

  /** A hunk with every number 0 and no lines: what a header without "@@"
      parses to. */
  const EmptyHunk := Hunk(0, 0, 0, 0, [])

  /** The loop of parseHunkHeader over the whitespace-separated tokens: a
      token starting with '-' sets the old range, one starting with '+' sets
      the new range, and a later token overrides an earlier one. */
  function ApplyTokens(h: Hunk, tokens: seq<string>): (r: Hunk)
    requires h.origStart >= 0 && h.origCount >= 0 && h.newStart >= 0 && h.newCount >= 0
    ensures r.lines == h.lines
    ensures r.origStart >= 0 && r.origCount >= 0 && r.newStart >= 0 && r.newCount >= 0
    decreases |tokens|
  {
    if tokens == [] then h
    else
      var tok := tokens[0];
      var h' :=
        if HasPrefix(tok, "-") then
          var (a, b) := ParseRange(tok[1..]); h.(origStart := a, origCount := b)
        else if HasPrefix(tok, "+") then
          var (a, b) := ParseRange(tok[1..]); h.(newStart := a, newCount := b)
        else h;
      ApplyTokens(h', tokens[1..])
  }

  /** parseHunkHeader: the text between the first two "@@" (or after the
      only one) is split into fields, which set the ranges. Since Fields
      already ignores surrounding white space, strings.TrimSpace is implicit. */
  function ParseHunkHeader(line: string): (r: Hunk)
    ensures r.lines == []
    ensures r.origStart >= 0 && r.origCount >= 0 && r.newStart >= 0 && r.newCount >= 0
    ensures (forall i: nat :: !OccursAt(line, "@@", i)) ==> r == EmptyHunk
  {
    match Cut(line, "@@")
    case None => EmptyHunk
    case Some((_, after)) =>
      var middle := match Cut(after, "@@") case None => after case Some((m, _)) => m;
      ApplyTokens(EmptyHunk, Fields(middle))
  }

  /** A range as a header writes it: "A,B", or just "A" when the count is left out. */
  function RangeText(start: nat, count: Option<nat>): string
  {
    match count
    case None => NatToString(start)
    case Some(c) => NatToString(start) + "," + NatToString(c)
  }

  function CountOrOne(count: Option<nat>): nat
  {
    match count
    case None => 1
    case Some(c) => c
  }

  lemma RangeTextChars(start: nat, count: Option<nat>)
    ensures NoSpace(RangeText(start, count)) && '@' !in RangeText(start, count)
    ensures |RangeText(start, count)| > 0
  {
    var s := RangeText(start, count);
    forall i | 0 <= i < |s|
      ensures !IsSpace(s[i]) && s[i] != '@'
    {
      match count
      case None =>
      case Some(c) =>
        var a := NatToString(start);
        if i > |a| {
          assert s[i] == NatToString(c)[i - |a| - 1];
        }
    }
  }

  /** A printed range parses back, the count defaulting to 1 when absent. */
  lemma ParseRangeText(start: nat, count: Option<nat>)
    ensures ParseRange(RangeText(start, count)) == (start, CountOrOne(count))
  {
    ParsePrinted(start);
    match count
    case None =>
      assert forall i :: 0 <= i < |NatToString(start)| ==> IsDigit(NatToString(start)[i]);
    case Some(c) =>
      ParsePrinted(c);
      var a := NatToString(start);
      assert ',' !in a by {
        assert forall i :: 0 <= i < |a| ==> IsDigit(a[i]);
      }
      var s := RangeText(start, count);
      assert s[|a|] == ',';
      assert s[..|a|] == a;
      assert IndexOf(s, ',') == |a|;
      assert s[|a| + 1..] == NatToString(c);
  }

  /** The fields between the two "@@" are what parseHunkHeader reads;
      whatever follows the second "@@" is ignored. */
  lemma HeaderMiddle(middle: string, tail: string)
    requires '@' !in middle
    ensures ParseHunkHeader("@@" + middle + "@@" + tail) == ApplyTokens(EmptyHunk, Fields(middle))
  {
    var after := middle + "@@" + tail;
    assert "@@" + middle + "@@" + tail == [] + "@@" + after;
    CutAfter([], "@@", after);
    CutAfter(middle, "@@", tail);
  }

  lemma NoSpaceMarked(m: char, r: string)
    requires NoSpace(r) && !IsSpace(m)
    ensures NoSpace([m] + r)
  {
    var t := [m] + r;
    forall i | 0 <= i < |t| ensures !IsSpace(t[i]) {
      if i > 0 { assert t[i] == r[i - 1]; }
    }
  }

  lemma MiddleFields(ra: string, rc: string)
    requires NoSpace(ra) && NoSpace(rc)
    ensures Fields(" -" + ra + " +" + rc + " ") == ["-" + ra, "+" + rc]
  {
    var t1, t2 := "-" + ra, "+" + rc;
    NoSpaceMarked('-', ra);
    NoSpaceMarked('+', rc);
    var inner := t2 + [' '] + [];
    var outer := t1 + [' '] + inner;
    assert " -" + ra + " +" + rc + " " == [' '] + outer;
    FieldsSpace(' ', outer);
    FieldsWord(t1, ' ', inner);
    FieldsWord(t2, ' ', []);
  }

  lemma ApplyRanges(ra: string, rc: string)
    ensures ApplyTokens(EmptyHunk, ["-" + ra, "+" + rc])
            == Hunk(ParseRange(ra).0, ParseRange(ra).1, ParseRange(rc).0, ParseRange(rc).1, [])
  {
    var t1, t2 := "-" + ra, "+" + rc;
    assert t1[1..] == ra && t2[1..] == rc;
    PrefixOfAppend("-", ra);
    PrefixOfAppend("+", rc);
    NoPrefixWhenFirstDiffers(t2, "-");
    var h1 := EmptyHunk.(origStart := ParseRange(ra).0, origCount := ParseRange(ra).1);
    assert ApplyTokens(EmptyHunk, [t1, t2]) == ApplyTokens(h1, [t2]);
    assert [t2][1..] == [];
  }

  lemma MiddleChars(ra: string, rc: string)
    requires '@' !in ra && '@' !in rc
    ensures '@' !in " -" + ra + " +" + rc + " "
  {
    var middle := " -" + ra + " +" + rc + " ";
    forall i | 0 <= i < |middle|
      ensures middle[i] != '@'
    {
      if 2 <= i < 2 + |ra| {
        assert middle[i] == ra[i - 2];
      } else if 4 + |ra| <= i < 4 + |ra| + |rc| {
        assert middle[i] == rc[i - 4 - |ra|];
      }
    }
  }

  /** For any range texts, not only printed numerals: the "-" field sets
      the old range and the "+" field the new one, each as parseRange reads
      it, and whatever follows the closing "@@" is ignored. */
  lemma HeaderRanges(ra: string, rc: string, tail: string)
    requires NoSpace(ra) && NoSpace(rc) && '@' !in ra && '@' !in rc
    ensures ParseHunkHeader("@@ -" + ra + " +" + rc + " @@" + tail)
            == Hunk(ParseRange(ra).0, ParseRange(ra).1, ParseRange(rc).0, ParseRange(rc).1, [])
  {
    var middle := " -" + ra + " +" + rc + " ";
    MiddleChars(ra, rc);
    assert "@@ -" + ra + " +" + rc + " @@" + tail == "@@" + middle + "@@" + tail;
    HeaderMiddle(middle, tail);
    MiddleFields(ra, rc);
    ApplyRanges(ra, rc);
  }

  /** parseHunkHeader reads back any header of the form
      "@@ -A[,B] +C[,D] @@<anything>": missing counts are 1 and whatever
      follows the closing "@@" is ignored. */
  lemma ParseHeaderOf(a: nat, b: Option<nat>, c: nat, d: Option<nat>, tail: string)
    ensures ParseHunkHeader("@@ -" + RangeText(a, b) + " +" + RangeText(c, d) + " @@" + tail)
            == Hunk(a, CountOrOne(b), c, CountOrOne(d), [])
  {
    var ra, rc := RangeText(a, b), RangeText(c, d);
    RangeTextChars(a, b);
    RangeTextChars(c, d);
    HeaderRanges(ra, rc, tail);
    ParseRangeText(a, b);
    ParseRangeText(c, d);
  }

  /** Regrouping the pieces of a header around its two ranges. */
  lemma HeaderPieces(a: string, b: string, c: string, d: string, tail: string)
    ensures "@@ -" + a + "," + b + " +" + c + "," + d + " @@" + tail
            == "@@ -" + (a + "," + b) + " +" + (c + "," + d) + " @@" + tail
  {
  }

  /** A header printed by HeaderText parses back to the same four numbers. */
  lemma HeaderRoundTrip(origStart: nat, origCount: nat, newStart: nat, newCount: nat, tail: string)
    ensures ParseHunkHeader(HeaderText(origStart, origCount, newStart, newCount) + tail)
            == Hunk(origStart, origCount, newStart, newCount, [])
  {
    var a, b, c, d := IntToString(origStart), IntToString(origCount), IntToString(newStart), IntToString(newCount);
    assert a == NatToString(origStart) && b == NatToString(origCount);
    assert c == NatToString(newStart) && d == NatToString(newCount);
    assert RangeText(origStart, Some(origCount)) == a + "," + b;
    assert RangeText(newStart, Some(newCount)) == c + "," + d;
    HeaderPieces(a, b, c, d, tail);
    ParseHeaderOf(origStart, Some(origCount), newStart, Some(newCount), tail);
  }

  /** The numbers the source's own header tests print. */
  lemma SmallNumerals()
    ensures NatToString(0) == "0" && NatToString(1) == "1" && NatToString(2) == "2" && NatToString(3) == "3"
    ensures NatToString(5) == "5" && NatToString(6) == "6" && NatToString(7) == "7" && NatToString(10) == "10"
  {
    assert NatToString(10) == NatToString(1) + [DigitChar(0)];
  }

  /** The headers exercised by the source's own header tests. */
  lemma HeaderExampleFull()
    ensures ParseHunkHeader("@@ -1,5 +1,7 @@") == Hunk(1, 5, 1, 7, [])
  {
    SmallNumerals();
    assert HeaderText(1, 5, 1, 7) + "" == "@@ -1,5 +1,7 @@";
    HeaderRoundTrip(1, 5, 1, 7, "");
  }

  lemma HeaderExampleNoCount()
    ensures ParseHunkHeader("@@ -1 +1,2 @@") == Hunk(1, 1, 1, 2, [])
  {
    SmallNumerals();
    var ra, rc := RangeText(1, None), RangeText(1, Some(2));
    assert ra == "1" && rc == "1,2";
    assert "@@ -1 +1,2 @@" == "@@ -" + ra + " +" + rc + " @@" + "";
    ParseHeaderOf(1, None, 1, Some(2), "");
  }

  lemma HeaderExampleNewFile()
    ensures ParseHunkHeader("@@ -0,0 +1,3 @@") == Hunk(0, 0, 1, 3, [])
  {
    SmallNumerals();
    assert HeaderText(0, 0, 1, 3) + "" == "@@ -0,0 +1,3 @@";
    HeaderRoundTrip(0, 0, 1, 3, "");
  }

  lemma HeaderExampleTrailer()
    ensures ParseHunkHeader("@@ -10,6 +10,7 @@ func main()") == Hunk(10, 6, 10, 7, [])
  {
    SmallNumerals();
    assert HeaderText(10, 6, 10, 7) == "@@ -10,6 +10,7 @@";
    assert HeaderText(10, 6, 10, 7) + " func main()" == "@@ -10,6 +10,7 @@ func main()";
    HeaderRoundTrip(10, 6, 10, 7, " func main()");
  }

  // ---------------------------------------------------------------------
  // The line scanner of parseDiff

  /** The scanner's state: hunks finished so far, the hunk being filled, and
      whether the scanner is inside a file header. */
  datatype ParseState = ParseState(done: seq<Hunk>, current: Option<Hunk>, inHeader: bool)

  const Start := ParseState([], None, true)

  /** The finished hunks with the open one, if any, appended. */
  function Close(st: ParseState): seq<Hunk>
  {
    match st.current
    case None => st.done
    case Some(h) => st.done + [h]
  }

  predicate IsFileMarker(line: string)
  {
    HasPrefix(line, "diff --git ")
  }

  predicate IsHunkMarker(line: string)
  {
    HasPrefix(line, "@@")
  }

  predicate IsNoNewlineMarker(line: string)
  {
    HasPrefix(line, "\\ No newline")
  }

  /** One iteration of parseDiff's loop. */
  function Step(st: ParseState, line: string): ParseState
  {
    if IsFileMarker(line) then ParseState(Close(st), None, true)
    else if IsHunkMarker(line) then ParseState(Close(st), Some(ParseHunkHeader(line)), false)
    else if st.inHeader then st
    else if st.current.None? then st
    else if IsNoNewlineMarker(line) then st
    else
      var h := st.current.value;
      st.(current := Some(h.(lines := h.lines + [Classify(line)])))
  }

  function Run(st: ParseState, lines: seq<string>): ParseState
    decreases |lines|
  {
    if lines == [] then st else Run(Step(st, lines[0]), lines[1..])
  }

  lemma {:induction false} RunAppend(st: ParseState, a: seq<string>, b: seq<string>)
    ensures Run(st, a + b) == Run(Run(st, a), b)
    decreases |a|
  {
    if a != [] {
      assert (a + b)[0] == a[0];
      assert (a + b)[1..] == a[1..] + b;
      RunAppend(Step(st, a[0]), a[1..], b);
    } else {
      assert a + b == b;
    }
  }

  /** The lines parseDiff scans: the newline-separated pieces, without the
      empty piece a final newline leaves behind. */
  function ScannedLines(raw: string): (r: seq<string>)
    ensures forall i :: 0 <= i < |r| ==> '\n' !in r[i]
  {
    var pieces := Split(raw, '\n');
    if pieces[|pieces| - 1] == "" then pieces[..|pieces| - 1] else pieces
  }

  /** Number of lines that open a hunk. */
  function CountHunkMarkers(lines: seq<string>): nat
  {
    if lines == [] then 0 else (if IsHunkMarker(lines[0]) then 1 else 0) + CountHunkMarkers(lines[1..])
  }

  /** A line whose kind is the one its first character gives, and which is
      none of the lines the scanner treats specially, so that it reads back
      as itself when written into a diff. */
  predicate WellFormedLine(l: Line)
  {
    && l.kind == KindOf(l.content)
    && '\n' !in l.content
    && !IsFileMarker(l.content)
    && !IsHunkMarker(l.content)
    && !IsNoNewlineMarker(l.content)
  }

  /** A line as the parser stores it: well formed and unstaged. */
  predicate ParsedLine(l: Line)
  {
    WellFormedLine(l) && !l.staged
  }

  /** A hunk as the parser produces it. */
  predicate ParsedHunk(h: Hunk)
  {
    && h.origStart >= 0 && h.origCount >= 0 && h.newStart >= 0 && h.newCount >= 0
    && forall i :: 0 <= i < |h.lines| ==> ParsedLine(h.lines[i])
  }

  predicate ParsedState(st: ParseState)
  {
    && (forall i :: 0 <= i < |st.done| ==> ParsedHunk(st.done[i]))
    && (st.current.Some? ==> ParsedHunk(st.current.value))
  }

  /** parseDiff. */
  function ParseDiff(raw: string): (r: seq<Hunk>)
    ensures |r| == CountHunkMarkers(Split(raw, '\n'))
    ensures forall i :: 0 <= i < |r| ==> ParsedHunk(r[i])
  {
    var lines := ScannedLines(raw);
    RunCount(Start, lines);
    RunParsed(Start, lines);
    ScannedMarkers(raw);
    Close(Run(Start, lines))
  }

  /** Newline-terminated lines are scanned back as exactly those lines. */
  lemma ScannedUnlines(ls: seq<string>)
    requires forall i :: 0 <= i < |ls| ==> '\n' !in ls[i]
    ensures ScannedLines(Unlines(ls)) == ls
  {
    SplitUnlines(ls, "");
    assert Unlines(ls) + "" == Unlines(ls);
    assert Split("", '\n') == [""];
    assert (ls + [""])[..|ls|] == ls;
  }

  lemma ScannedMarkers(raw: string)
    ensures CountHunkMarkers(ScannedLines(raw)) == CountHunkMarkers(Split(raw, '\n'))
  {
    var pieces := Split(raw, '\n');
    var n := |pieces|;
    if pieces[n - 1] == "" {
      assert pieces == pieces[..n - 1] + [""];
      CountMarkersAppend(pieces[..n - 1], [""]);
      assert CountHunkMarkers([""]) == 0;
    }
  }

  lemma {:induction false} CountMarkersAppend(a: seq<string>, b: seq<string>)
    ensures CountHunkMarkers(a + b) == CountHunkMarkers(a) + CountHunkMarkers(b)
  {
    if a != [] {
      assert (a + b)[0] == a[0];
      assert (a + b)[1..] == a[1..] + b;
      CountMarkersAppend(a[1..], b);
    } else {
      assert a + b == b;
    }
  }

  lemma StepCount(st: ParseState, line: string)
    ensures |Close(Step(st, line))| == |Close(st)| + (if IsHunkMarker(line) then 1 else 0)
  {
    if IsFileMarker(line) {
      assert line[0] == 'd';
      NoPrefixWhenFirstDiffers(line, "@@");
    }
  }

  /** Every "@@" line adds exactly one hunk; nothing else adds or drops one. */
  lemma {:induction false} RunCount(st: ParseState, lines: seq<string>)
    ensures |Close(Run(st, lines))| == |Close(st)| + CountHunkMarkers(lines)
    decreases |lines|
  {
    if lines != [] {
      StepCount(st, lines[0]);
      RunCount(Step(st, lines[0]), lines[1..]);
    }
  }

  /** Every stored line is a classified, unstaged body line. */
  lemma {:induction false} RunParsed(st: ParseState, lines: seq<string>)
    requires ParsedState(st)
    requires forall i :: 0 <= i < |lines| ==> '\n' !in lines[i]
    ensures ParsedState(Run(st, lines))
    ensures forall i :: 0 <= i < |Close(Run(st, lines))| ==> ParsedHunk(Close(Run(st, lines))[i])
    decreases |lines|
  {
    if lines != [] {
      StepParsed(st, lines[0]);
      RunParsed(Step(st, lines[0]), lines[1..]);
    } else {
      CloseParsed(st);
    }
  }

  lemma CloseParsed(st: ParseState)
    requires ParsedState(st)
    ensures forall i :: 0 <= i < |Close(st)| ==> ParsedHunk(Close(st)[i])
  {
  }

  lemma StepParsed(st: ParseState, line: string)
    requires ParsedState(st) && '\n' !in line
    ensures ParsedState(Step(st, line))
  {
    CloseParsed(st);
    if !IsFileMarker(line) && !IsHunkMarker(line) && !st.inHeader && st.current.Some? && !IsNoNewlineMarker(line) {
      var h := st.current.value;
      var h' := h.(lines := h.lines + [Classify(line)]);
      assert forall i :: 0 <= i < |h'.lines| ==> ParsedLine(h'.lines[i]);
    }
  }

  /** A "diff --git " line closes the open hunk, and the file header lines
      after it are discarded until the next "@@" line. */
  lemma {:induction false} FileHeaderDiscarded(st: ParseState, marker: string, header: seq<string>)
    requires IsFileMarker(marker)
    requires forall i :: 0 <= i < |header| ==> !IsHunkMarker(header[i])
    ensures Run(st, [marker] + header) == ParseState(Close(st), None, true)
  {
    assert ([marker] + header)[1..] == header;
    HeaderSkipped(ParseState(Close(st), None, true), header);
  }

  lemma {:induction false} HeaderSkipped(st: ParseState, header: seq<string>)
    requires st.inHeader && st.current.None?
    requires forall i :: 0 <= i < |header| ==> !IsHunkMarker(header[i])
    ensures Run(st, header) == st
    decreases |header|
  {
    if header != [] {
      HeaderSkipped(Step(st, header[0]), header[1..]);
    }
  }

  /** Inside a hunk, each body line is classified by its first character and
      appended verbatim, while "\ No newline" lines are dropped. */
  function BodyOf(lines: seq<string>): seq<Line>
  {
    if lines == [] then []
    else (if IsNoNewlineMarker(lines[0]) then [] else [Classify(lines[0])]) + BodyOf(lines[1..])
  }

  /** Scanning body lines extends the open hunk by their classification. */
  lemma {:induction false} BodyAppended(done: seq<Hunk>, h: Hunk, body: seq<string>)
    requires forall i :: 0 <= i < |body| ==> !IsFileMarker(body[i]) && !IsHunkMarker(body[i])
    ensures Run(ParseState(done, Some(h), false), body)
            == ParseState(done, Some(h.(lines := h.lines + BodyOf(body))), false)
    decreases |body|
  {
    if body != [] {
      var h' := if IsNoNewlineMarker(body[0]) then h else h.(lines := h.lines + [Classify(body[0])]);
      assert Step(ParseState(done, Some(h), false), body[0]) == ParseState(done, Some(h'), false);
      BodyAppended(done, h', body[1..]);
      assert h'.lines + BodyOf(body[1..]) == h.lines + BodyOf(body);
    } else {
      assert h.lines + BodyOf(body) == h.lines;
    }
  }

  /** A text without a final newline parses the same with one appended: the
      empty piece after the final newline never becomes a line. */
  lemma FinalNewlineIgnored(t: string)
    requires t == [] || t[|t| - 1] != '\n'
    ensures ParseDiff(t + "\n") == ParseDiff(t)
  {
    SplitSnoc(t, '\n');
    var pieces := Split(t, '\n');
    assert (pieces + [[]])[..|pieces|] == pieces;
    assert ScannedLines(t + "\n") == pieces;
    if t == [] {
      assert pieces == [[]];
      assert ScannedLines(t) == [];
      assert Run(Start, [[]]) == Start;
    } else {
      SplitLastPiece(t, '\n');
      assert ScannedLines(t) == pieces;
    }
  }
}
