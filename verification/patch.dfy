/** The patch reconstructor (gitstage/patch.go): from per-line staged flags,
    a partial unified diff holding only the selected changes. Staged lines are
    kept, unstaged additions dropped, unstaged removals demoted to context, and
    each hunk header gets lengths recounted from what is emitted. */
module Patch {
  import opened Text
  import opened Types
  import opened Diff

  // ---------------------------------------------------------------------
  // Counting lines by kind and flag

  function StagedOf(lines: seq<Line>, k: LineKind): nat
  {
    if lines == [] then 0
    else (if lines[0].kind == k && lines[0].staged then 1 else 0) + StagedOf(lines[1..], k)
  }

  function UnstagedOf(lines: seq<Line>, k: LineKind): nat
  {
    if lines == [] then 0
    else (if lines[0].kind == k && !lines[0].staged then 1 else 0) + UnstagedOf(lines[1..], k)
  }

  function KindCount(lines: seq<Line>, k: LineKind): nat
  {
    if lines == [] then 0
    else (if lines[0].kind == k then 1 else 0) + KindCount(lines[1..], k)
  }

  /** Some Add or Remove line is staged: the first loop of generateHunkPatch. */
  predicate HasStaged(lines: seq<Line>)
  {
    exists i :: 0 <= i < |lines| && Stageable(lines[i]) && lines[i].staged
  }

  /** Every Add and Remove line is staged. */
  predicate AllStaged(lines: seq<Line>)
  {
    forall i :: 0 <= i < |lines| && Stageable(lines[i]) ==> lines[i].staged
  }

  // ---------------------------------------------------------------------
  // One hunk

  /** An unstaged removal has a marker to replace; the source slices it off
      with Content[1:], which would panic on an empty content. */
  predicate Demotable(lines: seq<Line>)
  {
    forall i :: 0 <= i < |lines| && lines[i].kind == Remove && !lines[i].staged ==> |lines[i].content| > 0
  }

  /** An unstaged removal turned into context: its '-' becomes a space. */
  function Demote(content: string): (r: string)
    requires |content| > 0
    ensures |r| == |content| && r[0] == ' ' && r[1..] == content[1..]
  {
    " " + content[1..]
  }

  /** What the second loop of generateHunkPatch accumulates. */
  datatype Rebuilt = Rebuilt(body: seq<string>, origCount: nat, newCount: nat)

  /** The second loop of generateHunkPatch: the emitted lines and the two
      recounted lengths. */
  function Rebuild(lines: seq<Line>): (r: Rebuilt)
    requires Demotable(lines)
  {
    if lines == [] then Rebuilt([], 0, 0)
    else
      var l := lines[0];
      var rest := Rebuild(lines[1..]);
      match l.kind
      case Context => Rebuilt([l.content] + rest.body, rest.origCount + 1, rest.newCount + 1)
      case Add =>
        if l.staged then Rebuilt([l.content] + rest.body, rest.origCount, rest.newCount + 1)
        else rest
      case Remove =>
        if l.staged then Rebuilt([l.content] + rest.body, rest.origCount + 1, rest.newCount)
        else Rebuilt([Demote(l.content)] + rest.body, rest.origCount + 1, rest.newCount + 1)
  }

  /** Only unstaged additions are dropped; the old side counts every emitted
      line but a staged addition, the new side every one but a staged removal. */
  lemma {:induction false} RebuildCounts(lines: seq<Line>)
    requires Demotable(lines)
    ensures var r := Rebuild(lines);
      && |r.body| + UnstagedOf(lines, Add) == |lines|
      && r.origCount + StagedOf(lines, Add) == |r.body|
      && r.newCount + StagedOf(lines, Remove) == |r.body|
  {
    if lines != [] {
      RebuildCounts(lines[1..]);
    }
  }

  /** A staged line is always emitted, so a hunk with a staged line has a
      non-empty body: the `len(lines) == 0` return is never taken then. */
  lemma {:induction false} StagedLineEmitted(lines: seq<Line>)
    requires Demotable(lines) && HasStaged(lines)
    ensures |Rebuild(lines).body| > 0
  {
    var i :| 0 <= i < |lines| && Stageable(lines[i]) && lines[i].staged;
    UnstagedBelowLength(lines, i);
    RebuildCounts(lines);
  }

  lemma {:induction false} UnstagedBelowLength(lines: seq<Line>, i: int)
    requires 0 <= i < |lines| && !(lines[i].kind == Add && !lines[i].staged)
    ensures UnstagedOf(lines, Add) < |lines|
  {
    if i > 0 {
      UnstagedBelowLength(lines[1..], i - 1);
    } else {
      UnstagedAtMostLength(lines[1..]);
    }
  }

  lemma {:induction false} UnstagedAtMostLength(lines: seq<Line>)
    ensures UnstagedOf(lines, Add) <= |lines|
  {
    if lines != [] {
      UnstagedAtMostLength(lines[1..]);
    }
  }

  /** generateHunkPatch: the recounted header and the emitted lines, each
      followed by a newline; empty when nothing in the hunk is staged. */
  function GenerateHunkPatch(h: Hunk): (r: string)
    requires Demotable(h.lines)
    ensures r == [] <==> !HasStaged(h.lines)
    ensures r != [] ==> r[|r| - 1] == '\n'
  {
    if !HasStaged(h.lines) then []
    else
      var rb := Rebuild(h.lines);
      StagedLineEmitted(h.lines);
      if rb.body == [] then []
      else Unlines(HunkLines(h))
  }

  /** The lines of a hunk patch: the recounted header, then the emitted lines. */
  function HunkLines(h: Hunk): seq<string>
    requires Demotable(h.lines)
  {
    var rb := Rebuild(h.lines);
    [HeaderText(h.origStart, rb.origCount, h.newStart, rb.newCount)] + rb.body
  }

  // ---------------------------------------------------------------------
  // One file

  predicate FileDemotable(f: DiffFile)
  {
    forall i :: 0 <= i < |f.hunks| ==> Demotable(f.hunks[i].lines)
  }

  /** The non-empty hunk patches, in hunk order. */
  function HunkPatches(hs: seq<Hunk>): (r: seq<string>)
    requires forall i :: 0 <= i < |hs| ==> Demotable(hs[i].lines)
  {
    if hs == [] then []
    else
      var p := GenerateHunkPatch(hs[0]);
      var rest := HunkPatches(hs[1..]);
      (if p == [] then [] else [p]) + rest
  }

  /** The list of hunk patches is empty exactly when no hunk has a staged
      line. */
  lemma {:induction false} HunkPatchesEmpty(hs: seq<Hunk>)
    requires forall i :: 0 <= i < |hs| ==> Demotable(hs[i].lines)
    ensures HunkPatches(hs) == [] <==> forall i :: 0 <= i < |hs| ==> !HasStaged(hs[i].lines)
  {
    if hs != [] {
      var tail := hs[1..];
      assert forall i :: 1 <= i < |hs| ==> tail[i - 1] == hs[i];
      HunkPatchesEmpty(tail);
    }
  }

  function Concat(parts: seq<string>): string
  {
    if parts == [] then [] else parts[0] + Concat(parts[1..])
  }

  /** The lines of the two-file header block of a patch. */
  function FileHeaderLines(path: string, status: FileStatus): seq<string>
  {
    ["diff --git a/" + path + " b/" + path]
    + (if status == Untracked then ["new file mode 100644", "--- /dev/null"] else ["--- a/" + path])
    + ["+++ b/" + path]
  }

  /** generatePatch: nothing when no hunk has a staged line, otherwise the
      file header block followed by the non-empty hunk patches. */
  function GeneratePatch(f: DiffFile): (r: string)
    requires FileDemotable(f)
  {
    var patches := HunkPatches(f.hunks);
    if patches == [] then []
    else Unlines(FileHeaderLines(f.path, f.status)) + Concat(patches)
  }

  /** A file's patch is empty exactly when no hunk has a staged line. */
  lemma PatchEmpty(f: DiffFile)
    requires FileDemotable(f)
    ensures GeneratePatch(f) == [] <==> forall i :: 0 <= i < |f.hunks| ==> !HasStaged(f.hunks[i].lines)
  {
    HunkPatchesEmpty(f.hunks);
  }

  // ---------------------------------------------------------------------
  // What a patch reads back as

  /** A hunk the reconstructor can write so that it reads back as intended:
      non-negative start positions and well-formed lines. */
  predicate WellFormedHunk(h: Hunk)
  {
    && h.origStart >= 0 && h.newStart >= 0
    && forall i :: 0 <= i < |h.lines| ==> WellFormedLine(h.lines[i])
  }

  predicate WellFormedFile(f: DiffFile)
  {
    && '\n' !in f.path
    && forall i :: 0 <= i < |f.hunks| ==> WellFormedHunk(f.hunks[i])
  }

  lemma WellFormedDemotable(lines: seq<Line>)
    requires forall i :: 0 <= i < |lines| ==> WellFormedLine(lines[i])
    ensures Demotable(lines)
  {
  }

  lemma WellFormedFileDemotable(f: DiffFile)
    requires WellFormedFile(f)
    ensures FileDemotable(f)
  {
    forall i | 0 <= i < |f.hunks|
      ensures Demotable(f.hunks[i].lines)
    {
      WellFormedDemotable(f.hunks[i].lines);
    }
  }

  /** The hunk a reconstructed hunk patch describes: the original start
      positions, the recounted lengths, and the emitted lines as the parser
      classifies them. */
  function PartialHunk(h: Hunk): Hunk
    requires Demotable(h.lines)
  {
    var rb := Rebuild(h.lines);
    Hunk(h.origStart, rb.origCount, h.newStart, rb.newCount, ClassifyAll(rb.body))
  }

  /** The hunks a reconstructed file patch describes, one per hunk with a
      staged line. */
  function PartialHunks(hs: seq<Hunk>): seq<Hunk>
    requires forall i :: 0 <= i < |hs| ==> Demotable(hs[i].lines)
  {
    if hs == [] then []
    else (if HasStaged(hs[0].lines) then [PartialHunk(hs[0])] else []) + PartialHunks(hs[1..])
  }

  /** The lines of the hunk patches, without their newlines. */
  function PatchLines(hs: seq<Hunk>): seq<string>
    requires forall i :: 0 <= i < |hs| ==> Demotable(hs[i].lines)
  {
    if hs == [] then []
    else (if HasStaged(hs[0].lines) then HunkLines(hs[0]) else []) + PatchLines(hs[1..])
  }

  lemma ClassifyAllCons(x: string, xs: seq<string>)
    ensures ClassifyAll([x] + xs) == [Classify(x)] + ClassifyAll(xs)
  {
  }

  lemma DemotedWellFormed(c: string)
    requires |c| > 0 && '\n' !in c
    ensures WellFormedLine(Classify(Demote(c))) && Classify(Demote(c)).kind == Context
  {
    var d := Demote(c);
    assert forall i :: 1 <= i < |d| ==> d[i] == c[i];
    NoPrefixWhenFirstDiffers(d, "diff --git ");
    NoPrefixWhenFirstDiffers(d, "@@");
    NoPrefixWhenFirstDiffers(d, "\\ No newline");
  }

  /** Read back by the parser, the emitted lines are well formed, and their
      kinds account for the recounted lengths: the old side holds the
      context, the staged removals and the demoted removals; the new side
      holds the context, the staged additions and the demoted removals. */
  lemma {:induction false} RebuildReadsBack(lines: seq<Line>)
    requires forall i :: 0 <= i < |lines| ==> WellFormedLine(lines[i])
    ensures Demotable(lines)
    ensures var rb := Rebuild(lines);
            && (forall i :: 0 <= i < |rb.body| ==> WellFormedLine(Classify(rb.body[i])))
            && OldSideCount(ClassifyAll(rb.body)) == rb.origCount
            && NewSideCount(ClassifyAll(rb.body)) == rb.newCount
            && KindCount(ClassifyAll(rb.body), Add) == StagedOf(lines, Add)
            && KindCount(ClassifyAll(rb.body), Remove) == StagedOf(lines, Remove)
            && KindCount(ClassifyAll(rb.body), Context) == KindCount(lines, Context) + UnstagedOf(lines, Remove)
  {
    WellFormedDemotable(lines);
    if lines != [] {
      var l := lines[0];
      RebuildReadsBack(lines[1..]);
      var rest := Rebuild(lines[1..]);
      var rb := Rebuild(lines);
      if l.kind == Remove && !l.staged {
        DemotedWellFormed(l.content);
      }
      if !(l.kind == Add && !l.staged) {
        var e := rb.body[0];
        assert rb.body == [e] + rest.body;
        ClassifyAllCons(e, rest.body);
        assert ClassifyAll(rb.body)[1..] == ClassifyAll(rest.body);
      }
    }
  }

  /** The hunk a reconstructed patch describes satisfies the header
      invariant of a parsed diff: its recounted lengths are exactly the
      numbers of old-side and new-side lines it emits. */
  lemma PartialHunkConsistent(h: Hunk)
    requires WellFormedHunk(h)
    ensures Demotable(h.lines) && Consistent(PartialHunk(h))
  {
    RebuildReadsBack(h.lines);
  }

  lemma ConcatCons(p: string, ps: seq<string>)
    ensures Concat([p] + ps) == p + Concat(ps)
  {
    assert ([p] + ps)[1..] == ps;
  }

  lemma HunkPatchIsLines(h: Hunk)
    requires Demotable(h.lines) && HasStaged(h.lines)
    ensures GenerateHunkPatch(h) == Unlines(HunkLines(h))
  {
    StagedLineEmitted(h.lines);
  }

  lemma AppendAssoc<T>(a: seq<T>, b: seq<T>, c: seq<T>)
    ensures (a + b) + c == a + (b + c)
  {
  }

  lemma PatchLinesCons(hs: seq<Hunk>)
    requires hs != [] && forall i :: 0 <= i < |hs| ==> Demotable(hs[i].lines)
    ensures PatchLines(hs) == (if HasStaged(hs[0].lines) then HunkLines(hs[0]) else []) + PatchLines(hs[1..])
  {
  }

  lemma HunkPatchesCons(hs: seq<Hunk>)
    requires hs != [] && forall i :: 0 <= i < |hs| ==> Demotable(hs[i].lines)
    ensures HunkPatches(hs) == (if HasStaged(hs[0].lines) then [GenerateHunkPatch(hs[0])] else []) + HunkPatches(hs[1..])
  {
  }

  lemma {:induction false} ConcatPatches(hs: seq<Hunk>)
    requires forall i :: 0 <= i < |hs| ==> Demotable(hs[i].lines)
    ensures Concat(HunkPatches(hs)) == Unlines(PatchLines(hs))
  {
    if hs != [] {
      var tail := hs[1..];
      assert forall i :: 0 <= i < |tail| ==> tail[i] == hs[i + 1];
      ConcatPatches(tail);
      if HasStaged(hs[0].lines) {
        HunkPatchIsLines(hs[0]);
        calc {
          Concat(HunkPatches(hs));
          { HunkPatchesCons(hs); }
          Concat([GenerateHunkPatch(hs[0])] + HunkPatches(tail));
          { ConcatCons(GenerateHunkPatch(hs[0]), HunkPatches(tail)); }
          Unlines(HunkLines(hs[0])) + Unlines(PatchLines(tail));
          { UnlinesAppend(HunkLines(hs[0]), PatchLines(tail)); }
          Unlines(HunkLines(hs[0]) + PatchLines(tail));
          { PatchLinesCons(hs); }
          Unlines(PatchLines(hs));
        }
      } else {
        HunkPatchesCons(hs);
        assert HunkPatches(hs) == HunkPatches(tail);
        PatchLinesCons(hs);
        assert PatchLines(hs) == PatchLines(tail);
      }
    }
  }

  /** Scanning one hunk patch opens a hunk holding exactly the emitted
      lines under the recounted header. */
  lemma ReadBackHunk(st: ParseState, h: Hunk, rest: seq<string>)
    requires WellFormedHunk(h)
    ensures Demotable(h.lines)
    ensures Run(st, HunkLines(h) + rest) == Run(ParseState(Close(st), Some(PartialHunk(h)), false), rest)
  {
    WellFormedDemotable(h.lines);
    var rb := Rebuild(h.lines);
    RebuildReadsBack(h.lines);
    var header := HeaderText(h.origStart, rb.origCount, h.newStart, rb.newCount);
    HeaderIsMarker(h.origStart, rb.origCount, h.newStart, rb.newCount);
    HeaderRoundTrip(h.origStart, rb.origCount, h.newStart, rb.newCount, []);
    assert header + [] == header;
    var started := ParseState(Close(st), Some(Hunk(h.origStart, rb.origCount, h.newStart, rb.newCount, [])), false);
    assert Step(st, header) == started;
    BodyReadsBack(rb.body);
    var blank := Hunk(h.origStart, rb.origCount, h.newStart, rb.newCount, []);
    BodyAppended(Close(st), blank, rb.body);
    assert blank.(lines := blank.lines + BodyOf(rb.body)) == PartialHunk(h) by {
      assert blank.lines + BodyOf(rb.body) == ClassifyAll(rb.body);
    }
    var filled := ParseState(Close(st), Some(PartialHunk(h)), false);
    assert Run(started, rb.body) == filled;
    assert HunkLines(h) == [header] + rb.body;
    AppendAssoc([header], rb.body, rest);
    RunAppend(started, rb.body, rest);
  }

  /** Scanning the lines of the hunk patches opens one hunk per patch, in
      order, each holding exactly the emitted lines under the recounted
      header. */
  lemma {:induction false} ReadBackHunks(st: ParseState, hs: seq<Hunk>)
    requires forall i :: 0 <= i < |hs| ==> WellFormedHunk(hs[i])
    ensures forall i :: 0 <= i < |hs| ==> Demotable(hs[i].lines)
    ensures Close(Run(st, PatchLines(hs))) == Close(st) + PartialHunks(hs)
    decreases |hs|
  {
    HunksDemotable(hs);
    if hs == [] {
      assert Close(st) + [] == Close(st);
    } else {
      var h, tail := hs[0], hs[1..];
      HunksTail(hs);
      PatchLinesCons(hs);
      PartialHunksCons(hs);
      if HasStaged(h.lines) {
        ReadBackHunk(st, h, PatchLines(tail));
        var filled := ParseState(Close(st), Some(PartialHunk(h)), false);
        ReadBackHunks(filled, tail);
        assert Close(filled) == Close(st) + [PartialHunk(h)];
        AppendAssoc(Close(st), [PartialHunk(h)], PartialHunks(tail));
      } else {
        assert PatchLines(hs) == PatchLines(tail);
        assert PartialHunks(hs) == PartialHunks(tail);
        ReadBackHunks(st, tail);
      }
    }
  }

  lemma HunksDemotable(hs: seq<Hunk>)
    requires forall i :: 0 <= i < |hs| ==> WellFormedHunk(hs[i])
    ensures forall i :: 0 <= i < |hs| ==> Demotable(hs[i].lines)
  {
    forall i | 0 <= i < |hs| ensures Demotable(hs[i].lines) {
      WellFormedDemotable(hs[i].lines);
    }
  }

  lemma HunksTail(hs: seq<Hunk>)
    requires hs != [] && forall i :: 0 <= i < |hs| ==> WellFormedHunk(hs[i])
    ensures WellFormedHunk(hs[0])
    ensures forall i :: 0 <= i < |hs[1..]| ==> WellFormedHunk(hs[1..][i])
  {
    assert forall i :: 0 <= i < |hs[1..]| ==> hs[1..][i] == hs[i + 1];
  }

  lemma PartialHunksCons(hs: seq<Hunk>)
    requires hs != [] && forall i :: 0 <= i < |hs| ==> Demotable(hs[i].lines)
    ensures PartialHunks(hs) == (if HasStaged(hs[0].lines) then [PartialHunk(hs[0])] else []) + PartialHunks(hs[1..])
  {
  }

  lemma HeaderIsMarker(origStart: int, origCount: int, newStart: int, newCount: int)
    ensures var t := HeaderText(origStart, origCount, newStart, newCount);
            IsHunkMarker(t) && !IsFileMarker(t) && '\n' !in t
  {
    NoNewlineInNumber(origStart);
    NoNewlineInNumber(origCount);
    NoNewlineInNumber(newStart);
    NoNewlineInNumber(newCount);
    MarkerShape(IntToString(origStart), IntToString(origCount), IntToString(newStart), IntToString(newCount));
  }

  /** Any text laid out like a hunk header starts with "@@", not with
      "diff --git ", and is one line when its four numbers are. */
  lemma MarkerShape(a: string, b: string, c: string, d: string)
    requires '\n' !in a && '\n' !in b && '\n' !in c && '\n' !in d
    ensures var t := "@@ -" + a + "," + b + " +" + c + "," + d + " @@";
            IsHunkMarker(t) && !IsFileMarker(t) && '\n' !in t
  {
    var t := "@@ -" + a + "," + b + " +" + c + "," + d + " @@";
    assert t[0] == '@' && t[1] == '@';
    assert t[..2] == "@@";
    NoPrefixWhenFirstDiffers(t, "diff --git ");
  }

  lemma NoNewlineInNumber(i: int)
    ensures '\n' !in IntToString(i)
  {
    var s := IntToString(i);
    if i >= 0 {
      assert forall k :: 0 <= k < |s| ==> IsDigit(s[k]);
    } else {
      var n := NatToString(-i);
      assert forall k :: 0 <= k < |n| ==> IsDigit(n[k]);
      assert forall k :: 1 <= k < |s| ==> s[k] == n[k - 1];
    }
  }

  lemma {:induction false} BodyReadsBack(body: seq<string>)
    requires forall i :: 0 <= i < |body| ==> WellFormedLine(Classify(body[i]))
    ensures forall i :: 0 <= i < |body| ==> !IsFileMarker(body[i]) && !IsHunkMarker(body[i])
    ensures BodyOf(body) == ClassifyAll(body)
  {
    if body != [] {
      assert forall i :: 0 <= i < |body[1..]| ==> body[1..][i] == body[i + 1];
      BodyReadsBack(body[1..]);
      ClassifyAllCons(body[0], body[1..]);
      assert body == [body[0]] + body[1..];
    }
  }

  // ---------------------------------------------------------------------
  // The whole file patch

  /** The patch text is the file header block and then the hunk patch
      lines, each terminated by a newline. */
  lemma PatchStructure(f: DiffFile)
    requires WellFormedFile(f)
    ensures FileDemotable(f)
    ensures GeneratePatch(f) != [] ==>
              ScannedLines(GeneratePatch(f)) == FileHeaderLines(f.path, f.status) + PatchLines(f.hunks)
  {
    HunksDemotable(f.hunks);
    if GeneratePatch(f) != [] {
      var fh, pl := FileHeaderLines(f.path, f.status), PatchLines(f.hunks);
      ConcatPatches(f.hunks);
      UnlinesAppend(fh, pl);
      FileHeaderShape(f.path, f.status);
      PatchLinesNoNewline(f.hunks);
      ScannedUnlines(fh + pl);
    }
  }

  /** A non-empty patch is the file header block and the hunk patch lines,
      each followed by a newline. */
  lemma PatchText(f: DiffFile)
    requires FileDemotable(f)
    ensures GeneratePatch(f) != [] ==>
              GeneratePatch(f) == Unlines(FileHeaderLines(f.path, f.status) + PatchLines(f.hunks))
  {
    if GeneratePatch(f) != [] {
      ConcatPatches(f.hunks);
      UnlinesAppend(FileHeaderLines(f.path, f.status), PatchLines(f.hunks));
    }
  }

  /** The file header block opens a file and holds no hunk marker. */
  lemma FileHeaderShape(path: string, status: FileStatus)
    requires '\n' !in path
    ensures var fh := FileHeaderLines(path, status);
            && |fh| >= 2 && IsFileMarker(fh[0])
            && (forall i :: 1 <= i < |fh| ==> !IsHunkMarker(fh[i]))
            && (forall i :: 0 <= i < |fh| ==> '\n' !in fh[i])
  {
    var fh := FileHeaderLines(path, status);
    PrefixOfAppend("diff --git ", "a/" + path + " b/" + path);
    assert fh[0] == "diff --git " + ("a/" + path + " b/" + path);
    forall i | 1 <= i < |fh| ensures !IsHunkMarker(fh[i]) {
      NoPrefixWhenFirstDiffers(fh[i], "@@");
    }
  }

  lemma {:induction false} PatchLinesNoNewline(hs: seq<Hunk>)
    requires forall i :: 0 <= i < |hs| ==> WellFormedHunk(hs[i])
    ensures forall i :: 0 <= i < |hs| ==> Demotable(hs[i].lines)
    ensures forall i :: 0 <= i < |PatchLines(hs)| ==> '\n' !in PatchLines(hs)[i]
    decreases |hs|
  {
    HunksDemotable(hs);
    if hs != [] {
      var h, tail := hs[0], hs[1..];
      HunksTail(hs);
      PatchLinesCons(hs);
      PatchLinesNoNewline(tail);
      if HasStaged(h.lines) {
        var rb := Rebuild(h.lines);
        RebuildReadsBack(h.lines);
        HeaderIsMarker(h.origStart, rb.origCount, h.newStart, rb.newCount);
        assert forall i :: 0 <= i < |HunkLines(h)| ==> '\n' !in HunkLines(h)[i];
      }
    }
  }

  lemma {:induction false} PartialHunksNone(hs: seq<Hunk>)
    requires forall i :: 0 <= i < |hs| ==> Demotable(hs[i].lines)
    requires forall i :: 0 <= i < |hs| ==> !HasStaged(hs[i].lines)
    ensures PartialHunks(hs) == []
  {
    if hs != [] {
      assert forall i :: 0 <= i < |hs[1..]| ==> hs[1..][i] == hs[i + 1];
      PartialHunksNone(hs[1..]);
    }
  }

  /** Parsing the generated patch gives back, for every hunk with a staged
      line, the hunk that holds exactly what would be applied to the index:
      staged lines kept, unstaged additions dropped, unstaged removals
      turned into context, under a header recounted from those lines. */
  lemma PatchRoundTrip(f: DiffFile)
    requires WellFormedFile(f)
    ensures FileDemotable(f)
    ensures ParseDiff(GeneratePatch(f)) == PartialHunks(f.hunks)
  {
    PatchStructure(f);
    if GeneratePatch(f) == [] {
      assert Split("", '\n') == [""];
      assert ScannedLines("") == [];
      PatchEmpty(f);
      PartialHunksNone(f.hunks);
    } else {
      var fh, pl := FileHeaderLines(f.path, f.status), PatchLines(f.hunks);
      FileHeaderShape(f.path, f.status);
      assert fh == [fh[0]] + fh[1..];
      FileHeaderDiscarded(Start, fh[0], fh[1..]);
      RunAppend(Start, fh, pl);
      var st := ParseState([], None, true);
      ReadBackHunks(st, f.hunks);
      assert Close(st) + PartialHunks(f.hunks) == PartialHunks(f.hunks);
    }
  }

  // ---------------------------------------------------------------------
  // Fully staged hunks

  /** With every change staged nothing is dropped or demoted: the emitted
      lines are the hunk's own lines and the recounted lengths are the old
      and new side lengths of the hunk. */
  lemma {:induction false} AllStagedRebuild(lines: seq<Line>)
    requires AllStaged(lines)
    ensures Demotable(lines)
    ensures Rebuild(lines).body == Contents(lines)
    ensures Rebuild(lines).origCount == OldSideCount(lines)
    ensures Rebuild(lines).newCount == NewSideCount(lines)
  {
    if lines != [] {
      var tail := lines[1..];
      AllStagedTail(lines);
      AllStagedRebuild(tail);
      ContentsCons(lines);
    }
  }

  lemma AllStagedTail(lines: seq<Line>)
    requires lines != [] && AllStaged(lines)
    ensures AllStaged(lines[1..])
  {
    var tail := lines[1..];
    assert forall i :: 0 <= i < |tail| ==> tail[i] == lines[i + 1];
  }

  /** A fully staged hunk whose header agrees with its lines is written out
      under its own header. */
  lemma AllStagedKeepsHeader(h: Hunk)
    requires AllStaged(h.lines) && Consistent(h)
    ensures Demotable(h.lines)
    ensures HunkLines(h) == [HeaderText(h.origStart, h.origCount, h.newStart, h.newCount)] + Contents(h.lines)
  {
    AllStagedRebuild(h.lines);
  }
}
