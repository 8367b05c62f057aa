/** The patch reconstructor on the hunks its unit tests use: the exact
    patch lines, with the recounted headers those tests look for. */
module PatchExamples {
  import opened Text
  import opened Types
  import opened Diff
  import opened Patch

  lemma SmallNumbers()
    ensures IntToString(0) == "0" && IntToString(1) == "1" && IntToString(2) == "2"
    ensures IntToString(3) == "3" && IntToString(4) == "4" && IntToString(5) == "5"
  {
    assert DigitChar(0) == '0' && DigitChar(1) == '1' && DigitChar(2) == '2';
    assert DigitChar(3) == '3' && DigitChar(4) == '4' && DigitChar(5) == '5';
  }

  lemma JoinThreeFive<T>(a: T, b: T, c: T, d: T, e: T, f: T, g: T, h: T)
    ensures [a, b, c] + [d, e, f, g, h] == [a, b, c, d, e, f, g, h]
  {
  }

  lemma AppendNothing<T>(s: seq<T>)
    ensures s + [] == s
  {
  }

  lemma JoinOneFour<T>(a: T, b: T, c: T, d: T, e: T)
    ensures [a] + [b, c, d, e] == [a, b, c, d, e]
  {
  }

  lemma JoinOneFive<T>(a: T, b: T, c: T, d: T, e: T, f: T)
    ensures [a] + [b, c, d, e, f] == [a, b, c, d, e, f]
  {
  }

  lemma JoinOneTwo<T>(a: T, b: T, c: T)
    ensures [a] + [b, c] == [a, b, c]
  {
  }

  lemma JoinFourThree<T>(a: T, b: T, c: T, d: T, e: T, f: T, g: T)
    ensures [a, b, c, d] + [e, f, g] == [a, b, c, d, e, f, g]
  {
  }

  /** A file with one hunk that has a staged line is patched as its header
      block followed by that hunk's patch lines. */
  lemma SingleHunkPatch(f: DiffFile)
    requires |f.hunks| == 1 && Demotable(f.hunks[0].lines) && HasStaged(f.hunks[0].lines)
    ensures FileDemotable(f)
    ensures GeneratePatch(f) == Unlines(FileHeaderLines(f.path, f.status) + HunkLines(f.hunks[0]))
  {
    PatchEmpty(f);
    assert !(forall i :: 0 <= i < |f.hunks| ==> !HasStaged(f.hunks[i].lines)) by {
      assert HasStaged(f.hunks[0].lines);
    }
    PatchText(f);
    PatchLinesSingle(f.hunks);
  }

  /** The patch lines of a hunk whose rebuild and header text are known. */
  lemma HunkLinesOf(h: Hunk, header: string, rb: Rebuilt)
    requires Demotable(h.lines) && Rebuild(h.lines) == rb
    requires HeaderText(h.origStart, rb.origCount, h.newStart, rb.newCount) == header
    ensures HunkLines(h) == [header] + rb.body
  {
  }

  lemma StagedAt(lines: seq<Line>, i: nat)
    requires i < |lines| && Stageable(lines[i]) && lines[i].staged
    ensures HasStaged(lines)
  {
  }

  lemma PatchLinesSingle(hs: seq<Hunk>)
    requires |hs| == 1 && Demotable(hs[0].lines) && HasStaged(hs[0].lines)
    ensures PatchLines(hs) == HunkLines(hs[0])
  {
    PatchLinesCons(hs);
    assert PatchLines(hs[1..]) == [] by {
      assert hs[1..] == [];
    }
    AppendNothing(HunkLines(hs[0]));
  }

  lemma TestGoHeader()
    ensures FileHeaderLines("test.go", Modified) == ["diff --git a/test.go b/test.go", "--- a/test.go", "+++ b/test.go"]
  {
    TestGoDiffLine();
    TestGoOldLine();
    TestGoNewLine();
  }

  lemma TestGoDiffLine()
    ensures "diff --git a/" + "test.go" + " b/" + "test.go" == "diff --git a/test.go b/test.go"
  {
  }

  lemma TestGoOldLine()
    ensures "--- a/" + "test.go" == "--- a/test.go"
  {
  }

  lemma TestGoNewLine()
    ensures "+++ b/" + "test.go" == "+++ b/test.go"
  {
  }

  function AllStagedHunk(): Hunk
  {
    Hunk(1, 3, 1, 4, [Line(" context", Context, false), Line("+added", Add, true),
                      Line("-removed", Remove, true), Line(" context2", Context, false)])
  }

  /** The staged removal and the context line after it. */
  lemma AllStagedTail()
    ensures Rebuild([Line("-removed", Remove, true), Line(" context2", Context, false)])
         == Rebuilt(["-removed", " context2"], 2, 1)
  {
  }

  lemma AllStagedRebuilt()
    ensures Demotable(AllStagedHunk().lines)
    ensures Rebuild(AllStagedHunk().lines) == Rebuilt([" context", "+added", "-removed", " context2"], 3, 3)
  {
    var ls := AllStagedHunk().lines;
    AllStagedTail();
    assert ls[2..] == [Line("-removed", Remove, true), Line(" context2", Context, false)];
  }

  lemma AllStagedHeader()
    ensures HeaderText(1, 3, 1, 3) == "@@ -1,3 +1,3 @@"
  {
    SmallNumbers();
  }

  lemma AllStagedHunkLines()
    ensures Demotable(AllStagedHunk().lines) && HasStaged(AllStagedHunk().lines)
    ensures HunkLines(AllStagedHunk()) == ["@@ -1,3 +1,3 @@", " context", "+added", "-removed", " context2"]
  {
    var h := AllStagedHunk();
    StagedAt(h.lines, 1);
    AllStagedRebuilt();
    AllStagedHeader();
    HunkLinesOf(h, "@@ -1,3 +1,3 @@", Rebuilt([" context", "+added", "-removed", " context2"], 3, 3));
    JoinOneFour("@@ -1,3 +1,3 @@", " context", "+added", "-removed", " context2");
  }

  /** Everything staged: the context lines count on both sides, the addition
      on the new side, the removal on the old side. */
  lemma AllStagedExample()
    ensures var f := DiffFile("test.go", Modified, [AllStagedHunk()], false);
            && FileDemotable(f)
            && GeneratePatch(f) == Unlines(["diff --git a/test.go b/test.go", "--- a/test.go", "+++ b/test.go",
                                            "@@ -1,3 +1,3 @@", " context", "+added", "-removed", " context2"])
  {
    AllStagedHunkLines();
    TestGoHeader();
    SingleHunkPatch(DiffFile("test.go", Modified, [AllStagedHunk()], false));
    JoinThreeFive("diff --git a/test.go b/test.go", "--- a/test.go", "+++ b/test.go",
                  "@@ -1,3 +1,3 @@", " context", "+added", "-removed", " context2");
  }

  function PartialHunk1(): Hunk
  {
    Hunk(1, 4, 1, 5, [Line(" context", Context, false), Line("+added1", Add, true),
                      Line("+added2", Add, false), Line("-removed1", Remove, true),
                      Line("-removed2", Remove, false), Line(" context2", Context, false)])
  }

  /** The last two lines: the unstaged removal is demoted. */
  lemma PartialTail()
    ensures Rebuild([Line("-removed2", Remove, false), Line(" context2", Context, false)])
         == Rebuilt([" removed2", " context2"], 2, 2)
  {
    assert Demote("-removed2") == " removed2";
  }

  /** The staged removal is kept and the unstaged addition dropped. */
  lemma PartialMiddle()
    ensures Rebuild([Line("+added2", Add, false), Line("-removed1", Remove, true),
                     Line("-removed2", Remove, false), Line(" context2", Context, false)])
         == Rebuilt(["-removed1", " removed2", " context2"], 3, 2)
  {
    var ls := [Line("+added2", Add, false), Line("-removed1", Remove, true),
               Line("-removed2", Remove, false), Line(" context2", Context, false)];
    PartialTail();
    assert ls[2..] == [Line("-removed2", Remove, false), Line(" context2", Context, false)];
  }

  lemma PartialRebuild()
    ensures Demotable(PartialHunk1().lines)
    ensures Rebuild(PartialHunk1().lines) == Rebuilt([" context", "+added1", "-removed1", " removed2", " context2"], 4, 4)
  {
    var ls := PartialHunk1().lines;
    PartialMiddle();
    assert ls[2..] == [Line("+added2", Add, false), Line("-removed1", Remove, true),
                       Line("-removed2", Remove, false), Line(" context2", Context, false)];
  }

  lemma PartialHeader()
    ensures HeaderText(1, 4, 1, 4) == "@@ -1,4 +1,4 @@"
  {
    SmallNumbers();
  }

  /** Partial staging: the unstaged addition disappears, the unstaged
      removal becomes the context line " removed2", and both lengths are 4. */
  lemma PartialStagingExample()
    ensures Demotable(PartialHunk1().lines) && HasStaged(PartialHunk1().lines)
    ensures HunkLines(PartialHunk1())
         == ["@@ -1,4 +1,4 @@", " context", "+added1", "-removed1", " removed2", " context2"]
  {
    var h := PartialHunk1();
    StagedAt(h.lines, 1);
    PartialRebuild();
    PartialHeader();
    HunkLinesOf(h, "@@ -1,4 +1,4 @@", Rebuilt([" context", "+added1", "-removed1", " removed2", " context2"], 4, 4));
    JoinOneFive("@@ -1,4 +1,4 @@", " context", "+added1", "-removed1", " removed2", " context2");
  }

  /** Nothing staged: no patch at all. */
  lemma NothingStagedExample()
    ensures var f := DiffFile("test.go", Modified,
              [Hunk(1, 2, 1, 3, [Line(" context", Context, false), Line("+added", Add, false)])], false);
            FileDemotable(f) && GeneratePatch(f) == []
  {
    var f := DiffFile("test.go", Modified,
              [Hunk(1, 2, 1, 3, [Line(" context", Context, false), Line("+added", Add, false)])], false);
    NothingStagedLines();
    PatchEmpty(f);
  }

  lemma NothingStagedLines()
    ensures var ls := [Line(" context", Context, false), Line("+added", Add, false)];
            Demotable(ls) && !HasStaged(ls)
  {
  }

  function UntrackedHunk(): Hunk
  {
    Hunk(0, 0, 1, 3, [Line("+line1", Add, true), Line("+line2", Add, true), Line("+line3", Add, false)])
  }

  lemma NewFileHeader()
    ensures FileHeaderLines("newfile.txt", Untracked)
         == ["diff --git a/newfile.txt b/newfile.txt", "new file mode 100644", "--- /dev/null", "+++ b/newfile.txt"]
  {
    NewFileDiffLine();
    NewFileNewLine();
  }

  lemma NewFileDiffLine()
    ensures "diff --git a/" + "newfile.txt" + " b/" + "newfile.txt" == "diff --git a/newfile.txt b/newfile.txt"
  {
  }

  lemma NewFileNewLine()
    ensures "+++ b/" + "newfile.txt" == "+++ b/newfile.txt"
  {
  }

  lemma UntrackedRebuilt()
    ensures Demotable(UntrackedHunk().lines)
    ensures Rebuild(UntrackedHunk().lines) == Rebuilt(["+line1", "+line2"], 0, 2)
  {
    var ls := UntrackedHunk().lines;
    assert ls[1..][1..] == [Line("+line3", Add, false)];
  }

  lemma UntrackedHeader()
    ensures HeaderText(0, 0, 1, 2) == "@@ -0,0 +1,2 @@"
  {
    SmallNumbers();
  }

  lemma UntrackedHunkLines()
    ensures Demotable(UntrackedHunk().lines) && HasStaged(UntrackedHunk().lines)
    ensures HunkLines(UntrackedHunk()) == ["@@ -0,0 +1,2 @@", "+line1", "+line2"]
  {
    var h := UntrackedHunk();
    StagedAt(h.lines, 0);
    UntrackedRebuilt();
    UntrackedHeader();
    HunkLinesOf(h, "@@ -0,0 +1,2 @@", Rebuilt(["+line1", "+line2"], 0, 2));
    JoinOneTwo("@@ -0,0 +1,2 @@", "+line1", "+line2");
  }

  /** An untracked file: the new-file header block, and only the staged
      additions under a header with an empty old side. */
  lemma UntrackedExample()
    ensures var f := DiffFile("newfile.txt", Untracked, [UntrackedHunk()], false);
            && FileDemotable(f)
            && GeneratePatch(f) == Unlines(["diff --git a/newfile.txt b/newfile.txt", "new file mode 100644",
                                            "--- /dev/null", "+++ b/newfile.txt", "@@ -0,0 +1,2 @@", "+line1", "+line2"])
  {
    UntrackedHunkLines();
    NewFileHeader();
    SingleHunkPatch(DiffFile("newfile.txt", Untracked, [UntrackedHunk()], false));
    JoinFourThree("diff --git a/newfile.txt b/newfile.txt", "new file mode 100644",
                  "--- /dev/null", "+++ b/newfile.txt", "@@ -0,0 +1,2 @@", "+line1", "+line2");
  }

  function CountingHunk(): Hunk
  {
    Hunk(5, 4, 5, 6, [Line(" ctx1", Context, false), Line("+add1", Add, true), Line("+add2", Add, true),
                      Line("-rem1", Remove, false), Line(" ctx2", Context, false), Line("+add3", Add, false)])
  }

  /** The last three lines: a demoted removal, a context line and a dropped
      addition. */
  lemma CountingTail()
    ensures Rebuild([Line("-rem1", Remove, false), Line(" ctx2", Context, false), Line("+add3", Add, false)])
         == Rebuilt([" rem1", " ctx2"], 2, 2)
  {
    var ls := [Line("-rem1", Remove, false), Line(" ctx2", Context, false), Line("+add3", Add, false)];
    assert Demote("-rem1") == " rem1";
    assert Rebuild(ls[2..]) == Rebuilt([], 0, 0);
  }

  lemma CountingRebuild()
    ensures Demotable(CountingHunk().lines)
    ensures Rebuild(CountingHunk().lines) == Rebuilt([" ctx1", "+add1", "+add2", " rem1", " ctx2"], 3, 5)
  {
    var ls := CountingHunk().lines;
    CountingTail();
    assert ls[3..] == [Line("-rem1", Remove, false), Line(" ctx2", Context, false), Line("+add3", Add, false)];
    assert Rebuild(ls[2..]) == Rebuilt(["+add2", " rem1", " ctx2"], 2, 3);
  }

  lemma CountingHeader()
    ensures HeaderText(5, 3, 5, 5) == "@@ -5,3 +5,5 @@"
  {
    SmallNumbers();
  }

  /** The recounted lengths: three old-side lines and five new-side lines. */
  lemma LineCountExample()
    ensures Demotable(CountingHunk().lines) && HasStaged(CountingHunk().lines)
    ensures HunkLines(CountingHunk()) == ["@@ -5,3 +5,5 @@", " ctx1", "+add1", "+add2", " rem1", " ctx2"]
  {
    var h := CountingHunk();
    StagedAt(h.lines, 1);
    CountingRebuild();
    CountingHeader();
    HunkLinesOf(h, "@@ -5,3 +5,5 @@", Rebuilt([" ctx1", "+add1", "+add2", " rem1", " ctx2"], 3, 5));
    JoinOneFive("@@ -5,3 +5,5 @@", " ctx1", "+add1", "+add2", " rem1", " ctx2");
  }
}
