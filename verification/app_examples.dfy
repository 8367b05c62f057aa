/** The selection state machine on the two-file state its unit tests build:
    a modified file with hunks of four and two lines, and an untracked file
    with one hunk of two additions. */
module AppExamples {
  import opened Text
  import opened Types
  import opened App

  function TestFiles(): seq<DiffFile>
  {
    [ DiffFile("file1.go", Modified,
        [ Hunk(1, 3, 1, 4, [Line(" context", Context, false), Line("+added1", Add, false),
                            Line("-removed1", Remove, false), Line(" context2", Context, false)]),
          Hunk(20, 2, 21, 3, [Line(" ctx", Context, false), Line("+added2", Add, false)]) ],
        false),
      DiffFile("file2.txt", Untracked,
        [ Hunk(0, 0, 1, 2, [Line("+line1", Add, false), Line("+line2", Add, false)]) ],
        false) ]
  }

  /** Header, four lines, header, two lines. */
  function FirstDisplay(): seq<Row>
  {
    [HeaderRow(0), LineRow(0, 0), LineRow(0, 1), LineRow(0, 2), LineRow(0, 3),
     HeaderRow(1), LineRow(1, 0), LineRow(1, 1)]
  }

  lemma FirstDisplayBuilt()
    ensures BuildDisplay(TestFiles(), 0) == FirstDisplay()
  {
    var hs := TestFiles()[0].hunks;
    assert HunkRows(hs, 0) == [HeaderRow(0), LineRow(0, 0), LineRow(0, 1), LineRow(0, 2), LineRow(0, 3)];
    assert HunkRows(hs, 1) == [HeaderRow(1), LineRow(1, 0), LineRow(1, 1)];
    assert RowsUpTo(hs, 1) == [] + HunkRows(hs, 0);
    assert RowsUpTo(hs, 2) == RowsUpTo(hs, 1) + HunkRows(hs, 1);
  }

  /** The state the tests start from: display built, cursor on the first
      Add/Remove row, no scrolling. */
  function TestState(): AppState
  {
    var s := BuildDisplayLines(AppState(TestFiles(), 0, 0, 0, [], 80, 24));
    s.(lineIdx := FirstStageableLine(s))
  }

  lemma TestStateExample()
    ensures TestState().display == FirstDisplay()
    ensures TestState().lineIdx == 2
  {
    FirstDisplayBuilt();
    var s := BuildDisplayLines(AppState(TestFiles(), 0, 0, 0, [], 80, 24));
    assert !IsStageableRow(s, 0) && !IsStageableRow(s, 1) && IsStageableRow(s, 2);
    assert NextStageable(s, 0) == Some(2);
  }

  lemma TestStateBuilt()
    ensures Built(TestState()) && Resolves(TestState())
  {
    FirstDisplayBuilt();
    TestStateExample();
  }

  /** The second row shows the first line of the first hunk. */
  lemma SecondRowExample()
    ensures TestState().display[0].HeaderRow?
    ensures LineAt(TestState(), 1).content == " context"
  {
    TestStateBuilt();
    TestStateExample();
  }

  /** Down from the context line to the addition, then to the removal. */
  lemma MoveDownExample()
    ensures var s := TestState().(lineIdx := 1);
            MoveDown(s).lineIdx == 2 && MoveDown(MoveDown(s)).lineIdx == 3
  {
    TestStateExample();
    var s := TestState().(lineIdx := 1);
    assert s.display[2].LineRow?;
    var s2 := MoveDown(s);
    assert s2.display == s.display;
    assert s2.display[3].LineRow?;
  }

  /** Down from the last line of the first hunk skips the second header. */
  lemma MoveDownSkipsHeaderExample()
    ensures MoveDown(TestState().(lineIdx := 4)).lineIdx == 6
  {
    TestStateExample();
    var s := TestState().(lineIdx := 4);
    assert s.display[6].LineRow? && s.display[5].HeaderRow?;
  }

  /** Up from the removal to the addition, then to the context line. */
  lemma MoveUpExample()
    ensures var s := TestState().(lineIdx := 3);
            MoveUp(s).lineIdx == 2 && MoveUp(MoveUp(s)).lineIdx == 1
  {
    TestStateExample();
    var s := TestState().(lineIdx := 3);
    assert s.display[2].LineRow?;
    var s2 := MoveUp(s);
    assert s2.display == s.display;
    assert s2.display[1].LineRow?;
  }

  /** Tab on "+added1" stages it, marks file1.go touched and moves on to
      "-removed1". */
  lemma ToggleLineExample()
    ensures var r := ToggleLine(TestState());
            && r.files[0].hunks[0].lines[1].staged
            && r.files[0].touched
            && r.lineIdx == 3
  {
    CursorOnAddition();
    ToggleLineAdvance(TestState());
  }

  /** The cursor starts on "+added1", the first line of the first hunk's
      rows that can be staged, and "-removed1" follows it. */
  lemma CursorOnAddition()
    ensures Resolves(TestState()) && TestState().lineIdx == 2 && TestState().fileIdx == 0
    ensures IsStageableRow(TestState(), 2) && IsStageableRow(TestState(), 3)
    ensures TestState().display[2] == LineRow(0, 1) && !LineAt(TestState(), 2).staged
  {
    TestStateBuilt();
    TestStateExample();
    TestStateFiles();
    FirstHunkChanges();
    var s := TestState();
    assert s.display[2] == LineRow(0, 1) && s.display[3] == LineRow(0, 2);
  }

  lemma FirstHunkChanges()
    ensures TestFiles()[0].hunks[0].lines[1] == Line("+added1", Add, false)
    ensures TestFiles()[0].hunks[0].lines[2] == Line("-removed1", Remove, false)
  {
  }

  /** Tab on a context line does nothing, so the file stays untouched. */
  lemma ToggleContextExample()
    ensures var r := ToggleLine(TestState().(lineIdx := 1));
            !r.files[0].touched
  {
    TestStateBuilt();
    TestStateExample();
    var s := TestState().(lineIdx := 1);
    assert !IsStageableRow(s, 1);
  }

  /** Shift-Tab in the first hunk stages its addition and removal. */
  lemma ToggleHunkExample()
    ensures var r := ToggleHunk(TestState());
            r.files[0].hunks[0].lines[1].staged && r.files[0].hunks[0].lines[2].staged
  {
    CursorInFirstHunk();
    FirstHunkUnstaged();
    var s := TestState();
    var h := TestFiles()[0].hunks[0];
    ToggleHunkMeaning(s);
    assert ToggleHunk(s).files[0].hunks[0].lines == StageAll(h.lines, true);
  }

  lemma CursorInFirstHunk()
    ensures Built(TestState()) && TestState().lineIdx < |TestState().display|
    ensures TestState().fileIdx == 0 && TestState().display[TestState().lineIdx].hunkIdx == 0
  {
    TestStateBuilt();
    TestStateExample();
  }

  lemma FirstHunkUnstaged()
    ensures var lines := TestFiles()[0].hunks[0].lines;
            Stageable(lines[1]) && Stageable(lines[2]) && SomeUnstaged(lines)
  {
    var lines := TestFiles()[0].hunks[0].lines;
    assert Stageable(lines[1]) && !lines[1].staged;
  }

  /** A second Shift-Tab unstages them again. */
  lemma ToggleHunkTwiceExample()
    ensures ToggleHunk(ToggleHunk(TestState())).files[0].hunks[0].lines == TestFiles()[0].hunks[0].lines
  {
    CursorInFirstHunk();
    TestStateFiles();
    FirstHunkNoneStaged();
    var s := TestState();
    ToggleHunkTwice(s);
    assert Touch(s.files, 0)[0].hunks == TestFiles()[0].hunks;
  }

  lemma TestStateFiles()
    ensures TestState().files == TestFiles() && TestState().fileIdx == 0
  {
  }

  lemma FirstHunkNoneStaged()
    ensures var lines := TestFiles()[0].hunks[0].lines;
            forall li :: 0 <= li < |lines| && Stageable(lines[li]) ==> !lines[li].staged
  {
  }

  /** Ctrl-J shows file2.txt: one header and two lines. */
  lemma NextFileExample()
    ensures NextFile(TestState()).fileIdx == 1
    ensures |NextFile(TestState()).display| == 3
  {
    var hs := TestFiles()[1].hunks;
    assert HunkRows(hs, 0) == [HeaderRow(0), LineRow(0, 0), LineRow(0, 1)];
    assert RowsUpTo(hs, 1) == [] + HunkRows(hs, 0);
  }

  /** Ctrl-K from file2.txt goes back to file1.go. */
  lemma PrevFileExample()
    ensures PrevFile(BuildDisplayLines(TestState().(fileIdx := 1))).fileIdx == 0
  {
  }
}
