/** The selection state machine (gitstage/app.go): the current file's hunks
    flattened into display rows, a cursor that only rests on diff lines, a
    scroll offset that keeps the cursor visible, single-line and whole-hunk
    toggles, and switching between files. */
module App {
  import opened Text
  import opened Types
  import opened Diff

  // ---------------------------------------------------------------------
  // State

  /** A display row: the header of hunk `hunkIdx`, or the `lineIdx`-th line
      of that hunk of the current file (the row's pointer into the file, as a
      path). A header row's text is HunkTitle of the hunk it names. */
  datatype Row = HeaderRow(hunkIdx: nat) | LineRow(hunkIdx: nat, lineIdx: nat)

  datatype AppState = AppState(
    files: seq<DiffFile>,
    fileIdx: nat,
    lineIdx: nat,
    scroll: nat,
    display: seq<Row>,
    width: int,
    height: int)

  /** A row names a hunk of `hs`, and a line of that hunk if it is a line row. */
  predicate RowOk(hs: seq<Hunk>, row: Row)
  {
    row.hunkIdx < |hs| && (row.LineRow? ==> row.lineIdx < |hs[row.hunkIdx].lines|)
  }

  /** Every display row points into the current file, as the rows' pointers
      always do. */
  predicate Resolves(s: AppState)
  {
    && (|s.display| > 0 ==> s.fileIdx < |s.files|)
    && forall k :: 0 <= k < |s.display| ==> RowOk(s.files[s.fileIdx].hunks, s.display[k])
  }

  /** The line a line row points to. */
  function LineAt(s: AppState, k: nat): Line
    requires Resolves(s) && k < |s.display| && s.display[k].LineRow?
  {
    s.files[s.fileIdx].hunks[s.display[k].hunkIdx].lines[s.display[k].lineIdx]
  }

  predicate IsStageableRow(s: AppState, k: nat)
    requires Resolves(s)
  {
    k < |s.display| && s.display[k].LineRow? && Stageable(LineAt(s, k))
  }

  // ---------------------------------------------------------------------
  // The display list (buildDisplayLines)

  /** The header text shown for a hunk. */
  function HunkTitle(h: Hunk): string
  {
    HeaderText(h.origStart, h.origCount, h.newStart, h.newCount)
  }

  /** The rows of one hunk: its header, then one row per line. */
  function HunkRows(hs: seq<Hunk>, hi: nat): (r: seq<Row>)
    requires hi < |hs|
    ensures |r| == 1 + |hs[hi].lines|
    ensures r[0] == HeaderRow(hi)
    ensures forall li :: 0 <= li < |hs[hi].lines| ==> r[1 + li] == LineRow(hi, li)
    ensures forall k :: 0 <= k < |r| ==> RowOk(hs, r[k]) && r[k].hunkIdx == hi
  {
    [HeaderRow(hi)] + seq(|hs[hi].lines|, li requires 0 <= li < |hs[hi].lines| => LineRow(hi, li))
  }

  /** The rows of the first `n` hunks, appended hunk after hunk. */
  function RowsUpTo(hs: seq<Hunk>, n: nat): (r: seq<Row>)
    requires n <= |hs|
    ensures forall k :: 0 <= k < |r| ==> RowOk(hs, r[k]) && r[k].hunkIdx < n
  {
    if n == 0 then []
    else
      var before, last := RowsUpTo(hs, n - 1), HunkRows(hs, n - 1);
      assert forall k :: 0 <= k < |before + last| ==> (before + last)[k] == if k < |before| then before[k] else last[k - |before|];
      before + last
  }

  /** buildDisplayLines: no rows when the file index is out of range. */
  function BuildDisplay(files: seq<DiffFile>, fileIdx: nat): seq<Row>
  {
    if fileIdx < |files| then RowsUpTo(files[fileIdx].hunks, |files[fileIdx].hunks|) else []
  }

  function BuildDisplayLines(s: AppState): (r: AppState)
    ensures r == s.(display := r.display) && Resolves(r)
  {
    s.(display := BuildDisplay(s.files, s.fileIdx))
  }

  /** Where hunk `hi`'s header sits: one row per header and line before it. */
  function Offset(hs: seq<Hunk>, hi: nat): nat
    requires hi <= |hs|
  {
    if hi == 0 then 0 else Offset(hs, hi - 1) + 1 + |hs[hi - 1].lines|
  }

  lemma {:induction false} RowsUpToLength(hs: seq<Hunk>, n: nat)
    requires n <= |hs|
    ensures |RowsUpTo(hs, n)| == Offset(hs, n)
  {
    if n > 0 {
      RowsUpToLength(hs, n - 1);
    }
  }

  lemma {:induction false} RowsUpToBound(hs: seq<Hunk>, n: nat, j: nat, t: nat)
    requires j < n <= |hs| && t <= |hs[j].lines|
    ensures Offset(hs, j) + t < |RowsUpTo(hs, n)|
  {
    var before, last := RowsUpTo(hs, n - 1), HunkRows(hs, n - 1);
    assert RowsUpTo(hs, n) == before + last;
    RowsUpToLength(hs, n - 1);
    if j < n - 1 {
      RowsUpToBound(hs, n - 1, j, t);
    }
  }

  /** In the rows of the first `n` hunks, the `t`-th row of hunk `j` sits at
      Offset(j) + t. */
  lemma {:induction false} RowsUpToAt(hs: seq<Hunk>, n: nat, j: nat, t: nat)
    requires j < n <= |hs| && t <= |hs[j].lines|
    ensures Offset(hs, j) + t < |RowsUpTo(hs, n)| && RowsUpTo(hs, n)[Offset(hs, j) + t] == HunkRows(hs, j)[t]
  {
    RowsUpToBound(hs, n, j, t);
    var before, last := RowsUpTo(hs, n - 1), HunkRows(hs, n - 1);
    var r := RowsUpTo(hs, n);
    assert r == before + last;
    RowsUpToLength(hs, n - 1);
    if j < n - 1 {
      RowsUpToAt(hs, n - 1, j, t);
      RowsUpToBound(hs, n - 1, j, t);
      assert r[Offset(hs, j) + t] == before[Offset(hs, j) + t];
    } else {
      assert r[Offset(hs, j) + t] == last[t];
    }
  }

  /** Where line `li` of hunk `j` sits: just after its header. */
  function LinePos(hs: seq<Hunk>, j: nat, li: nat): nat
    requires j < |hs|
  {
    Offset(hs, j) + 1 + li
  }

  /** Hunk `j`'s header sits at Offset(j) of `d`, followed by its lines in
      order, and `d` holds nothing else. */
  predicate LaidOut(hs: seq<Hunk>, d: seq<Row>)
  {
    && |d| == Offset(hs, |hs|)
    && (forall j :: 0 <= j < |hs| ==> Offset(hs, j) < |d| && d[Offset(hs, j)] == HeaderRow(j))
    && (forall j, li :: 0 <= j < |hs| && 0 <= li < |hs[j].lines| ==>
          LinePos(hs, j, li) < |d| && d[LinePos(hs, j, li)] == LineRow(j, li))
  }

  lemma HeadersPlaced(hs: seq<Hunk>)
    ensures forall j :: 0 <= j < |hs| ==>
              Offset(hs, j) < |RowsUpTo(hs, |hs|)| && RowsUpTo(hs, |hs|)[Offset(hs, j)] == HeaderRow(j)
  {
    forall j | 0 <= j < |hs|
      ensures Offset(hs, j) < |RowsUpTo(hs, |hs|)| && RowsUpTo(hs, |hs|)[Offset(hs, j)] == HeaderRow(j)
    {
      RowsUpToAt(hs, |hs|, j, 0);
    }
  }

  lemma LinesPlaced(hs: seq<Hunk>)
    ensures forall j, li :: 0 <= j < |hs| && 0 <= li < |hs[j].lines| ==>
              LinePos(hs, j, li) < |RowsUpTo(hs, |hs|)| && RowsUpTo(hs, |hs|)[LinePos(hs, j, li)] == LineRow(j, li)
  {
    forall j, li | 0 <= j < |hs| && 0 <= li < |hs[j].lines|
      ensures LinePos(hs, j, li) < |RowsUpTo(hs, |hs|)| && RowsUpTo(hs, |hs|)[LinePos(hs, j, li)] == LineRow(j, li)
    {
      LinePlaced(hs, j, li);
    }
  }

  lemma LinePlaced(hs: seq<Hunk>, j: nat, li: nat)
    requires j < |hs| && li < |hs[j].lines|
    ensures LinePos(hs, j, li) < |RowsUpTo(hs, |hs|)| && RowsUpTo(hs, |hs|)[LinePos(hs, j, li)] == LineRow(j, li)
  {
    RowsUpToAt(hs, |hs|, j, 1 + li);
    assert HunkRows(hs, j)[1 + li] == LineRow(j, li);
  }

  /** The display of a file is laid out hunk by hunk, Σ (1 + |lines|) rows
      in all. */
  lemma DisplayLayout(files: seq<DiffFile>, fileIdx: nat)
    requires fileIdx < |files|
    ensures LaidOut(files[fileIdx].hunks, BuildDisplay(files, fileIdx))
  {
    var hs := files[fileIdx].hunks;
    RowsUpToLength(hs, |hs|);
    HeadersPlaced(hs);
    LinesPlaced(hs);
  }

  // ---------------------------------------------------------------------
  // Searching the display

  /** The display holds at least one diff line. */
  predicate HasLineRow(d: seq<Row>)
  {
    exists k :: 0 <= k < |d| && d[k].LineRow?
  }

  /** `k` is the first line row of `d`. */
  predicate FirstLineRow(d: seq<Row>, k: nat)
  {
    k < |d| && d[k].LineRow? && forall m :: 0 <= m < k ==> d[m].HeaderRow?
  }

  /** The first line row at or after `from`, if any. */
  function NextLine(d: seq<Row>, from: nat): (r: Option<nat>)
    decreases |d| - from
    ensures r.Some? ==> from <= r.value < |d| && d[r.value].LineRow?
    ensures r.Some? ==> forall m :: from <= m < r.value ==> d[m].HeaderRow?
    ensures r.None? ==> forall m :: from <= m < |d| ==> d[m].HeaderRow?
  {
    if from >= |d| then None
    else if d[from].LineRow? then Some(from)
    else NextLine(d, from + 1)
  }

  /** The last line row before `below`, if any. */
  function PrevLine(d: seq<Row>, below: nat): (r: Option<nat>)
    requires below <= |d|
    ensures r.Some? ==> r.value < below && d[r.value].LineRow?
    ensures r.Some? ==> forall m :: r.value < m < below ==> d[m].HeaderRow?
    ensures r.None? ==> forall m :: 0 <= m < below ==> d[m].HeaderRow?
  {
    if below == 0 then None
    else if d[below - 1].LineRow? then Some(below - 1)
    else PrevLine(d, below - 1)
  }

  /** The first Add/Remove row at or after `from`, if any. */
  function NextStageable(s: AppState, from: nat): (r: Option<nat>)
    requires Resolves(s)
    decreases |s.display| - from
    ensures r.Some? ==> from <= r.value && IsStageableRow(s, r.value)
    ensures r.Some? ==> forall m: nat :: from <= m < r.value ==> !IsStageableRow(s, m)
    ensures r.None? ==> forall m: nat :: from <= m ==> !IsStageableRow(s, m)
  {
    if from >= |s.display| then None
    else if IsStageableRow(s, from) then Some(from)
    else NextStageable(s, from + 1)
  }

  /** The search ignores where the cursor and the window are. */
  lemma {:induction false} NextStageableCursor(s: AppState, t: AppState, from: nat)
    requires Resolves(s) && t == s.(lineIdx := t.lineIdx, scroll := t.scroll)
    ensures NextStageable(s, from) == NextStageable(t, from)
    decreases |s.display| - from
  {
    if from < |s.display| {
      NextStageableCursor(s, t, from + 1);
    }
  }

  /** firstNonHeaderLine: the first line row, or 0 when there is none. */
  function FirstNonHeaderLine(s: AppState): (r: nat)
    ensures HasLineRow(s.display) ==> FirstLineRow(s.display, r)
    ensures !HasLineRow(s.display) ==> r == 0
  {
    match NextLine(s.display, 0)
    case Some(k) => k
    case None => 0
  }

  /** firstStageableLine: the first Add/Remove row; failing that, the first
      line row; failing that, 0. */
  function FirstStageableLine(s: AppState): (r: nat)
    requires Resolves(s)
    ensures (exists k: nat :: IsStageableRow(s, k)) ==>
              IsStageableRow(s, r) && forall m: nat :: m < r ==> !IsStageableRow(s, m)
    ensures (forall k: nat :: !IsStageableRow(s, k)) && HasLineRow(s.display) ==> FirstLineRow(s.display, r)
    ensures !HasLineRow(s.display) ==> r == 0
  {
    match NextStageable(s, 0)
    case Some(k) => k
    case None => FirstNonHeaderLine(s)
  }

  // ---------------------------------------------------------------------
  // Scrolling (adjustScroll)

  /** Rows available for the diff: the height less two, at least one. */
  function ContentHeight(height: int): (r: nat)
    ensures r >= 1 && r >= height - 2
    ensures height >= 3 ==> r == height - 2
  {
    if height - 2 < 1 then 1 else height - 2
  }

  /** The cursor row lies within the window that starts at `scroll`. */
  predicate Visible(lineIdx: nat, scroll: nat, height: int)
  {
    scroll <= lineIdx < scroll + ContentHeight(height)
  }

  predicate ScrollOk(s: AppState)
  {
    Visible(s.lineIdx, s.scroll, s.height)
  }

  function Dist(a: nat, b: nat): nat
  {
    if a <= b then b - a else a - b
  }

  /** adjustScroll: the window moves as little as it must to show the cursor. */
  function AdjustScroll(s: AppState): (r: AppState)
    ensures r == s.(scroll := r.scroll)
    ensures ScrollOk(r)
    ensures ScrollOk(s) ==> r == s
    ensures forall o: nat :: Visible(s.lineIdx, o, s.height) ==> Dist(r.scroll, s.scroll) <= Dist(o, s.scroll)
  {
    var ch := ContentHeight(s.height);
    var top := if s.lineIdx < s.scroll then s.lineIdx else s.scroll;
    if s.lineIdx >= top + ch then s.(scroll := s.lineIdx - ch + 1) else s.(scroll := top)
  }

  // ---------------------------------------------------------------------
  // Cursor movement

  /** The cursor may move to `k` and only the cursor and scroll change. */
  predicate MovedTo(s: AppState, r: AppState, k: nat)
  {
    r == s.(lineIdx := k, scroll := r.scroll) && ScrollOk(r)
  }

  /** moveDown: to the nearest line row after the cursor, skipping headers. */
  function MoveDown(s: AppState): (r: AppState)
    ensures (exists k :: s.lineIdx < k < |s.display| && s.display[k].LineRow?) ==>
              && MovedTo(s, r, r.lineIdx)
              && s.lineIdx < r.lineIdx < |s.display| && s.display[r.lineIdx].LineRow?
              && forall m :: s.lineIdx < m < r.lineIdx ==> s.display[m].HeaderRow?
    ensures (forall k :: s.lineIdx < k < |s.display| ==> s.display[k].HeaderRow?) ==> r == s
  {
    match NextLine(s.display, s.lineIdx + 1)
    case Some(k) => AdjustScroll(s.(lineIdx := k))
    case None => s
  }

  /** moveUp: to the nearest line row before the cursor, skipping headers. A
      cursor beyond the last row would index out of range. */
  function MoveUp(s: AppState): (r: AppState)
    requires s.lineIdx <= |s.display|
    ensures (exists k :: 0 <= k < s.lineIdx && s.display[k].LineRow?) ==>
              && MovedTo(s, r, r.lineIdx)
              && r.lineIdx < s.lineIdx && s.display[r.lineIdx].LineRow?
              && forall m :: r.lineIdx < m < s.lineIdx ==> s.display[m].HeaderRow?
    ensures (forall k :: 0 <= k < s.lineIdx ==> s.display[k].HeaderRow?) ==> r == s
  {
    match PrevLine(s.display, s.lineIdx)
    case Some(k) => AdjustScroll(s.(lineIdx := k))
    case None => s
  }

  // ---------------------------------------------------------------------
  // What toggling leaves alone

  /** A file with its staged flags cleared and its touched mark dropped:
      everything a toggle leaves as it was. */
  function EraseHunk(h: Hunk): (r: Hunk)
    ensures |r.lines| == |h.lines|
  {
    h.(lines := seq(|h.lines|, li requires 0 <= li < |h.lines| => h.lines[li].(staged := false)))
  }

  function EraseFile(f: DiffFile): (r: DiffFile)
    ensures |r.hunks| == |f.hunks|
  {
    f.(hunks := seq(|f.hunks|, j requires 0 <= j < |f.hunks| => EraseHunk(f.hunks[j])), touched := false)
  }

  function Skeleton(files: seq<DiffFile>): (r: seq<DiffFile>)
    ensures |r| == |files|
  {
    seq(|files|, i requires 0 <= i < |files| => EraseFile(files[i]))
  }

  /** Two file lists with one skeleton have the same paths, statuses, hunk
      headers, line counts, contents and kinds. */
  lemma SkeletonShape(a: seq<DiffFile>, b: seq<DiffFile>, fi: nat, hi: nat)
    requires Skeleton(a) == Skeleton(b) && fi < |a|
    ensures |a| == |b| && a[fi].path == b[fi].path && a[fi].status == b[fi].status
    ensures |a[fi].hunks| == |b[fi].hunks|
    ensures hi < |a[fi].hunks| ==>
              var ha, hb := a[fi].hunks[hi], b[fi].hunks[hi];
              && ha.origStart == hb.origStart && ha.origCount == hb.origCount
              && ha.newStart == hb.newStart && ha.newCount == hb.newCount
              && |ha.lines| == |hb.lines|
              && forall li :: 0 <= li < |ha.lines| ==>
                   ha.lines[li].content == hb.lines[li].content && ha.lines[li].kind == hb.lines[li].kind
  {
    assert Skeleton(a)[fi] == Skeleton(b)[fi];
    if hi < |a[fi].hunks| {
      assert EraseFile(a[fi]).hunks[hi] == EraseFile(b[fi]).hunks[hi];
      var ha, hb := a[fi].hunks[hi], b[fi].hunks[hi];
      forall li | 0 <= li < |ha.lines|
        ensures ha.lines[li].content == hb.lines[li].content && ha.lines[li].kind == hb.lines[li].kind
      {
        assert EraseHunk(ha).lines[li] == EraseHunk(hb).lines[li];
      }
    }
  }

  /** The rows of a file depend only on how many lines each hunk has. */
  lemma {:induction false} RowsUpToShape(hs1: seq<Hunk>, hs2: seq<Hunk>, n: nat)
    requires n <= |hs1| == |hs2|
    requires forall j :: 0 <= j < |hs1| ==> |hs1[j].lines| == |hs2[j].lines|
    ensures RowsUpTo(hs1, n) == RowsUpTo(hs2, n)
  {
    if n > 0 {
      RowsUpToShape(hs1, hs2, n - 1);
      assert HunkRows(hs1, n - 1) == HunkRows(hs2, n - 1);
    }
  }

  /** Toggling never changes the display. */
  lemma SkeletonDisplay(a: seq<DiffFile>, b: seq<DiffFile>, fi: nat)
    requires Skeleton(a) == Skeleton(b)
    ensures BuildDisplay(a, fi) == BuildDisplay(b, fi)
  {
    assert |a| == |b|;
    if fi < |a| {
      SkeletonShape(a, b, fi, 0);
      forall j | 0 <= j < |a[fi].hunks|
        ensures |a[fi].hunks[j].lines| == |b[fi].hunks[j].lines|
      {
        SkeletonShape(a, b, fi, j);
      }
      RowsUpToShape(a[fi].hunks, b[fi].hunks, |a[fi].hunks|);
    }
  }

  /** A state keeps its resolving rows and its Add/Remove rows when only
      flags change. */
  lemma SkeletonRows(s: AppState, files: seq<DiffFile>)
    requires Resolves(s) && Skeleton(files) == Skeleton(s.files)
    ensures Resolves(s.(files := files))
    ensures forall k: nat :: IsStageableRow(s.(files := files), k) == IsStageableRow(s, k)
  {
    var t := s.(files := files);
    if |s.display| > 0 {
      forall k | 0 <= k < |s.display|
        ensures RowOk(files[s.fileIdx].hunks, s.display[k])
      {
        SkeletonShape(files, s.files, s.fileIdx, s.display[k].hunkIdx);
      }
      assert Resolves(t);
      forall k | 0 <= k < |s.display| && s.display[k].LineRow?
        ensures LineAt(t, k).kind == LineAt(s, k).kind
      {
        SkeletonShape(files, s.files, s.fileIdx, s.display[k].hunkIdx);
      }
    }
  }

  // ---------------------------------------------------------------------
  // Updating lines in place

  /** Line `li` of hunk `hi` of file `fi` exists. */
  predicate ValidLine(files: seq<DiffFile>, fi: nat, hi: nat, li: nat)
  {
    fi < |files| && hi < |files[fi].hunks| && li < |files[fi].hunks[hi].lines|
  }

  /** Replace the lines of hunk `hi` of file `fi`. */
  function WithLines(files: seq<DiffFile>, fi: nat, hi: nat, lines: seq<Line>): (r: seq<DiffFile>)
    requires fi < |files| && hi < |files[fi].hunks|
    ensures |r| == |files| && |r[fi].hunks| == |files[fi].hunks|
    ensures r[fi].hunks[hi].lines == lines
    ensures forall i :: 0 <= i < |files| && i != fi ==> r[i] == files[i]
    ensures forall j :: 0 <= j < |files[fi].hunks| && j != hi ==> r[fi].hunks[j] == files[fi].hunks[j]
    ensures r[fi] == files[fi].(hunks := r[fi].hunks)
    ensures r[fi].hunks[hi] == files[fi].hunks[hi].(lines := lines)
  {
    var f := files[fi];
    files[fi := f.(hunks := f.hunks[hi := f.hunks[hi].(lines := lines)])]
  }

  /** Replacing lines by lines that differ only in their flags keeps the
      skeleton. */
  lemma WithLinesSkeleton(files: seq<DiffFile>, fi: nat, hi: nat, lines: seq<Line>)
    requires fi < |files| && hi < |files[fi].hunks|
    requires |lines| == |files[fi].hunks[hi].lines|
    requires forall li :: 0 <= li < |lines| ==> lines[li] == files[fi].hunks[hi].lines[li].(staged := lines[li].staged)
    ensures Skeleton(WithLines(files, fi, hi, lines)) == Skeleton(files)
  {
    var r := WithLines(files, fi, hi, lines);
    assert EraseHunk(r[fi].hunks[hi]) == EraseHunk(files[fi].hunks[hi]);
    assert EraseFile(r[fi]).hunks == EraseFile(files[fi]).hunks;
    assert Skeleton(r)[fi] == Skeleton(files)[fi];
  }

  /** Set one line's staged flag. */
  function SetStaged(files: seq<DiffFile>, fi: nat, hi: nat, li: nat, v: bool): (r: seq<DiffFile>)
    requires ValidLine(files, fi, hi, li)
    ensures ValidLine(r, fi, hi, li) && |r| == |files| && |r[fi].hunks| == |files[fi].hunks|
    ensures |r[fi].hunks[hi].lines| == |files[fi].hunks[hi].lines|
    ensures Skeleton(r) == Skeleton(files)
    ensures r[fi].hunks[hi].lines[li] == files[fi].hunks[hi].lines[li].(staged := v)
    ensures r[fi].touched == files[fi].touched
    ensures forall i :: 0 <= i < |files| && i != fi ==> r[i] == files[i]
    ensures forall j :: 0 <= j < |files[fi].hunks| && j != hi ==> r[fi].hunks[j] == files[fi].hunks[j]
    ensures forall m :: 0 <= m < |files[fi].hunks[hi].lines| && m != li ==> r[fi].hunks[hi].lines[m] == files[fi].hunks[hi].lines[m]
  {
    var lines := files[fi].hunks[hi].lines;
    var lines' := lines[li := lines[li].(staged := v)];
    WithLinesSkeleton(files, fi, hi, lines');
    WithLines(files, fi, hi, lines')
  }

  /** Mark file `fi` as touched. */
  function Touch(files: seq<DiffFile>, fi: nat): (r: seq<DiffFile>)
    requires fi < |files|
    ensures Skeleton(r) == Skeleton(files)
    ensures r[fi] == files[fi].(touched := true)
    ensures forall i :: 0 <= i < |files| && i != fi ==> r[i] == files[i]
  {
    var r := files[fi := files[fi].(touched := true)];
    assert Skeleton(r)[fi] == Skeleton(files)[fi];
    r
  }

  // ---------------------------------------------------------------------
  // Toggling (toggleLine, toggleHunk)

  /** The state with the cursor's line flipped and its file marked touched. */
  function Flip(s: AppState): (r: AppState)
    requires Resolves(s) && IsStageableRow(s, s.lineIdx)
    ensures Resolves(r) && r == s.(files := r.files)
    ensures Skeleton(r.files) == Skeleton(s.files)
    ensures forall k: nat :: IsStageableRow(r, k) == IsStageableRow(s, k)
  {
    var row := s.display[s.lineIdx];
    var files := Touch(SetStaged(s.files, s.fileIdx, row.hunkIdx, row.lineIdx, !LineAt(s, s.lineIdx).staged), s.fileIdx);
    SkeletonRows(s, files);
    s.(files := files)
  }

  /** toggleLine: on an Add/Remove row, flip that line, mark the file
      touched and advance to the next Add/Remove row if there is one; on any
      other row, or off the display, do nothing. */
  function ToggleLine(s: AppState): (r: AppState)
    requires Resolves(s)
    ensures Resolves(r)
    ensures !IsStageableRow(s, s.lineIdx) ==> r == s
    ensures IsStageableRow(s, s.lineIdx) ==>
              var row := s.display[s.lineIdx];
              && r == s.(files := r.files, lineIdx := r.lineIdx, scroll := r.scroll)
              && r.files == Touch(SetStaged(s.files, s.fileIdx, row.hunkIdx, row.lineIdx, !LineAt(s, s.lineIdx).staged), s.fileIdx)
    ensures IsStageableRow(s, s.lineIdx) && (exists k: nat :: s.lineIdx < k && IsStageableRow(s, k)) ==>
              && s.lineIdx < r.lineIdx && IsStageableRow(s, r.lineIdx) && ScrollOk(r)
              && forall m: nat :: s.lineIdx < m < r.lineIdx ==> !IsStageableRow(s, m)
    ensures IsStageableRow(s, s.lineIdx) && (forall k: nat :: s.lineIdx < k ==> !IsStageableRow(s, k)) ==>
              r.lineIdx == s.lineIdx && r.scroll == s.scroll
  {
    if !IsStageableRow(s, s.lineIdx) then s
    else
      var flipped := Flip(s);
      match NextStageable(flipped, s.lineIdx + 1)
      case Some(k) => AdjustScroll(flipped.(lineIdx := k))
      case None => flipped
  }

  /** Toggling a line whose next row is also an Add/Remove row flips that
      line, touches its file and moves the cursor down by one row. */
  lemma ToggleLineAdvance(s: AppState)
    requires Resolves(s) && IsStageableRow(s, s.lineIdx) && IsStageableRow(s, s.lineIdx + 1)
    ensures var r := ToggleLine(s);
            var row := s.display[s.lineIdx];
            && r.files[s.fileIdx].hunks[row.hunkIdx].lines[row.lineIdx].staged == !LineAt(s, s.lineIdx).staged
            && r.files[s.fileIdx].touched
            && r.lineIdx == s.lineIdx + 1
  {
  }

  /** Some Add/Remove row of hunk `hi` shows an unstaged line. */
  predicate AnyUnstaged(s: AppState, hi: nat)
    requires Resolves(s)
  {
    exists k :: 0 <= k < |s.display| && s.display[k].hunkIdx == hi && IsStageableRow(s, k) && !LineAt(s, k).staged
  }

  /** The lines of hunk `hi` with every Add/Remove line that a row of `d`
      shows set to `v`. */
  function SetShown(lines: seq<Line>, hi: nat, d: seq<Row>, v: bool): (r: seq<Line>)
    ensures |r| == |lines|
    ensures forall li :: 0 <= li < |lines| ==> r[li] == lines[li].(staged := r[li].staged)
    ensures forall li :: 0 <= li < |lines| && Stageable(lines[li]) && LineRow(hi, li) in d ==> r[li].staged == v
    ensures forall li :: 0 <= li < |lines| && !(Stageable(lines[li]) && LineRow(hi, li) in d) ==> r[li] == lines[li]
  {
    seq(|lines|, li requires 0 <= li < |lines| =>
      if Stageable(lines[li]) && LineRow(hi, li) in d then lines[li].(staged := v) else lines[li])
  }

  /** toggleHunk: when the cursor is on the display, stage every Add/Remove
      line of its hunk if any of them is unstaged, unstage them all
      otherwise, and mark the file touched (even when the hunk has no
      Add/Remove line). */
  function ToggleHunk(s: AppState): (r: AppState)
    requires Resolves(s)
    ensures Resolves(r)
    ensures s.lineIdx >= |s.display| ==> r == s
    ensures s.lineIdx < |s.display| ==>
              && r == s.(files := r.files)
              && Skeleton(r.files) == Skeleton(s.files)
              && r.files[s.fileIdx].touched
  {
    if s.lineIdx >= |s.display| then s
    else
      var fi, hi := s.fileIdx, s.display[s.lineIdx].hunkIdx;
      var lines := SetShown(s.files[fi].hunks[hi].lines, hi, s.display, AnyUnstaged(s, hi));
      WithLinesSkeleton(s.files, fi, hi, lines);
      var files := Touch(WithLines(s.files, fi, hi, lines), fi);
      SkeletonRows(s, files);
      s.(files := files)
  }

  // ---------------------------------------------------------------------
  // Switching files (nextFile, prevFile)

  /** The display is the one buildDisplayLines makes for the current file. */
  predicate Built(s: AppState)
  {
    s.display == BuildDisplay(s.files, s.fileIdx)
  }

  lemma BuiltResolves(s: AppState)
    requires Built(s)
    ensures Resolves(s)
  {
  }

  /** Show file `fi`: rebuild the display, put the cursor on the first
      Add/Remove row and scroll down from the top just far enough. */
  function Select(s: AppState, fi: nat): (r: AppState)
    ensures r.files == s.files && r.fileIdx == fi && r.width == s.width && r.height == s.height
    ensures Built(r) && Resolves(r) && ScrollOk(r)
    ensures r.lineIdx == FirstStageableLine(r)
    ensures forall o: nat :: Visible(r.lineIdx, o, r.height) ==> r.scroll <= o
  {
    var t := BuildDisplayLines(s.(fileIdx := fi));
    var r := AdjustScroll(t.(scroll := 0, lineIdx := FirstStageableLine(t)));
    NextStageableCursor(t, r, 0);
    r
  }

  /** nextFile: show the next file; at the last file, nothing changes. */
  function NextFile(s: AppState): (r: AppState)
    ensures s.fileIdx + 1 >= |s.files| ==> r == s
    ensures s.fileIdx + 1 < |s.files| ==>
              && r.fileIdx == s.fileIdx + 1 && r.files == s.files && r.width == s.width && r.height == s.height
              && Built(r) && ScrollOk(r) && r.lineIdx == FirstStageableLine(r)
              && (forall o: nat :: Visible(r.lineIdx, o, r.height) ==> r.scroll <= o)
  {
    if s.fileIdx + 1 < |s.files| then Select(s, s.fileIdx + 1) else s
  }

  /** prevFile: show the previous file; at the first file, nothing changes. */
  function PrevFile(s: AppState): (r: AppState)
    ensures s.fileIdx == 0 ==> r == s
    ensures s.fileIdx > 0 ==>
              && r.fileIdx == s.fileIdx - 1 && r.files == s.files && r.width == s.width && r.height == s.height
              && Built(r) && ScrollOk(r) && r.lineIdx == FirstStageableLine(r)
              && (forall o: nat :: Visible(r.lineIdx, o, r.height) ==> r.scroll <= o)
  {
    if s.fileIdx > 0 then Select(s, s.fileIdx - 1) else s
  }

  // ---------------------------------------------------------------------
  // The session

  /** The key bindings that change the selection. */
  datatype Key = KeyJ | KeyK | KeyCtrlJ | KeyCtrlK | KeyTab | KeyShiftTab

  /** What the run loop does in state `s` for a key: the invariant below
      keeps moveUp's cursor in range. */
  predicate Inv(s: AppState)
  {
    Built(s) && ScrollOk(s) && (s.lineIdx < |s.display| || s.lineIdx == 0)
  }

  function Step(s: AppState, key: Key): AppState
    requires Inv(s)
  {
    match key
    case KeyJ => MoveDown(s)
    case KeyK => MoveUp(s)
    case KeyCtrlJ => NextFile(s)
    case KeyCtrlK => PrevFile(s)
    case KeyTab => ToggleLine(s)
    case KeyShiftTab => ToggleHunk(s)
  }

  /** The state the run loop starts from: the first file shown, the cursor
      on its first Add/Remove row. */
  function Init(files: seq<DiffFile>, width: int, height: int): (r: AppState)
    ensures Inv(r) && r.files == files && r.fileIdx == 0
    ensures r.lineIdx == FirstStageableLine(r)
  {
    Select(AppState(files, 0, 0, 0, [], width, height), 0)
  }

  /** The cursor is on a diff line. */
  predicate CursorOnLine(s: AppState)
  {
    s.lineIdx < |s.display| && s.display[s.lineIdx].LineRow?
  }

  /** After a file switch the cursor is on a diff line whenever the new
      display has one. */
  lemma SelectOnLine(s: AppState, fi: nat)
    ensures var r := Select(s, fi);
            HasLineRow(r.display) ==> CursorOnLine(r)
  {
    var r := Select(s, fi);
    if HasLineRow(r.display) && exists k: nat :: IsStageableRow(r, k) {
      assert IsStageableRow(r, r.lineIdx);
    }
  }

  /** Every key keeps the display built for the current file, the cursor
      visible and on the display (or at 0 on an empty one), and a cursor on a
      diff line stays on one while the display has any. */
  lemma StepKeepsInv(s: AppState, key: Key)
    requires Inv(s)
    ensures Inv(Step(s, key))
    ensures CursorOnLine(s) && HasLineRow(Step(s, key).display) ==> CursorOnLine(Step(s, key))
  {
    match key
    case KeyJ => MoveDownKeepsInv(s);
    case KeyK => MoveUpKeepsInv(s);
    case KeyCtrlJ => NextFileKeepsInv(s);
    case KeyCtrlK => PrevFileKeepsInv(s);
    case KeyTab => ToggleLineKeepsInv(s);
    case KeyShiftTab => ToggleHunkKeepsInv(s);
  }

  lemma MoveDownKeepsInv(s: AppState)
    requires Inv(s)
    ensures Inv(MoveDown(s))
    ensures CursorOnLine(s) ==> CursorOnLine(MoveDown(s))
  {
  }

  lemma MoveUpKeepsInv(s: AppState)
    requires Inv(s)
    ensures Inv(MoveUp(s))
    ensures CursorOnLine(s) ==> CursorOnLine(MoveUp(s))
  {
  }

  lemma NextFileKeepsInv(s: AppState)
    requires Inv(s)
    ensures Inv(NextFile(s))
    ensures CursorOnLine(s) && HasLineRow(NextFile(s).display) ==> CursorOnLine(NextFile(s))
  {
    if s.fileIdx + 1 < |s.files| {
      SelectOnLine(s, s.fileIdx + 1);
    }
  }

  lemma PrevFileKeepsInv(s: AppState)
    requires Inv(s)
    ensures Inv(PrevFile(s))
    ensures CursorOnLine(s) && HasLineRow(PrevFile(s).display) ==> CursorOnLine(PrevFile(s))
  {
    if s.fileIdx > 0 {
      SelectOnLine(s, s.fileIdx - 1);
    }
  }

  lemma ToggleLineKeepsInv(s: AppState)
    requires Inv(s)
    ensures Inv(ToggleLine(s))
    ensures CursorOnLine(s) ==> CursorOnLine(ToggleLine(s))
  {
    if IsStageableRow(s, s.lineIdx) {
      SkeletonDisplay(ToggleLine(s).files, s.files, s.fileIdx);
    }
  }

  lemma ToggleHunkKeepsInv(s: AppState)
    requires Inv(s)
    ensures Inv(ToggleHunk(s))
    ensures CursorOnLine(s) ==> CursorOnLine(ToggleHunk(s))
  {
    if s.lineIdx < |s.display| {
      SkeletonDisplay(ToggleHunk(s).files, s.files, s.fileIdx);
    }
  }

  // ---------------------------------------------------------------------
  // toggleHunk on a built display

  /** Some Add/Remove line is unstaged. */
  predicate SomeUnstaged(lines: seq<Line>)
  {
    exists li :: 0 <= li < |lines| && Stageable(lines[li]) && !lines[li].staged
  }

  /** Every Add/Remove line set to `v`; Context lines as they were. */
  function StageAll(lines: seq<Line>, v: bool): (r: seq<Line>)
    ensures |r| == |lines|
    ensures forall li :: 0 <= li < |lines| && Stageable(lines[li]) ==> r[li] == lines[li].(staged := v)
    ensures forall li :: 0 <= li < |lines| && !Stageable(lines[li]) ==> r[li] == lines[li]
  {
    seq(|lines|, li requires 0 <= li < |lines| => if Stageable(lines[li]) then lines[li].(staged := v) else lines[li])
  }

  /** On a built display every line of every hunk has its row. */
  lemma BuiltShowsAll(s: AppState, hi: nat)
    requires Built(s) && s.fileIdx < |s.files| && hi < |s.files[s.fileIdx].hunks|
    ensures forall li :: 0 <= li < |s.files[s.fileIdx].hunks[hi].lines| ==> LineRow(hi, li) in s.display
  {
    var hs := s.files[s.fileIdx].hunks;
    DisplayLayout(s.files, s.fileIdx);
    forall li | 0 <= li < |hs[hi].lines|
      ensures LineRow(hi, li) in s.display
    {
      assert s.display[LinePos(hs, hi, li)] == LineRow(hi, li);
    }
  }

  /** On a built display, the rows of a hunk show an unstaged Add/Remove
      line exactly when the hunk has one. */
  lemma AnyUnstagedBuilt(s: AppState, hi: nat)
    requires Built(s) && s.fileIdx < |s.files| && hi < |s.files[s.fileIdx].hunks|
    ensures AnyUnstaged(s, hi) <==> SomeUnstaged(s.files[s.fileIdx].hunks[hi].lines)
  {
    var hs := s.files[s.fileIdx].hunks;
    if SomeUnstaged(hs[hi].lines) {
      var li :| 0 <= li < |hs[hi].lines| && Stageable(hs[hi].lines[li]) && !hs[hi].lines[li].staged;
      DisplayLayout(s.files, s.fileIdx);
      var k := LinePos(hs, hi, li);
      assert s.display[k] == LineRow(hi, li);
      assert IsStageableRow(s, k) && !LineAt(s, k).staged;
    }
    if AnyUnstaged(s, hi) {
      var k :| 0 <= k < |s.display| && s.display[k].hunkIdx == hi && IsStageableRow(s, k) && !LineAt(s, k).staged;
      var li := s.display[k].lineIdx;
      assert Stageable(hs[hi].lines[li]) && !hs[hi].lines[li].staged;
    }
  }

  /** toggleHunk on a built display: the cursor's hunk has every Add/Remove
      line staged when one of them was unstaged and unstaged otherwise;
      Context lines, other hunks and other files keep their lines, and the
      file is marked touched. */
  lemma ToggleHunkMeaning(s: AppState)
    requires Built(s) && s.lineIdx < |s.display|
    ensures s.fileIdx < |s.files| && s.display[s.lineIdx].hunkIdx < |s.files[s.fileIdx].hunks|
    ensures var fi, hi := s.fileIdx, s.display[s.lineIdx].hunkIdx;
            var h := s.files[fi].hunks[hi];
            ToggleHunk(s).files == Touch(WithLines(s.files, fi, hi, StageAll(h.lines, SomeUnstaged(h.lines))), fi)
  {
    var fi, hi := s.fileIdx, s.display[s.lineIdx].hunkIdx;
    var h := s.files[fi].hunks[hi];
    BuiltShowsAll(s, hi);
    AnyUnstagedBuilt(s, hi);
    var v := SomeUnstaged(h.lines);
    assert SetShown(h.lines, hi, s.display, AnyUnstaged(s, hi)) == StageAll(h.lines, v);
  }

  /** With every Add/Remove line of a hunk unstaged, staging and then
      unstaging the hunk restores its lines. */
  lemma {:induction false} StageAllTwice(lines: seq<Line>)
    requires forall li :: 0 <= li < |lines| && Stageable(lines[li]) ==> !lines[li].staged
    ensures var once := StageAll(lines, SomeUnstaged(lines));
            StageAll(once, SomeUnstaged(once)) == lines
  {
    var once := StageAll(lines, SomeUnstaged(lines));
    var twice := StageAll(once, SomeUnstaged(once));
    forall li | 0 <= li < |once| && Stageable(once[li])
      ensures once[li].staged
    {
      assert Stageable(lines[li]) && !lines[li].staged;
    }
    assert !SomeUnstaged(once);
    assert forall li :: 0 <= li < |lines| ==> twice[li] == lines[li];
  }

  /** Two whole-hunk toggles from an all-unstaged hunk leave every line as
      it was; only the touched mark remains. */
  lemma ToggleHunkTwice(s: AppState)
    requires Built(s) && s.lineIdx < |s.display|
    requires s.fileIdx < |s.files| && s.display[s.lineIdx].hunkIdx < |s.files[s.fileIdx].hunks|
    requires var h := s.files[s.fileIdx].hunks[s.display[s.lineIdx].hunkIdx];
             forall li :: 0 <= li < |h.lines| && Stageable(h.lines[li]) ==> !h.lines[li].staged
    ensures ToggleHunk(ToggleHunk(s)).files == Touch(s.files, s.fileIdx)
  {
    var fi, hi := s.fileIdx, s.display[s.lineIdx].hunkIdx;
    var h := s.files[fi].hunks[hi];
    var r1 := ToggleHunk(s);
    ToggleHunkMeaning(s);
    SkeletonDisplay(r1.files, s.files, fi);
    ToggleHunkMeaning(r1);
    var h1 := r1.files[fi].hunks[hi];
    var once := StageAll(h.lines, SomeUnstaged(h.lines));
    assert h1.lines == once;
    StageAllTwice(h.lines);
    var r2 := ToggleHunk(r1);
    assert r2.files[fi].hunks[hi] == h;
    assert r2.files[fi].hunks == s.files[fi].hunks;
    assert r2.files[fi] == s.files[fi].(touched := true);
  }
}
