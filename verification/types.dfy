/** The diff model shared by every component: classified lines grouped into
    hunks, hunks grouped into changed files. */
module Types {
  import opened Text

  /** How a diff line changes the file. */
  datatype LineKind = Context | Add | Remove

  /** One diff line; `content` keeps its leading '+', '-' or ' ' marker. */
  datatype Line = Line(content: string, kind: LineKind, staged: bool)

  /** One hunk: the positions and lengths from its `@@` header, and its lines. */
  datatype Hunk = Hunk(origStart: int, origCount: int, newStart: int, newCount: int, lines: seq<Line>)

  datatype FileStatus = Modified | Deleted | Untracked

  /** One changed path; `touched` records that the user toggled something in it. */
  datatype DiffFile = DiffFile(path: string, status: FileStatus, hunks: seq<Hunk>, touched: bool)

  /** Add and Remove lines can be staged; Context lines cannot. */
  predicate Stageable(l: Line)
  {
    l.kind == Add || l.kind == Remove
  }

  /** The kind a diff body line has, decided by its first character. */
  function KindOf(content: string): (k: LineKind)
    ensures k == Add <==> HasPrefix(content, "+")
    ensures k == Remove <==> HasPrefix(content, "-")
  {
    if |content| > 0 && content[0] == '+' then Add
    else if |content| > 0 && content[0] == '-' then Remove
    else Context
  }

  /** A body line as the parser produces it: classified and unstaged. */
  function Classify(content: string): (l: Line)
    ensures l.content == content && l.kind == KindOf(content) && !l.staged
  {
    Line(content, KindOf(content), false)
  }

  function ClassifyAll(contents: seq<string>): (r: seq<Line>)
    ensures |r| == |contents|
    ensures forall i :: 0 <= i < |r| ==> r[i] == Classify(contents[i])
  {
    seq(|contents|, i requires 0 <= i < |contents| => Classify(contents[i]))
  }

  /** The lines of all hunks, in document order. */
  function Flatten(hs: seq<Hunk>): seq<Line>
  {
    if hs == [] then [] else hs[0].lines + Flatten(hs[1..])
  }

  lemma {:induction false} FlattenAppend(a: seq<Hunk>, b: seq<Hunk>)
    ensures Flatten(a + b) == Flatten(a) + Flatten(b)
  {
    if a != [] {
      assert (a + b)[1..] == a[1..] + b;
      FlattenAppend(a[1..], b);
    } else {
      assert a + b == b;
    }
  }

  /** Number of lines that exist on the old side (every line but additions). */
  function OldSideCount(lines: seq<Line>): nat
  {
    if lines == [] then 0
    else (if lines[0].kind != Add then 1 else 0) + OldSideCount(lines[1..])
  }

  /** Number of lines that exist on the new side (every line but removals). */
  function NewSideCount(lines: seq<Line>): nat
  {
    if lines == [] then 0
    else (if lines[0].kind != Remove then 1 else 0) + NewSideCount(lines[1..])
  }

  /** A hunk whose header lengths agree with its lines. */
  predicate Consistent(h: Hunk)
  {
    h.origCount == OldSideCount(h.lines) && h.newCount == NewSideCount(h.lines)
  }

  /** The contents of a sequence of lines. */
  function Contents(lines: seq<Line>): (r: seq<string>)
    ensures |r| == |lines|
    ensures forall i :: 0 <= i < |r| ==> r[i] == lines[i].content
  {
    seq(|lines|, i requires 0 <= i < |lines| => lines[i].content)
  }

  lemma ContentsCons(lines: seq<Line>)
    requires lines != []
    ensures Contents(lines) == [lines[0].content] + Contents(lines[1..])
  {
    assert Contents(lines)[1..] == Contents(lines[1..]);
  }
}
