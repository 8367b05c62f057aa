/** The pure parts of the git backend (gitstage/git.go): marking lines that
    are already in the index, counting staged lines, the synthetic diff of an
    untracked file, classifying `git status --porcelain` lines, and the
    backend actions that write the user's selection to the index. */
module Git {
  import opened Text
  import opened Types
  import opened Diff
  import opened Patch

  // ---------------------------------------------------------------------
  // Counting stageable and staged lines (countStaged)

  /** Number of Add and Remove lines. */
  function StageableCount(lines: seq<Line>): nat
  {
    if lines == [] then 0 else (if Stageable(lines[0]) then 1 else 0) + StageableCount(lines[1..])
  }

  /** Number of Add and Remove lines that are staged. */
  function StagedCount(lines: seq<Line>): nat
  {
    if lines == [] then 0
    else (if Stageable(lines[0]) && lines[0].staged then 1 else 0) + StagedCount(lines[1..])
  }

  lemma {:induction false} CountsAppend(a: seq<Line>, b: seq<Line>)
    ensures StageableCount(a + b) == StageableCount(a) + StageableCount(b)
    ensures StagedCount(a + b) == StagedCount(a) + StagedCount(b)
  {
    if a != [] {
      assert (a + b)[1..] == a[1..] + b;
      CountsAppend(a[1..], b);
    } else {
      assert a + b == b;
    }
  }

  /** The staged count never exceeds the stageable count; it is zero exactly
      when no change is staged and full exactly when every change is. */
  lemma {:induction false} CountsMeaning(lines: seq<Line>)
    ensures StagedCount(lines) <= StageableCount(lines)
    ensures StagedCount(lines) == 0 <==> !HasStaged(lines)
    ensures StagedCount(lines) == StageableCount(lines) <==> AllStaged(lines)
  {
    if lines != [] {
      var tail := lines[1..];
      CountsMeaning(tail);
      assert forall i :: 0 <= i < |tail| ==> tail[i] == lines[i + 1];
      if HasStaged(tail) {
        var i :| 0 <= i < |tail| && Stageable(tail[i]) && tail[i].staged;
        assert Stageable(lines[i + 1]) && lines[i + 1].staged;
      }
      if !AllStaged(tail) {
        var i :| 0 <= i < |tail| && Stageable(tail[i]) && !tail[i].staged;
        assert Stageable(lines[i + 1]) && !lines[i + 1].staged;
      }
    }
  }

  /** countStaged: one pass over every line of every hunk. */
  method CountStaged(f: DiffFile) returns (staged: nat, total: nat)
    ensures staged == StagedCount(Flatten(f.hunks))
    ensures total == StageableCount(Flatten(f.hunks))
    ensures staged <= total
  {
    staged, total := 0, 0;
    var hi := 0;
    while hi < |f.hunks|
      invariant 0 <= hi <= |f.hunks|
      invariant staged == StagedCount(Flatten(f.hunks[..hi]))
      invariant total == StageableCount(Flatten(f.hunks[..hi]))
    {
      var lines := f.hunks[hi].lines;
      var li := 0;
      while li < |lines|
        invariant 0 <= li <= |lines|
        invariant staged == StagedCount(Flatten(f.hunks[..hi])) + StagedCount(lines[..li])
        invariant total == StageableCount(Flatten(f.hunks[..hi])) + StageableCount(lines[..li])
      {
        var l := lines[li];
        CountsAppend(lines[..li], [l]);
        assert lines[..li + 1] == lines[..li] + [l];
        if Stageable(l) {
          total := total + 1;
          if l.staged {
            staged := staged + 1;
          }
        }
        li := li + 1;
      }
      FlattenPrefix(f.hunks, hi);
      CountsAppend(Flatten(f.hunks[..hi]), lines);
      assert lines[..li] == lines;
      hi := hi + 1;
    }
    assert f.hunks[..hi] == f.hunks;
    CountsMeaning(Flatten(f.hunks));
  }

  lemma FlattenPrefix(hs: seq<Hunk>, i: nat)
    requires i < |hs|
    ensures Flatten(hs[..i + 1]) == Flatten(hs[..i]) + hs[i].lines
  {
    assert hs[..i + 1] == hs[..i] + [hs[i]];
    FlattenAppend(hs[..i], [hs[i]]);
    assert Flatten([hs[i]]) == hs[i].lines + Flatten([]);
  }

  /** Some line of some hunk is staged exactly when some hunk has a staged
      line. */
  lemma {:induction false} FlattenHasStaged(hs: seq<Hunk>)
    ensures HasStaged(Flatten(hs)) <==> exists i :: 0 <= i < |hs| && HasStaged(hs[i].lines)
  {
    if hs != [] {
      var tail := hs[1..];
      FlattenHasStaged(tail);
      assert forall i :: 0 <= i < |tail| ==> tail[i] == hs[i + 1];
      var a, b := hs[0].lines, Flatten(tail);
      assert Flatten(hs) == a + b;
      if HasStaged(a + b) {
        var k :| 0 <= k < |a + b| && Stageable((a + b)[k]) && (a + b)[k].staged;
        if k < |a| {
          assert Stageable(a[k]) && a[k].staged;
        } else {
          assert Stageable(b[k - |a|]) && b[k - |a|].staged;
        }
      }
      if HasStaged(a) {
        var k :| 0 <= k < |a| && Stageable(a[k]) && a[k].staged;
        assert (a + b)[k] == a[k];
      }
      if HasStaged(b) {
        var k :| 0 <= k < |b| && Stageable(b[k]) && b[k].staged;
        assert (a + b)[|a| + k] == b[k];
      }
    }
  }

  // ---------------------------------------------------------------------
  // Reconciling with the index (markPreStaged)

  /** What a cached line is matched by: its content with its kind. */
  type Key = (string, LineKind)

  function KeyOf(l: Line): Key
  {
    (l.content, l.kind)
  }

  /** The multiset of keys of the Add and Remove lines. */
  function StageableKeys(lines: seq<Line>): (m: multiset<Key>)
    ensures |m| == StageableCount(lines)
  {
    if lines == [] then multiset{}
    else (if Stageable(lines[0]) then multiset{KeyOf(lines[0])} else multiset{}) + StageableKeys(lines[1..])
  }

  /** Number of Add and Remove lines with key `k`, staged or not. */
  function KeyCount(lines: seq<Line>, k: Key): nat
  {
    if lines == [] then 0
    else (if Stageable(lines[0]) && KeyOf(lines[0]) == k then 1 else 0) + KeyCount(lines[1..], k)
  }

  /** Number of staged Add and Remove lines with key `k`. */
  function StagedKeyCount(lines: seq<Line>, k: Key): nat
  {
    if lines == [] then 0
    else (if Stageable(lines[0]) && KeyOf(lines[0]) == k && lines[0].staged then 1 else 0)
         + StagedKeyCount(lines[1..], k)
  }

  function Min(a: int, b: int): int
  {
    if a <= b then a else b
  }

  /** The walk of markPreStaged over lines in document order: an Add or
      Remove line whose key is still available is marked staged and uses up
      one copy of its key. Returns the lines and the keys left over. */
  function MarkLines(lines: seq<Line>, m: multiset<Key>): (r: (seq<Line>, multiset<Key>))
    ensures |r.0| == |lines|
  {
    if lines == [] then ([], m)
    else
      var l := lines[0];
      var hit := Stageable(l) && m[KeyOf(l)] > 0;
      var l' := if hit then l.(staged := true) else l;
      var m' := if hit then m - multiset{KeyOf(l)} else m;
      var rest := MarkLines(lines[1..], m');
      ([l'] + rest.0, rest.1)
  }

  /** The walk changes no content or kind, unstages nothing, touches only Add
      and Remove lines, and only uses up available keys. */
  lemma {:induction false} MarkLinesShape(lines: seq<Line>, m: multiset<Key>)
    ensures var r := MarkLines(lines, m);
            && (forall i :: 0 <= i < |lines| ==>
                  && r.0[i].content == lines[i].content && r.0[i].kind == lines[i].kind
                  && (lines[i].staged ==> r.0[i].staged)
                  && (!Stageable(lines[i]) ==> r.0[i] == lines[i]))
            && r.1 <= m
  {
    MarkLinesPointwise(lines, m);
    MarkLinesUses(lines, m);
  }

  lemma {:induction false} MarkLinesUses(lines: seq<Line>, m: multiset<Key>)
    ensures MarkLines(lines, m).1 <= m
  {
    if lines != [] {
      var l := lines[0];
      var hit := Stageable(l) && m[KeyOf(l)] > 0;
      var m' := if hit then m - multiset{KeyOf(l)} else m;
      MarkLinesUses(lines[1..], m');
    }
  }

  lemma {:induction false} MarkLinesPointwise(lines: seq<Line>, m: multiset<Key>)
    ensures var r := MarkLines(lines, m).0;
            forall i :: 0 <= i < |lines| ==>
              && r[i].content == lines[i].content && r[i].kind == lines[i].kind
              && (lines[i].staged ==> r[i].staged)
              && (!Stageable(lines[i]) ==> r[i] == lines[i])
  {
    if lines != [] {
      var l := lines[0];
      var hit := Stageable(l) && m[KeyOf(l)] > 0;
      var m' := if hit then m - multiset{KeyOf(l)} else m;
      var tail := lines[1..];
      MarkLinesPointwise(tail, m');
      var r, rest := MarkLines(lines, m).0, MarkLines(tail, m').0;
      assert r == [if hit then l.(staged := true) else l] + rest;
      assert forall i :: 1 <= i < |lines| ==> r[i] == rest[i - 1] && lines[i] == tail[i - 1];
    }
  }

  /** The greedy rule: a line ends up staged exactly when it already was, or
      it is an Add or Remove line and fewer earlier lines with its key than
      the cached copies of that key came before it. */
  lemma {:induction false} MarkGreedy(lines: seq<Line>, m: multiset<Key>)
    ensures forall i :: 0 <= i < |lines| ==>
              MarkLines(lines, m).0[i].staged
              == (lines[i].staged || (Stageable(lines[i]) && KeyCount(lines[..i], KeyOf(lines[i])) < m[KeyOf(lines[i])]))
  {
    if lines != [] {
      var l := lines[0];
      var hit := Stageable(l) && m[KeyOf(l)] > 0;
      var m' := if hit then m - multiset{KeyOf(l)} else m;
      var tail := lines[1..];
      MarkGreedy(tail, m');
      forall i | 0 <= i < |lines|
        ensures MarkLines(lines, m).0[i].staged
                == (lines[i].staged || (Stageable(lines[i]) && KeyCount(lines[..i], KeyOf(lines[i])) < m[KeyOf(lines[i])]))
      {
        if i > 0 {
          var k := KeyOf(lines[i]);
          assert tail[i - 1] == lines[i];
          KeyCountPrefix(lines, i, k);
          assert m'[k] == if hit && KeyOf(l) == k then m[k] - 1 else m[k];
          assert MarkLines(lines, m).0[i] == MarkLines(tail, m').0[i - 1];
        }
      }
    }
  }

  lemma KeyCountPrefix(lines: seq<Line>, i: nat, k: Key)
    requires 0 < i <= |lines|
    ensures KeyCount(lines[..i], k)
         == (if Stageable(lines[0]) && KeyOf(lines[0]) == k then 1 else 0) + KeyCount(lines[1..][..i - 1], k)
  {
    assert lines[..i][1..] == lines[1..][..i - 1];
  }

  /** Bookkeeping of markPreStaged: each key is used up once per line that
      carries it, until its copies run out; the marked lines of a key number
      at most its copies more than before, and exactly that many when no
      line was staged beforehand. */
  lemma {:induction false} MarkCounts(lines: seq<Line>, m: multiset<Key>, k: Key)
    ensures MarkLines(lines, m).1[k] + Min(m[k], KeyCount(lines, k)) == m[k]
    ensures StagedKeyCount(MarkLines(lines, m).0, k) <= StagedKeyCount(lines, k) + Min(m[k], KeyCount(lines, k))
    ensures StagedKeyCount(lines, k) == 0 ==>
              StagedKeyCount(MarkLines(lines, m).0, k) == Min(m[k], KeyCount(lines, k))
  {
    MarkLeftover(lines, m, k);
    MarkStaged(lines, m, k);
  }

  lemma {:induction false} MarkLeftover(lines: seq<Line>, m: multiset<Key>, k: Key)
    ensures MarkLines(lines, m).1[k] + Min(m[k], KeyCount(lines, k)) == m[k]
  {
    if lines != [] {
      var l := lines[0];
      var hit := Stageable(l) && m[KeyOf(l)] > 0;
      var m' := if hit then m - multiset{KeyOf(l)} else m;
      MarkLeftover(lines[1..], m', k);
      assert m'[k] == if hit && KeyOf(l) == k then m[k] - 1 else m[k];
    }
  }

  lemma {:induction false} MarkStaged(lines: seq<Line>, m: multiset<Key>, k: Key)
    ensures StagedKeyCount(MarkLines(lines, m).0, k) <= StagedKeyCount(lines, k) + Min(m[k], KeyCount(lines, k))
    ensures StagedKeyCount(lines, k) == 0 ==>
              StagedKeyCount(MarkLines(lines, m).0, k) == Min(m[k], KeyCount(lines, k))
  {
    if lines != [] {
      var l := lines[0];
      var hit := Stageable(l) && m[KeyOf(l)] > 0;
      var l' := if hit then l.(staged := true) else l;
      var m' := if hit then m - multiset{KeyOf(l)} else m;
      var tail := lines[1..];
      MarkStaged(tail, m', k);
      var r := MarkLines(lines, m);
      assert r.0[0] == l' && r.0[1..] == MarkLines(tail, m').0;
      assert m'[k] == if hit && KeyOf(l) == k then m[k] - 1 else m[k];
    }
  }

  /** One step of the walk. */
  lemma MarkCons(lines: seq<Line>, m: multiset<Key>)
    requires lines != []
    ensures var l := lines[0];
            var hit := Stageable(l) && m[KeyOf(l)] > 0;
            var rest := MarkLines(lines[1..], if hit then m - multiset{KeyOf(l)} else m);
            MarkLines(lines, m) == ([if hit then l.(staged := true) else l] + rest.0, rest.1)
  {
  }

  lemma {:induction false} MarkAppend(a: seq<Line>, b: seq<Line>, m: multiset<Key>)
    ensures var ra := MarkLines(a, m);
            var rb := MarkLines(b, ra.1);
            MarkLines(a + b, m) == (ra.0 + rb.0, rb.1)
  {
    if a != [] {
      var l := a[0];
      var hit := Stageable(l) && m[KeyOf(l)] > 0;
      var l' := if hit then l.(staged := true) else l;
      var m' := if hit then m - multiset{KeyOf(l)} else m;
      assert (a + b)[1..] == a[1..] + b;
      assert (a + b)[0] == l;
      MarkAppend(a[1..], b, m');
      MarkCons(a, m);
      MarkCons(a + b, m);
      var ra' := MarkLines(a[1..], m');
      var rb := MarkLines(b, ra'.1);
      AppendAssoc([l'], ra'.0, rb.0);
    } else {
      assert a + b == b;
      assert MarkLines(a, m).0 + MarkLines(b, m).0 == MarkLines(b, m).0;
    }
  }

  /** markPreStaged's nested loops: the same walk, hunk by hunk, carrying the
      leftover keys from one hunk to the next. */
  function MarkHunks(hs: seq<Hunk>, m: multiset<Key>): (r: (seq<Hunk>, multiset<Key>))
    ensures |r.0| == |hs|
    ensures forall i :: 0 <= i < |hs| ==>
              r.0[i] == hs[i].(lines := r.0[i].lines) && |r.0[i].lines| == |hs[i].lines|
  {
    if hs == [] then ([], m)
    else
      var first := MarkLines(hs[0].lines, m);
      var rest := MarkHunks(hs[1..], first.1);
      ([hs[0].(lines := first.0)] + rest.0, rest.1)
  }

  /** Walking hunk by hunk is walking the lines of all hunks at once. */
  lemma {:induction false} MarkHunksFlatten(hs: seq<Hunk>, m: multiset<Key>)
    ensures Flatten(MarkHunks(hs, m).0) == MarkLines(Flatten(hs), m).0
    ensures MarkHunks(hs, m).1 == MarkLines(Flatten(hs), m).1
  {
    if hs != [] {
      var first := MarkLines(hs[0].lines, m);
      MarkHunksFlatten(hs[1..], first.1);
      MarkAppend(hs[0].lines, Flatten(hs[1..]), m);
      var r := MarkHunks(hs, m);
      assert r.0[0].lines == first.0;
      assert r.0[1..] == MarkHunks(hs[1..], first.1).0;
    }
  }

  /** markPreStaged: mark the lines of the full diff that the cached diff
      (what is already in the index) also holds. */
  function MarkPreStaged(full: seq<Hunk>, cached: seq<Hunk>): (r: seq<Hunk>)
    ensures |r| == |full|
    ensures forall i :: 0 <= i < |full| ==>
              r[i] == full[i].(lines := r[i].lines) && |r[i].lines| == |full[i].lines|
  {
    MarkHunks(full, StageableKeys(Flatten(cached))).0
  }

  /** The greedy rule and the bound, over all hunks: a line of the full diff
      ends up staged exactly when it was, or it is among the first copies of
      its key up to the number of cached copies; for every key, the marked
      lines exceed those staged before by at most the cached copies. */
  lemma MarkPreStagedMeaning(full: seq<Hunk>, cached: seq<Hunk>, k: Key)
    ensures var lines, m, r := Flatten(full), StageableKeys(Flatten(cached)), Flatten(MarkPreStaged(full, cached));
            && |r| == |lines|
            && (forall i :: 0 <= i < |lines| ==>
                  && r[i].content == lines[i].content && r[i].kind == lines[i].kind
                  && r[i].staged == (lines[i].staged || (Stageable(lines[i]) && KeyCount(lines[..i], KeyOf(lines[i])) < m[KeyOf(lines[i])])))
            && StagedKeyCount(r, k) <= StagedKeyCount(lines, k) + m[k]
            && (StagedKeyCount(lines, k) == 0 ==> StagedKeyCount(r, k) == Min(m[k], KeyCount(lines, k)))
  {
    var m := StageableKeys(Flatten(cached));
    MarkHunksFlatten(full, m);
    MarkLinesShape(Flatten(full), m);
    MarkGreedy(Flatten(full), m);
    MarkCounts(Flatten(full), m, k);
  }

  // ---------------------------------------------------------------------
  // The synthetic diff of an untracked file (synthesizeDiff)

  /** The file's lines, each as an unstaged addition. */
  function AddedLines(lines: seq<string>): (r: seq<Line>)
    ensures |r| == |lines|
    ensures forall i :: 0 <= i < |r| ==> r[i] == Line("+" + lines[i], Add, false)
  {
    seq(|lines|, i requires 0 <= i < |lines| => Line("+" + lines[i], Add, false))
  }

  /** synthesizeDiff once the file is read: no hunk for an empty file,
      otherwise one hunk adding every line to an empty old side. */
  function SynthesizeHunks(data: string): (r: seq<Hunk>)
    ensures |r| <= 1
  {
    var lines := ScannedLines(data);
    if lines == [] then [] else [Hunk(0, 0, 1, |lines|, AddedLines(lines))]
  }

  lemma {:induction false} ScannedEmpty(data: string)
    ensures ScannedLines(data) == [] <==> data == []
  {
    var pieces := Split(data, '\n');
    JoinSplit(data, '\n');
    if |pieces| == 1 {
      assert Join(pieces, '\n') == pieces[0];
    }
  }

  /** The synthetic hunk agrees with its header, reads back through the
      parser, and holds the file's lines in order behind a '+'. */
  lemma SynthesizedMeaning(data: string)
    ensures SynthesizeHunks(data) == [] <==> data == []
    ensures forall i :: 0 <= i < |SynthesizeHunks(data)| ==>
              var h := SynthesizeHunks(data)[i];
              && Consistent(h) && WellFormedHunk(h) && !HasStaged(h.lines)
              && |h.lines| == |ScannedLines(data)|
              && (forall j :: 0 <= j < |h.lines| ==> h.lines[j].content[1..] == ScannedLines(data)[j])
  {
    ScannedEmpty(data);
    var lines := ScannedLines(data);
    if lines != [] {
      var ls := AddedLines(lines);
      forall j | 0 <= j < |ls| ensures WellFormedLine(ls[j]) && ls[j].content[1..] == lines[j] {
        var c := ls[j].content;
        assert c[0] == '+' && c[1..] == lines[j];
        NoPrefixWhenFirstDiffers(c, "diff --git ");
        NoPrefixWhenFirstDiffers(c, "@@");
        NoPrefixWhenFirstDiffers(c, "\\ No newline");
        assert '\n' !in c;
      }
      AllAddedCounts(ls);
    }
  }

  lemma {:induction false} AllAddedCounts(ls: seq<Line>)
    requires forall j :: 0 <= j < |ls| ==> ls[j].kind == Add
    ensures OldSideCount(ls) == 0 && NewSideCount(ls) == |ls|
  {
    if ls != [] {
      AllAddedCounts(ls[1..]);
    }
  }

  /** A file written as newline-terminated lines is synthesized back into
      exactly those lines. */
  lemma SynthesizeUnlines(ls: seq<string>)
    requires ls != [] && forall i :: 0 <= i < |ls| ==> '\n' !in ls[i]
    ensures SynthesizeHunks(Unlines(ls)) == [Hunk(0, 0, 1, |ls|, AddedLines(ls))]
  {
    ScannedUnlines(ls);
  }

  // ---------------------------------------------------------------------
  // Classifying `git status --porcelain` lines (discoverFiles)

  /** The status a porcelain XY code gives, if any: untracked for "??",
      otherwise deleted for a D in either column, otherwise modified for an
      M in either column or an A in the first. */
  function PorcelainStatus(x: char, y: char): (r: Option<FileStatus>)
    ensures r == Some(Untracked) <==> x == '?' && y == '?'
    ensures r == Some(Deleted) <==> !(x == '?' && y == '?') && (x == 'D' || y == 'D')
    ensures r == Some(Modified) <==> !(x == '?' && y == '?') && x != 'D' && y != 'D' && (x == 'M' || y == 'M' || x == 'A')
  {
    if x == '?' && y == '?' then Some(Untracked)
    else if y == 'D' || x == 'D' then Some(Deleted)
    else if y == 'M' || x == 'M' || x == 'A' then Some(Modified)
    else None
  }

  /** A status line names `path`: it has the two status columns and the
      separating space, and the rest of it is the path. */
  predicate Claims(line: string, path: string)
  {
    |line| >= 3 && line[3..] == path
  }

  /** The loop of discoverFiles from some line on, with the paths already
      seen. A path is claimed by its first line, whether or not that line's
      status is recognised. */
  function DiscoverFrom(lines: seq<string>, seen: set<string>): (r: seq<DiffFile>)
  {
    if lines == [] then []
    else
      var line := lines[0];
      if |line| < 3 then DiscoverFrom(lines[1..], seen)
      else
        var path := line[3..];
        if path in seen then DiscoverFrom(lines[1..], seen)
        else
          var rest := DiscoverFrom(lines[1..], seen + {path});
          match PorcelainStatus(line[0], line[1])
          case None => rest
          case Some(status) => [DiffFile(path, status, [], false)] + rest
  }

  /** Discovered files have no hunks, are untouched, and have distinct
      paths none of which was already seen. */
  lemma {:induction false} DiscoverFromFresh(lines: seq<string>, seen: set<string>)
    ensures forall i :: 0 <= i < |DiscoverFrom(lines, seen)| ==>
              var f := DiscoverFrom(lines, seen)[i];
              f.path !in seen && f.hunks == [] && !f.touched
    ensures forall i, j :: 0 <= i < j < |DiscoverFrom(lines, seen)| ==>
              DiscoverFrom(lines, seen)[i].path != DiscoverFrom(lines, seen)[j].path
  {
    if lines != [] {
      var line, tail := lines[0], lines[1..];
      if |line| >= 3 && line[3..] !in seen {
        var path := line[3..];
        var rest := DiscoverFrom(tail, seen + {path});
        DiscoverFromFresh(tail, seen + {path});
        assert forall j :: 0 <= j < |rest| ==> rest[j].path != path && rest[j].path !in seen;
      } else {
        DiscoverFromFresh(tail, seen);
        assert DiscoverFrom(lines, seen) == DiscoverFrom(tail, seen);
      }
    }
  }

  /** A path already seen is never discovered again. */
  lemma SeenExcluded(lines: seq<string>, seen: set<string>, f: DiffFile)
    requires f.path in seen
    ensures f !in DiscoverFrom(lines, seen)
  {
    DiscoverFromFresh(lines, seen);
    var r := DiscoverFrom(lines, seen);
    assert forall i :: 0 <= i < |r| ==> r[i] != f;
  }

  /** discoverFiles once the status output is in hand. */
  function Discover(out: string): (r: seq<DiffFile>)
    ensures forall i, j :: 0 <= i < j < |r| ==> r[i].path != r[j].path
  {
    DiscoverFromFresh(Split(out, '\n'), {});
    DiscoverFrom(Split(out, '\n'), {})
  }

  /** Line `i` is the first line naming `path`. */
  predicate FirstClaim(lines: seq<string>, i: nat, path: string)
  {
    i < |lines| && Claims(lines[i], path) && forall j :: 0 <= j < i ==> !Claims(lines[j], path)
  }

  /** The first line naming the file's path has a status code that gives
      the file's status. */
  predicate StatusOfFirstClaim(lines: seq<string>, f: DiffFile)
  {
    exists i: nat :: i < |lines| && FirstClaim(lines, i, f.path) && PorcelainStatus(lines[i][0], lines[i][1]) == Some(f.status)
  }

  /** A file is discovered exactly when the first line naming its path, not
      already seen, has a recognised status code, and that code gives the
      file's status. */
  lemma {:induction false} DiscoverFromMeaning(lines: seq<string>, seen: set<string>, f: DiffFile)
    ensures f in DiscoverFrom(lines, seen) <==>
              f.hunks == [] && !f.touched && f.path !in seen && StatusOfFirstClaim(lines, f)
  {
    if lines != [] {
      var line, tail := lines[0], lines[1..];
      var seen' := if |line| >= 3 then seen + {line[3..]} else seen;
      DiscoverFromMeaning(tail, seen', f);
      var found := StatusOfFirstClaim(lines, f);
      var foundTail := StatusOfFirstClaim(tail, f);
      if Claims(line, f.path) {
        if f.path in seen {
          SeenExcluded(tail, seen, f);
          assert DiscoverFrom(lines, seen) == DiscoverFrom(tail, seen);
        } else {
          SeenExcluded(tail, seen', f);
        }
        assert FirstClaim(lines, 0, f.path);
        assert found <==> PorcelainStatus(line[0], line[1]) == Some(f.status) by {
          forall i: nat | FirstClaim(lines, i, f.path) ensures i == 0 {
          }
        }
      } else {
        assert f.path !in seen' <==> f.path !in seen;
        if |line| >= 3 {
          var path := line[3..];
          if path in seen {
            assert seen' == seen;
          } else {
            assert DiscoverFrom(lines, seen) == DiscoverFrom(tail, seen')
                || DiscoverFrom(lines, seen) == [DiffFile(path, PorcelainStatus(line[0], line[1]).value, [], false)] + DiscoverFrom(tail, seen');
          }
        }
        assert f in DiscoverFrom(lines, seen) <==> f in DiscoverFrom(tail, seen');
        assert found <==> foundTail by {
          if found {
            var i: nat :| i < |lines| && FirstClaim(lines, i, f.path) && PorcelainStatus(lines[i][0], lines[i][1]) == Some(f.status);
            assert i > 0 && tail[i - 1] == lines[i];
            assert FirstClaim(tail, i - 1, f.path);
          }
          if foundTail {
            var i: nat :| i < |tail| && FirstClaim(tail, i, f.path) && PorcelainStatus(tail[i][0], tail[i][1]) == Some(f.status);
            assert lines[i + 1] == tail[i];
            assert FirstClaim(lines, i + 1, f.path);
          }
        }
      }
    }
  }

  lemma DiscoverMeaning(out: string, f: DiffFile)
    ensures f in Discover(out) <==> f.hunks == [] && !f.touched && StatusOfFirstClaim(Split(out, '\n'), f)
  {
    var none: set<string> := {};
    DiscoverFromMeaning(Split(out, '\n'), none, f);
  }

  // ---------------------------------------------------------------------
  // Writing the selection to the index (applyTracked, applyUntracked)

  /** A backend call: `git reset HEAD -- path` (or `git rm --cached` with no
      HEAD), `git add -- path`, `git add -N -- path`, and `git apply
      --cached` fed a patch. */
  datatype Action = ResetPath(path: string) | AddPath(path: string) | AddIntent(path: string) | ApplyCached(patch: string)

  /** The part shared by both branches once something is staged: add the
      whole file when every change is staged, otherwise apply the partial
      patch unless it is empty. */
  function StageSelection(f: DiffFile, staged: nat, total: nat): (r: seq<Action>)
    requires FileDemotable(f)
    ensures |r| <= 1
  {
    if staged == total then [AddPath(f.path)]
    else
      var patch := GeneratePatch(f);
      if patch == [] then [] else [ApplyCached(patch)]
  }

  /** applyTracked, as the calls it makes when each succeeds. */
  function ApplyTracked(f: DiffFile, staged: nat, total: nat): (r: seq<Action>)
    requires FileDemotable(f)
    ensures |r| >= 1 && r[0] == ResetPath(f.path)
  {
    [ResetPath(f.path)] + (if staged == 0 then [] else StageSelection(f, staged, total))
  }

  /** applyUntracked, as the calls it makes when each succeeds. */
  function ApplyUntracked(f: DiffFile, staged: nat, total: nat): (r: seq<Action>)
    requires FileDemotable(f)
    ensures r == [] <==> staged == 0
    ensures r != [] ==> r[0] == AddIntent(f.path)
  {
    if staged == 0 then [] else [AddIntent(f.path)] + StageSelection(f, staged, total)
  }

  /** The branch applyStaging takes for one touched file. */
  function FileActions(f: DiffFile): seq<Action>
    requires FileDemotable(f)
  {
    var staged, total := StagedCount(Flatten(f.hunks)), StageableCount(Flatten(f.hunks));
    if f.status == Untracked then ApplyUntracked(f, staged, total) else ApplyTracked(f, staged, total)
  }

  /** The reset a tracked file's branch starts with. */
  function ResetFirst(f: DiffFile): seq<Action>
  {
    if f.status == Untracked then [] else [ResetPath(f.path)]
  }

  /** The intent-to-add an untracked file's branch starts with. */
  function IntentFirst(f: DiffFile): seq<Action>
  {
    if f.status == Untracked then [AddIntent(f.path)] else []
  }

  /** What the actions for one file do, in terms of its selection: nothing
      staged leaves only the reset of a tracked file; everything staged adds
      the whole file; anything in between applies a non-empty patch, which
      the parser reads back as the selected changes. */
  lemma FileActionsMeaning(f: DiffFile)
    requires FileDemotable(f)
    ensures !HasStaged(Flatten(f.hunks)) ==> FileActions(f) == ResetFirst(f)
    ensures HasStaged(Flatten(f.hunks)) && AllStaged(Flatten(f.hunks)) ==>
              FileActions(f) == ResetFirst(f) + IntentFirst(f) + [AddPath(f.path)]
    ensures HasStaged(Flatten(f.hunks)) && !AllStaged(Flatten(f.hunks)) ==>
              GeneratePatch(f) != [] && FileActions(f) == ResetFirst(f) + IntentFirst(f) + [ApplyCached(GeneratePatch(f))]
  {
    var lines := Flatten(f.hunks);
    var staged, total := StagedCount(lines), StageableCount(lines);
    CountsMeaning(lines);
    if !HasStaged(lines) {
      ActionsWhenNone(f, staged, total);
    } else if AllStaged(lines) {
      ActionsWhenAll(f, staged, total);
    } else {
      PartialPatchNonEmpty(f);
      ActionsWhenPartial(f, staged, total);
    }
  }

  lemma ActionsWhenNone(f: DiffFile, staged: nat, total: nat)
    requires FileDemotable(f) && staged == 0
    requires staged == StagedCount(Flatten(f.hunks)) && total == StageableCount(Flatten(f.hunks))
    ensures FileActions(f) == ResetFirst(f)
  {
  }

  lemma ActionsWhenAll(f: DiffFile, staged: nat, total: nat)
    requires FileDemotable(f) && 0 < staged == total
    requires staged == StagedCount(Flatten(f.hunks)) && total == StageableCount(Flatten(f.hunks))
    ensures FileActions(f) == ResetFirst(f) + IntentFirst(f) + [AddPath(f.path)]
  {
  }

  lemma ActionsWhenPartial(f: DiffFile, staged: nat, total: nat)
    requires FileDemotable(f) && 0 < staged && staged != total && GeneratePatch(f) != []
    requires staged == StagedCount(Flatten(f.hunks)) && total == StageableCount(Flatten(f.hunks))
    ensures FileActions(f) == ResetFirst(f) + IntentFirst(f) + [ApplyCached(GeneratePatch(f))]
  {
  }

  /** A file with a staged line has a non-empty patch. */
  lemma PartialPatchNonEmpty(f: DiffFile)
    requires FileDemotable(f) && HasStaged(Flatten(f.hunks))
    ensures GeneratePatch(f) != []
  {
    FlattenHasStaged(f.hunks);
    PatchEmpty(f);
  }

  /** The only patch a file's branch applies is the one generatePatch builds
      for it. */
  lemma ApplyCachedIsPatch(f: DiffFile)
    requires FileDemotable(f)
    ensures forall a :: a in FileActions(f) && a.ApplyCached? ==> a.patch == GeneratePatch(f)
  {
    var staged, total := StagedCount(Flatten(f.hunks)), StageableCount(Flatten(f.hunks));
    SelectionPatch(f, staged, total);
    if f.status == Untracked {
      UntrackedPatch(f, staged, total);
    } else {
      TrackedPatch(f, staged, total);
    }
  }

  /** The partial patch, when staged, is generatePatch's. */
  lemma SelectionPatch(f: DiffFile, staged: nat, total: nat)
    requires FileDemotable(f)
    ensures forall a :: a in StageSelection(f, staged, total) && a.ApplyCached? ==> a.patch == GeneratePatch(f)
  {
  }

  /** applyTracked passes on the patch of its selection step. */
  lemma TrackedPatch(f: DiffFile, staged: nat, total: nat)
    requires FileDemotable(f)
    requires forall a :: a in StageSelection(f, staged, total) && a.ApplyCached? ==> a.patch == GeneratePatch(f)
    ensures forall a :: a in ApplyTracked(f, staged, total) && a.ApplyCached? ==> a.patch == GeneratePatch(f)
  {
  }

  /** applyUntracked passes on the patch of its selection step. */
  lemma UntrackedPatch(f: DiffFile, staged: nat, total: nat)
    requires FileDemotable(f)
    requires forall a :: a in StageSelection(f, staged, total) && a.ApplyCached? ==> a.patch == GeneratePatch(f)
    ensures forall a :: a in ApplyUntracked(f, staged, total) && a.ApplyCached? ==> a.patch == GeneratePatch(f)
  {
  }

  /** The patch a partial selection applies parses back as the selected
      changes of each hunk that has any. */
  lemma AppliedPatchMeaning(f: DiffFile)
    requires WellFormedFile(f)
    ensures FileDemotable(f)
    ensures forall a :: a in FileActions(f) && a.ApplyCached? ==> ParseDiff(a.patch) == PartialHunks(f.hunks)
  {
    PatchRoundTrip(f);
    ApplyCachedIsPatch(f);
  }

  predicate AllDemotable(files: seq<DiffFile>)
  {
    forall i :: 0 <= i < |files| ==> FileDemotable(files[i])
  }

  /** applyStaging: the actions of every touched file, in file order. */
  function ApplyStaging(files: seq<DiffFile>): seq<Action>
    requires AllDemotable(files)
  {
    if files == [] then []
    else (if files[0].touched then FileActions(files[0]) else []) + ApplyStaging(files[1..])
  }

  /** Every reset or add a file's branch makes names that file. */
  lemma FileActionsPaths(f: DiffFile)
    requires FileDemotable(f)
    ensures forall a :: a in FileActions(f) && !a.ApplyCached? ==> a.path == f.path
  {
    var staged, total := StagedCount(Flatten(f.hunks)), StageableCount(Flatten(f.hunks));
    var sel := StageSelection(f, staged, total);
    assert forall a :: a in sel && !a.ApplyCached? ==> a == AddPath(f.path);
  }

  /** Files the user did not touch contribute nothing, and every path an
      action names belongs to a touched file. */
  lemma {:induction false} ApplyStagingTouched(files: seq<DiffFile>)
    requires AllDemotable(files)
    ensures (forall i :: 0 <= i < |files| ==> !files[i].touched) ==> ApplyStaging(files) == []
    ensures forall a :: a in ApplyStaging(files) && !a.ApplyCached? ==>
              exists i :: 0 <= i < |files| && files[i].touched && files[i].path == a.path
  {
    if files != [] {
      var tail := files[1..];
      assert forall i :: 0 <= i < |tail| ==> tail[i] == files[i + 1];
      ApplyStagingTouched(tail);
      var mine := if files[0].touched then FileActions(files[0]) else [];
      assert ApplyStaging(files) == mine + ApplyStaging(tail);
      if files[0].touched {
        FileActionsPaths(files[0]);
      }
      forall a | a in ApplyStaging(files) && !a.ApplyCached?
        ensures exists i :: 0 <= i < |files| && files[i].touched && files[i].path == a.path
      {
        if a in mine {
          assert files[0].touched && files[0].path == a.path;
        } else {
          assert a in ApplyStaging(tail);
          var i :| 0 <= i < |tail| && tail[i].touched && tail[i].path == a.path;
          assert files[i + 1] == tail[i];
        }
      }
    }
  }
}
