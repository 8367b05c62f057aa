/** The git helpers on the inputs their unit tests use, and on a small
    porcelain status listing. */
module GitExamples {
  import opened Text
  import opened Types
  import opened Git

  function FullHunks(): seq<Hunk>
  {
    [Hunk(0, 0, 0, 0, [Line(" context", Context, false), Line("+added1", Add, false),
                       Line("+added2", Add, false), Line("-removed1", Remove, false)])]
  }

  function CachedHunks(): seq<Hunk>
  {
    [Hunk(0, 0, 0, 0, [Line("+added1", Add, false), Line("-removed1", Remove, false)])]
  }

  lemma DistinctKeys()
    ensures "+added1" != "+added2"
  {
    assert "+added1"[6] != "+added2"[6];
  }

  lemma CachedKeysExample()
    ensures var m := StageableKeys(Flatten(CachedHunks()));
            m[("+added1", Add)] == 1 && m[("+added2", Add)] == 0 && m[("-removed1", Remove)] == 1
  {
    DistinctKeys();
    var c := Flatten(CachedHunks());
    assert c == CachedHunks()[0].lines + Flatten([]);
    assert StageableKeys(c[1..]) == multiset{("-removed1", Remove)} + StageableKeys(c[2..]);
    assert StageableKeys(c) == multiset{("+added1", Add)} + multiset{("-removed1", Remove)};
  }

  lemma EarlierCopiesExample()
    ensures var lines := Flatten(FullHunks());
            && lines == FullHunks()[0].lines
            && KeyCount(lines[..1], ("+added1", Add)) == 0
            && KeyCount(lines[..2], ("+added2", Add)) == 0
            && KeyCount(lines[..3], ("-removed1", Remove)) == 0
  {
    DistinctKeys();
    var lines := Flatten(FullHunks());
    assert lines == FullHunks()[0].lines + Flatten([]);
    var p2, p3 := lines[..2], lines[..3];
    assert p2[1..] == [lines[1]] && p2[1..][1..] == [];
    assert KeyCount(p2[1..], ("+added2", Add)) == 0;
    assert p3[1..] == [lines[1], lines[2]] && p3[1..][1..] == [lines[2]] && p3[1..][1..][1..] == [];
    assert KeyCount(p3[1..][1..], ("-removed1", Remove)) == 0;
    assert KeyCount(p3[1..], ("-removed1", Remove)) == 0;
  }

  /** One copy each of "+added1" and "-removed1" is in the index: those two
      lines are marked, the second addition and the context line are not. */
  lemma PreStagingExample()
    ensures var r := MarkPreStaged(FullHunks(), CachedHunks());
            && r[0].lines[0].staged == false
            && r[0].lines[1].staged == true
            && r[0].lines[2].staged == false
            && r[0].lines[3].staged == true
  {
    CachedKeysExample();
    EarlierCopiesExample();
    MarkPreStagedMeaning(FullHunks(), CachedHunks(), ("", Context));
    var r := MarkPreStaged(FullHunks(), CachedHunks());
    assert Flatten(r) == r[0].lines + Flatten([]);
  }

  /** Two hunks with four changes, three of them staged. */
  lemma StageableCountsExample()
    ensures var hs := [Hunk(0, 0, 0, 0, [Line(" ctx", Context, false), Line("+add1", Add, true), Line("+add2", Add, false)]),
                       Hunk(0, 0, 0, 0, [Line("-rem1", Remove, true), Line("-rem2", Remove, true)])];
            StagedCount(Flatten(hs)) == 3 && StageableCount(Flatten(hs)) == 4
  {
    var hs := [Hunk(0, 0, 0, 0, [Line(" ctx", Context, false), Line("+add1", Add, true), Line("+add2", Add, false)]),
               Hunk(0, 0, 0, 0, [Line("-rem1", Remove, true), Line("-rem2", Remove, true)])];
    assert Flatten(hs) == hs[0].lines + hs[1].lines;
    CountsAppend(hs[0].lines, hs[1].lines);
  }

  /** A path is claimed by its first status line: "x" is dropped for its
      unrecognised rename code although a later line would classify it, and
      the second "a.go" line is ignored. Lines shorter than three characters
      are skipped. */
  lemma PorcelainExample()
    ensures DiscoverFrom([" M a.go", "?? new.txt", "D  old.txt", "R  x", "M  x", "MM a.go", "", "AD"], {})
         == [DiffFile("a.go", Modified, [], false), DiffFile("new.txt", Untracked, [], false),
             DiffFile("old.txt", Deleted, [], false)]
  {
    var lines := [" M a.go", "?? new.txt", "D  old.txt", "R  x", "M  x", "MM a.go", "", "AD"];
    PorcelainNewFile();
    assert lines[1..] == ["?? new.txt", "D  old.txt", "R  x", "M  x", "MM a.go", "", "AD"];
    assert lines[0][3..] == "a.go";
    var none: set<string> := {};
    assert none + {"a.go"} == {"a.go"};
  }

  lemma PorcelainNewFile()
    ensures DiscoverFrom(["?? new.txt", "D  old.txt", "R  x", "M  x", "MM a.go", "", "AD"], {"a.go"})
         == [DiffFile("new.txt", Untracked, [], false), DiffFile("old.txt", Deleted, [], false)]
  {
    var lines := ["?? new.txt", "D  old.txt", "R  x", "M  x", "MM a.go", "", "AD"];
    PorcelainDeleted();
    assert lines[1..] == ["D  old.txt", "R  x", "M  x", "MM a.go", "", "AD"];
    assert lines[0][3..] == "new.txt";
    assert {"a.go"} + {"new.txt"} == {"a.go", "new.txt"};
  }

  lemma PorcelainDeleted()
    ensures DiscoverFrom(["D  old.txt", "R  x", "M  x", "MM a.go", "", "AD"], {"a.go", "new.txt"})
         == [DiffFile("old.txt", Deleted, [], false)]
  {
    var lines := ["D  old.txt", "R  x", "M  x", "MM a.go", "", "AD"];
    PorcelainRename();
    assert lines[1..] == ["R  x", "M  x", "MM a.go", "", "AD"];
    assert lines[0][3..] == "old.txt";
    assert "old.txt" !in {"a.go", "new.txt"} by { assert "old.txt"[0] != "new.txt"[0]; }
    assert {"a.go", "new.txt"} + {"old.txt"} == {"a.go", "new.txt", "old.txt"};
  }

  /** "x" is claimed by a rename line, whose code is not recognised. */
  lemma PorcelainRename()
    ensures DiscoverFrom(["R  x", "M  x", "MM a.go", "", "AD"], {"a.go", "new.txt", "old.txt"}) == []
  {
    var lines := ["R  x", "M  x", "MM a.go", "", "AD"];
    PorcelainRest();
    assert lines[1..] == ["M  x", "MM a.go", "", "AD"];
    assert lines[0][3..] == "x";
    assert PorcelainStatus('R', ' ') == None;
    assert {"a.go", "new.txt", "old.txt"} + {"x"} == {"a.go", "new.txt", "old.txt", "x"};
  }

  /** Paths already claimed, an empty line and a short line. */
  lemma PorcelainRest()
    ensures DiscoverFrom(["M  x", "MM a.go", "", "AD"], {"a.go", "new.txt", "old.txt", "x"}) == []
  {
    var lines := ["M  x", "MM a.go", "", "AD"];
    assert lines[0][3..] == "x" && lines[1][3..] == "a.go";
    assert lines[1..] == ["MM a.go", "", "AD"];
    assert lines[1..][1..] == ["", "AD"];
    assert lines[1..][1..][1..] == ["AD"];
  }
}
