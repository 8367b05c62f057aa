/** The width helpers of the screen painter (gitstage/render.go). Strings are
    byte sequences; an ANSI escape sequence (ESC up to and including the next
    ASCII letter) takes no column, and every UTF-8 character takes one, counted
    at its first byte. */
module Render {

  newtype byte = b: int | 0 <= b < 256

  const Esc: byte := 0x1b
  const Space: byte := 0x20

  /** colorReset, ESC "[0m". */
  const Reset: seq<byte> := [0x1b, 0x5b, 0x30, 0x6d]

  predicate IsLetter(b: byte)
  {
    (0x61 <= b <= 0x7a) || (0x41 <= b <= 0x5a)
  }

  /** An ASCII byte or the lead byte of a multi-byte UTF-8 character. */
  predicate StartsChar(b: byte)
  {
    b < 0x80 || b >= 0xC0
  }

  function Min(a: int, b: int): int { if a <= b then a else b }
  function Max(a: int, b: int): int { if a >= b then a else b }

  // ---------------------------------------------------------------------
  // Which bytes take a column

  /** Just before byte `i` an escape sequence is open: an earlier ESC has not
      yet been closed by a letter. */
  predicate Open(s: seq<byte>, i: nat)
    requires i <= |s|
  {
    exists j :: 0 <= j < i && s[j] == Esc && forall m :: j < m < i ==> !IsLetter(s[m])
  }

  /** Byte `i` belongs to an escape sequence: an ESC, or any byte read while
      one is open, the closing letter included. */
  predicate Escaped(s: seq<byte>, i: nat)
    requires i < |s|
  {
    s[i] == Esc || Open(s, i)
  }

  /** Byte `i` takes a column. */
  predicate Shown(s: seq<byte>, i: nat)
    requires i < |s|
  {
    !Escaped(s, i) && StartsChar(s[i])
  }

  /** How many of the first `n` bytes take a column. */
  function ShownBefore(s: seq<byte>, n: nat): nat
    requires n <= |s|
  {
    if n == 0 then 0 else ShownBefore(s, n - 1) + (if Shown(s, n - 1) then 1 else 0)
  }

  /** The number of columns `s` takes on screen. */
  function Width(s: seq<byte>): nat
  {
    ShownBefore(s, |s|)
  }

  /** Reading one byte: an ESC opens a sequence, a letter closes an open one,
      anything else leaves the state as it was. */
  lemma OpenStep(s: seq<byte>, i: nat)
    requires i < |s|
    ensures Open(s, i + 1) == (s[i] == Esc || (Open(s, i) && !IsLetter(s[i])))
  {
    if s[i] == Esc {
      assert 0 <= i < i + 1 && s[i] == Esc;
    } else if Open(s, i) && !IsLetter(s[i]) {
      var j :| 0 <= j < i && s[j] == Esc && forall m :: j < m < i ==> !IsLetter(s[m]);
      assert forall m :: j < m < i + 1 ==> !IsLetter(s[m]);
    } else {
      forall j | 0 <= j < i + 1 && s[j] == Esc
        ensures exists m :: j < m < i + 1 && IsLetter(s[m])
      {
        if IsLetter(s[i]) {
          assert j < i && IsLetter(s[i]);
        }
      }
    }
  }

  lemma {:induction false} ShownBeforeMonotone(s: seq<byte>, a: nat, b: nat)
    requires a <= b <= |s|
    ensures ShownBefore(s, a) <= ShownBefore(s, b)
    decreases b
  {
    if a < b {
      ShownBeforeMonotone(s, a, b - 1);
    }
  }

  // ---------------------------------------------------------------------
  // Widths of joined strings

  /** Whether a sequence is open at `i` depends on the bytes before `i` only. */
  lemma OpenAgree(s: seq<byte>, t: seq<byte>, i: nat)
    requires i <= |s| && i <= |t| && s[..i] == t[..i]
    ensures Open(s, i) == Open(t, i)
  {
    assert forall k :: 0 <= k < i ==> s[k] == s[..i][k] == t[..i][k] == t[k];
    if Open(s, i) {
      var j :| 0 <= j < i && s[j] == Esc && forall m :: j < m < i ==> !IsLetter(s[m]);
      assert t[j] == Esc && forall m :: j < m < i ==> !IsLetter(t[m]);
    }
    if Open(t, i) {
      var j :| 0 <= j < i && t[j] == Esc && forall m :: j < m < i ==> !IsLetter(t[m]);
      assert s[j] == Esc && forall m :: j < m < i ==> !IsLetter(s[m]);
    }
  }

  /** Strings that agree on their first `n` bytes show as many of them. */
  lemma {:induction false} ShownBeforeAgree(s: seq<byte>, t: seq<byte>, n: nat)
    requires n <= |s| && n <= |t| && s[..n] == t[..n]
    ensures ShownBefore(s, n) == ShownBefore(t, n)
  {
    if n > 0 {
      assert s[..n - 1] == s[..n][..n - 1] == t[..n][..n - 1] == t[..n - 1];
      ShownBeforeAgree(s, t, n - 1);
      OpenAgree(s, t, n - 1);
      assert s[n - 1] == s[..n][n - 1] == t[..n][n - 1] == t[n - 1];
    }
  }

  /** Past the end of a string with no open sequence, the bytes of `b` are
      read as if `b` stood alone. */
  lemma OpenAfter(a: seq<byte>, b: seq<byte>, q: nat)
    requires !Open(a, |a|) && q <= |b|
    ensures Open(a + b, |a| + q) == Open(b, q)
  {
    var u := a + b;
    forall j | 0 <= j < |a| && u[j] == Esc
      ensures exists m :: j < m < |a| + q && IsLetter(u[m])
    {
      assert a[j] == Esc;
      var m :| j < m < |a| && IsLetter(a[m]);
      assert u[m] == a[m];
    }
    if Open(u, |a| + q) {
      var j :| 0 <= j < |a| + q && u[j] == Esc && forall m :: j < m < |a| + q ==> !IsLetter(u[m]);
      assert j >= |a|;
      forall m | j - |a| < m < q ensures !IsLetter(b[m]) {
        assert u[|a| + m] == b[m];
      }
      assert b[j - |a|] == Esc;
    }
    if Open(b, q) {
      var j :| 0 <= j < q && b[j] == Esc && forall m :: j < m < q ==> !IsLetter(b[m]);
      assert u[|a| + j] == Esc;
      forall m | |a| + j < m < |a| + q ensures !IsLetter(u[m]) {
        assert u[m] == b[m - |a|];
      }
    }
  }

  lemma {:induction false} ShownAfter(a: seq<byte>, b: seq<byte>, q: nat)
    requires !Open(a, |a|) && q <= |b|
    ensures ShownBefore(a + b, |a| + q) == Width(a) + ShownBefore(b, q)
  {
    if q == 0 {
      ShownBeforeAgree(a + b, a, |a|);
    } else {
      ShownAfter(a, b, q - 1);
      OpenAfter(a, b, q - 1);
      assert (a + b)[|a| + q - 1] == b[q - 1];
    }
  }

  /** Columns add up when the first string closes every sequence it opens;
      the join is then open exactly when the second string is. */
  lemma ConcatWidth(a: seq<byte>, b: seq<byte>)
    requires !Open(a, |a|)
    ensures Width(a + b) == Width(a) + Width(b)
    ensures Open(a + b, |a + b|) == Open(b, |b|)
  {
    ShownAfter(a, b, |b|);
    OpenAfter(a, b, |b|);
  }

  /** A string without ESC bytes opens nothing; it takes a column per
      character start. */
  lemma {:induction false} PlainWidth(s: seq<byte>)
    requires forall i :: 0 <= i < |s| ==> s[i] != Esc
    ensures !Open(s, |s|)
    ensures (forall i :: 0 <= i < |s| ==> StartsChar(s[i])) ==> Width(s) == |s|
  {
    if s != [] {
      var init := s[..|s| - 1];
      PlainWidth(init);
      OpenAgree(s, init, |s| - 1);
      OpenStep(s, |s| - 1);
      ShownBeforeAgree(s, init, |s| - 1);
    }
  }

  /** One complete escape sequence (ESC, bytes that are neither ESC nor
      letters, a closing letter) takes no column and leaves nothing open. */
  lemma SequenceWidth(s: seq<byte>)
    requires |s| >= 2 && s[0] == Esc && IsLetter(s[|s| - 1])
    requires forall i :: 0 < i < |s| - 1 ==> s[i] != Esc && !IsLetter(s[i])
    ensures Width(s) == 0 && !Open(s, |s|)
  {
    forall i | 0 < i < |s|
      ensures Open(s, i)
    {
      assert forall m :: 0 < m < i ==> !IsLetter(s[m]);
    }
    ZeroShown(s, |s|);
    forall j | 0 <= j < |s| && s[j] == Esc
      ensures exists m :: j < m < |s| && IsLetter(s[m])
    {
      assert IsLetter(s[|s| - 1]);
    }
  }

  lemma {:induction false} ZeroShown(s: seq<byte>, n: nat)
    requires |s| > 0 && s[0] == Esc && n <= |s|
    requires forall i :: 0 < i < |s| ==> Open(s, i)
    ensures ShownBefore(s, n) == 0
  {
    if n > 0 {
      ZeroShown(s, n - 1);
    }
  }

  lemma ResetWidth()
    ensures Width(Reset) == 0 && !Open(Reset, |Reset|)
  {
    SequenceWidth(Reset);
  }

  // ---------------------------------------------------------------------
  // visibleLen, truncateVisible, padRight

  /** visibleLen: one pass over the bytes, tracking whether a sequence is
      open. */
  method VisibleLen(s: seq<byte>) returns (count: nat)
    ensures count == Width(s)
  {
    count := 0;
    var inEsc := false;
    var i := 0;
    while i < |s|
      invariant i <= |s|
      invariant count == ShownBefore(s, i)
      invariant inEsc == Open(s, i)
    {
      OpenStep(s, i);
      if s[i] == Esc {
        inEsc := true;
      } else if inEsc {
        if IsLetter(s[i]) {
          inEsc := false;
        }
      } else if StartsChar(s[i]) {
        count := count + 1;
      }
      i := i + 1;
    }
  }

  /** Cutting at a byte that takes a column and appending the reset keeps
      the columns before the cut. */
  lemma CutWidth(s: seq<byte>, p: nat)
    requires p < |s| && Shown(s, p)
    ensures Width(s[..p] + Reset) == ShownBefore(s, p)
  {
    OpenAgree(s, s[..p], p);
    ConcatWidth(s[..p], Reset);
    ResetWidth();
    ShownBeforeAgree(s, s[..p], p);
  }

  /** truncateVisible: keep the first `maxVisible` columns, escape sequences
      included; when something is cut off, end with the reset sequence. */
  method TruncateVisible(s: seq<byte>, maxVisible: int) returns (r: seq<byte>)
    ensures maxVisible <= 0 ==> r == []
    ensures maxVisible > 0 && Width(s) <= maxVisible ==> r == s
    ensures maxVisible > 0 && Width(s) > maxVisible ==>
              && |Reset| <= |r| < |s| + |Reset|
              && r == s[..|r| - |Reset|] + Reset
              && Shown(s, |r| - |Reset|)
              && ShownBefore(s, |r| - |Reset|) == maxVisible
    ensures Width(r) == Min(Max(maxVisible, 0), Width(s))
  {
    if maxVisible <= 0 {
      return [];
    }
    var count := 0;
    var inEsc := false;
    r := [];
    var i := 0;
    while i < |s|
      invariant i <= |s|
      invariant r == s[..i]
      invariant count == ShownBefore(s, i) <= maxVisible
      invariant inEsc == Open(s, i)
    {
      OpenStep(s, i);
      if s[i] == Esc {
        inEsc := true;
        r := r + [s[i]];
      } else if inEsc {
        r := r + [s[i]];
        if IsLetter(s[i]) {
          inEsc := false;
        }
      } else {
        if StartsChar(s[i]) {
          if count >= maxVisible {
            ShownBeforeMonotone(s, i + 1, |s|);
            CutWidth(s, i);
            r := r + Reset;
            assert r[..i] == s[..i];
            return;
          }
          count := count + 1;
        }
        r := r + [s[i]];
      }
      i := i + 1;
    }
    assert s[..i] == s;
  }

  /** padRight: spaces after `s` up to `width` columns; `s` itself when it is
      already that wide. */
  function PadRight(s: seq<byte>, width: int): (r: seq<byte>)
    ensures Width(s) >= width ==> r == s
    ensures Width(s) < width ==>
              && |r| == |s| + (width - Width(s)) && r[..|s|] == s
              && forall i :: |s| <= i < |r| ==> r[i] == Space
  {
    if Width(s) >= width then s else s + seq(width - Width(s), _ => Space)
  }

  /** A string that leaves no sequence open is padded to exactly
      max(width, its own width) columns. */
  lemma PadRightWidth(s: seq<byte>, width: int)
    requires !Open(s, |s|)
    ensures Width(PadRight(s, width)) == Max(width, Width(s))
  {
    if Width(s) < width {
      var pad := seq(width - Width(s), _ => Space);
      assert PadRight(s, width) == s + pad;
      PlainWidth(pad);
      ConcatWidth(s, pad);
    }
  }

  /** The blank cells the painter draws: padRight of the empty string. */
  lemma PadEmpty(width: int)
    ensures Width(PadRight([], width)) == Max(width, 0)
  {
    PadRightWidth([], width);
  }
}
