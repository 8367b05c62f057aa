/** Text helpers shared by the diff parser, the patch reconstructor and the
    status classifier: the Go standard-library string operations they use
    (strings.Split, strings.SplitN, strings.HasPrefix, strings.Fields,
    strconv.Atoi and fmt's %d), written over Dafny strings. */
module Text {

  datatype Option<T> = None | Some(value: T)

  /** strings.HasPrefix */
  predicate HasPrefix(s: string, p: string)
  {
    |p| <= |s| && s[..|p|] == p
  }

  lemma PrefixOfAppend(p: string, t: string)
    ensures HasPrefix(p + t, p)
  {
    assert (p + t)[..|p|] == p;
  }

  /** A string starting with character `c` starts with no prefix whose first
      character differs from `c`. */
  lemma NoPrefixWhenFirstDiffers(s: string, p: string)
    requires |s| > 0 && |p| > 0 && s[0] != p[0]
    ensures !HasPrefix(s, p)
  {
    if |p| <= |s| {
      assert s[..|p|][0] == s[0];
    }
  }

  // ---------------------------------------------------------------------
  // strings.Split(s, sep) for a one-character separator

  /** Index of the first occurrence of `c` in `s`. */
  function IndexOf(s: string, c: char): (r: nat)
    requires c in s
    ensures r < |s| && s[r] == c && c !in s[..r]
  {
    if s[0] == c then 0 else 1 + IndexOf(s[1..], c)
  }

  /** strings.Split(s, [sep]): the pieces between the separators, so that
      joining them back with `sep` gives `s` (see JoinSplit). */
  function Split(s: string, sep: char): (r: seq<string>)
    ensures |r| >= 1
    ensures forall i :: 0 <= i < |r| ==> sep !in r[i]
    decreases |s|
  {
    if sep !in s then [s]
    else
      var i := IndexOf(s, sep);
      [s[..i]] + Split(s[i + 1..], sep)
  }

  /** strings.Join(parts, [sep]) */
  function Join(parts: seq<string>, sep: char): string
    requires |parts| >= 1
  {
    if |parts| == 1 then parts[0] else parts[0] + [sep] + Join(parts[1..], sep)
  }

  /** Splitting and joining back is the identity. */
  lemma {:induction false} JoinSplit(s: string, sep: char)
    ensures Join(Split(s, sep), sep) == s
    decreases |s|
  {
    if sep in s {
      var i := IndexOf(s, sep);
      var head, rest := s[..i], s[i + 1..];
      var parts := Split(s, sep);
      assert parts == [head] + Split(rest, sep);
      assert parts[0] == head && parts[1..] == Split(rest, sep);
      JoinSplit(rest, sep);
      assert Join(parts, sep) == head + [sep] + rest;
      assert s == head + [sep] + rest;
    }
  }

  /** Splitting `l + [sep] + t` yields `l` followed by the pieces of `t`. */
  lemma SplitCons(l: string, sep: char, t: string)
    requires sep !in l
    ensures Split(l + [sep] + t, sep) == [l] + Split(t, sep)
  {
    SplitAt(l + [sep] + t, l, sep, t);
  }

  lemma SplitAt(s: string, l: string, sep: char, t: string)
    requires sep !in l && s == l + [sep] + t
    ensures Split(s, sep) == [l] + Split(t, sep)
  {
    assert s[|l|] == sep;
    assert sep in s;
    var i := IndexOf(s, sep);
    assert s[..i] == l;
    assert s[i + 1..] == t;
  }

  /** A separator appended at the end adds one empty piece. */
  lemma {:induction false} SplitSnoc(t: string, sep: char)
    ensures Split(t + [sep], sep) == Split(t, sep) + [[]]
    decreases |t|
  {
    if sep !in t {
      assert t + [sep] == t + [sep] + [];
      SplitCons(t, sep, []);
      assert Split([], sep) == [[]];
    } else {
      var i := IndexOf(t, sep);
      var head, rest := t[..i], t[i + 1..];
      assert t == head + [sep] + rest;
      SplitCons(head, sep, rest);
      SplitSnoc(rest, sep);
      SplitSnocStep(head, rest, sep);
    }
  }

  lemma SplitSnocStep(head: string, rest: string, sep: char)
    requires sep !in head
    requires Split(rest + [sep], sep) == Split(rest, sep) + [[]]
    ensures Split(head + [sep] + rest + [sep], sep) == Split(head + [sep] + rest, sep) + [[]]
  {
    Regroup(head + [sep], rest, [sep]);
    SplitAt(head + [sep] + rest + [sep], head, sep, rest + [sep]);
    SplitAt(head + [sep] + rest, head, sep, rest);
    Regroup([head], Split(rest, sep), [[]]);
  }

  /** Concatenation is associative. */
  lemma Regroup<T>(a: seq<T>, b: seq<T>, c: seq<T>)
    ensures a + b + c == a + (b + c)
  {
  }

  /** The last piece is empty only when the text ends with the separator. */
  lemma {:induction false} SplitLastPiece(t: string, sep: char)
    requires |t| > 0 && t[|t| - 1] != sep
    ensures Split(t, sep)[|Split(t, sep)| - 1] != []
    decreases |t|
  {
    if sep in t {
      var i := IndexOf(t, sep);
      var rest := t[i + 1..];
      LastOf(t, i);
      SplitLastPiece(rest, sep);
      LastNonEmpty(Split(t, sep), t[..i], Split(rest, sep));
    } else {
      assert Split(t, sep) == [t];
    }
  }

  lemma LastNonEmpty<T>(whole: seq<seq<T>>, x: seq<T>, pieces: seq<seq<T>>)
    requires whole == [x] + pieces && |pieces| > 0 && pieces[|pieces| - 1] != []
    ensures whole[|whole| - 1] != []
  {
    assert whole[|whole| - 1] == pieces[|pieces| - 1];
  }

  lemma LastOf<T>(s: seq<T>, i: nat)
    requires i < |s| - 1
    ensures |s[i + 1..]| > 0 && s[i + 1..][|s[i + 1..]| - 1] == s[|s| - 1]
  {
  }

  /** Every line followed by a newline: the text a strings.Builder holds after
      writing each line and then "\n". */
  function Unlines(ls: seq<string>): (r: string)
    ensures |r| >= |ls|
    ensures |ls| > 0 ==> r[|r| - 1] == '\n'
  {
    if ls == [] then [] else ls[0] + "\n" + Unlines(ls[1..])
  }

  lemma {:induction false} UnlinesAppend(a: seq<string>, b: seq<string>)
    ensures Unlines(a + b) == Unlines(a) + Unlines(b)
  {
    if a != [] {
      assert (a + b)[1..] == a[1..] + b;
      UnlinesAppend(a[1..], b);
    } else {
      assert a + b == b;
    }
  }

  /** Splitting newline-terminated lines on newlines gives the lines back,
      followed by the pieces of whatever comes after them. */
  lemma SplitUnlinesHead(ls: seq<string>, t: string)
    requires ls != [] && '\n' !in ls[0]
    ensures Split(Unlines(ls) + t, '\n') == [ls[0]] + Split(Unlines(ls[1..]) + t, '\n')
  {
    assert Unlines(ls) + t == ls[0] + ['\n'] + (Unlines(ls[1..]) + t);
    SplitCons(ls[0], '\n', Unlines(ls[1..]) + t);
  }

  lemma {:induction false} SplitUnlines(ls: seq<string>, t: string)
    requires forall i :: 0 <= i < |ls| ==> '\n' !in ls[i]
    ensures Split(Unlines(ls) + t, '\n') == ls + Split(t, '\n')
  {
    if ls != [] {
      var tail, pieces := ls[1..], Split(t, '\n');
      SplitUnlinesHead(ls, t);
      SplitUnlines(tail, t);
      Regroup([ls[0]], tail, pieces);
      assert ls == [ls[0]] + tail;
    } else {
      assert Unlines(ls) + t == t;
    }
  }

  // ---------------------------------------------------------------------
  // strings.SplitN(s, sep, 2) / strings.Cut: split around the first occurrence

  /** `sep` occurs in `s` at position `i`. */
  predicate OccursAt(s: string, sep: string, i: nat)
  {
    i + |sep| <= |s| && s[i..i + |sep|] == sep
  }

  /** The text before and after the first occurrence of `sep`, if any. */
  function Cut(s: string, sep: string): (r: Option<(string, string)>)
    requires |sep| > 0
    ensures r.None? <==> forall i: nat :: !OccursAt(s, sep, i)
    ensures r.Some? ==>
              && s == r.value.0 + sep + r.value.1
              && OccursAt(s, sep, |r.value.0|)
              && forall i: nat :: i < |r.value.0| ==> !OccursAt(s, sep, i)
    decreases |s|
  {
    if |s| < |sep| then None
    else if s[..|sep|] == sep then
      assert OccursAt(s, sep, 0);
      Some(([], s[|sep|..]))
    else
      OccursShifted(s, sep);
      match Cut(s[1..], sep)
      case None => None
      case Some((a, b)) =>
        ConsAppend(s[0], a, sep, b);
        assert s == [s[0]] + s[1..];
        assert s == ([s[0]] + a) + sep + b;
        assert OccursAt(s, sep, |a| + 1);
        assert forall i: nat :: i < |a| + 1 ==> !OccursAt(s, sep, i);
        Some(([s[0]] + a, b))
  }

  /** Away from position 0, the occurrences in `s` are those in `s[1..]`,
      shifted by one. */
  lemma OccursShifted(s: string, sep: string)
    requires |s| > 0 && |sep| > 0 && !OccursAt(s, sep, 0)
    ensures forall i: nat :: OccursAt(s, sep, i) <==> (i > 0 && OccursAt(s[1..], sep, i - 1))
  {
    forall i: nat | i > 0
      ensures OccursAt(s, sep, i) == OccursAt(s[1..], sep, i - 1)
    {
      if i + |sep| <= |s| {
        var u, v := s[i..i + |sep|], s[1..][i - 1..i - 1 + |sep|];
        assert forall k :: 0 <= k < |sep| ==> u[k] == v[k];
        assert u == v;
      }
    }
  }

  lemma ConsAppend(c: char, a: string, sep: string, b: string)
    ensures [c] + (a + sep + b) == ([c] + a) + sep + b
  {
  }

  /** If the separator's first character does not occur in `a`, the first
      occurrence in `a + sep + b` is the one right after `a`. */
  lemma CutAfter(a: string, sep: string, b: string)
    requires |sep| > 0 && sep[0] !in a
    ensures Cut(a + sep + b, sep) == Some((a, b))
  {
    var s := a + sep + b;
    assert s[|a|..|a| + |sep|] == sep;
    assert OccursAt(s, sep, |a|);
    var r := Cut(s, sep);
    var a' := r.value.0;
    assert a' == s[..|a|] == a;
    assert r.value.1 == s[|a| + |sep|..] == b;
  }

  /** A string without the separator's first character has no occurrence of it. */
  lemma CutAbsent(s: string, sep: string)
    requires |sep| > 0 && sep[0] !in s
    ensures Cut(s, sep).None?
  {
  }

  // ---------------------------------------------------------------------
  // strings.Fields

  /** unicode.IsSpace */
  predicate IsSpace(c: char)
  {
    c == ' ' || c == '\t' || c == '\n' || c == '\U{0B}' || c == '\U{0C}' || c == '\r'
    || c == '\U{85}' || c == '\U{A0}' || c == '\U{1680}'
    || ('\U{2000}' <= c <= '\U{200A}') || c == '\U{2028}' || c == '\U{2029}'
    || c == '\U{202F}' || c == '\U{205F}' || c == '\U{3000}'
  }

  predicate NoSpace(s: string)
  {
    forall i :: 0 <= i < |s| ==> !IsSpace(s[i])
  }

  /** Length of the maximal run of non-space characters at the start of `s`. */
  function WordEnd(s: string): (k: nat)
    ensures k <= |s| && NoSpace(s[..k]) && (k < |s| ==> IsSpace(s[k]))
  {
    if s == [] || IsSpace(s[0]) then 0
    else
      var k := 1 + WordEnd(s[1..]);
      assert s[..k] == [s[0]] + s[1..][..k - 1];
      k
  }

  /** strings.Fields: the maximal runs of non-space characters, in order. */
  function Fields(s: string): (r: seq<string>)
    ensures forall i :: 0 <= i < |r| ==> |r[i]| > 0 && NoSpace(r[i])
    decreases |s|
  {
    if s == [] then []
    else if IsSpace(s[0]) then Fields(s[1..])
    else
      var k := WordEnd(s);
      [s[..k]] + Fields(s[k..])
  }

  lemma FieldsSpace(c: char, s: string)
    requires IsSpace(c)
    ensures Fields([c] + s) == Fields(s)
  {
    assert ([c] + s)[1..] == s;
  }

  lemma {:induction false} WordEndOf(w: string, rest: string)
    requires NoSpace(w) && (rest != [] ==> IsSpace(rest[0]))
    ensures WordEnd(w + rest) == |w|
    decreases |w|
  {
    if w != [] {
      assert (w + rest)[1..] == w[1..] + rest;
      WordEndOf(w[1..], rest);
    } else {
      assert w + rest == rest;
    }
  }

  /** A word followed by a space is the first field. */
  lemma FieldsWord(w: string, c: char, s: string)
    requires |w| > 0 && NoSpace(w) && IsSpace(c)
    ensures Fields(w + [c] + s) == [w] + Fields(s)
  {
    var t := w + [c] + s;
    assert t == w + ([c] + s);
    WordEndOf(w, [c] + s);
    assert t[..|w|] == w;
    assert t[|w|..] == [c] + s;
    FieldsSpace(c, s);
  }

  // ---------------------------------------------------------------------
  // Decimal numbers: fmt's %d and strconv.Atoi

  predicate IsDigit(c: char)
  {
    '0' <= c <= '9'
  }

  predicate AllDigits(s: string)
  {
    forall i :: 0 <= i < |s| ==> IsDigit(s[i])
  }

  function DigitChar(d: nat): (c: char)
    requires d < 10
    ensures IsDigit(c)
  {
    ['0', '1', '2', '3', '4', '5', '6', '7', '8', '9'][d]
  }

  function DigitValue(c: char): (d: nat)
    requires IsDigit(c)
    ensures d < 10
  {
    (c as int - '0' as int) as nat
  }

  /** The value of a string of decimal digits. */
  function DecimalValue(s: string): nat
    requires AllDigits(s)
  {
    if s == [] then 0 else 10 * DecimalValue(s[..|s| - 1]) + DigitValue(s[|s| - 1])
  }

  /** fmt's %d on a non-negative number. */
  function NatToString(n: nat): (r: string)
    ensures |r| > 0 && AllDigits(r)
  {
    if n < 10 then [DigitChar(n)] else NatToString(n / 10) + [DigitChar(n % 10)]
  }

  /** fmt's %d. */
  function IntToString(i: int): (r: string)
    ensures |r| > 0
    ensures i >= 0 ==> AllDigits(r)
    ensures i < 0 ==> r[0] == '-'
  {
    if i < 0 then "-" + NatToString(-i) else NatToString(i)
  }

  /** strconv.Atoi with its error ignored, restricted to unsigned decimals:
      the value of a non-empty all-digit string, and 0 for anything else. */
  function ParseDecimal(s: string): (r: nat)
    ensures (|s| == 0 || !AllDigits(s)) ==> r == 0
  {
    if |s| > 0 && AllDigits(s) then DecimalValue(s) else 0
  }

  /** Printing a number and parsing it back gives the number. */
  lemma {:induction false} ParsePrinted(n: nat)
    ensures ParseDecimal(NatToString(n)) == n
    ensures ParseDecimal(IntToString(n)) == n
  {
    if n >= 10 {
      ParsePrinted(n / 10);
      var s := NatToString(n);
      assert s[..|s| - 1] == NatToString(n / 10);
      assert s[|s| - 1] == DigitChar(n % 10);
      assert DigitValue(DigitChar(n % 10)) == n % 10;
      assert DecimalValue(s) == 10 * (n / 10) + n % 10;
    } else {
      assert DigitValue(DigitChar(n)) == n;
      assert NatToString(n)[..0] == [];
    }
    assert IntToString(n) == NatToString(n);
  }
}
