/** The width helpers on the strings their unit tests use. */
module RenderExamples {
  import opened Render

  /** The bytes of an ASCII string. */
  function Ascii(s: string): (r: seq<byte>)
    requires forall i :: 0 <= i < |s| ==> s[i] as int < 0x80
    ensures |r| == |s|
    ensures forall i :: 0 <= i < |s| ==> r[i] as int == s[i] as int
  {
    seq(|s|, i requires 0 <= i < |s| => s[i] as int as byte)
  }

  /** Printable ASCII: no ESC, one column per byte. */
  lemma TextWidth(s: string)
    requires forall i :: 0 <= i < |s| ==> 0x20 <= s[i] as int < 0x7f
    ensures Width(Ascii(s)) == |s| && !Open(Ascii(s), |s|)
  {
    PlainWidth(Ascii(s));
  }

  /** ESC followed by a printable parameter string and a final letter. */
  function Sgr(params: string, final: char): seq<byte>
    requires forall i :: 0 <= i < |params| ==> 0x20 <= params[i] as int < 0x7f
    requires 0x20 <= final as int < 0x7f
  {
    [Esc] + Ascii(params + [final])
  }

  lemma SgrWidth(params: string, final: char)
    requires forall i :: 0 <= i < |params| ==> 0x20 <= params[i] as int < 0x7f && !('a' <= params[i] <= 'z') && !('A' <= params[i] <= 'Z')
    requires 'a' <= final <= 'z'
    ensures Width(Sgr(params, final)) == 0 && !Open(Sgr(params, final), |Sgr(params, final)|)
  {
    var s := Sgr(params, final);
    assert s[|s| - 1] as int == final as int;
    forall i | 0 < i < |s| - 1
      ensures s[i] != Esc && !IsLetter(s[i])
    {
      assert s[i] as int == params[i - 1] as int;
    }
    SequenceWidth(s);
  }

  /** Joining pieces that each close what they open. */
  lemma Join3(a: seq<byte>, b: seq<byte>, c: seq<byte>)
    requires !Open(a, |a|) && !Open(b, |b|)
    ensures Width(a + b + c) == Width(a) + Width(b) + Width(c)
    ensures !Open(c, |c|) ==> !Open(a + b + c, |a + b + c|)
  {
    ConcatWidth(a, b);
    ConcatWidth(a + b, c);
  }

  /** The strings of the visibleLen and truncateVisible tests. */
  function Hello(): seq<byte> { Ascii("hello") }
  function Coloured(): seq<byte> { Sgr("[32", 'm') + Ascii("hello") + Reset }
  function Background(): seq<byte> { Sgr("[48;5;22", 'm') + Ascii("green bg") + Reset }
  function OnlyEscapes(): seq<byte> { Sgr("[31", 'm') + Reset }
  function Mixed(): seq<byte> { Ascii("abc") + Sgr("[2", 'm') + Ascii("def") + Reset }
  function Triangle(): seq<byte> { [0xE2, 0x96, 0xB8] }
  function Check(): seq<byte> { [0xE2, 0x9C, 0x93] }
  function Elided(): seq<byte> { [0xE2, 0x80, 0xA6] + Ascii("path/to/file") }
  function HelloWorld(): seq<byte> { Sgr("[32", 'm') + Ascii("hello world") + Reset }
  function Abc(): seq<byte> { Ascii("abc") }

  lemma ColouredExample()
    ensures Width(Coloured()) == 5
  {
    SgrWidth("[32", 'm');
    TextWidth("hello");
    ResetWidth();
    Join3(Sgr("[32", 'm'), Ascii("hello"), Reset);
  }

  lemma BackgroundExample()
    ensures Width(Background()) == 8
  {
    SgrWidth("[48;5;22", 'm');
    TextWidth("green bg");
    ResetWidth();
    Join3(Sgr("[48;5;22", 'm'), Ascii("green bg"), Reset);
  }

  lemma OnlyEscapesExample()
    ensures Width(OnlyEscapes()) == 0
  {
    SgrWidth("[31", 'm');
    ResetWidth();
    ConcatWidth(Sgr("[31", 'm'), Reset);
  }

  lemma MixedExample()
    ensures Width(Mixed()) == 6
  {
    TextWidth("abc");
    SgrWidth("[2", 'm');
    TextWidth("def");
    ResetWidth();
    Join3(Ascii("abc"), Sgr("[2", 'm'), Ascii("def"));
    ConcatWidth(Ascii("abc") + Sgr("[2", 'm') + Ascii("def"), Reset);
  }

  /** A three-byte UTF-8 character takes one column. */
  lemma Utf8Example(c: seq<byte>)
    requires |c| == 3 && 0xE0 <= c[0] < 0xF0 && 0x80 <= c[1] < 0xC0 && 0x80 <= c[2] < 0xC0
    ensures Width(c) == 1 && !Open(c, 3)
  {
    PlainWidth(c);
    PlainWidth(c[..1]);
    OpenAgree(c, c[..1], 1);
    OpenAgree(c, c[..2], 2);
    PlainWidth(c[..2]);
    assert Shown(c, 0) && !Shown(c, 1) && !Shown(c, 2);
    assert ShownBefore(c, 1) == 1;
    assert ShownBefore(c, 2) == 1;
  }

  /** "▸", "✓" and "…path/to/file". */
  lemma Utf8Examples()
    ensures Width(Triangle()) == 1
    ensures Width(Check()) == 1
    ensures Width(Elided()) == 13
  {
    Utf8Example(Triangle());
    Utf8Example(Check());
    Utf8Example([0xE2, 0x80, 0xA6]);
    TextWidth("path/to/file");
    ConcatWidth([0xE2, 0x80, 0xA6], Ascii("path/to/file"));
  }

  /** visibleLen on a string whose width is known. */
  method KnownLen(s: seq<byte>, w: nat) returns (n: nat)
    requires Width(s) == w
    ensures n == w
  {
    n := VisibleLen(s);
  }

  /** The widths visibleLen reports for the test strings. */
  method VisibleLenExamples() returns (widths: seq<nat>)
    ensures widths == [5, 5, 8, 0, 0, 6, 1, 1, 13]
  {
    TextWidth("hello");
    ColouredExample();
    BackgroundExample();
    OnlyEscapesExample();
    MixedExample();
    Utf8Examples();
    var a := KnownLen(Hello(), 5);
    var b := KnownLen(Coloured(), 5);
    var c := KnownLen(Background(), 8);
    var d := KnownLen([], 0);
    var e := KnownLen(OnlyEscapes(), 0);
    var f := KnownLen(Mixed(), 6);
    var g := KnownLen(Triangle(), 1);
    var h := KnownLen(Check(), 1);
    var k := KnownLen(Elided(), 13);
    widths := [a, b, c, d, e, f, g, h, k];
  }

  /** The widths of the test strings after truncation. */
  method TruncateExamples() returns (widths: seq<nat>)
    ensures widths == [3, 5, 5, 0, 0]
  {
    TextWidth("hello");
    TextWidth("hello world");
    SgrWidth("[32", 'm');
    ResetWidth();
    Join3(Sgr("[32", 'm'), Ascii("hello world"), Reset);
    TextWidth("abc");
    var a := TruncateVisible(Hello(), 3);
    var b := TruncateVisible(Hello(), 10);
    var c := TruncateVisible(HelloWorld(), 5);
    var d := TruncateVisible(Abc(), 0);
    var e := TruncateVisible([], 5);
    widths := [Width(a), Width(b), Width(c), Width(d), Width(e)];
  }
}
