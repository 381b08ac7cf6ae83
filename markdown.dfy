/**
 * The markdown check of the post schema: content passes only when its
 * markdown tree holds a heading of depth 1. The tree comes from a CommonMark
 * parser; this module approximates the two ways CommonMark writes a depth-1
 * heading with a line-based reading of the text:
 *   - an ATX heading: at most three spaces, a single `#`, then a space, a tab
 *     or the end of the line;
 *   - a setext heading: a paragraph line followed by a line of `=` signs
 *     (at most three spaces before them, spaces or tabs after them).
 * Lines end at a line feed; a carriage return just before it belongs to the
 * line ending, so CRLF text reads as LF text does.
 */
module Markdown {

  /** Splits text at every line feed. */
  function Lines(s: string): (ls: seq<string>)
    ensures |ls| >= 1
    decreases |s|
  {
    if s == [] then [[]]
    else
      var rest := Lines(s[1..]);
      if s[0] == '\n' then [[]] + rest
      else [[s[0]] + rest[0]] + rest[1..]
  }

  /** The inverse of `Lines`: puts the line feeds back. */
  function Unlines(ls: seq<string>): string
    requires |ls| >= 1
  {
    if |ls| == 1 then ls[0] else ls[0] + ("\n" + Unlines(ls[1..]))
  }

  predicate NoLineFeed(line: string) {
    forall i :: 0 <= i < |line| ==> line[i] != '\n'
  }

  lemma {:induction false} LinesHaveNoLineFeed(s: string)
    ensures forall k :: 0 <= k < |Lines(s)| ==> NoLineFeed(Lines(s)[k])
    decreases |s|
  {
    if s != [] {
      LinesHaveNoLineFeed(s[1..]);
      var rest := Lines(s[1..]);
      if s[0] != '\n' {
        var first := [s[0]] + rest[0];
        assert NoLineFeed(rest[0]);
        assert forall i :: 1 <= i < |first| ==> first[i] == rest[0][i - 1];
        assert NoLineFeed(first);
      }
    }
  }

  /** Splitting and joining again gives back the text. */
  lemma {:induction false} UnlinesLines(s: string)
    ensures Unlines(Lines(s)) == s
    decreases |s|
  {
    if s != [] {
      UnlinesLines(s[1..]);
      var rest := Lines(s[1..]);
      if s[0] == '\n' {
        assert Lines(s)[1..] == rest;
      } else {
        var ls := Lines(s);
        if |rest| == 1 {
          assert ls == [[s[0]] + rest[0]];
        } else {
          assert ls[1..] == rest[1..];
          assert Unlines(rest) == rest[0] + ("\n" + Unlines(rest[1..]));
        }
      }
    }
  }

  /** Joining two texts with a line feed concatenates their lines. */
  lemma {:induction false} LinesOfJoin(a: string, b: string)
    ensures Lines(a + ("\n" + b)) == Lines(a) + Lines(b)
    decreases |a|
  {
    if a == [] {
      assert a + ("\n" + b) == ['\n'] + b;
      LinesBreak(b);
    } else {
      var c, t := a[0], a[1..];
      assert a + ("\n" + b) == [c] + (t + ("\n" + b));
      assert a == [c] + t;
      LinesOfJoin(t, b);
      if c == '\n' {
        LinesBreak(t + ("\n" + b));
        LinesBreak(t);
        assert [[]] + (Lines(t) + Lines(b)) == ([[]] + Lines(t)) + Lines(b);
      } else {
        LinesCons(c, t + ("\n" + b));
        LinesCons(c, t);
        ExtendFirstLine(c, Lines(t), Lines(b));
      }
    }
  }

  lemma LinesBreak(s: string)
    ensures Lines(['\n'] + s) == [[]] + Lines(s)
  {
    assert (['\n'] + s)[1..] == s;
  }

  lemma ExtendFirstLine(c: char, la: seq<string>, lb: seq<string>)
    requires |la| >= 1
    ensures [[c] + (la + lb)[0]] + (la + lb)[1..] == ([[c] + la[0]] + la[1..]) + lb
  {
    assert (la + lb)[0] == la[0];
    assert (la + lb)[1..] == la[1..] + lb;
  }

  /** A line without the carriage return of a CRLF ending. */
  function Chomp(line: string): string {
    if line != [] && line[|line| - 1] == '\r' then line[..|line| - 1] else line
  }

  /** `Chomp` removes at most one carriage return, and only one that ends the line. */
  lemma ChompDropsEndingCr(line: string)
    ensures line == Chomp(line) || line == Chomp(line) + "\r"
    ensures Chomp(line) == line <==> line == [] || line[|line| - 1] != '\r'
  {
    if line != [] && line[|line| - 1] == '\r' {
      assert line == line[..|line| - 1] + "\r";
    }
  }

  /** The number of spaces that open a line. */
  function Indent(line: string): (n: nat)
    ensures n <= |line|
    ensures forall i :: 0 <= i < n ==> line[i] == ' '
    ensures n < |line| ==> line[n] != ' '
  {
    if line != [] && line[0] == ' ' then 1 + Indent(line[1..]) else 0
  }

  /** The number of `#` signs that open a text. */
  function HashRun(s: string): (n: nat)
    ensures n <= |s|
    ensures n < |s| ==> s[n] != '#'
  {
    if s != [] && s[0] == '#' then 1 + HashRun(s[1..]) else 0
  }

  predicate IsBlankChar(c: char) {
    c == ' ' || c == '\t'
  }

  predicate IsBlank(line: string) {
    forall i :: 0 <= i < |line| ==> IsBlankChar(line[i])
  }

  /** The opening sequence of an ATX heading of any depth from one to six. */
  predicate IsAtxHeading(line: string) {
    var k := Indent(line);
    var h := HashRun(line[k..]);
    k <= 3 && 1 <= h <= 6 && (k + h == |line| || IsBlankChar(line[k + h]))
  }

  /** An ATX heading of depth one. */
  predicate IsAtxH1(line: string) {
    IsAtxHeading(line) && HashRun(line[Indent(line)..]) == 1
  }

  /** How often `c` occurs in `s`. */
  function Count(s: string, c: char): (n: nat)
    ensures n <= |s|
  {
    if s == [] then 0 else (if s[0] == c then 1 else 0) + Count(s[1..], c)
  }

  /** A thematic break made of `c`: at least three of them, with blanks between, after up to three spaces. */
  predicate ThematicWith(line: string, c: char) {
    Indent(line) <= 3 && Count(line, c) >= 3 && forall i :: 0 <= i < |line| ==> line[i] == c || IsBlankChar(line[i])
  }

  predicate IsThematicBreak(line: string) {
    ThematicWith(line, '*') || ThematicWith(line, '-') || ThematicWith(line, '_')
  }

  /** A line that can stand in a paragraph: not blank, not code, not an ATX heading, not a thematic break. */
  predicate IsParagraphLine(line: string) {
    !IsBlank(line) && Indent(line) <= 3 && !IsAtxHeading(line) && !IsThematicBreak(line)
  }

  /** A setext underline of depth one: `=` signs with optional blanks around them. */
  predicate IsEqualsUnderline(line: string) {
    var k := Indent(line);
    k <= 3 && exists j :: k < j <= |line| && IsEqualsRun(line, k, j) && IsBlank(line[j..])
  }

  predicate IsEqualsRun(line: string, lo: nat, hi: nat)
    requires lo <= hi <= |line|
  {
    forall i :: lo <= i < hi ==> line[i] == '='
  }

  /** A depth-1 heading begins on line `i`. */
  predicate H1At(ls: seq<string>, i: nat)
    requires i < |ls|
  {
    IsAtxH1(Chomp(ls[i])) || (i + 1 < |ls| && IsParagraphLine(Chomp(ls[i])) && IsEqualsUnderline(Chomp(ls[i + 1])))
  }

  /** The parsed tree holds a heading of depth 1. */
  predicate HasH1(content: string) {
    var ls := Lines(content);
    exists i: nat :: i < |ls| && H1At(ls, i)
  }

  /** A heading found in one part of the text is still found once more lines come before it. */
  lemma H1AfterLines(a: string, b: string)
    requires HasH1(b)
    ensures HasH1(a + ("\n" + b))
  {
    LinesOfJoin(a, b);
    var la, lb := Lines(a), Lines(b);
    var i: nat :| i < |lb| && H1At(lb, i);
    H1AtShifted(la, lb, i);
    assert H1At(Lines(a + ("\n" + b)), |la| + i);
  }

  lemma H1AtShifted(la: seq<string>, lb: seq<string>, i: nat)
    requires i < |lb| && H1At(lb, i)
    ensures H1At(la + lb, |la| + i)
  {
    var ls := la + lb;
    assert ls[|la| + i] == lb[i];
    if i + 1 < |lb| {
      assert ls[|la| + i + 1] == lb[i + 1];
    }
  }

  lemma H1AtExtended(la: seq<string>, lb: seq<string>, i: nat)
    requires i < |la| && H1At(la, i)
    ensures H1At(la + lb, i)
  {
    var ls := la + lb;
    assert ls[i] == la[i];
    if i + 1 < |la| {
      assert ls[i + 1] == la[i + 1];
    }
  }

  /** A heading found in one part of the text is still found once more lines follow it. */
  lemma H1BeforeLines(a: string, b: string)
    requires HasH1(a)
    ensures HasH1(a + ("\n" + b))
  {
    LinesOfJoin(a, b);
    var la, lb := Lines(a), Lines(b);
    var i: nat :| i < |la| && H1At(la, i);
    H1AtExtended(la, lb, i);
    assert H1At(Lines(a + ("\n" + b)), i);
  }

  /** A text without a line feed is a single line. */
  lemma {:induction false} SingleLine(s: string)
    requires NoLineFeed(s)
    ensures Lines(s) == [s]
    decreases |s|
  {
    if s != [] {
      assert NoLineFeed(s[1..]) by {
        assert forall i :: 0 <= i < |s[1..]| ==> s[1..][i] == s[i + 1];
      }
      SingleLine(s[1..]);
      assert [s[0]] + s[1..] == s;
    }
  }

  /** A character other than a line feed joins the first line. */
  lemma LinesCons(c: char, s: string)
    requires c != '\n'
    ensures Lines([c] + s) == [[c] + Lines(s)[0]] + Lines(s)[1..]
  {
    assert ([c] + s)[1..] == s;
  }

  /** Text that opens with `# ` has a depth-1 heading, whatever follows. */
  lemma HashSpaceOpensH1(t: string)
    ensures HasH1("# " + t)
  {
    LinesCons(' ', t);
    assert "# " + t == ['#'] + (" " + t);
    LinesCons('#', " " + t);
    var first := Lines("# " + t)[0];
    assert first == "# " + Lines(t)[0];
    var c := Chomp(first);
    assert |c| >= 2 && c[0] == '#' && c[1] == ' ';
    assert Indent(c) == 0;
    assert c[0..] == c;
    assert HashRun(c[1..]) == 0;
    assert HashRun(c) == 1;
    assert H1At(Lines("# " + t), 0);
  }

  /** Empty content has no heading. */
  lemma EmptyHasNoH1()
    ensures !HasH1("")
  {
    assert Lines("") == [""];
  }

  /** A depth-2 heading is not a depth-1 heading. */
  lemma SubheadingIsNotH1()
    ensures !HasH1("## Sub")
  {
    var line := "## Sub";
    SingleLine(line);
    assert Indent(line) == 0;
    assert line[0..] == line;
    assert HashRun(line[2..]) == 0;
    assert HashRun(line[1..]) == 1;
    assert HashRun(line) == 2;
  }

  /** A hash without a following blank is paragraph text. */
  lemma HashtagIsNotH1()
    ensures !HasH1("#tag")
  {
    var line := "#tag";
    SingleLine(line);
    assert Indent(line) == 0;
    assert line[0..] == line;
    assert HashRun(line[1..]) == 0;
  }

  lemma TitleIsParagraphLine()
    ensures IsParagraphLine("Title")
  {
    assert Indent("Title") == 0;
    assert "Title"[0..] == "Title";
    assert HashRun("Title") == 0;
    assert !IsBlankChar("Title"[0]);
  }

  lemma EqualsIsUnderline()
    ensures IsEqualsUnderline("===")
  {
    assert Indent("===") == 0;
    assert IsEqualsRun("===", 0, 3);
    assert "==="[3..] == [];
  }

  /** Two texts without line feeds, joined by one, are two lines. */
  lemma TwoLines(p: string, u: string)
    requires NoLineFeed(p) && NoLineFeed(u)
    ensures Lines(p + ("\n" + u)) == [p, u]
  {
    SingleLine(p);
    SingleLine(u);
    LinesOfJoin(p, u);
  }

  /** A paragraph line over an `=` underline is a depth-1 heading. */
  lemma SetextOver(p: string, u: string)
    requires NoLineFeed(p) && NoLineFeed(u)
    requires IsParagraphLine(Chomp(p)) && IsEqualsUnderline(Chomp(u))
    ensures HasH1(p + ("\n" + u))
  {
    TwoLines(p, u);
    var ls := Lines(p + ("\n" + u));
    assert ls[0] == p && ls[1] == u;
    assert H1At(ls, 0);
  }

  /** ... and stays one when more text follows. */
  lemma SetextOverThen(p: string, u: string, b: string)
    requires NoLineFeed(p) && NoLineFeed(u)
    requires IsParagraphLine(Chomp(p)) && IsEqualsUnderline(Chomp(u))
    ensures HasH1(p + ("\n" + (u + ("\n" + b))))
  {
    SetextOver(p, u);
    H1BeforeLines(p + ("\n" + u), b);
    JoinAssociates(p, u, b);
  }

  lemma JoinAssociates(p: string, u: string, b: string)
    ensures (p + ("\n" + u)) + ("\n" + b) == p + ("\n" + (u + ("\n" + b)))
  {
  }

  lemma SetextPieces()
    ensures "Title\n===" == "Title" + ("\n" + "===")
    ensures NoLineFeed("Title") && NoLineFeed("===")
    ensures Chomp("Title") == "Title" && Chomp("===") == "==="
  {
  }

  /** A paragraph line underlined with `=` signs is a depth-1 heading. */
  lemma SetextIsH1()
    ensures HasH1("Title\n===")
  {
    SetextPieces();
    TitleIsParagraphLine();
    EqualsIsUnderline();
    SetextOver("Title", "===");
  }

  /** A lone `#` ended by CRLF opens a depth-1 heading, whatever follows. */
  lemma HashCrlfOpensH1(t: string)
    ensures HasH1("#\r\n" + t)
  {
    assert "#\r\n" + t == "#\r" + ("\n" + t);
    SingleLine("#\r");
    LinesOfJoin("#\r", t);
    var ls := Lines("#\r\n" + t);
    assert ls[0] == "#\r";
    var c := Chomp("#\r");
    assert c == "#";
    assert Indent(c) == 0 && c[0..] == c;
    assert HashRun(c[1..]) == 0;
    assert HashRun(c) == 1;
    assert H1At(ls, 0);
  }

  lemma CrlfSetextPieces()
    ensures "Title\r\n===\r\nbody" == "Title\r" + ("\n" + ("===\r" + ("\n" + "body")))
    ensures NoLineFeed("Title\r") && NoLineFeed("===\r")
    ensures Chomp("Title\r") == "Title" && Chomp("===\r") == "==="
  {
  }

  /** A setext heading written with CRLF line endings is a depth-1 heading. */
  lemma CrlfSetextIsH1()
    ensures HasH1("Title\r\n===\r\nbody")
  {
    CrlfSetextPieces();
    TitleIsParagraphLine();
    EqualsIsUnderline();
    SetextOverThen("Title\r", "===\r", "body");
  }

  lemma ThematicPieces()
    ensures "***\n===" == "***" + ("\n" + "===")
    ensures NoLineFeed("***") && NoLineFeed("===")
    ensures Chomp("***") == "***" && Chomp("===") == "==="
  {
  }

  lemma StarsAreThematicBreak()
    ensures IsThematicBreak("***") && !IsParagraphLine("***") && !IsAtxHeading("***")
  {
    assert Indent("***") == 0 && "***"[0..] == "***";
    assert HashRun("***") == 0;
    assert Count("***", '*') == 3;
  }

  lemma EqualsIsNotAtx()
    ensures !IsAtxHeading("===")
  {
    assert Indent("===") == 0 && "==="[0..] == "===";
    assert HashRun("===") == 0;
  }

  /** A thematic break cannot be underlined into a heading: `***` over `===` has no depth-1 heading. */
  lemma ThematicBreakIsNotH1()
    ensures !HasH1("***\n===")
  {
    ThematicPieces();
    TwoLines("***", "===");
    StarsAreThematicBreak();
    EqualsIsNotAtx();
    var ls := Lines("***\n===");
    assert ls == ["***", "==="];
    assert !H1At(ls, 0) && !H1At(ls, 1);
  }
}
