/**
 * Slugs: `generateSlug` and the free-slug probe of `createPost`
 * (data/actions/post.ts).
 *
 * `generateSlug` is the chain
 *   title.toLowerCase().replace(/[^a-z0-9]+/g, '-').replace(/(^-|-$)/g, '')
 * modelled one step per function over ASCII lower-casing.
 */
module Slug {
  import Decimal

  /** The characters `[a-z0-9]` that the second regex keeps. */
  predicate IsSlugChar(c: char) {
    'a' <= c <= 'z' || '0' <= c <= '9'
  }

  /** An ASCII letter or digit of either case. */
  predicate IsAsciiAlnum(c: char) {
    'a' <= c <= 'z' || 'A' <= c <= 'Z' || '0' <= c <= '9'
  }

  predicate HasSlugChar(s: string) {
    exists i :: 0 <= i < |s| && IsSlugChar(s[i])
  }

  predicate HasAsciiAlnum(s: string) {
    exists i :: 0 <= i < |s| && IsAsciiAlnum(s[i])
  }

  /** Two hyphens at positions `i` and `i + 1`. */
  predicate DoubleHyphenAt(s: string, i: nat)
    requires i + 1 < |s|
  {
    s[i] == '-' && s[i + 1] == '-'
  }

  /** Only slug characters and hyphens, and never two hyphens in a row. */
  predicate IsCollapsed(s: string) {
    && (forall i :: 0 <= i < |s| ==> IsSlugChar(s[i]) || s[i] == '-')
    && (forall i: nat :: i + 1 < |s| ==> !DoubleHyphenAt(s, i))
  }

  /** The shape every generated slug has. */
  predicate IsSlug(s: string) {
    && IsCollapsed(s)
    && (s != [] ==> s[0] != '-' && s[|s| - 1] != '-')
  }

  function LowerAscii(c: char): char {
    if 'A' <= c <= 'Z' then (c as int - 'A' as int + 'a' as int) as char else c
  }

  /** `toLowerCase()`, restricted to ASCII letters. */
  function ToLowerAscii(s: string): (r: string)
    ensures |r| == |s|
    ensures forall i :: 0 <= i < |s| ==> r[i] == LowerAscii(s[i])
  {
    seq(|s|, i requires 0 <= i < |s| => LowerAscii(s[i]))
  }

  /** Drops the leading characters outside `[a-z0-9]`. */
  function DropNonSlug(s: string): (r: string)
    ensures |r| <= |s| && r == s[|s| - |r|..]
    ensures r != [] ==> IsSlugChar(r[0])
    ensures forall i :: 0 <= i < |s| - |r| ==> !IsSlugChar(s[i])
  {
    if s == [] || IsSlugChar(s[0]) then s else DropNonSlug(s[1..])
  }

  /** `.replace(/[^a-z0-9]+/g, '-')`: every maximal run outside `[a-z0-9]` becomes one hyphen. */
  function CollapseRuns(s: string): string
    decreases |s|
  {
    if s == [] then []
    else if IsSlugChar(s[0]) then [s[0]] + CollapseRuns(s[1..])
    else "-" + CollapseRuns(DropNonSlug(s[1..]))
  }

  lemma HasSlugCharCons(c: char, s: string)
    ensures HasSlugChar([c] + s) <==> IsSlugChar(c) || HasSlugChar(s)
  {
    var t := [c] + s;
    if IsSlugChar(c) { assert t[0] == c; }
    if HasSlugChar(s) {
      var i :| 0 <= i < |s| && IsSlugChar(s[i]);
      assert t[i + 1] == s[i];
    }
    if HasSlugChar(t) {
      var i :| 0 <= i < |t| && IsSlugChar(t[i]);
      if i > 0 { assert s[i - 1] == t[i]; } else { assert t[0] == c; }
    }
  }

  lemma HasSlugCharDrop(s: string)
    ensures HasSlugChar(DropNonSlug(s)) <==> HasSlugChar(s)
  {
    var t := DropNonSlug(s);
    var d := |s| - |t|;
    assert t == s[d..];
    if HasSlugChar(s) {
      var i :| 0 <= i < |s| && IsSlugChar(s[i]);
      assert d <= i;
      assert t[i - d] == s[i];
    }
    if HasSlugChar(t) {
      var i :| 0 <= i < |t| && IsSlugChar(t[i]);
      assert s[i + d] == t[i];
    }
  }

  lemma CollapsedCons(c: char, s: string)
    requires IsSlugChar(c) || c == '-'
    requires IsCollapsed(s)
    requires c == '-' && s != [] ==> s[0] != '-'
    ensures IsCollapsed([c] + s)
  {
    var t := [c] + s;
    assert forall i :: 1 <= i < |t| ==> t[i] == s[i - 1];
    forall i: nat | i + 1 < |t| ensures !DoubleHyphenAt(t, i) {
      if i > 0 { assert !DoubleHyphenAt(s, i - 1); }
    }
  }

  /** The run-collapsing step yields a collapsed string with the same slug characters. */
  lemma {:induction false} CollapseRunsShape(s: string)
    ensures IsCollapsed(CollapseRuns(s))
    ensures s != [] ==> CollapseRuns(s) != [] && CollapseRuns(s)[0] == (if IsSlugChar(s[0]) then s[0] else '-')
    ensures HasSlugChar(CollapseRuns(s)) <==> HasSlugChar(s)
    decreases |s|
  {
    if s != [] {
      if IsSlugChar(s[0]) {
        CollapseRunsShape(s[1..]);
        CollapsedCons(s[0], CollapseRuns(s[1..]));
        HasSlugCharCons(s[0], CollapseRuns(s[1..]));
        HasSlugCharCons(s[0], s[1..]);
        assert [s[0]] + s[1..] == s;
      } else {
        var tail := DropNonSlug(s[1..]);
        CollapseRunsShape(tail);
        CollapsedCons('-', CollapseRuns(tail));
        HasSlugCharCons('-', CollapseRuns(tail));
        HasSlugCharDrop(s[1..]);
        HasSlugCharCons(s[0], s[1..]);
        assert [s[0]] + s[1..] == s;
      }
    }
  }

  /** The `^-` alternative of `.replace(/(^-|-$)/g, '')`. */
  function TrimLeading(s: string): string {
    if |s| > 0 && s[0] == '-' then s[1..] else s
  }

  /** The `-$` alternative of `.replace(/(^-|-$)/g, '')`. */
  function TrimTrailing(s: string): string {
    if |s| > 0 && s[|s| - 1] == '-' then s[..|s| - 1] else s
  }

  /** `.replace(/(^-|-$)/g, '')`: drops one leading and one trailing hyphen. */
  function TrimHyphens(s: string): string {
    TrimTrailing(TrimLeading(s))
  }

  lemma CollapsedSlice(s: string, lo: nat, hi: nat)
    requires IsCollapsed(s)
    requires lo <= hi <= |s|
    ensures IsCollapsed(s[lo..hi])
  {
    var t := s[lo..hi];
    assert forall i :: 0 <= i < |t| ==> t[i] == s[lo + i];
    forall i: nat | i + 1 < |t| ensures !DoubleHyphenAt(t, i) {
      assert !DoubleHyphenAt(s, lo + i);
    }
  }

  /** Removing hyphens at either end keeps the slug characters. */
  lemma HasSlugCharSlice(s: string, lo: nat, hi: nat)
    requires lo <= hi <= |s|
    requires forall i :: 0 <= i < lo ==> s[i] == '-'
    requires forall i :: hi <= i < |s| ==> s[i] == '-'
    ensures HasSlugChar(s[lo..hi]) <==> HasSlugChar(s)
  {
    var t := s[lo..hi];
    if HasSlugChar(s) {
      var i :| 0 <= i < |s| && IsSlugChar(s[i]);
      assert t[i - lo] == s[i];
    }
    if HasSlugChar(t) {
      var i :| 0 <= i < |t| && IsSlugChar(t[i]);
      assert s[lo + i] == t[i];
    }
  }

  /** Trimming a collapsed string leaves a slug with the same slug characters. */
  lemma TrimCollapsed(s: string)
    requires IsCollapsed(s)
    ensures IsSlug(TrimHyphens(s))
    ensures HasSlugChar(TrimHyphens(s)) <==> HasSlugChar(s)
  {
    var lo := if |s| > 0 && s[0] == '-' then 1 else 0;
    var a := TrimLeading(s);
    assert a == s[lo..|s|];
    CollapsedSlice(s, lo, |s|);
    HasSlugCharSlice(s, lo, |s|);
    if a != [] && lo == 1 {
      assert !DoubleHyphenAt(s, 0);
      assert a[0] == s[1];
    }
    var hi := if |a| > 0 && a[|a| - 1] == '-' then |a| - 1 else |a|;
    var r := TrimTrailing(a);
    assert r == a[..hi];
    CollapsedSlice(a, 0, hi);
    HasSlugCharSlice(a, 0, hi);
    if r != [] {
      assert r[0] == a[0];
      if hi < |a| {
        assert !DoubleHyphenAt(a, hi - 1);
        assert r[|r| - 1] == a[hi - 1];
      }
    }
  }

  /** A slug is empty exactly when it has no slug character. */
  lemma SlugEmptyIff(s: string)
    requires IsSlug(s)
    ensures s == [] <==> !HasSlugChar(s)
  {
    if s != [] {
      assert IsSlugChar(s[0]);
    }
  }

  /** Lower-casing turns exactly the ASCII letters and digits into slug characters. */
  lemma LowerAsciiSlugChars(title: string)
    ensures HasSlugChar(ToLowerAscii(title)) <==> HasAsciiAlnum(title)
  {
    var lower := ToLowerAscii(title);
    if HasAsciiAlnum(title) {
      var i :| 0 <= i < |title| && IsAsciiAlnum(title[i]);
      assert IsSlugChar(lower[i]);
    }
    if HasSlugChar(lower) {
      var i :| 0 <= i < |lower| && IsSlugChar(lower[i]);
      assert IsAsciiAlnum(title[i]);
    }
  }

  /** `generateSlug(title)`. */
  function GenerateSlug(title: string): (slug: string)
    ensures IsSlug(slug)
    ensures slug == [] <==> !HasAsciiAlnum(title)
  {
    var lower := ToLowerAscii(title);
    LowerAsciiSlugChars(title);
    CollapseRunsShape(lower);
    TrimCollapsed(CollapseRuns(lower));
    SlugEmptyIff(TrimHyphens(CollapseRuns(lower)));
    TrimHyphens(CollapseRuns(lower))
  }

  /** A collapsed string is left alone by the run-collapsing step. */
  lemma TailCollapsed(s: string)
    requires IsCollapsed(s) && s != []
    ensures IsCollapsed(s[1..])
  {
    var t := s[1..];
    forall i | 0 <= i < |t| ensures IsSlugChar(t[i]) || t[i] == '-' {
      assert t[i] == s[i + 1];
    }
    forall i: nat | i + 1 < |t| ensures !DoubleHyphenAt(t, i) {
      assert !DoubleHyphenAt(s, i + 1);
    }
  }

  /** A collapsed string starts with a slug character, or with a hyphen followed by one, if by anything. */
  lemma CollapsedHead(s: string)
    requires IsCollapsed(s) && s != []
    ensures IsSlugChar(s[0]) || (s[0] == '-' && (|s| > 1 ==> IsSlugChar(s[1])))
  {
    if |s| > 1 {
      assert !DoubleHyphenAt(s, 0);
    }
  }

  lemma CollapseStep(s: string)
    requires s != []
    requires IsSlugChar(s[0]) || (s[0] == '-' && (|s| > 1 ==> IsSlugChar(s[1])))
    requires CollapseRuns(s[1..]) == s[1..]
    ensures CollapseRuns(s) == s
  {
    var t := s[1..];
    if !IsSlugChar(s[0]) {
      if t != [] {
        assert t[0] == s[1];
      }
      assert DropNonSlug(t) == t;
    }
    assert s == [s[0]] + t;
  }

  lemma {:induction false} CollapseFixesCollapsed(s: string)
    requires IsCollapsed(s)
    ensures CollapseRuns(s) == s
    decreases |s|
  {
    if s != [] {
      TailCollapsed(s);
      CollapseFixesCollapsed(s[1..]);
      CollapsedHead(s);
      CollapseStep(s);
    }
  }

  /** Generating a slug from a slug gives it back: `generateSlug` is idempotent. */
  lemma GenerateSlugIdempotent(title: string)
    ensures GenerateSlug(GenerateSlug(title)) == GenerateSlug(title)
  {
    var s := GenerateSlug(title);
    assert ToLowerAscii(s) == s;
    CollapseFixesCollapsed(s);
  }

  /** A word of slug characters passes through the run-collapsing step unchanged. */
  lemma CollapseCons(c: char, s: string)
    requires IsSlugChar(c)
    ensures CollapseRuns([c] + s) == [c] + CollapseRuns(s)
  {
    var t := [c] + s;
    assert t[0] == c && t[1..] == s;
  }

  lemma {:induction false} CollapseSlugWord(w: string, rest: string)
    requires forall i :: 0 <= i < |w| ==> IsSlugChar(w[i])
    ensures CollapseRuns(w + rest) == w + CollapseRuns(rest)
    decreases |w|
  {
    if w != [] {
      var tail := w[1..];
      forall i | 0 <= i < |tail| ensures IsSlugChar(tail[i]) {
        assert tail[i] == w[i + 1];
      }
      CollapseSlugWord(tail, rest);
      assert w + rest == [w[0]] + (tail + rest);
      CollapseCons(w[0], tail + rest);
      assert [w[0]] + (tail + CollapseRuns(rest)) == w + CollapseRuns(rest);
    } else {
      assert w + rest == rest;
    }
  }

  lemma {:induction false} DropSeparator(sep: string, rest: string)
    requires forall i :: 0 <= i < |sep| ==> !IsSlugChar(sep[i])
    requires rest == [] || IsSlugChar(rest[0])
    ensures DropNonSlug(sep + rest) == rest
    decreases |sep|
  {
    if sep != [] {
      assert (sep + rest)[1..] == sep[1..] + rest;
      DropSeparator(sep[1..], rest);
    } else {
      assert sep + rest == rest;
    }
  }

  /** A run of separators becomes one hyphen. */
  lemma CollapseSeparator(sep: string, rest: string)
    requires sep != []
    requires forall i :: 0 <= i < |sep| ==> !IsSlugChar(sep[i])
    requires rest == [] || IsSlugChar(rest[0])
    ensures CollapseRuns(sep + rest) == "-" + CollapseRuns(rest)
  {
    var c, tail := sep[0], sep[1..];
    var u := tail + rest;
    SplitHead(sep, rest);
    forall i | 0 <= i < |tail| ensures !IsSlugChar(tail[i]) {
      assert tail[i] == sep[i + 1];
    }
    DropSeparator(tail, rest);
    CollapseSeparatorHead(c, u);
  }

  lemma SplitHead(s: string, rest: string)
    requires s != []
    ensures s + rest == [s[0]] + (s[1..] + rest)
  {
    assert s == [s[0]] + s[1..];
  }

  lemma CollapseSeparatorHead(c: char, s: string)
    requires !IsSlugChar(c)
    ensures CollapseRuns([c] + s) == "-" + CollapseRuns(DropNonSlug(s))
  {
    var t := [c] + s;
    assert t[0] == c && t[1..] == s;
  }

  predicate IsWord(w: string) {
    w != [] && forall i :: 0 <= i < |w| ==> IsSlugChar(w[i])
  }

  predicate IsSeparator(sep: string) {
    sep != [] && forall i :: 0 <= i < |sep| ==> !IsSlugChar(sep[i])
  }

  /** What the run-collapsing step makes of an optional separator at either end. */
  function Hyphen(sep: string): string {
    if sep == [] then "" else "-"
  }

  lemma CollapseTrail(trail: string)
    requires trail == [] || IsSeparator(trail)
    ensures CollapseRuns(trail) == Hyphen(trail)
  {
    if trail != [] {
      CollapseSeparator(trail, []);
      assert trail + [] == trail;
    }
  }

  /** Collapsing two words with separators around and between them. */
  lemma CollapseTwoWords(lead: string, w1: string, sep: string, w2: string, trail: string)
    requires lead == [] || IsSeparator(lead)
    requires IsWord(w1) && IsSeparator(sep) && IsWord(w2)
    requires trail == [] || IsSeparator(trail)
    ensures CollapseRuns(lead + (w1 + (sep + (w2 + trail))))
         == Hyphen(lead) + (w1 + ("-" + (w2 + Hyphen(trail))))
  {
    CollapseTrail(trail);
    var s3 := w2 + trail;
    CollapseSlugWord(w2, trail);
    assert CollapseRuns(s3) == w2 + Hyphen(trail);
    assert s3[0] == w2[0];
    var s2 := sep + s3;
    CollapseSeparator(sep, s3);
    assert CollapseRuns(s2) == "-" + (w2 + Hyphen(trail));
    var s1 := w1 + s2;
    CollapseSlugWord(w1, s2);
    assert CollapseRuns(s1) == w1 + ("-" + (w2 + Hyphen(trail)));
    if lead != [] {
      assert s1[0] == w1[0];
      CollapseSeparator(lead, s1);
    } else {
      assert lead + s1 == s1;
      assert Hyphen(lead) + CollapseRuns(s1) == CollapseRuns(s1);
    }
  }

  /** Trimming removes exactly the optional hyphens around a slug-shaped core. */
  lemma TrimAround(x: string, r: string, y: string)
    requires x == "" || x == "-"
    requires y == "" || y == "-"
    requires r != [] && r[0] != '-' && r[|r| - 1] != '-'
    ensures TrimHyphens(x + (r + y)) == r
  {
    var s := x + (r + y);
    var a := TrimLeading(s);
    if x == "-" {
      assert s[0] == '-' && s[1..] == r + y;
    } else {
      assert s == r + y && s[0] == r[0];
    }
    assert a == r + y;
    if y == "-" {
      assert a[|a| - 1] == '-' && a[..|a| - 1] == r;
    } else {
      assert a == r && a[|a| - 1] == r[|r| - 1];
    }
  }

  /** Two words with separators around and between them give `w1-w2`. */
  lemma SlugOfTwoWords(lower: string, lead: string, w1: string, sep: string, w2: string, trail: string)
    requires lower == lead + (w1 + (sep + (w2 + trail)))
    requires lead == [] || IsSeparator(lead)
    requires IsWord(w1) && IsSeparator(sep) && IsWord(w2)
    requires trail == [] || IsSeparator(trail)
    ensures TrimHyphens(CollapseRuns(lower)) == w1 + ("-" + w2)
  {
    CollapseTwoWords(lead, w1, sep, w2, trail);
    var r := w1 + ("-" + w2);
    var x, y := Hyphen(lead), Hyphen(trail);
    JoinedEnds(w1, w2);
    Reassociate(w1, w2, y);
    assert CollapseRuns(lower) == x + (r + y);
    TrimAround(x, r, y);
  }

  lemma Reassociate(w1: string, w2: string, y: string)
    ensures w1 + ("-" + (w2 + y)) == (w1 + ("-" + w2)) + y
  {
  }

  lemma JoinedEnds(w1: string, w2: string)
    requires IsWord(w1) && IsWord(w2)
    ensures var r := w1 + ("-" + w2); r != [] && r[0] != '-' && r[|r| - 1] != '-'
  {
    var r := w1 + ("-" + w2);
    assert r[0] == w1[0] && IsSlugChar(w1[0]);
    assert r[|r| - 1] == w2[|w2| - 1] && IsSlugChar(w2[|w2| - 1]);
  }

  lemma HelloWorldPieces()
    ensures ToLowerAscii("Hello, World!") == "" + ("hello" + (", " + ("world" + "!")))
    ensures IsWord("hello") && IsSeparator(", ") && IsWord("world") && IsSeparator("!")
    ensures "hello" + ("-" + "world") == "hello-world"
  {
    assert ToLowerAscii("Hello, World!") == "hello, world!";
  }

  lemma GenerateSlugHelloWorld()
    ensures GenerateSlug("Hello, World!") == "hello-world"
  {
    HelloWorldPieces();
    SlugOfTwoWords(ToLowerAscii("Hello, World!"), "", "hello", ", ", "world", "!");
  }

  /** Lower-casing works character by character, so it distributes over concatenation. */
  lemma ToLowerAsciiAppend(a: string, b: string)
    ensures ToLowerAscii(a + b) == ToLowerAscii(a) + ToLowerAscii(b)
  {
  }

  lemma AlreadySluggedLower()
    ensures ToLowerAscii("Already") == "already"
    ensures ToLowerAscii("slugged") == "slugged"
    ensures ToLowerAscii("  ") == "  " && ToLowerAscii("--") == "--"
  {
  }

  lemma AlreadySluggedPieces()
    ensures ToLowerAscii("  Already--slugged  ") == "  " + ("already" + ("--" + ("slugged" + "  ")))
  {
    assert "  Already--slugged  " == "  " + ("Already" + ("--" + ("slugged" + "  ")));
    ToLowerAsciiAppend("slugged", "  ");
    ToLowerAsciiAppend("--", "slugged" + "  ");
    ToLowerAsciiAppend("Already", "--" + ("slugged" + "  "));
    ToLowerAsciiAppend("  ", "Already" + ("--" + ("slugged" + "  ")));
    AlreadySluggedLower();
  }

  lemma AlreadySluggedParts()
    ensures IsSeparator("  ") && IsWord("already") && IsSeparator("--") && IsWord("slugged")
  {
  }

  lemma AlreadySluggedResult()
    ensures "already" + ("-" + "slugged") == "already-slugged"
  {
  }

  lemma GenerateSlugAlreadySlugged()
    ensures GenerateSlug("  Already--slugged  ") == "already-slugged"
  {
    AlreadySluggedPieces();
    AlreadySluggedParts();
    AlreadySluggedResult();
    SlugOfTwoWords(ToLowerAscii("  Already--slugged  "), "  ", "already", "--", "slugged", "  ");
  }

  lemma MyPostPieces()
    ensures ToLowerAscii("My Post") == "" + ("my" + (" " + ("post" + "")))
    ensures IsWord("my") && IsSeparator(" ") && IsWord("post")
    ensures "my" + ("-" + "post") == "my-post"
  {
    assert ToLowerAscii("My Post") == "my post";
  }

  lemma GenerateSlugMyPost()
    ensures GenerateSlug("My Post") == "my-post"
  {
    MyPostPieces();
    SlugOfTwoWords(ToLowerAscii("My Post"), "", "my", " ", "post", "");
  }

  // ---- the free-slug probe of createPost ----

  /** The `n`-th candidate probed: `base`, then `base-1`, `base-2`, ... */
  function Candidate(base: string, n: nat): string {
    if n == 0 then base else base + "-" + Decimal.NatToString(n)
  }

  /** Different probe numbers give different candidates. */
  lemma CandidateInjective(base: string, i: nat, j: nat)
    requires Candidate(base, i) == Candidate(base, j)
    ensures i == j
  {
    if i != 0 && j != 0 {
      var p := |base| + 1;
      assert Decimal.NatToString(i) == Candidate(base, i)[p..];
      assert Decimal.NatToString(j) == Candidate(base, j)[p..];
      Decimal.NatToStringInjective(i, j);
    }
  }

  /** `Candidate(base, k)` is free and every earlier candidate is taken. */
  ghost predicate FirstFreeAt(base: string, taken: set<string>, k: nat) {
    Candidate(base, k) !in taken && forall j :: 0 <= j < k ==> Candidate(base, j) in taken
  }

  /** Once candidate `n` is probed, the candidates still to come are in `remaining` without it. */
  lemma ProbeStep(base: string, taken: set<string>, n: nat, remaining: set<string>)
    requires forall j: nat :: j >= n && Candidate(base, j) in taken ==> Candidate(base, j) in remaining
    ensures forall j: nat :: j >= n + 1 && Candidate(base, j) in taken ==> Candidate(base, j) in remaining - {Candidate(base, n)}
  {
    forall j: nat | j >= n + 1 && Candidate(base, j) in taken
      ensures Candidate(base, j) in remaining - {Candidate(base, n)}
    {
      if Candidate(base, j) == Candidate(base, n) {
        CandidateInjective(base, j, n);
      }
    }
  }

  /** The probe from `n` on reaches a free candidate, since `taken` is finite. */
  lemma {:induction false} FreeFrom(base: string, taken: set<string>, n: nat, remaining: set<string>)
    requires forall j :: 0 <= j < n ==> Candidate(base, j) in taken
    requires forall j: nat :: j >= n && Candidate(base, j) in taken ==> Candidate(base, j) in remaining
    ensures exists k :: FirstFreeAt(base, taken, k)
    decreases remaining
  {
    if Candidate(base, n) in taken {
      ProbeStep(base, taken, n, remaining);
      FreeFrom(base, taken, n + 1, remaining - {Candidate(base, n)});
    } else {
      assert FirstFreeAt(base, taken, n);
    }
  }

  /** The position of the first free candidate. */
  ghost function FirstFreeIndex(base: string, taken: set<string>): (k: nat)
    ensures FirstFreeAt(base, taken, k)
  {
    FreeFrom(base, taken, 0, taken);
    var k :| FirstFreeAt(base, taken, k);
    k
  }

  /** The slug `createPost` settles on when the store holds the slugs `taken`. */
  ghost function FirstFree(base: string, taken: set<string>): (slug: string)
    ensures slug !in taken
  {
    Candidate(base, FirstFreeIndex(base, taken))
  }

  /** At most one position can be the first free one. */
  lemma FirstFreeUnique(base: string, taken: set<string>, k: nat)
    requires FirstFreeAt(base, taken, k)
    ensures FirstFreeIndex(base, taken) == k
  {
  }

  /** Sequential creates with one title: the second post gets the suffix `-1`. */
  lemma SecondCreateGetsSuffix(base: string)
    ensures FirstFree(base, {}) == base
    ensures FirstFree(base, {base}) == base + "-1"
  {
    FirstFreeUnique(base, {}, 0);
    assert Decimal.NatToString(1) == "1";
    assert Candidate(base, 1) != base by {
      assert |Candidate(base, 1)| == |base| + 2;
    }
    assert FirstFreeAt(base, {base}, 1);
    FirstFreeUnique(base, {base}, 1);
  }

  /**
   * The probe loop of `createPost`: asks the store for `base`, `base-1`,
   * `base-2`, ... until a slug is absent.
   */
  method ProbeFreeSlug(base: string, taken: set<string>) returns (slug: string)
    ensures slug == FirstFree(base, taken)
  {
    slug := base;
    var counter: nat := 1;
    ghost var n: nat := 0;
    ghost var remaining := taken;
    while slug in taken
      invariant counter == n + 1
      invariant slug == Candidate(base, n)
      invariant forall j :: 0 <= j < n ==> Candidate(base, j) in taken
      invariant forall j: nat :: j >= n && Candidate(base, j) in taken ==> Candidate(base, j) in remaining
      decreases remaining
    {
      ProbeStep(base, taken, n, remaining);
      remaining := remaining - {slug};
      slug := base + "-" + Decimal.NatToString(counter);
      n := counter;
      counter := counter + 1;
    }
    assert FirstFreeAt(base, taken, n);
    FirstFreeUnique(base, taken, n);
  }
}
