/**
 * Word count and read time of a post's content: the content is split at runs
 * of whitespace, empty pieces are dropped, and the pieces are counted; the
 * read time is the count divided by 200 words a minute, rounded up, and at
 * least one minute.
 */
module ReadingTime {

  /** The characters the regular-expression class `\s` matches (whitespace and line terminators). */
  predicate IsWhitespace(c: char) {
    ('\U{0009}' <= c <= '\U{000D}') || c == ' ' || c == '\U{00A0}' || c == '\U{1680}' ||
    ('\U{2000}' <= c <= '\U{200A}') || c == '\U{2028}' || c == '\U{2029}' || c == '\U{202F}' ||
    c == '\U{205F}' || c == '\U{3000}' || c == '\U{FEFF}'
  }

  predicate AllWhitespace(s: string) {
    forall i :: 0 <= i < |s| ==> IsWhitespace(s[i])
  }

  /** Drops the run of whitespace a text starts with. */
  function DropWhitespace(s: string): (r: string)
    ensures |r| <= |s|
    ensures r != [] ==> !IsWhitespace(r[0])
  {
    if s != [] && IsWhitespace(s[0]) then DropWhitespace(s[1..]) else s
  }

  /** Drops the word a text starts with. */
  function DropWord(s: string): (r: string)
    ensures |r| <= |s|
    ensures r != [] ==> IsWhitespace(r[0])
  {
    if s != [] && !IsWhitespace(s[0]) then DropWord(s[1..]) else s
  }

  /** `split(/\s+/)` with `current` the piece read so far. */
  function SplitFrom(s: string, current: string): seq<string>
    decreases |s|
  {
    if s == [] then [current]
    else if IsWhitespace(s[0]) then [current] + SplitFrom(DropWhitespace(s[1..]), [])
    else SplitFrom(s[1..], current + [s[0]])
  }

  /** `content.split(/\s+/)`: the pieces between runs of whitespace, empty at either end when the text starts or ends with it. */
  function SplitOnWhitespace(s: string): seq<string> {
    SplitFrom(s, [])
  }

  /** `.filter(Boolean)`: the non-empty pieces. */
  function NonEmpty(parts: seq<string>): seq<string> {
    if parts == [] then []
    else if parts[0] == [] then NonEmpty(parts[1..])
    else [parts[0]] + NonEmpty(parts[1..])
  }

  /** `getWordCount(content)`. */
  function WordCount(content: string): nat {
    |NonEmpty(SplitOnWhitespace(content))|
  }

  /** The reference count: the number of maximal runs of non-whitespace characters. */
  function Runs(s: string): nat
    decreases |s|
  {
    if s == [] then 0
    else if IsWhitespace(s[0]) then Runs(s[1..])
    else 1 + Runs(DropWord(s))
  }

  lemma {:induction false} NonEmptyAppend(a: seq<string>, b: seq<string>)
    ensures NonEmpty(a + b) == NonEmpty(a) + NonEmpty(b)
  {
    if a != [] {
      assert (a + b)[0] == a[0];
      assert (a + b)[1..] == a[1..] + b;
      NonEmptyAppend(a[1..], b);
    } else {
      assert a + b == b;
    }
  }

  lemma {:induction false} RunsDropWhitespace(s: string)
    ensures Runs(DropWhitespace(s)) == Runs(s)
    decreases |s|
  {
    if s != [] && IsWhitespace(s[0]) { RunsDropWhitespace(s[1..]); }
  }

  /** The pieces after `current`, counted, are the runs of the text, the run `current` opens being one of them. */
  lemma {:induction false} SplitFromCount(s: string, current: string)
    ensures |NonEmpty(SplitFrom(s, current))| ==
      if current == [] then Runs(s) else 1 + Runs(DropWord(s))
    decreases |s|
  {
    if s == [] {
    } else if IsWhitespace(s[0]) {
      var rest := DropWhitespace(s[1..]);
      SplitFromCount(rest, []);
      NonEmptyAppend([current], SplitFrom(rest, []));
      RunsDropWhitespace(s[1..]);
    } else {
      SplitFromCount(s[1..], current + [s[0]]);
    }
  }

  /** The word count is the number of maximal non-whitespace runs. */
  lemma WordCountIsRuns(content: string)
    ensures WordCount(content) == Runs(content)
  {
    SplitFromCount(content, []);
  }

  /** Empty or whitespace-only content has no words. */
  lemma {:induction false} NoWordsInWhitespace(s: string)
    requires AllWhitespace(s)
    ensures WordCount(s) == 0
  {
    WordCountIsRuns(s);
    WhitespaceRuns(s);
  }

  lemma {:induction false} WhitespaceRuns(s: string)
    requires AllWhitespace(s)
    ensures Runs(s) == 0
    decreases |s|
  {
    if s != [] { WhitespaceRuns(s[1..]); }
  }

  /** Whitespace before the content adds no word. */
  lemma {:induction false} LeadingWhitespaceAddsNothing(ws: string, s: string)
    requires AllWhitespace(ws)
    ensures WordCount(ws + s) == WordCount(s)
  {
    WordCountIsRuns(ws + s);
    WordCountIsRuns(s);
    RunsAfterWhitespace(ws, s);
  }

  lemma {:induction false} RunsAfterWhitespace(ws: string, s: string)
    requires AllWhitespace(ws)
    ensures Runs(ws + s) == Runs(s)
    decreases |ws|
  {
    if ws != [] {
      assert (ws + s)[0] == ws[0];
      assert (ws + s)[1..] == ws[1..] + s;
      RunsAfterWhitespace(ws[1..], s);
    } else {
      assert ws + s == s;
    }
  }

  /** Whitespace after the content adds no word. */
  lemma TrailingWhitespaceAddsNothing(s: string, ws: string)
    requires AllWhitespace(ws)
    ensures WordCount(s + ws) == WordCount(s)
  {
    WordCountIsRuns(s + ws);
    WordCountIsRuns(s);
    if ws == [] {
      assert s + ws == s;
    } else {
      assert ws == [ws[0]] + ws[1..];
      RunsSeparated(s, ws[0], ws[1..]);
      WhitespaceRuns(ws[1..]);
    }
  }

  /** A whitespace character between two texts separates their words: the counts add up. */
  lemma {:induction false} RunsSeparated(a: string, c: char, b: string)
    requires IsWhitespace(c)
    ensures Runs(a + ([c] + b)) == Runs(a) + Runs(b)
    decreases |a|
  {
    var s := a + ([c] + b);
    if a == [] {
      assert s == [c] + b;
      assert s[1..] == b;
    } else if IsWhitespace(a[0]) {
      assert s[0] == a[0];
      assert s[1..] == a[1..] + ([c] + b);
      RunsSeparated(a[1..], c, b);
    } else {
      assert s[0] == a[0];
      DropWordSeparated(a, c, b);
      var d := DropWord(a);
      assert DropWord(s) == d + ([c] + b);
      RunsSeparated(d, c, b);
    }
  }

  /** Dropping the first word of `a + c + b` drops the first word of `a`. */
  lemma {:induction false} DropWordSeparated(a: string, c: char, b: string)
    requires IsWhitespace(c)
    ensures DropWord(a + ([c] + b)) == DropWord(a) + ([c] + b)
    decreases |a|
  {
    var s := a + ([c] + b);
    if a == [] {
      assert s == [c] + b;
    } else {
      assert s[0] == a[0];
      assert s[1..] == a[1..] + ([c] + b);
      if !IsWhitespace(a[0]) { DropWordSeparated(a[1..], c, b); }
    }
  }

  /** The word count is additive over a separating space. */
  lemma WordCountAdditive(a: string, b: string)
    ensures WordCount(a + " " + b) == WordCount(a) + WordCount(b)
  {
    assert a + " " + b == a + ([' '] + b);
    RunsSeparated(a, ' ', b);
    WordCountIsRuns(a + " " + b);
    WordCountIsRuns(a);
    WordCountIsRuns(b);
  }

  /** Words a minute. */
  const WordsPerMinute := 200

  /** `Math.max(1, Math.ceil(words / 200))`. */
  function ReadTimeFor(words: nat): (minutes: nat)
    ensures minutes >= 1
  {
    var up := (words + WordsPerMinute - 1) / WordsPerMinute;
    if up < 1 then 1 else up
  }

  /** `getReadTime(content)`. */
  function ReadTime(content: string): (minutes: nat)
    ensures minutes >= 1
  {
    ReadTimeFor(WordCount(content))
  }

  /** For a positive count the read time is the count divided by 200 rounded up. */
  lemma ReadTimeBounds(words: nat)
    requires words > 0
    ensures WordsPerMinute * (ReadTimeFor(words) - 1) < words <= WordsPerMinute * ReadTimeFor(words)
  {
  }

  /** Up to 200 words read in one minute. */
  lemma ReadTimeShortPosts(words: nat)
    requires words <= 200
    ensures ReadTimeFor(words) == 1
  {
  }

  /** More words never read faster. */
  lemma ReadTimeMonotone(v: nat, w: nat)
    requires v <= w
    ensures ReadTimeFor(v) <= ReadTimeFor(w)
  {
  }
}
