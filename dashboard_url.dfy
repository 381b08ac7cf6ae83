/**
 * The dashboard's URL state: the two search parameters `filter` and `sort`,
 * the link the tabs and the sort button build from them, and the way the next
 * page reads them back.
 *
 * Reading a link back follows the first steps of the basic URL parser of the
 * WHATWG URL Standard (section 4.4): a leading and a trailing run of C0
 * controls and spaces is trimmed from the whole link, then every ASCII tab,
 * line feed and carriage return is removed from it. Only then is the query
 * split into parameters.
 */
module DashboardUrl {
  import opened Wrappers

  /** The search parameters of a dashboard URL, each absent or a raw string (`searchParams.get`). */
  datatype Params = Params(filter: Option<string>, sort: Option<string>)

  /** The filter a component reads, `'all'` when absent (`searchParams.get('filter') ?? 'all'`). */
  function CurrentFilter(params: Params): string {
    params.filter.GetOr("all")
  }

  /** The sort a component reads, `'newest'` when absent (`searchParams.get('sort') ?? 'newest'`). */
  function CurrentSort(params: Params): string {
    params.sort.GetOr("newest")
  }

  const Path := "/dashboard?filter="
  const SortKey := "&sort="

  /** The template literal `/dashboard?filter=${filter}&sort=${sort}`; values go in unencoded. */
  function Href(filter: string, sort: string): string {
    Path + filter + SortKey + sort
  }

  /** A value the template literal and the query parser agree on: no separator, fragment or escape character. */
  predicate PlainValue(v: string) {
    forall i :: 0 <= i < |v| ==> v[i] != '&' && v[i] != '#' && v[i] != '%' && v[i] != '+'
  }

  /** An ASCII tab or newline, which the URL parser removes wherever it occurs. */
  predicate TabOrNewline(c: char) {
    c == '\t' || c == '\n' || c == '\r'
  }

  /** A C0 control or a space, which the URL parser trims from both ends of a link. */
  predicate ControlOrSpace(c: char) {
    c <= ' '
  }

  /** The text with every tab and newline taken out, the other characters kept in order. */
  function RemoveTabsAndNewlines(s: string): (r: string)
    ensures |r| <= |s|
    ensures forall i :: 0 <= i < |r| ==> !TabOrNewline(r[i]) && r[i] in s
    ensures (forall i :: 0 <= i < |s| ==> !TabOrNewline(s[i])) ==> r == s
  {
    if s == [] then []
    else (if TabOrNewline(s[0]) then [] else [s[0]]) + RemoveTabsAndNewlines(s[1..])
  }

  /** The text without its trailing run of controls and spaces. */
  function TrimEnd(s: string): (r: string)
    ensures r <= s
    ensures r == [] || !ControlOrSpace(r[|r| - 1])
    ensures forall i :: |r| <= i < |s| ==> ControlOrSpace(s[i])
  {
    if s != [] && ControlOrSpace(s[|s| - 1]) then TrimEnd(s[..|s| - 1]) else s
  }

  /** The text without its leading run of controls and spaces. */
  function TrimStart(s: string): (r: string)
    ensures |r| <= |s| && r == s[|s| - |r|..]
    ensures r == [] || !ControlOrSpace(r[0])
    ensures forall i :: 0 <= i < |s| - |r| ==> ControlOrSpace(s[i])
  {
    if s != [] && ControlOrSpace(s[0]) then TrimStart(s[1..]) else s
  }

  /** The link as the URL parser sees it once its input is cleaned up. */
  function CleanLink(href: string): string {
    RemoveTabsAndNewlines(TrimStart(TrimEnd(href)))
  }

  /** The filter value the next page reads from a link built with `filter`. */
  function ReadFilter(filter: string): string {
    RemoveTabsAndNewlines(filter)
  }

  /** The sort value the next page reads from a link built with `sort`, which ends the link. */
  function ReadSort(sort: string): string {
    RemoveTabsAndNewlines(TrimEnd(sort))
  }

  /** The position of the first `&`, or the length when there is none. */
  function FirstAmp(s: string): (k: nat)
    ensures k <= |s|
    ensures forall i :: 0 <= i < k ==> s[i] != '&'
    ensures k < |s| ==> s[k] == '&'
  {
    if s == [] || s[0] == '&' then 0 else 1 + FirstAmp(s[1..])
  }

  /** The parameters of a cleaned-up link of the shape `Href`; None for any other link. */
  function ParseQuery(link: string): Option<Params> {
    if |link| < |Path| || link[..|Path|] != Path then None
    else
      var rest := link[|Path|..];
      var k := FirstAmp(rest);
      if |rest| < k + |SortKey| || rest[k..k + |SortKey|] != SortKey then None
      else
        var filter := rest[..k];
        var sort := rest[k + |SortKey|..];
        if PlainValue(filter) && PlainValue(sort) then Some(Params(Some(filter), Some(sort))) else None
  }

  /** The parameters a dashboard link carries, as the next page reads them; None for any other link. */
  function ParseHref(href: string): Option<Params> {
    ParseQuery(CleanLink(href))
  }

  lemma FirstAmpAt(f: string, t: string)
    requires PlainValue(f) && t != [] && t[0] == '&'
    ensures FirstAmp(f + t) == |f|
  {
    var s := f + t;
    assert s[|f|] == '&';
    assert forall i :: 0 <= i < |f| ==> s[i] == f[i];
  }

  /** A link built from plain values, taken as it is, splits into exactly those values. */
  lemma ParseQueryOfHref(filter: string, sort: string)
    requires PlainValue(filter) && PlainValue(sort)
    ensures ParseQuery(Href(filter, sort)) == Some(Params(Some(filter), Some(sort)))
  {
    var href := Href(filter, sort);
    assert href == Path + (filter + (SortKey + sort));
    assert href[..|Path|] == Path;
    var rest := href[|Path|..];
    assert rest == filter + (SortKey + sort);
    FirstAmpAt(filter, SortKey + sort);
    assert rest[..|filter|] == filter;
    assert rest[|filter|..|filter| + |SortKey|] == SortKey;
    assert rest[|filter| + |SortKey|..] == sort;
  }

  /** Removing tabs and newlines from a join removes them from each part. */
  lemma {:induction false} RemoveTabsAndNewlinesJoin(a: string, b: string)
    ensures RemoveTabsAndNewlines(a + b) == RemoveTabsAndNewlines(a) + RemoveTabsAndNewlines(b)
  {
    if a == [] {
      assert a + b == b;
    } else {
      assert (a + b)[0] == a[0];
      assert (a + b)[1..] == a[1..] + b;
      RemoveTabsAndNewlinesJoin(a[1..], b);
    }
  }

  /** Trimming the end of a join whose first part ends in a visible character trims only the second part. */
  lemma {:induction false} TrimEndJoin(a: string, b: string)
    requires a != [] && !ControlOrSpace(a[|a| - 1])
    ensures TrimEnd(a + b) == a + TrimEnd(b)
  {
    if b == [] {
      assert a + b == a;
    } else if ControlOrSpace(b[|b| - 1]) {
      assert (a + b)[..|a + b| - 1] == a + b[..|b| - 1];
      TrimEndJoin(a, b[..|b| - 1]);
    }
  }

  /** What remains of a plain value after it is read back is plain. */
  lemma ReadKeepsPlain(v: string)
    requires PlainValue(v)
    ensures PlainValue(ReadFilter(v)) && PlainValue(ReadSort(v))
  {
    var t := TrimEnd(v);
    assert forall i :: 0 <= i < |t| ==> t[i] == v[i];
  }

  /** The link a template builds is cleaned up to the link of the values read back. */
  lemma CleanHref(filter: string, sort: string)
    ensures CleanLink(Href(filter, sort)) == Href(ReadFilter(filter), ReadSort(sort))
  {
    var head := Path + filter + SortKey;
    TrimHref(head, sort);
    RemoveTabsAndNewlinesJoin(Path + filter + SortKey, TrimEnd(sort));
    RemoveTabsAndNewlinesJoin(Path + filter, SortKey);
    RemoveTabsAndNewlinesJoin(Path, filter);
    ConstantsHaveNoTabs();
  }

  lemma ConstantsHaveNoTabs()
    ensures RemoveTabsAndNewlines(Path) == Path
    ensures RemoveTabsAndNewlines(SortKey) == SortKey
  {
    assert forall i :: 0 <= i < |Path| ==> !TabOrNewline(Path[i]);
    assert forall i :: 0 <= i < |SortKey| ==> !TabOrNewline(SortKey[i]);
  }

  /** Trimming a link that starts with `/` and whose head ends in `=` trims only its tail. */
  lemma TrimHref(head: string, tail: string)
    requires head != [] && head[0] == '/' && head[|head| - 1] == '='
    ensures TrimStart(TrimEnd(head + tail)) == head + TrimEnd(tail)
  {
    TrimEndJoin(head, tail);
    var t := head + TrimEnd(tail);
    assert t[0] == '/';
  }

  /**
   * A link built from plain values reads back as those values with every tab
   * and newline removed, and the sort also without its trailing controls and
   * spaces.
   */
  lemma ParseHrefRoundTrip(filter: string, sort: string)
    requires PlainValue(filter) && PlainValue(sort)
    ensures ParseHref(Href(filter, sort)) == Some(Params(Some(ReadFilter(filter)), Some(ReadSort(sort))))
  {
    CleanHref(filter, sort);
    ReadKeepsPlain(filter);
    ReadKeepsPlain(sort);
    ParseQueryOfHref(ReadFilter(filter), ReadSort(sort));
  }

  /** A value with no tab or newline is read back unchanged as a filter. */
  lemma ReadFilterKeepsClean(v: string)
    requires forall i :: 0 <= i < |v| ==> !TabOrNewline(v[i])
    ensures ReadFilter(v) == v
  {
  }

  /** A filter value read back once reads back as itself. */
  lemma ReadFilterIdempotent(v: string)
    ensures ReadFilter(ReadFilter(v)) == ReadFilter(v)
  {
  }

  /** Every link the parser accepts cleans up to a link `Href` builds, from the values it reads. */
  lemma ParseHrefOnlyHrefs(href: string)
    requires ParseHref(href).Some?
    ensures ParseHref(href).value.filter.Some? && ParseHref(href).value.sort.Some?
    ensures CleanLink(href) == Href(ParseHref(href).value.filter.value, ParseHref(href).value.sort.value)
  {
    var link := CleanLink(href);
    ParseQueryOnlyHrefs(link);
  }

  lemma ParseQueryOnlyHrefs(link: string)
    requires ParseQuery(link).Some?
    ensures ParseQuery(link).value.filter.Some? && ParseQuery(link).value.sort.Some?
    ensures link == Href(ParseQuery(link).value.filter.value, ParseQuery(link).value.sort.value)
  {
    assert link[..|Path|] == Path;
    var rest := link[|Path|..];
    var k := FirstAmp(rest);
    assert rest[k..k + |SortKey|] == SortKey;
    var filter, sort := rest[..k], rest[k + |SortKey|..];
    assert ParseQuery(link) == Some(Params(Some(filter), Some(sort)));
    assert rest == filter + (SortKey + sort);
    assert link == Path + rest;
    assert Href(filter, sort) == Path + (filter + (SortKey + sort));
  }
}
