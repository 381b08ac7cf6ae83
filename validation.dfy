/**
 * The post schema of the mutation service: the raw fields read from a
 * submitted form, and the first-failure validation of those fields. The
 * schema object is declared with the keys content, description, published,
 * title, and the first issue it reports follows that order; the checkbox
 * field `published` never fails.
 */
module Validation {
  import opened Wrappers
  import Markdown

  /** A submitted form: field name to submitted text; an absent key is a field not sent. */
  type FormData = map<string, string>

  /** A text field read with an empty-string fallback. */
  function TextField(form: FormData, name: string): string {
    if name in form then form[name] else ""
  }

  /** A checkbox is on exactly when its submitted value is the text `on`. */
  function Checkbox(form: FormData, name: string): bool {
    name in form && form[name] == "on"
  }

  /** The four fields as the schema sees them; also echoed back on failure. */
  datatype RawPost = RawPost(title: string, description: string, content: string, published: bool)

  function RawFromForm(form: FormData): RawPost {
    RawPost(TextField(form, "title"), TextField(form, "description"),
            TextField(form, "content"), Checkbox(form, "published"))
  }

  /** What the form reading promises about every echoed field. */
  lemma RawFromFormFields(form: FormData)
    ensures RawFromForm(form).title == (if "title" in form then form["title"] else "")
    ensures RawFromForm(form).description == (if "description" in form then form["description"] else "")
    ensures RawFromForm(form).content == (if "content" in form then form["content"] else "")
    ensures RawFromForm(form).title == "" <==> "title" !in form || form["title"] == ""
    ensures RawFromForm(form).published <==> "published" in form && form["published"] == "on"
    ensures "published" !in form ==> !RawFromForm(form).published
  {
  }

  /** The checks of the schema, in the order it reports them. */
  datatype Rule = ContentRequired | ContentHasH1 | DescriptionRequired | TitleRequired

  /** `postSchema`: its rules in the order zod reports their issues, the keys' declaration order. */
  const PostSchema: seq<Rule> := [ContentRequired, ContentHasH1, DescriptionRequired, TitleRequired]

  /** The submission meets the rule: `min(1)` for the three strings, the h1 check for the content. */
  predicate Holds(rule: Rule, raw: RawPost) {
    match rule
    case ContentRequired => |raw.content| >= 1
    case ContentHasH1 => Markdown.HasH1(raw.content)
    case DescriptionRequired => |raw.description| >= 1
    case TitleRequired => |raw.title| >= 1
  }

  /** The issue message the schema reports when the rule fails. */
  function Message(rule: Rule): string {
    match rule
    case ContentRequired => "Content is required"
    case ContentHasH1 => "Content must have at least one h1 heading (# Heading)"
    case DescriptionRequired => "Description is required"
    case TitleRequired => "Title is required"
  }

  /** Rule `i` is the first of `rules` that `raw` breaks. */
  predicate FirstFailingAt(rules: seq<Rule>, raw: RawPost, i: nat) {
    i < |rules| && !Holds(rules[i], raw) && forall j :: 0 <= j < i ==> Holds(rules[j], raw)
  }

  /** The message of the first issue, or `None` when the fields pass every rule. */
  function FirstIssue(rules: seq<Rule>, raw: RawPost): (m: Option<string>)
    ensures m == None <==> forall i :: 0 <= i < |rules| ==> Holds(rules[i], raw)
    ensures m.Some? ==> exists i: nat :: FirstFailingAt(rules, raw, i) && m.value == Message(rules[i])
  {
    if rules == [] then None
    else if !Holds(rules[0], raw) then
      assert FirstFailingAt(rules, raw, 0);
      Some(Message(rules[0]))
    else
      var m := FirstIssue(rules[1..], raw);
      if m.Some? then
        var i: nat :| FirstFailingAt(rules[1..], raw, i) && m.value == Message(rules[1..][i]);
        assert FirstFailingAt(rules, raw, i + 1);
        m
      else
        assert rules == [rules[0]] + rules[1..];
        m
  }

  /** The first failing rule is the one whose message is reported. */
  lemma IssueIs(rules: seq<Rule>, raw: RawPost, k: nat)
    requires FirstFailingAt(rules, raw, k)
    ensures FirstIssue(rules, raw) == Some(Message(rules[k]))
  {
    var m := FirstIssue(rules, raw);
    assert m.Some?;
    var i: nat :| FirstFailingAt(rules, raw, i) && m.value == Message(rules[i]);
    assert i <= k;
    assert k <= i;
  }

  /** `postSchema.safeParse`: `None` is success, `Some(message)` the first issue. */
  function Validate(raw: RawPost): Option<string> {
    FirstIssue(PostSchema, raw)
  }

  /** The fields are accepted exactly when every field is filled and the content has a depth-1 heading. */
  lemma ValidateAccepts(raw: RawPost)
    ensures Validate(raw).None? <==>
      raw.content != "" && Markdown.HasH1(raw.content) && raw.description != "" && raw.title != ""
  {
    assert PostSchema[0] == ContentRequired && PostSchema[1] == ContentHasH1;
    assert PostSchema[2] == DescriptionRequired && PostSchema[3] == TitleRequired;
  }

  /** The reported message, field by field in declaration order. */
  lemma ValidateMessage(raw: RawPost)
    ensures raw.content == "" ==> Validate(raw) == Some("Content is required")
    ensures raw.content != "" && !Markdown.HasH1(raw.content) ==>
      Validate(raw) == Some("Content must have at least one h1 heading (# Heading)")
    ensures raw.content != "" && Markdown.HasH1(raw.content) && raw.description == "" ==>
      Validate(raw) == Some("Description is required")
    ensures raw.content != "" && Markdown.HasH1(raw.content) && raw.description != "" && raw.title == "" ==>
      Validate(raw) == Some("Title is required")
  {
    if raw.content == "" {
      IssueIs(PostSchema, raw, 0);
    } else if !Markdown.HasH1(raw.content) {
      IssueIs(PostSchema, raw, 1);
    } else if raw.description == "" {
      IssueIs(PostSchema, raw, 2);
    } else if raw.title == "" {
      IssueIs(PostSchema, raw, 3);
    }
  }

  /** A form with every field empty reports the content issue, not the title issue. */
  lemma EmptyFormReportsContent()
    ensures Validate(RawFromForm(map[])) == Some("Content is required")
  {
    ValidateMessage(RawFromForm(map[]));
  }

  lemma NoHeadingLine()
    ensures !Markdown.HasH1("no heading here")
  {
    var line := "no heading here";
    assert Markdown.NoLineFeed(line);
    Markdown.SingleLine(line);
    assert Markdown.Indent(line) == 0;
    assert line[0..] == line;
    assert Markdown.HashRun(line) == 0;
  }

  /** Content without a heading reports the heading issue, whatever the other fields hold: the h1 rule comes before them. */
  lemma NoHeadingReportsHeading(title: string, description: string, published: bool)
    ensures Validate(RawPost(title, description, "no heading here", published))
      == Some("Content must have at least one h1 heading (# Heading)")
  {
    NoHeadingLine();
    ValidateMessage(RawPost(title, description, "no heading here", published));
  }

  /** Filled fields whose content opens with a heading are accepted. */
  lemma HeadingIsAccepted(title: string, description: string, published: bool)
    requires title != "" && description != ""
    ensures Validate(RawPost(title, description, "# Title\nbody", published)) == None
  {
    assert "# Title\nbody" == "# " + "Title\nbody";
    Markdown.HashSpaceOpensH1("Title\nbody");
    ValidateAccepts(RawPost(title, description, "# Title\nbody", published));
  }
}
