/** The release-issue parser automation/docsParseReleaseIssue.js: it reads the release phase
    and tier from the issue's labels, pulls the ship date and the GHES answer out of the issue
    body (falling back to the issue's comments for the GHES answer), derives the GHES labels,
    and composes the title and body of the docs issue to open. */
module ReleaseIssue {
  import opened Wrappers
  import opened Strings
  import opened Seqs

  // ---------------------------------------------------------------------------------------
  // getStringBetween

  /** In `f`, `b` first occurs at `i`, and `a` first occurs at `j` counting from the end of
      that occurrence. */
  ghost predicate LeftmostPair(f: string, b: string, a: string, i: nat, j: nat) {
    && MatchesAt(f, b, i)
    && (forall k :: 0 <= k < i ==> !MatchesAt(f, b, k))
    && i + |b| <= j
    && MatchesAt(f, a, j)
    && (forall k :: i + |b| <= k < j ==> !MatchesAt(f, a, k))
  }

  /** Some occurrence of `b` in `f` is followed, possibly after other text, by one of `a`. */
  ghost predicate HasPair(f: string, b: string, a: string) {
    exists i, j :: 0 <= i <= j && i + |b| <= j && MatchesAt(f, b, i) && MatchesAt(f, a, j)
  }

  /** `getStringBetween(input, before, after)`: the trimmed text between the first `before`
      and the nearest `after` that follows it, both compared case-insensitively, or `null`
      (here `None`) when there is none. This is the match of the regular expression
      `before(.*?)after` with the `i` and `s` flags: the lazy group stops at the first `after`. */
  function GetStringBetween(input: string, before: string, after: string): Option<string> {
    Between(input, FoldAll(input), FoldAll(before), FoldAll(after))
  }

  /** The two searches on the folded texts: `b` in `f`, then `a` after it; the text between
      them is cut from `input`, the text `f` folds. */
  function Between(input: string, f: string, b: string, a: string): Option<string>
    requires |f| == |input|
  {
    match IndexFrom(f, b, 0)
    case None => None
    case Some(i) =>
      match IndexFrom(f, a, i + |b|)
      case None => None
      case Some(j) => Some(Trim(input[i + |b|..j]))
  }

  /** The two searches on any text: both succeed exactly when some occurrence of `b` is
      followed by one of `a`, and then they find the leftmost such pair. */
  lemma SearchPair(f: string, b: string, a: string)
    ensures (IndexFrom(f, b, 0).Some? && IndexFrom(f, a, IndexFrom(f, b, 0).value + |b|).Some?) <==> HasPair(f, b, a)
    ensures IndexFrom(f, b, 0).Some? && IndexFrom(f, a, IndexFrom(f, b, 0).value + |b|).Some? ==>
      LeftmostPair(f, b, a, IndexFrom(f, b, 0).value, IndexFrom(f, a, IndexFrom(f, b, 0).value + |b|).value)
  {
    if IndexFrom(f, b, 0).Some? {
      var i := IndexFrom(f, b, 0).value;
      if IndexFrom(f, a, i + |b|).Some? {
        var j := IndexFrom(f, a, i + |b|).value;
        assert MatchesAt(f, b, i) && MatchesAt(f, a, j);
      } else {
        forall i', j' | 0 <= i' <= j' && i' + |b| <= j' && MatchesAt(f, b, i')
          ensures !MatchesAt(f, a, j')
        {
          assert i <= i';
        }
      }
    }
  }

  /** The search finds something exactly when some `before` is followed by an `after` (up to
      case); what it finds is the trimmed text between the leftmost `before` and the nearest
      `after` after it, without the delimiters. */
  lemma GetStringBetweenMeaning(input: string, before: string, after: string) returns (i: nat, j: nat)
    ensures GetStringBetween(input, before, after).Some? <==> HasPair(FoldAll(input), FoldAll(before), FoldAll(after))
    ensures GetStringBetween(input, before, after).Some? ==>
      && i + |before| <= j <= |input|
      && LeftmostPair(FoldAll(input), FoldAll(before), FoldAll(after), i, j)
      && GetStringBetween(input, before, after).value == Trim(input[i + |before|..j])
  {
    var f, b, a := FoldAll(input), FoldAll(before), FoldAll(after);
    assert |b| == |before|;
    i, j := BetweenFinds(input, f, b, a);
  }

  /** What the two searches find: a pair exactly when there is one, and then the leftmost
      pair and the trimmed text between them. */
  lemma BetweenFinds(input: string, f: string, b: string, a: string) returns (i: nat, j: nat)
    requires |f| == |input|
    ensures Between(input, f, b, a).Some? <==> HasPair(f, b, a)
    ensures Between(input, f, b, a).Some? ==>
      && i + |b| <= j <= |input|
      && LeftmostPair(f, b, a, i, j)
      && Between(input, f, b, a) == Some(Trim(input[i + |b|..j]))
  {
    SearchPair(f, b, a);
    i, j := 0, 0;
    var first := IndexFrom(f, b, 0);
    if first.Some? {
      i := first.value;
      var second := IndexFrom(f, a, i + |b|);
      if second.Some? {
        j := second.value;
      }
    }
  }

  // ---------------------------------------------------------------------------------------
  // checkGHESInComments

  const GhesCheckbox := "- [x] Is this Shipping to GHES?"

  /** The answer the comments give: "Yes" when some comment holds the ticked checkbox. */
  function CommentsAnswer(comments: seq<string>): string {
    if FindIndex(comments, (c: string) => Contains(c, GhesCheckbox)).Some? then "Yes" else "No"
  }

  /** `checkGHESInComments`: scans the comments in order and stops at the first one that holds
      the ticked checkbox. */
  method CheckGhesInComments(comments: seq<string>) returns (answer: string)
    ensures answer == CommentsAnswer(comments)
    ensures answer == "Yes" <==> exists k :: 0 <= k < |comments| && Contains(comments[k], GhesCheckbox)
    ensures answer == "Yes" || answer == "No"
  {
    var i := 0;
    while i < |comments|
      invariant 0 <= i <= |comments|
      invariant forall k :: 0 <= k < i ==> !Contains(comments[k], GhesCheckbox)
    {
      if Contains(comments[i], GhesCheckbox) {
        return "Yes";
      }
      i := i + 1;
    }
    return "No";
  }

  // ---------------------------------------------------------------------------------------
  // The phase and tier loops

  const PhaseNames: seq<string> := ["Alpha", "Private Beta", "Public Beta", "Limited Public Beta", "GA", "Deprecation"]
  const TierNames: seq<string> := ["Tier 1", "Tier 2", "Tier 3", "Tier 4"]
  const Unknown := "unknown"

  /** The name of the first label that is one of `names`, or "unknown". */
  function LabelChoice(labels: seq<string>, names: seq<string>): string {
    match FindIndex(labels, (l: string) => l in names)
    case Some(k) => labels[k]
    case None => Unknown
  }

  /** With "unknown" not among the names, the choice is "unknown" exactly when no label is
      one of the names; otherwise it is a label among the names, and no earlier label is. */
  lemma LabelChoiceMeaning(labels: seq<string>, names: seq<string>)
    requires Unknown !in names
    ensures LabelChoice(labels, names) == Unknown <==> forall k :: 0 <= k < |labels| ==> labels[k] !in names
    ensures LabelChoice(labels, names) != Unknown ==>
      LabelChoice(labels, names) in names
      && exists k :: 0 <= k < |labels| && labels[k] == LabelChoice(labels, names)
                     && forall m :: 0 <= m < k ==> labels[m] !in names
  {
  }

  /** The loop of the script: the first label that is one of `names`, else "unknown". */
  method FirstLabelIn(labels: seq<string>, names: seq<string>) returns (found: string)
    ensures found == LabelChoice(labels, names)
  {
    found := Unknown;
    var i := 0;
    while i < |labels|
      invariant 0 <= i <= |labels|
      invariant forall k :: 0 <= k < i ==> labels[k] !in names
    {
      if labels[i] in names {
        found := labels[i];
        break;
      }
      i := i + 1;
    }
  }

  method Phase(labels: seq<string>) returns (phase: string)
    ensures phase == LabelChoice(labels, PhaseNames)
    ensures phase == Unknown || phase in PhaseNames
  {
    phase := FirstLabelIn(labels, PhaseNames);
    LabelChoiceMeaning(labels, PhaseNames);
  }

  method Tier(labels: seq<string>) returns (tier: string)
    ensures tier == LabelChoice(labels, TierNames)
    ensures tier == Unknown || tier in TierNames
  {
    tier := FirstLabelIn(labels, TierNames);
    LabelChoiceMeaning(labels, TierNames);
  }

  // ---------------------------------------------------------------------------------------
  // The first number in the body: the first match of /[+-]?\d+(\.\d+)?/g

  predicate IsSign(c: char) {
    c == '+' || c == '-'
  }

  /** The end of the run of digits that starts at `p`. */
  function DigitRunEnd(s: string, p: nat): (e: nat)
    requires p <= |s|
    ensures p <= e <= |s|
    ensures forall k :: p <= k < e ==> IsDigit(s[k])
    ensures e == |s| || !IsDigit(s[e])
    decreases |s| - p
  {
    if p < |s| && IsDigit(s[p]) then DigitRunEnd(s, p + 1) else p
  }

  /** The pattern matches at `p`: a digit, or a sign followed by a digit. */
  predicate NumberStartsAt(s: string, p: nat) {
    p < |s| && (IsDigit(s[p]) || (IsSign(s[p]) && p + 1 < |s| && IsDigit(s[p + 1])))
  }

  /** Where the greedy match starting at `p` ends: all the digits, then a fraction when a dot
      followed by a digit comes next. */
  function NumberEnd(s: string, p: nat): (e: nat)
    requires NumberStartsAt(s, p)
    ensures p < e <= |s|
  {
    var q := if IsSign(s[p]) then p + 1 else p;
    var e := DigitRunEnd(s, q);
    if e + 1 < |s| && s[e] == '.' && IsDigit(s[e + 1]) then DigitRunEnd(s, e + 1) else e
  }

  function FirstNumberFrom(s: string, p: nat): (r: Option<string>)
    decreases |s| - p
  {
    if p >= |s| then None
    else if NumberStartsAt(s, p) then Some(s[p..NumberEnd(s, p)])
    else FirstNumberFrom(s, p + 1)
  }

  /** `body.match(/[+-]?\d+(\.\d+)?/g)[0]`, or `null` (here `None`) when nothing matches. */
  function FirstNumber(s: string): Option<string> {
    FirstNumberFrom(s, 0)
  }

  /** `t` is a number token whose digits run over `[q, d)`: an optional sign (`q == 1`), the
      digits, then nothing or a dot followed by digits up to the end. */
  predicate TokenShape(t: string, q: nat, d: nat) {
    && q <= 1 && q < d <= |t|
    && (q == 1 ==> IsSign(t[0]))
    && (forall k :: q <= k < d ==> IsDigit(t[k]))
    && (d == |t| || (d + 1 < |t| && t[d] == '.' && forall k :: d < k < |t| ==> IsDigit(t[k])))
  }

  /** A number token: an optional sign, digits, then optionally a dot and more digits. */
  ghost predicate IsNumberToken(t: string) {
    exists q: nat, d: nat :: TokenShape(t, q, d)
  }

  lemma {:induction false} FirstNumberFromMeaning(s: string, p: nat) returns (q: nat)
    ensures FirstNumberFrom(s, p).None? <==> forall r :: p <= r < |s| ==> !NumberStartsAt(s, r)
    ensures FirstNumberFrom(s, p).Some? ==>
      && p <= q < |s| && NumberStartsAt(s, q) && (forall r :: p <= r < q ==> !NumberStartsAt(s, r))
      && FirstNumberFrom(s, p).value == s[q..NumberEnd(s, q)]
    decreases |s| - p
  {
    q := p;
    if p < |s| && !NumberStartsAt(s, p) {
      q := FirstNumberFromMeaning(s, p + 1);
    }
  }

  /** The token at `p` has the pattern's shape and is the longest one there: no digit follows
      it, nor a dot and a digit. */
  lemma NumberTokenAt(s: string, p: nat)
    requires NumberStartsAt(s, p)
    ensures IsNumberToken(s[p..NumberEnd(s, p)])
    ensures NumberEnd(s, p) == |s| || !IsDigit(s[NumberEnd(s, p)])
    ensures '.' !in s[p..NumberEnd(s, p)] ==>
      !(NumberEnd(s, p) + 1 < |s| && s[NumberEnd(s, p)] == '.' && IsDigit(s[NumberEnd(s, p) + 1]))
  {
    var q := if IsSign(s[p]) then p + 1 else p;
    var d := DigitRunEnd(s, q);
    var e := NumberEnd(s, p);
    var t := s[p..e];
    assert forall k :: 0 <= k < |t| ==> t[k] == s[p + k];
    assert TokenShape(t, q - p, d - p);
    if e != d {
      assert t[d - p] == '.';
    }
  }

  /** The first number is found exactly when the pattern matches somewhere; it is the longest
      token at the leftmost position where the pattern matches. */
  lemma FirstNumberMeaning(s: string) returns (q: nat)
    ensures FirstNumber(s).None? <==> forall r :: 0 <= r < |s| ==> !NumberStartsAt(s, r)
    ensures FirstNumber(s).Some? ==>
      && q < |s| && NumberStartsAt(s, q) && (forall r :: 0 <= r < q ==> !NumberStartsAt(s, r))
      && FirstNumber(s).value == s[q..NumberEnd(s, q)] && IsNumberToken(FirstNumber(s).value)
  {
    q := FirstNumberFromMeaning(s, 0);
    if FirstNumber(s).Some? {
      NumberTokenAt(s, q);
    }
  }

  /** The version numbers in `16.2 and 17` read as "16.2": the fraction is part of the token. */
  lemma FirstNumberExample()
    ensures FirstNumber("GHES 16.2 and 17") == Some("16.2")
  {
    var s := "GHES 16.2 and 17";
    assert !NumberStartsAt(s, 0) && !NumberStartsAt(s, 1) && !NumberStartsAt(s, 2);
    assert !NumberStartsAt(s, 3) && !NumberStartsAt(s, 4) && NumberStartsAt(s, 5);
    assert DigitRunEnd(s, 5) == 7 by {
      assert !IsDigit(s[7]);
    }
    assert DigitRunEnd(s, 8) == 9 by {
      assert !IsDigit(s[9]);
    }
    assert NumberEnd(s, 5) == 9;
    assert FirstNumberFrom(s, 5) == Some(s[5..9]);
    assert s[5..9] == "16.2";
  }

  // ---------------------------------------------------------------------------------------
  // The GHES labels

  /** The labels for a GHES answer: "GHES" when the answer starts with "Yes", then
      "GHES <version>" when the body holds a number. */
  function GhesLabelsFor(answer: string, body: string): seq<string> {
    if !StartsWith(answer, "Yes") then []
    else match FirstNumber(body)
      case Some(v) => ["GHES", "GHES " + v]
      case None => ["GHES"]
  }

  /** The `ghesLabels` pushes of the script. */
  method GhesLabels(answer: string, body: string) returns (labels: seq<string>)
    ensures labels == GhesLabelsFor(answer, body)
    ensures labels == [] <==> !StartsWith(answer, "Yes")
    ensures labels != [] ==> labels[0] == "GHES" && |labels| <= 2
    ensures |labels| == 2 <==> StartsWith(answer, "Yes") && FirstNumber(body).Some?
    ensures |labels| == 2 ==> labels[1] == "GHES " + FirstNumber(body).value
  {
    labels := [];
    if StartsWith(answer, "Yes") {
      labels := labels + ["GHES"];
      var version := FirstNumber(body);
      if version.Some? {
        labels := labels + ["GHES " + version.value];
      }
    }
  }

  // ---------------------------------------------------------------------------------------
  // compileIssueBody

  /** The template up to the Target date row, and from the end of the Release issue row on. */
  const BodyHead :=
    "\n"
    + "  ## Release details\n"
    + "\n"
    + "  _This table interacts with our project boards ([learn how issue fields "
    + "work](https://howie-docs.githubapp.com/features/issue-fields/))._\n"
    + "  <!-- issue-fields start -->\n"
    + "\n"
    + "    | Field | Value |\n"
    + "    | ----- | ----- |\n"
    + "    "
  const BodyTail :=
    "\n"
    + "    | Release FAQ | To be added (once the FAQ is added to the release issue) |\n"
    + "\n"
    + "  <!-- issue-fields end -->\n"
    + "\n"
    + "  ## How to use this issue\n"
    + "\n"
    + "  Every issue in github/releases automatically opens an issue in github/docs-content for "
    + "the Docs team to triage.\n"
    + "\n"
    + "  - Writer FRs: Add the product label(s) for the appropriate Docs focus team. If you need "
    + "help, consult a [focus area "
    + "DRI](https://github.com/github/docs-content/tree/main/focus-areas).\n"
    + "  - Docs focus area DRIs: For public beta and GA releases, determine whether the release "
    + "needs new documentation or requires updates to existing docs, collaborating with the "
    + "product team as needed. If no docs updates are needed, close this issue as not planned. "
    + "For alpha and private beta releases, work with the product team as needed to support "
    + "self-publishing.\n"
    + "\n"
    + "  ## Documentation at different release phases\n"
    + "\n"
    + "  Public documentation on GitHub Docs begins at public beta, or at private beta if the "
    + "beta is widely publicized or made available to a broad user base.\n"
    + "\n"
    + "  For alphas and private betas, product teams can create and publish their own private "
    + "documentation with Docs team help. Documentation at these phases is optional but highly "
    + "recommended. See the [Preview "
    + "Guide](https://github.com/github/product/blob/main/GitHub%20Preview%20Resources/preview-gui"
    + "de.md#documenting-your-preview) for instructions.\n"
    + "\n"
    + "  If this release has a small docs impact, invite the product manager or another "
    + "stakeholder to update the docs after you create the content design plan.\n"
    + "  "

  /** How `${shipDate}` renders: the text, or "null" when the ship date was not found. */
  function ShipDateText(shipDate: Option<string>): string {
    match shipDate
    case Some(d) => d
    case None => "null"
  }

  function TargetDateRow(shipDate: Option<string>): string {
    "| Target date | " + ShipDateText(shipDate) + " |"
  }

  function ReleaseIssueRow(issue: string): string {
    "| Release issue | " + issue + " |"
  }

  function CompileIssueBody(shipDate: Option<string>, issue: string): string {
    BodyHead + TargetDateRow(shipDate) + "\n    " + ReleaseIssueRow(issue) + BodyTail
  }

  /** The body's table carries the ship date ("null" when none was found) and the release
      issue's address, each in its own row, the date row right before the issue row. */
  lemma CompileIssueBodyRows(shipDate: Option<string>, issue: string) returns (dateAt: nat, issueAt: nat)
    ensures MatchesAt(CompileIssueBody(shipDate, issue), TargetDateRow(shipDate), dateAt)
    ensures MatchesAt(CompileIssueBody(shipDate, issue), ReleaseIssueRow(issue), issueAt)
    ensures issueAt == dateAt + |TargetDateRow(shipDate)| + 5
  {
    dateAt, issueAt := MatchesTwoParts(BodyHead, TargetDateRow(shipDate), "\n    ", ReleaseIssueRow(issue), BodyTail);
  }

  // ---------------------------------------------------------------------------------------
  // docsParseReleaseIssue

  const ShipDateLabel := "Expected ship date"
  const GhesQuestion := "Will this feature, in its current release phase, flow into GitHub Enterprise Server?"
  const SectionMark := "###"

  /** The release issue of the event payload: labels by name. */
  datatype Issue = Issue(title: string, body: string, htmlUrl: string, labels: seq<string>)

  /** The outputs the action sets; `ghesLabels` is the list before it is turned into JSON. */
  datatype Outputs = Outputs(newTitle: string, newBody: string, tier: string, ghesLabels: seq<string>)

  /** The GHES answer: the body's answer, unless it is missing or empty (both falsy), in which
      case the comments decide. */
  function GhesAnswer(body: string, comments: seq<string>): string {
    match GetStringBetween(body, GhesQuestion, SectionMark)
    case Some(a) => if a != "" then a else CommentsAnswer(comments)
    case None => CommentsAnswer(comments)
  }

  /** A non-empty answer in the body is the answer, whatever the comments say; without one
      the answer is exactly "Yes" or "No" according to the comments. */
  lemma GhesAnswerFallback(body: string, comments: seq<string>, others: seq<string>)
    ensures GetStringBetween(body, GhesQuestion, SectionMark).Some?
            && GetStringBetween(body, GhesQuestion, SectionMark).value != "" ==>
      GhesAnswer(body, comments) == GetStringBetween(body, GhesQuestion, SectionMark).value
    ensures (match GetStringBetween(body, GhesQuestion, SectionMark)
             case Some(a) => a != ""
             case None => false) ==> GhesAnswer(body, comments) == GhesAnswer(body, others)
    ensures GetStringBetween(body, GhesQuestion, SectionMark) in {None, Some("")} ==>
      (GhesAnswer(body, comments) == "Yes" <==> exists k :: 0 <= k < |comments| && Contains(comments[k], GhesCheckbox))
      && (GhesAnswer(body, comments) == "Yes" || GhesAnswer(body, comments) == "No")
  {
    var p := (c: string) => Contains(c, GhesCheckbox);
    var r := FindIndex(comments, p);
    if r.None? {
      assert forall k :: 0 <= k < |comments| ==> !p(comments[k]);
    }
  }

  /** The GHES part of the script: the answer in the body, else the comments' answer, and the
      labels it gives. */
  method GhesLabelsOfIssue(body: string, comments: seq<string>) returns (ghesLabels: seq<string>)
    ensures ghesLabels == GhesLabelsFor(GhesAnswer(body, comments), body)
  {
    var found := GetStringBetween(body, GhesQuestion, SectionMark);
    var ghesAnswer := if found.Some? then found.value else "";
    if ghesAnswer == "" {
      ghesAnswer := CheckGhesInComments(comments);
    }
    ghesLabels := GhesLabels(ghesAnswer, body);
  }

  /** `docsParseReleaseIssue`: the outputs are the title as it is, the body compiled from the
      ship date and the release issue's address, the tier, and the GHES labels. */
  method DocsParseReleaseIssue(issue: Issue, comments: seq<string>) returns (out: Outputs)
    ensures out.newTitle == issue.title
    ensures out.newBody == CompileIssueBody(GetStringBetween(issue.body, ShipDateLabel, SectionMark), issue.htmlUrl)
    ensures out.tier == LabelChoice(issue.labels, TierNames)
    ensures out.ghesLabels == GhesLabelsFor(GhesAnswer(issue.body, comments), issue.body)
  {
    var phase := Phase(issue.labels);
    var tier := Tier(issue.labels);
    var shipDate := GetStringBetween(issue.body, ShipDateLabel, SectionMark);
    var ghesLabels := GhesLabelsOfIssue(issue.body, comments);
    out := Outputs(issue.title, CompileIssueBody(shipDate, issue.htmlUrl), tier, ghesLabels);
  }
}
