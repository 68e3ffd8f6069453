/** The docs-issue opener automation/docsOpenDocsIssue.js: the labels of the new docs issue
    are two fixed labels, the GHES labels the release-issue parser produced, and the tier when
    it is one the script recognises; the issue is created with the parser's title and body. */
module OpenDocsIssue {
  import opened ReleaseIssue

  const FixedLabels: seq<string> := ["priority-0", "new-release"]

  /** The repository the docs issue is opened in (a placeholder name in the script). */
  const DocsRepo := "second-repo"

  /** The label list, built as the script builds it: the fixed pair, extended by the GHES
      labels, then the tier pushed in the one `switch` case that names it. */
  method DocsIssueLabels(ghesLabels: seq<string>, tier: string) returns (labels: seq<string>)
    ensures |labels| == |FixedLabels| + |ghesLabels| + (if tier in TierNames then 1 else 0)
    ensures labels[..2] == FixedLabels
    ensures labels[2..2 + |ghesLabels|] == ghesLabels
    ensures tier in TierNames ==> labels[|labels| - 1] == tier
    ensures tier !in TierNames ==> labels == FixedLabels + ghesLabels
  {
    labels := ["priority-0", "new-release"];
    labels := labels + ghesLabels;
    if tier == "Tier 1" {
      labels := labels + ["Tier 1"];
    } else if tier == "Tier 2" {
      labels := labels + ["Tier 2"];
    } else if tier == "Tier 3" {
      labels := labels + ["Tier 3"];
    } else if tier == "Tier 4" {
      labels := labels + ["Tier 4"];
    }
  }

  /** The `issues.create` request the script sends. */
  datatype CreateIssue = CreateIssue(
    owner: string, repo: string, title: string, body: string, labels: seq<string>)

  /** The whole script: the request carries the repository owner, the docs repository, the
      title and body as given, and the assembled labels. */
  method DocsOpenDocsIssue(owner: string, title: string, body: string, ghesLabels: seq<string>, tier: string)
    returns (request: CreateIssue)
    ensures request.owner == owner && request.repo == DocsRepo
    ensures request.title == title && request.body == body
    ensures |request.labels| == 2 + |ghesLabels| + (if tier in TierNames then 1 else 0)
    ensures request.labels[..2] == FixedLabels
    ensures request.labels[2..2 + |ghesLabels|] == ghesLabels
    ensures tier in TierNames ==> request.labels[|request.labels| - 1] == tier
  {
    var labels := DocsIssueLabels(ghesLabels, tier);
    request := CreateIssue(owner, DocsRepo, title, body, labels);
  }

  /** The labels of the docs issue for a release issue with labels `releaseLabels`, the tier
      being the one the release-issue parser picks: a tier label is added exactly when some
      label of the release issue is a tier, and then it is the first such label. */
  method LabelsForRelease(ghesLabels: seq<string>, releaseLabels: seq<string>) returns (labels: seq<string>)
    ensures |labels| >= 2 + |ghesLabels|
    ensures labels[..2] == FixedLabels && labels[2..2 + |ghesLabels|] == ghesLabels
    ensures (forall i :: 0 <= i < |releaseLabels| ==> releaseLabels[i] !in TierNames) ==>
      labels == FixedLabels + ghesLabels
    ensures forall i :: 0 <= i < |releaseLabels| && releaseLabels[i] in TierNames ==>
      |labels| == 3 + |ghesLabels|
      && exists j :: 0 <= j <= i && releaseLabels[j] in TierNames && labels[|labels| - 1] == releaseLabels[j]
  {
    var tier := Tier(releaseLabels);
    labels := DocsIssueLabels(ghesLabels, tier);
    FirstTierLabel(releaseLabels, tier);
  }

  /** The tier chosen from the labels is a tier name exactly when some label is one, and then
      it is the first label that is. */
  lemma FirstTierLabel(labels: seq<string>, tier: string)
    requires tier == LabelChoice(labels, TierNames)
    ensures (forall i :: 0 <= i < |labels| ==> labels[i] !in TierNames) ==> tier !in TierNames
    ensures forall i :: 0 <= i < |labels| && labels[i] in TierNames ==>
      tier in TierNames && exists j :: 0 <= j <= i && labels[j] in TierNames && tier == labels[j]
  {
    LabelChoiceMeaning(labels, TierNames);
    assert Unknown !in TierNames;
  }
}
