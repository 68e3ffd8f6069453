/** The earlier Python version of the review-board script (fr-add-docs-reviewers-requests.py):
    pick the open pull requests that request a review from the docs reviewers team and are
    not yet on the docs project, then add each one as a card to the board's column. */
module ReviewBoardPy {
  import opened Seqs
  import opened GitHub

  const DocsReviewersId := "MDQ6VGVhbTQzMDMxMzk="
  const DocsProjectId := "MDc6UHJvamVjdDQ1NzI0ODI="
  const DocsColumnId := "PC_lAPNJr_OAEXFQs4A2OFq"

  /** A pull request as the script's query returns it: the reviewers requested and the ids of
      the projects its cards belong to. */
  datatype PullRequest = PullRequest(
    id: string, isDraft: bool, reviewRequests: seq<Reviewer>, projectIds: seq<string>)

  /** A requested reviewer is truthy in Python only when it is a team: a reviewer that is not
      a team comes back as an empty object and a missing one as `None`. */
  predicate Truthy(r: Reviewer) {
    r.Team?
  }

  /** The ids of the truthy requested reviewers, in order (the script's list comprehension). */
  function RequestedIds(requests: seq<Reviewer>): (ids: seq<string>)
    ensures |ids| <= |requests|
  {
    var teams := Filter(requests, Truthy);
    seq(|teams|, i requires 0 <= i < |teams| => teams[i].id)
  }

  /** The id is among the comprehension's ids exactly when some requested team has that id. */
  lemma RequestedIdsMeaning(requests: seq<Reviewer>, id: string)
    ensures id in RequestedIds(requests) <==>
      exists i :: 0 <= i < |requests| && requests[i].Team? && requests[i].id == id
  {
    var teams := Filter(requests, Truthy);
    var idx := FilterSelection(requests, Truthy);
    if id in RequestedIds(requests) {
      var j :| 0 <= j < |teams| && teams[j].id == id;
      assert requests[idx[j]].Team? && requests[idx[j]].id == id;
    }
    if i :| 0 <= i < |requests| && requests[i].Team? && requests[i].id == id {
      assert i in idx;
      var j :| 0 <= j < |idx| && idx[j] == i;
      assert RequestedIds(requests)[j] == id;
    }
  }

  /** The condition of the loop in `filter_prs`. As written it selects pull requests that ARE
      drafts; a comment next to it records that a negation is still to be added. */
  predicate ShouldAdd(pr: PullRequest) {
    && pr.isDraft
    && DocsReviewersId in RequestedIds(pr.reviewRequests)
    && DocsProjectId !in pr.projectIds
  }

  function Ids(prs: seq<PullRequest>): (ids: seq<string>)
    ensures |ids| == |prs| && forall i :: 0 <= i < |prs| ==> ids[i] == prs[i].id
  {
    seq(|prs|, i requires 0 <= i < |prs| => prs[i].id)
  }

  lemma IdsAppend(a: seq<PullRequest>, b: seq<PullRequest>)
    ensures Ids(a + b) == Ids(a) + Ids(b)
  {
  }

  /** `filter_prs`: the ids of the pull requests meeting the condition, in input order. */
  method FilterPrs(prs: seq<PullRequest>) returns (prsToAdd: seq<string>)
    ensures prsToAdd == Ids(Filter(prs, ShouldAdd))
  {
    prsToAdd := [];
    var i := 0;
    while i < |prs|
      invariant 0 <= i <= |prs|
      invariant prsToAdd == Ids(Filter(prs[..i], ShouldAdd))
    {
      var pr := prs[i];
      assert prs[..i + 1] == prs[..i] + [pr];
      FilterAppend(prs[..i], [pr], ShouldAdd);
      assert Filter([pr], ShouldAdd) == (if ShouldAdd(pr) then [pr] else []) by {
        assert [pr][1..] == [];
      }
      IdsAppend(Filter(prs[..i], ShouldAdd), Filter([pr], ShouldAdd));
      if ShouldAdd(pr) {
        prsToAdd := prsToAdd + [pr.id];
      }
      i := i + 1;
    }
    assert prs[..i] == prs;
  }

  /** The selection is exact and keeps input order: the chosen ids are those of pull requests
      at strictly increasing positions, and a position is chosen exactly when its pull request
      is a draft, requests a review from the team with the docs reviewers' id, and has no card
      on the docs project. */
  lemma FilterPrsSelects(prs: seq<PullRequest>) returns (idx: seq<nat>)
    ensures |idx| == |Ids(Filter(prs, ShouldAdd))|
    ensures forall j :: 0 <= j < |idx| ==> idx[j] < |prs| && Ids(Filter(prs, ShouldAdd))[j] == prs[idx[j]].id
    ensures forall j, k :: 0 <= j < k < |idx| ==> idx[j] < idx[k]
    ensures forall i :: 0 <= i < |prs| ==>
      (i in idx <==>
        && prs[i].isDraft
        && (exists r :: 0 <= r < |prs[i].reviewRequests| && prs[i].reviewRequests[r].Team?
                        && prs[i].reviewRequests[r].id == DocsReviewersId)
        && DocsProjectId !in prs[i].projectIds)
  {
    idx := FilterSelection(prs, ShouldAdd);
    forall i | 0 <= i < |prs|
      ensures ShouldAdd(prs[i]) <==>
        && prs[i].isDraft
        && (exists r :: 0 <= r < |prs[i].reviewRequests| && prs[i].reviewRequests[r].Team?
                        && prs[i].reviewRequests[r].id == DocsReviewersId)
        && DocsProjectId !in prs[i].projectIds
    {
      RequestedIdsMeaning(prs[i].reviewRequests, DocsReviewersId);
    }
  }

  /** One `addProjectCard` mutation: the pull request and the column it is added to. */
  datatype CardRequest = CardRequest(prId: string, columnId: string)

  /** `add_prs_to_board`: one `addProjectCard` request per id, in order, whatever the earlier
      answers were; `rejected` says which requests the API answers with errors, and `failed`
      lists the ids the script logs a GraphQL error for, in order. */
  method AddPrsToBoard(prsToAdd: seq<string>, columnId: string, rejected: CardRequest -> bool)
    returns (requests: seq<CardRequest>, failed: seq<string>)
    ensures |requests| == |prsToAdd|
    ensures forall i :: 0 <= i < |prsToAdd| ==> requests[i] == CardRequest(prsToAdd[i], columnId)
    ensures failed == Filter(prsToAdd, (id: string) => rejected(CardRequest(id, columnId)))
  {
    ghost var failing := (id: string) => rejected(CardRequest(id, columnId));
    requests, failed := [], [];
    var i := 0;
    while i < |prsToAdd|
      invariant 0 <= i <= |prsToAdd|
      invariant |requests| == i
      invariant forall k :: 0 <= k < i ==> requests[k] == CardRequest(prsToAdd[k], columnId)
      invariant failed == Filter(prsToAdd[..i], failing)
    {
      var id := prsToAdd[i];
      var request := CardRequest(id, columnId);
      requests := requests + [request];
      assert prsToAdd[..i + 1] == prsToAdd[..i] + [id];
      FilterAppend(prsToAdd[..i], [id], failing);
      assert Filter([id], failing) == (if failing(id) then [id] else []) by {
        assert [id][1..] == [];
      }
      if rejected(request) {
        failed := failed + [id];
      }
      i := i + 1;
    }
    assert prsToAdd[..i] == prsToAdd;
  }

  /** The script's three top-level lines after the query: filter, then add every selected pull
      request to the docs column. */
  method Run(prs: seq<PullRequest>, rejected: CardRequest -> bool)
    returns (requests: seq<CardRequest>, failed: seq<string>)
    ensures |requests| == |Filter(prs, ShouldAdd)|
    ensures forall i :: 0 <= i < |requests| ==>
      requests[i] == CardRequest(Filter(prs, ShouldAdd)[i].id, DocsColumnId)
    ensures forall id :: id in failed ==> id in Ids(Filter(prs, ShouldAdd))
  {
    var prsToAdd := FilterPrs(prs);
    requests, failed := AddPrsToBoard(prsToAdd, DocsColumnId, rejected);
    forall id | id in failed
      ensures id in prsToAdd
    {
      FilterMembers(prsToAdd, (x: string) => rejected(CardRequest(x, DocsColumnId)), id);
    }
  }
}
