/** Shapes of the GitHub API answers that both variants of the review-board script read. */
module GitHub {

  /** The `requestedReviewer` of a review request as seen through the query fragment
      `... on Team { name id }`: a team carries its name and id; a user or bot answers with
      an empty object (no `name`, falsy in Python); a deleted reviewer is `null`. */
  datatype Reviewer = Team(name: string, id: string) | NotTeam | Null
}
