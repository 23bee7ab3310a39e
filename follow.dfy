/** The Follow model (app/models/follow.rb): a directed edge from a follower
    to a followed user, and the validations a new edge must pass. */
module FollowRecords {
  import opened Presence

  datatype Follow = Follow(followerId: int, followedId: int)

  /** An unsaved Follow, whose ids may still be nil. */
  datatype FollowDraft = FollowDraft(followerId: Option<int>, followedId: Option<int>)

  const FollowerBlank := "Follower can't be blank"
  const FollowedBlank := "Followed can't be blank"
  const AlreadyFollowing := "Follower is already following this user"
  const CannotFollowYourself := "Cannot follow yourself"

  /** The uniqueness query finds a saved edge with the same pair. */
  predicate Duplicate(d: FollowDraft, edges: seq<Follow>) {
    d.followerId.Some? && d.followedId.Some? &&
    Follow(d.followerId.value, d.followedId.value) in edges
  }

  /** The messages of the validations declared after the associations, in
      declaration order: the two presence checks, pair uniqueness, then
      `cannot_follow_self` (which compares the ids as they are, so two nils
      count as equal). The `belongs_to` existence checks that come first are
      not modelled. */
  function FollowErrors(d: FollowDraft, edges: seq<Follow>): (errs: seq<string>)
    ensures errs == [] <==>
      d.followerId.Some? && d.followedId.Some? &&
      d.followerId != d.followedId && !Duplicate(d, edges)
    ensures AlreadyFollowing in errs <==> Duplicate(d, edges)
    ensures CannotFollowYourself in errs <==> d.followerId == d.followedId
  {
    (if d.followerId.None? then [FollowerBlank] else []) +
    (if d.followedId.None? then [FollowedBlank] else []) +
    (if Duplicate(d, edges) then [AlreadyFollowing] else []) +
    (if d.followerId == d.followedId then [CannotFollowYourself] else [])
  }

  /** What the validations and the unique index keep true of the follows
      table: no self-follow and no pair twice. */
  ghost predicate ValidEdges(edges: seq<Follow>) {
    (forall i :: 0 <= i < |edges| ==> edges[i].followerId != edges[i].followedId) &&
    (forall i, j :: 0 <= i < j < |edges| ==> edges[i] != edges[j])
  }

  /** Appending an edge that passes validation keeps the table valid. */
  lemma {:induction false} ValidatedEdgeKeepsTableValid(edges: seq<Follow>, e: Follow)
    requires ValidEdges(edges)
    requires FollowErrors(FollowDraft(Some(e.followerId), Some(e.followedId)), edges) == []
    ensures ValidEdges(edges + [e])
  {
  }
}
