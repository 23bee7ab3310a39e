/** The follows table and the two services that change it: follow
    (app/services/follows/follow_service.rb) and unfollow
    (app/services/follows/unfollow_service.rb). */
module FollowGraph {
  import opened Presence
  import opened FollowRecords
  import opened Users
  import opened ServiceResult

  const UserNotFound := "User not found"
  const RelationshipNotFound := "Follow relationship not found"

  /** `Follow.find_by(follower:, followed_id:)`: the position of the edge. */
  function FindEdge(edges: seq<Follow>, e: Follow): (k: Option<nat>)
    ensures k.Some? ==> k.value < |edges| && edges[k.value] == e
    ensures k.None? <==> e !in edges
  {
    if edges == [] then None
    else if edges[0] == e then Some(0)
    else match FindEdge(edges[1..], e)
      case None => None
      case Some(k) => Some(k + 1)
  }

  /** Removing the one copy of an edge from a table without repeated edges
      removes exactly that edge. */
  lemma {:induction false} RemoveAtRemovesEdge(edges: seq<Follow>, k: nat)
    requires ValidEdges(edges) && k < |edges|
    ensures var rest := edges[..k] + edges[k + 1..];
      ValidEdges(rest) &&
      edges[k] !in rest &&
      forall e :: e != edges[k] ==> (e in rest <==> e in edges)
  {
    var rest := edges[..k] + edges[k + 1..];
    assert forall i :: 0 <= i < k ==> rest[i] == edges[i];
    assert forall i :: k <= i < |rest| ==> rest[i] == edges[i + 1];
    assert edges == edges[..k] + [edges[k]] + edges[k + 1..];
    forall e | e != edges[k] && e in edges ensures e in rest {
      var i :| 0 <= i < |edges| && edges[i] == e;
      if i < k { assert rest[i] == e; } else { assert rest[i - 1] == e; }
    }
  }

  /** The follows table. */
  class FollowTable {
    var edges: seq<Follow>

    ghost predicate Valid()
      reads this
    {
      ValidEdges(edges)
    }

    constructor ()
      ensures Valid() && edges == []
    {
      edges := [];
    }

    /** FollowService#call!: the self-follow check comes first and needs no
        lookup, then the followed user must exist (`users` holds the ids of
        the users table), then the new edge must pass validation, whose
        only possible complaint here is a pair already followed. */
    method FollowUser(follower: UserId, followedId: int, users: set<UserId>) returns (r: Result<Follow>)
      requires Valid()
      modifies this
      ensures Valid()
      ensures followedId == follower ==>
        r == Failure(Message(CannotFollowYourself)) && edges == old(edges)
      ensures followedId != follower && followedId !in users ==>
        r == Failure(Message(UserNotFound)) && edges == old(edges)
      ensures followedId != follower && followedId in users && followedId in FollowedIds(old(edges), follower) ==>
        r == Failure(Message(AlreadyFollowing)) && edges == old(edges)
      ensures followedId != follower && followedId in users && followedId !in FollowedIds(old(edges), follower) ==>
        r == Success(Some(Follow(follower, followedId))) &&
        edges == old(edges) + [Follow(follower, followedId)]
      ensures r.IsSuccess() ==>
        FollowedIds(edges, follower) == FollowedIds(old(edges), follower) + {followedId} &&
        FollowerIds(edges, followedId) == FollowerIds(old(edges), followedId) + {follower}
    {
      if follower == followedId {
        return Failure(Message(CannotFollowYourself));
      }
      if followedId !in users {
        return Failure(Message(UserNotFound));
      }
      var e := Follow(follower, followedId);
      var errs := FollowErrors(FollowDraft(Some(follower), Some(followedId)), edges);
      if errs != [] {
        assert errs == [AlreadyFollowing];
        return Failure(Message(ToSentence(errs)));
      }
      ValidatedEdgeKeepsTableValid(edges, e);
      edges := edges + [e];
      r := Success(Some(e));
    }

    /** UnfollowService#call!: destroys the edge, or fails when there is
        none. */
    method UnfollowUser(follower: UserId, followedId: int) returns (r: Result<Follow>)
      requires Valid()
      modifies this
      ensures Valid()
      ensures followedId !in FollowedIds(old(edges), follower) ==>
        r == Failure(Message(RelationshipNotFound)) && edges == old(edges)
      ensures followedId in FollowedIds(old(edges), follower) ==>
        r == Success(None) &&
        FollowedIds(edges, follower) == FollowedIds(old(edges), follower) - {followedId} &&
        FollowerIds(edges, followedId) == FollowerIds(old(edges), followedId) - {follower} &&
        forall e :: e != Follow(follower, followedId) ==> (e in edges <==> e in old(edges))
    {
      var k := FindEdge(edges, Follow(follower, followedId));
      if k.None? {
        return Failure(Message(RelationshipNotFound));
      }
      RemoveAtRemovesEdge(edges, k.value);
      edges := edges[..k.value] + edges[k.value + 1..];
      r := Success(None);
    }
  }
}
