/** The User model (app/models/user.rb): a name and the relations derived
    from the follows table. */
module Users {
  import opened Presence
  import opened FollowRecords

  type UserId = int

  datatype User = User(id: UserId, name: string)

  const MaxNameLength: int := 255

  /** `validates :name, presence: true, length: { maximum: 255 }`; a nil name
      is reported once, by the presence check. */
  function NameErrors(name: Option<string>): (errs: seq<string>)
    ensures errs == [] <==> Present(name) && |name.value| <= MaxNameLength
    ensures name.None? ==> errs == ["Name can't be blank"]
  {
    (if !Present(name) then ["Name can't be blank"] else []) +
    (if name.Some? && |name.value| > MaxNameLength
     then ["Name is too long (maximum is 255 characters)"] else [])
  }

  /** A name of non-ASCII white space only, here an ideographic and a
      no-break space, is blank. */
  lemma WhiteSpaceNameIsBlank()
    ensures NameErrors(Some("\U{3000}\U{00A0}")) == ["Name can't be blank"]
  {
    assert Blank("\U{3000}\U{00A0}");
  }

  /** `followed_users`: the followed ends of the edges this user starts. */
  function FollowedIds(edges: seq<Follow>, u: UserId): (r: set<UserId>)
    ensures forall v :: v in r <==> Follow(u, v) in edges
  {
    set e | e in edges && e.followerId == u :: e.followedId
  }

  /** `followers`: the follower ends of the edges that end at this user. */
  function FollowerIds(edges: seq<Follow>, u: UserId): (r: set<UserId>)
    ensures forall v :: v in r <==> Follow(v, u) in edges
  {
    set e | e in edges && e.followedId == u :: e.followerId
  }

  /** `user.followed_users` as the rows the relation yields, in the order of
      the follows table, each with the followed user's name. */
  function FollowedUsers(edges: seq<Follow>, names: map<UserId, string>, u: UserId): (r: seq<User>)
    requires forall e :: e in edges ==> e.followedId in names
    ensures forall x :: x in r <==> x.id in FollowedIds(edges, u) && x.name == names[x.id]
    ensures ValidEdges(edges) ==>
      forall i, j :: 0 <= i < j < |r| ==> r[i].id != r[j].id
  {
    if edges == [] then []
    else
      var rest := FollowedUsers(edges[1..], names, u);
      assert ValidEdges(edges) ==> ValidEdges(edges[1..]);
      assert forall x :: x in rest ==> Follow(u, x.id) in edges[1..];
      assert ValidEdges(edges) ==> edges[0] !in edges[1..];
      assert forall v :: Follow(u, v) in edges <==> Follow(u, v) == edges[0] || Follow(u, v) in edges[1..];
      (if edges[0].followerId == u then [User(edges[0].followedId, names[edges[0].followedId])] else []) + rest
  }

  /** The two relations are mirror images of each other. */
  lemma {:induction false} FollowedAndFollowersAgree(edges: seq<Follow>, u: UserId, v: UserId)
    ensures v in FollowedIds(edges, u) <==> u in FollowerIds(edges, v)
  {
  }
}
