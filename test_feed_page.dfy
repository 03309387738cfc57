/** The alternative feed page (pages/feed/test.index.js): it keys the feed
    on e-mail addresses, filters the recommended users itself and shows the
    first three of them on narrow screens and the first five on wide ones.
    The signed-in user's e-mail, id and `user_metadata.connections` (an array,
    or absent) are inputs here. */
module TestFeedPage {
  import opened Wrappers
  import opened Seqs
  import opened Records

  /** The `filterFeed` callback: it returns the post itself (truthy) when the
      author's e-mail is a connection or the viewer's own. */
  predicate Kept(e: Post, email: string, connections: Option<seq<string>>)
  {
    (connections.Some? && e.uploaderEmail in connections.value) || e.uploaderEmail == email
  }

  /** The filter of `filterFeed`. */
  function FilterFeed(feedData: seq<Post>, email: string, connections: Option<seq<string>>): (r: seq<Post>)
    ensures forall e :: e in r <==> e in feedData && Kept(e, email, connections)
    ensures forall e :: multiset(r)[e] == if Kept(e, email, connections) then multiset(feedData)[e] else 0
    ensures IsSubsequence(r, feedData)
  {
    FilterIsSubsequence(feedData, e => Kept(e, email, connections));
    FilterMultiplicity(feedData, e => Kept(e, email, connections));
    Filter(feedData, e => Kept(e, email, connections))
  }

  /** Without a connections list only the viewer's own posts remain. */
  lemma NoConnectionsOwnPostsOnly(feedData: seq<Post>, email: string)
    ensures forall e :: e in FilterFeed(feedData, email, None) <==> e in feedData && e.uploaderEmail == email
  {
    assert forall e :: Kept(e, email, None) == (e.uploaderEmail == email);
  }

  /** Re-running `filterFeed` on its own output changes nothing. */
  lemma FilterFeedIdempotent(feedData: seq<Post>, email: string, connections: Option<seq<string>>)
    ensures FilterFeed(FilterFeed(feedData, email, connections), email, connections) == FilterFeed(feedData, email, connections)
  {
    FilterIdempotent(feedData, e => Kept(e, email, connections));
  }

  /** The recommended-users callback: neither a connection nor the viewer. */
  predicate Recommendable(e: User, userId: ID, connections: seq<ID>)
  {
    e.id !in connections && e.id != userId
  }

  /** The recommendation list: filtered when a connections list is present,
      the fetched list as is otherwise. */
  function Recommend(recomUserData: seq<User>, userId: ID, connections: Option<seq<ID>>): (r: seq<User>)
    ensures connections.None? ==> r == recomUserData
    ensures connections.Some? ==> forall e :: e in r <==> e in recomUserData && Recommendable(e, userId, connections.value)
    ensures connections.Some? ==>
      forall e :: multiset(r)[e] == if Recommendable(e, userId, connections.value) then multiset(recomUserData)[e] else 0
    ensures IsSubsequence(r, recomUserData)
  {
    match connections
    case None =>
      SubsequenceReflexive(recomUserData);
      recomUserData
    case Some(c) =>
      FilterIsSubsequence(recomUserData, e => Recommendable(e, userId, c));
      FilterMultiplicity(recomUserData, e => Recommendable(e, userId, c));
      Filter(recomUserData, e => Recommendable(e, userId, c))
  }

  /** Without a connections list the viewer is not filtered out: a fetched
      row carrying the viewer's id is recommended. */
  lemma NoConnectionsKeepsViewer(recomUserData: seq<User>, viewer: User)
    requires viewer in recomUserData
    ensures viewer in Recommend(recomUserData, viewer.id, None)
  {
  }

  /** What the narrow layout renders of the recommended users (index bound 3). */
  function NarrowRecommended(users: seq<User>): (shown: seq<User>)
    ensures shown == users[..Min(3, |users|)]
  {
    RenderedPrefix(users, 3);
    Rendered(MapBelow(users, 3))
  }

  /** What the wide layout renders of the recommended users (index bound 5). */
  function WideRecommended(users: seq<User>): (shown: seq<User>)
    ensures shown == users[..Min(5, |users|)]
  {
    RenderedPrefix(users, 5);
    Rendered(MapBelow(users, 5))
  }

  /** The narrow layout shows the first entries of the wide one. */
  lemma NarrowIsPrefixOfWide(users: seq<User>)
    ensures |NarrowRecommended(users)| <= |WideRecommended(users)|
    ensures NarrowRecommended(users) == WideRecommended(users)[..|NarrowRecommended(users)|]
  {
  }
}
