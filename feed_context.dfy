/** The feed provider (components/FeedContext.js): it composes the viewer's
    feed from the fetched `user_feed` rows and the recommended users from the
    fetched `user_data` rows, using the `userData` object kept in session
    storage. The fetches and the storage read are inputs here. */
module FeedContext {
  import opened Wrappers
  import opened Seqs
  import opened Records

  /** The session's `connections` field as stored: absent, the JSON text of
      `null`, or the JSON text of an array of user ids. */
  datatype StoredConnections = Undefined | Null | Ids(ids: seq<ID>)

  /** The `userData` object read back from session storage. */
  datatype Session = Session(id: ID, connections: StoredConnections)

  /** How a handler ends: normally with a value, or by throwing (an async
      handler that throws rejects its promise and sets no state). */
  datatype Completion<T> = Normal(value: T) | Throw

  /** What the backend query resolves to: rows, or an error. */
  datatype Response<T> = Data(rows: T) | Error(message: string)

  /** An element of the feed array: a post, or the blank object `{}` that
      reserves the slot of the inline recommendation widget. */
  datatype FeedEntry = Placeholder | Entry(post: Post)

  /** The ids stored in the session's `connections` field; none when there
      is no session or the field is absent or `null`. */
  ghost predicate StoredConnection(session: Option<Session>, a: ID)
  {
    session.Some? && session.value.connections.Ids? && a in session.value.connections.ids
  }

  /** `currentConnections` as `fetchFeed` reads it: an empty list without a
      session, and otherwise the field parsed as JSON, which throws when the
      field is absent (`JSON.parse(undefined)`) and gives `null` for `null`.
      The list so read holds exactly the stored ids. */
  function FeedConnections(session: Option<Session>): (r: Completion<Option<seq<ID>>>)
    ensures r.Throw? <==> session.Some? && session.value.connections.Undefined?
    ensures r.Normal? ==> forall a :: (r.value.Some? && a in r.value.value) <==> StoredConnection(session, a)
  {
    match session
    case None => Normal(Some([]))
    case Some(s) =>
      match s.connections
      case Undefined => Throw
      case Null => Normal(None)
      case Ids(ids) => Normal(Some(ids))
  }

  /** The `fetchFeed` filter callback. */
  predicate Visible(post: Post, viewerId: ID, conns: Option<seq<ID>>)
  {
    post.uploaderId == viewerId || (conns.Some? && post.uploaderId in conns.value)
  }

  /** The `fetchFeed` filter: exactly the visible rows, in fetched order. */
  function VisibleRows(rows: seq<Post>, viewerId: ID, conns: Option<seq<ID>>): (r: seq<Post>)
    ensures forall p :: p in r <==> p in rows && Visible(p, viewerId, conns)
    ensures forall p :: multiset(r)[p] == if Visible(p, viewerId, conns) then multiset(rows)[p] else 0
    ensures IsSubsequence(r, rows)
  {
    FilterIsSubsequence(rows, p => Visible(p, viewerId, conns));
    FilterMultiplicity(rows, p => Visible(p, viewerId, conns));
    Filter(rows, p => Visible(p, viewerId, conns))
  }

  function Entries(ps: seq<Post>): seq<FeedEntry>
  {
    seq(|ps|, i requires 0 <= i < |ps| => Entry(ps[i]))
  }

  /** The posts of a feed, placeholders removed. */
  function Posts(feed: seq<FeedEntry>): seq<Post>
  {
    if feed == [] then []
    else (if feed[0].Entry? then [feed[0].post] else []) + Posts(feed[1..])
  }

  lemma {:induction false} PostsAppend(a: seq<FeedEntry>, b: seq<FeedEntry>)
    ensures Posts(a + b) == Posts(a) + Posts(b)
  {
    if a == [] {
      assert a + b == b;
    } else {
      var head := if a[0].Entry? then [a[0].post] else [];
      assert (a + b)[0] == a[0];
      assert (a + b)[1..] == a[1..] + b;
      assert Posts(a + b) == head + Posts(a[1..] + b);
      assert Posts(a) == head + Posts(a[1..]);
      PostsAppend(a[1..], b);
    }
  }

  lemma {:induction false} PostsEntries(ps: seq<Post>)
    ensures Posts(Entries(ps)) == ps
  {
    if ps != [] {
      assert Entries(ps)[1..] == Entries(ps[1..]);
      PostsEntries(ps[1..]);
      assert ps == [ps[0]] + ps[1..];
    }
  }

  /** Splicing the blank object in at index 1: one placeholder, at index 1, or at
      index 0 when nothing passed the filter; the posts keep their order. */
  function WithSlot(filtered: seq<Post>): (feed: seq<FeedEntry>)
    ensures |feed| == |filtered| + 1
    ensures forall i :: 0 <= i < |feed| ==> (feed[i].Placeholder? <==> i == Min(1, |filtered|))
  {
    Splice(Entries(filtered), 1, Placeholder)
  }

  /** Taking the placeholder out again gives back exactly the filtered rows. */
  lemma RemovingPlaceholderRestoresRows(filtered: seq<Post>)
    ensures Posts(WithSlot(filtered)) == filtered
  {
    var e := Entries(filtered);
    var k := Min(1, |e|);
    assert e == e[..k] + e[k..];
    assert WithSlot(filtered) == (e[..k] + [Placeholder]) + e[k..];
    PostsAppend(e[..k] + [Placeholder], e[k..]);
    PostsAppend(e[..k], [Placeholder]);
    assert Posts([Placeholder]) == [];
    PostsAppend(e[..k], e[k..]);
    PostsEntries(filtered);
  }

  /** `fetchFeed` after a successful query, as a value: the filtered rows with
      the placeholder spliced in. It throws when `userData` is missing and a
      row has to be checked against `sessiondata.id`, or when the session has
      no `connections` field for `JSON.parse` to read. */
  function ComposeFeed(rows: seq<Post>, session: Option<Session>): (r: Completion<seq<FeedEntry>>)
    ensures r.Throw? <==> (session.None? && rows != []) || (session.Some? && session.value.connections.Undefined?)
    ensures session.None? && rows == [] ==> r == Normal([Placeholder])
  {
    match FeedConnections(session)
    case Throw => Throw
    case Normal(conns) =>
      match session
      case None => if rows == [] then assert WithSlot([]) == [Placeholder]; Normal(WithSlot([])) else Throw
      case Some(s) => Normal(WithSlot(VisibleRows(rows, s.id, conns)))
  }

  /** Soundness and completeness: the feed's posts are exactly the fetched
      rows written by the viewer or by one of the viewer's connections, and
      they keep the fetched order. */
  lemma FeedShowsExactlyVisible(rows: seq<Post>, s: Session, feed: seq<FeedEntry>)
    requires ComposeFeed(rows, Some(s)) == Normal(feed)
    ensures forall p :: p in Posts(feed) <==> p in rows && (p.uploaderId == s.id || StoredConnection(Some(s), p.uploaderId))
    ensures forall p :: multiset(Posts(feed))[p] == if Visible(p, s.id, FeedConnections(Some(s)).value) then multiset(rows)[p] else 0
    ensures IsSubsequence(Posts(feed), rows)
  {
    RemovingPlaceholderRestoresRows(VisibleRows(rows, s.id, FeedConnections(Some(s)).value));
  }

  /** With a connections field of `null`, only the viewer's own posts remain. */
  lemma NullConnectionsShowOwnPosts(rows: seq<Post>, id: ID, feed: seq<FeedEntry>)
    requires ComposeFeed(rows, Some(Session(id, Null))) == Normal(feed)
    ensures forall p :: p in Posts(feed) <==> p in rows && p.uploaderId == id
  {
    FeedShowsExactlyVisible(rows, Session(id, Null), feed);
  }

  /** Exactly one placeholder, at index `min(1, number of posts)`. */
  lemma FeedHasOneSlot(rows: seq<Post>, session: Option<Session>, feed: seq<FeedEntry>)
    requires ComposeFeed(rows, session) == Normal(feed)
    ensures |feed| == |Posts(feed)| + 1
    ensures forall i :: 0 <= i < |feed| ==> (feed[i].Placeholder? <==> i == Min(1, |Posts(feed)|))
  {
    if session.None? {
      RemovingPlaceholderRestoresRows([]);
    } else {
      RemovingPlaceholderRestoresRows(VisibleRows(rows, session.value.id, FeedConnections(session).value));
    }
  }

  /** With the query's `.limit(10)`, the feed has at most eleven entries. */
  lemma FeedAtMostEleven(rows: seq<Post>, session: Option<Session>, feed: seq<FeedEntry>)
    requires |rows| <= 10
    requires ComposeFeed(rows, session) == Normal(feed)
    ensures |feed| <= 11
  {
    if session.Some? {
      SubsequenceMembers(VisibleRows(rows, session.value.id, FeedConnections(session).value), rows);
    }
  }

  /** A subsequence of a newest-first list is newest-first. */
  lemma {:induction false} SubsequenceNewestFirst(a: seq<Post>, b: seq<Post>)
    requires IsSubsequence(a, b) && NewestFirst(b)
    ensures NewestFirst(a)
    decreases |b|
  {
    if b != [] {
      assert NewestFirst(b[1..]) by {
        forall i, j | 0 <= i < j < |b[1..]| ensures b[1..][i].createdAt >= b[1..][j].createdAt {
          assert b[1..][i] == b[i + 1] && b[1..][j] == b[j + 1];
        }
      }
      if a != [] && a[0] == b[0] && IsSubsequence(a[1..], b[1..]) {
        SubsequenceNewestFirst(a[1..], b[1..]);
        SubsequenceMembers(a[1..], b[1..]);
        forall i, j | 0 <= i < j < |a| ensures a[i].createdAt >= a[j].createdAt {
          if i == 0 {
            assert a[j] == a[1..][j - 1];
            assert a[j] in b[1..];
            var k :| 0 <= k < |b[1..]| && b[1..][k] == a[j];
            assert b[k + 1] == a[j];
          } else {
            assert a[i] == a[1..][i - 1] && a[j] == a[1..][j - 1];
          }
        }
      } else {
        SubsequenceNewestFirst(a, b[1..]);
      }
    }
  }

  /** The feed is not re-sorted: newest-first rows give a newest-first feed. */
  lemma FeedKeepsNewestFirst(rows: seq<Post>, session: Option<Session>, feed: seq<FeedEntry>)
    requires NewestFirst(rows)
    requires ComposeFeed(rows, session) == Normal(feed)
    ensures NewestFirst(Posts(feed))
  {
    if session.None? {
      RemovingPlaceholderRestoresRows([]);
    } else {
      FeedShowsExactlyVisible(rows, session.value, feed);
      SubsequenceNewestFirst(Posts(feed), rows);
    }
  }

  /** `currentConnections` as `fetchRecommendedUsers` reads it: reading the
      field of a missing session throws; an absent field counts as an empty
      list, and a `null` one parses to `null`. The list so read holds exactly
      the stored ids. */
  function RecommendConnections(session: Option<Session>): (r: Completion<Option<seq<ID>>>)
    ensures r.Throw? <==> session.None?
    ensures r.Normal? ==> forall a :: (r.value.Some? && a in r.value.value) <==> StoredConnection(session, a)
  {
    match session
    case None => Throw
    case Some(s) =>
      match s.connections
      case Undefined => Normal(Some([]))
      case Null => Normal(None)
      case Ids(ids) => Normal(Some(ids))
  }

  /** The two handlers read the field differently, and give the same
      reading exactly when there is a session whose field is present. */
  lemma ConnectionReadingsAgree(session: Option<Session>)
    ensures FeedConnections(session) == RecommendConnections(session)
        <==> session.Some? && !session.value.connections.Undefined?
  {
  }

  /** The `fetchRecommendedUsers` filter callback. */
  predicate NotConnected(u: User, conns: Option<seq<ID>>)
  {
    !(conns.Some? && u.id in conns.value)
  }

  /** `fetchRecommendedUsers` after a successful query: the fetched users who
      are not already connections, in fetched order. It throws when there is
      no `userData` (the code reads `sessiondata.connections` on `null`). */
  function Recommend(users: seq<User>, session: Option<Session>): (r: Completion<seq<User>>)
    ensures r.Throw? <==> session.None?
    ensures r.Normal? ==> IsSubsequence(r.value, users)
    ensures r.Normal? ==> forall u :: u in r.value <==> u in users && !StoredConnection(session, u.id)
    ensures r.Normal? ==> forall u :: multiset(r.value)[u] == if StoredConnection(session, u.id) then 0 else multiset(users)[u]
    ensures r.Normal? && !session.value.connections.Ids? ==> r.value == users
  {
    match RecommendConnections(session)
    case Throw => Throw
    case Normal(conns) =>
      FilterIsSubsequence(users, u => NotConnected(u, conns));
      FilterMultiplicity(users, u => NotConnected(u, conns));
      if !session.value.connections.Ids? then FilterKeepsAll(users, u => NotConnected(u, conns)); Normal(Filter(users, u => NotConnected(u, conns)))
      else Normal(Filter(users, u => NotConnected(u, conns)))
  }

  /** With the query's `.limit(5)` the list has at most five users, and the
      query's `.neq('id', user.id)` is the only thing keeping the viewer out. */
  lemma RecommendBounded(users: seq<User>, session: Option<Session>, viewerId: ID)
    requires |users| <= 5
    requires forall u :: u in users ==> u.id != viewerId
    requires session.Some?
    ensures |Recommend(users, session).value| <= 5
    ensures forall u :: u in Recommend(users, session).value ==> u.id != viewerId
  {
    SubsequenceMembers(Recommend(users, session).value, users);
  }

  /** What the fetch handlers keep of the feed: it fits the ten-row query
      plus the slot, is newest-first, is empty while loading and holds
      exactly one placeholder once it has been loaded. */
  ghost predicate FeedShape(feed: seq<FeedEntry>, loading: bool)
  {
    && |feed| <= 11
    && NewestFirst(Posts(feed))
    && (loading ==> feed == [])
    && (!loading ==> |feed| == |Posts(feed)| + 1)
  }

  /** The provider's state. `feed` and `recommendedUsers` start empty and
      `loading` true; the fetch handlers assign them, and `setFeed` and
      `setRecommendedUsers` are also handed to every consumer. */
  class FeedWrapper {
    var feed: seq<FeedEntry>
    var recommendedUsers: seq<User>
    var loading: bool

    /** What the fetch handlers keep: the feed's shape, and at most the five
        queried users recommended. */
    ghost predicate Valid()
      reads this
    {
      FeedShape(feed, loading) && |recommendedUsers| <= 5
    }

    constructor ()
      ensures Valid()
      ensures feed == [] && recommendedUsers == [] && loading
    {
      feed, recommendedUsers, loading := [], [], true;
    }

    /** `fetchFeed`, given what the query resolved to and the stored session.
        A query error or a throw leaves the state as it was. */
    method FetchFeed(response: Response<seq<Post>>, session: Option<Session>)
      requires Valid()
      requires response.Data? ==> |response.rows| <= 10 && NewestFirst(response.rows)
      modifies this
      ensures Valid()
      ensures recommendedUsers == old(recommendedUsers)
      ensures if response.Data? && ComposeFeed(response.rows, session).Normal?
              then feed == ComposeFeed(response.rows, session).value && !loading
              else feed == old(feed) && loading == old(loading)
    {
      if response.Error? {
        return;
      }
      var rows := response.rows;
      var currentConnections := FeedConnections(session);
      if currentConnections.Throw? {
        return;
      }
      if session.None? && rows != [] {
        return;
      }
      var filtered := if session.None? then [] else VisibleRows(rows, session.value.id, currentConnections.value);
      var filteredFeed := Entries(filtered);
      filteredFeed := Splice(filteredFeed, 1, Placeholder);
      assert filteredFeed == WithSlot(filtered);
      FeedHasOneSlot(rows, session, filteredFeed);
      FeedAtMostEleven(rows, session, filteredFeed);
      FeedKeepsNewestFirst(rows, session, filteredFeed);
      feed, loading := filteredFeed, false;
    }

    /** `fetchRecommendedUsers`, given what the query resolved to and the
        stored session. A query error or a throw leaves the state as it was. */
    method FetchRecommendedUsers(response: Response<seq<User>>, session: Option<Session>)
      requires Valid()
      requires response.Data? ==> |response.rows| <= 5
      modifies this
      ensures Valid()
      ensures feed == old(feed) && loading == old(loading)
      ensures if response.Data? && session.Some?
              then recommendedUsers == Recommend(response.rows, session).value
              else recommendedUsers == old(recommendedUsers)
    {
      if response.Error? {
        return;
      }
      var currentConnections := RecommendConnections(session);
      if currentConnections.Throw? {
        return;
      }
      var conns := currentConnections.value;
      var filteredUsers := Filter(response.rows, u => NotConnected(u, conns));
      assert filteredUsers == Recommend(response.rows, session).value;
      recommendedUsers := filteredUsers;
    }

    /** The exported `setFeed`: a consumer may store any array. What the
        fetch handlers keep then holds exactly when the new array has the
        shape they give it. */
    method SetFeed(f: seq<FeedEntry>)
      modifies this
      ensures feed == f && recommendedUsers == old(recommendedUsers) && loading == old(loading)
      ensures Valid() <==> FeedShape(f, loading) && |recommendedUsers| <= 5
    {
      feed := f;
    }

    /** The exported `setRecommendedUsers`: a consumer may store any list. */
    method SetRecommendedUsers(u: seq<User>)
      modifies this
      ensures recommendedUsers == u && feed == old(feed) && loading == old(loading)
      ensures Valid() <==> FeedShape(feed, loading) && |u| <= 5
    {
      recommendedUsers := u;
    }
  }
}
