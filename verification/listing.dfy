/** `GET /post`: every post, newest first by creation time, at most twenty,
    each with its author resolved to id and username. */
module Listing {
  import opened Base
  import opened Posts
  import Users
  import opened Http

  /** `.limit(20)`. */
  const RecentLimit: nat := 20

  /** `.sort({ createdAt: -1 })`: creation times never increase. */
  ghost predicate NewestFirst(s: seq<Post>)
  {
    forall i, j :: 0 <= i < j < |s| ==> s[i].createdAt >= s[j].createdAt
  }

  /** No post of a newest-first sequence is newer than its head. */
  lemma HeadIsNewest(s: seq<Post>)
    requires NewestFirst(s) && |s| > 0
    ensures forall x :: x in s ==> x.createdAt <= s[0].createdAt
  {
    forall x | x in s
      ensures x.createdAt <= s[0].createdAt
    {
      var j :| 0 <= j < |s| && s[j] == x;
      if j > 0 {
        assert s[0].createdAt >= s[j].createdAt;
      }
    }
  }

  /** A post no older than anything in a newest-first sequence may lead it. */
  lemma ConsNewestFirst(h: Post, rest: seq<Post>)
    requires NewestFirst(rest)
    requires forall x :: x in rest ==> x.createdAt <= h.createdAt
    ensures NewestFirst([h] + rest)
  {
    var s := [h] + rest;
    forall i, j | 0 <= i < j < |s|
      ensures s[i].createdAt >= s[j].createdAt
    {
      assert s[j] == rest[j - 1];
      if i > 0 {
        assert s[i] == rest[i - 1];
      } else {
        assert rest[j - 1] in rest;
      }
    }
  }

  /** Places `p` into a newest-first sequence, before the first post older
      than it. */
  function Insert(p: Post, sorted: seq<Post>): seq<Post>
    decreases |sorted|
  {
    if |sorted| == 0 then [p]
    else if p.createdAt >= sorted[0].createdAt then [p] + sorted
    else [sorted[0]] + Insert(p, sorted[1..])
  }

  /** Insertion keeps a sequence newest first and adds exactly `p`. */
  lemma {:induction false} InsertKeepsOrder(p: Post, sorted: seq<Post>)
    requires NewestFirst(sorted)
    ensures NewestFirst(Insert(p, sorted))
    ensures multiset(Insert(p, sorted)) == multiset(sorted) + multiset{p}
    decreases |sorted|
  {
    if |sorted| > 0 {
      HeadIsNewest(sorted);
      if p.createdAt >= sorted[0].createdAt {
        ConsNewestFirst(p, sorted);
      } else {
        var tail := sorted[1..];
        assert sorted == [sorted[0]] + tail;
        assert NewestFirst(tail);
        InsertKeepsOrder(p, tail);
        var rest := Insert(p, tail);
        forall x | x in rest
          ensures x.createdAt <= sorted[0].createdAt
        {
          assert x in multiset(rest);
          if x != p {
            assert x in multiset(tail);
            assert x in sorted;
          }
        }
        ConsNewestFirst(sorted[0], rest);
        assert Insert(p, sorted) == [sorted[0]] + rest;
      }
    }
  }

  /** The store's sort: the same posts, newest first. The order of posts
      created at the same instant is left open, as the store leaves it. */
  function SortNewestFirst(posts: seq<Post>): (r: seq<Post>)
    ensures NewestFirst(r)
    ensures multiset(r) == multiset(posts)
    decreases |posts|
  {
    if |posts| == 0 then []
    else
      assert posts == [posts[0]] + posts[1..];
      InsertKeepsOrder(posts[0], SortNewestFirst(posts[1..]));
      Insert(posts[0], SortNewestFirst(posts[1..]))
  }

  /** `Post.find().sort({ createdAt: -1 }).limit(20)`. */
  function RecentPosts(posts: PostStore): (r: seq<Post>)
    ensures |r| == Min(|posts|, RecentLimit)
    ensures NewestFirst(r)
    ensures multiset(r) <= multiset(posts)
    ensures forall x :: x in r ==> x in posts
    ensures forall p, q :: p in posts && p !in r && q in r ==> q.createdAt >= p.createdAt
  {
    var sorted := SortNewestFirst(posts);
    var k := Min(|posts|, RecentLimit);
    PrefixOfSorted(sorted, posts, k);
    LeftOutAreOlder(sorted, posts, k);
    sorted[..k]
  }

  /** A prefix of a newest-first permutation of the posts is newest first
      and holds only stored posts. */
  lemma PrefixOfSorted(sorted: seq<Post>, posts: seq<Post>, k: nat)
    requires NewestFirst(sorted)
    requires multiset(sorted) == multiset(posts)
    requires k <= |posts|
    ensures |sorted| == |posts|
    ensures NewestFirst(sorted[..k])
    ensures multiset(sorted[..k]) <= multiset(posts)
    ensures forall x :: x in sorted[..k] ==> x in posts
  {
    assert |sorted| == |multiset(sorted)| == |posts|;
    assert sorted == sorted[..k] + sorted[k..];
    assert multiset(sorted) == multiset(sorted[..k]) + multiset(sorted[k..]);
    forall x | x in sorted[..k]
      ensures x in posts
    {
      assert x in multiset(sorted[..k]);
      assert x in multiset(posts);
    }
  }

  /** Cutting a newest-first permutation after `k` leaves out no post newer
      than one it keeps. */
  lemma LeftOutAreOlder(sorted: seq<Post>, posts: seq<Post>, k: nat)
    requires NewestFirst(sorted)
    requires multiset(sorted) == multiset(posts)
    requires k <= |sorted|
    ensures forall p, q :: p in posts && p !in sorted[..k] && q in sorted[..k] ==> q.createdAt >= p.createdAt
  {
    forall p, q | p in posts && p !in sorted[..k] && q in sorted[..k]
      ensures q.createdAt >= p.createdAt
    {
      assert p in multiset(posts);
      assert p in sorted;
      var j :| 0 <= j < |sorted| && sorted[j] == p;
      var i :| 0 <= i < k && sorted[..k][i] == q;
      assert j >= k;
    }
  }

  /** `.populate("author", ["username"])` over a result list. */
  function PopulateAll(users: Users.UserStore, s: seq<Post>): (r: seq<PopulatedPost>)
    ensures |r| == |s|
    ensures forall i :: 0 <= i < |s| ==> r[i] == Populate(users, s[i]) && r[i].post == s[i]
    ensures forall i :: 0 <= i < |r| ==> AuthorResolved(users, r[i])
  {
    seq(|s|, i requires 0 <= i < |s| => Populate(users, s[i]))
  }

  /** The posts a listing carries, in order. */
  function PostsOf(l: seq<PopulatedPost>): seq<Post>
  {
    seq(|l|, i requires 0 <= i < |l| => l[i].post)
  }

  /** Populating a list keeps its posts, in order. */
  lemma PostsOfPopulateAll(users: Users.UserStore, s: seq<Post>)
    ensures PostsOf(PopulateAll(users, s)) == s
  {
  }

  /** `GET /post`: the recent posts with their authors populated.
      `storeFault` is `Post.find()` rejecting (a lost connection, say): the
      handler's promise rejects and nothing answers. */
  function ListRecent(users: Users.UserStore, posts: PostStore, storeFault: bool): (r: Outcome)
    ensures r.Reply? <==> !storeFault
    ensures r.Reply? ==> r.response.status == OK && r.response.cookie == Untouched && r.response.body.PostListJson?
    ensures r.Reply? && |posts| == 0 ==> r.response.body.posts == []
    ensures r.Reply? ==> |r.response.body.posts| == Min(|posts|, RecentLimit)
    ensures r.Reply? ==> forall i :: 0 <= i < |r.response.body.posts| ==> r.response.body.posts[i].post in posts
    ensures r.Reply? ==> forall i, j :: 0 <= i < j < |r.response.body.posts| ==>
      r.response.body.posts[i].post.createdAt >= r.response.body.posts[j].post.createdAt
    ensures r.Reply? ==> forall p, i :: p in posts && p !in PostsOf(r.response.body.posts) && 0 <= i < |r.response.body.posts| ==>
      r.response.body.posts[i].post.createdAt >= p.createdAt
    ensures r.Reply? ==> multiset(PostsOf(r.response.body.posts)) <= multiset(posts)
    ensures r.Reply? ==> forall i :: 0 <= i < |r.response.body.posts| ==>
      && r.response.body.posts[i] == Populate(users, r.response.body.posts[i].post)
      && AuthorResolved(users, r.response.body.posts[i])
  {
    if storeFault then Unhandled
    else
      var recent := RecentPosts(posts);
      var listed := PopulateAll(users, recent);
      PostsOfPopulateAll(users, recent);
      Reply(Response(OK, PostListJson(listed), Untouched))
  }
}
