/**
  The normalised post record and the ordering of the post list: newest first
  by `date.time`. `Array.prototype.sort` is stable, so posts with equal times
  keep their input order; the model sorts by stable insertion.
 */
module Posts {
  import opened Wrappers
  import opened Values

  /** What the date formatter produces: a sortable timestamp and display text. */
  datatype PostDate = PostDate(time: int, text: string)

  datatype Post = Post(
    title: Value,
    url: string,
    urlWithoutLang: string,
    excerpt: Option<string>,
    date: PostDate,
    lang: string,
    frontmatter: map<string, Value>)

  function Time(p: Post): int
  {
    p.date.time
  }

  /** `date.time` never increases along the list. */
  predicate SortedNewestFirst(posts: seq<Post>)
  {
    forall i, j :: 0 <= i < j < |posts| ==> Time(posts[i]) >= Time(posts[j])
  }

  /** The posts with timestamp `t`, in list order. */
  function WithTime(posts: seq<Post>, t: int): seq<Post>
  {
    if posts == [] then []
    else (if Time(posts[0]) == t then [posts[0]] else []) + WithTime(posts[1..], t)
  }

  /** A post no older than the head of a newest-first list can go in front of it. */
  lemma SortedCons(p: Post, posts: seq<Post>)
    requires SortedNewestFirst(posts)
    requires posts == [] || Time(p) >= Time(posts[0])
    ensures SortedNewestFirst([p] + posts)
  {
    var r := [p] + posts;
    forall i, j | 0 <= i < j < |r|
      ensures Time(r[i]) >= Time(r[j])
    {
      if i == 0 {
        assert r[j] == posts[j - 1];
        assert Time(posts[0]) >= Time(posts[j - 1]);
      } else {
        assert r[i] == posts[i - 1] && r[j] == posts[j - 1];
      }
    }
  }

  lemma SortedTail(posts: seq<Post>)
    requires SortedNewestFirst(posts) && posts != []
    ensures SortedNewestFirst(posts[1..])
  {
    var tail := posts[1..];
    forall i, j | 0 <= i < j < |tail|
      ensures Time(tail[i]) >= Time(tail[j])
    {
      assert tail[i] == posts[i + 1] && tail[j] == posts[j + 1];
    }
  }

  /** Places `p` in front of the first post that is not newer than it. */
  function Insert(p: Post, posts: seq<Post>): (r: seq<Post>)
    requires SortedNewestFirst(posts)
    ensures SortedNewestFirst(r)
    ensures multiset(r) == multiset(posts) + multiset{p}
    ensures r[0] == p || r[0] == posts[0]
  {
    if posts == [] || Time(posts[0]) <= Time(p) then
      SortedCons(p, posts);
      [p] + posts
    else
      var tail := posts[1..];
      assert posts == [posts[0]] + tail;
      SortedTail(posts);
      var rest := Insert(p, tail);
      assert tail != [] ==> Time(posts[0]) >= Time(tail[0]);
      SortedCons(posts[0], rest);
      assert multiset([posts[0]] + rest) == multiset{posts[0]} + multiset(rest);
      [posts[0]] + rest
  }

  /** `posts.sort((a, b) => b.date.time - a.date.time)` */
  function SortNewestFirst(posts: seq<Post>): (r: seq<Post>)
    ensures SortedNewestFirst(r)
    ensures multiset(r) == multiset(posts)
    ensures |r| == |posts|
  {
    if posts == [] then []
    else
      assert posts == [posts[0]] + posts[1..];
      Insert(posts[0], SortNewestFirst(posts[1..]))
  }

  /** How `Insert` unfolds when `p` is older than the head of the list. */
  lemma InsertBehindHead(p: Post, posts: seq<Post>)
    requires SortedNewestFirst(posts) && posts != [] && Time(posts[0]) > Time(p)
    ensures SortedNewestFirst(posts[1..])
    ensures Insert(p, posts)[0] == posts[0]
    ensures Insert(p, posts)[1..] == Insert(p, posts[1..])
  {
    SortedTail(posts);
    var r := [posts[0]] + Insert(p, posts[1..]);
    assert Insert(p, posts) == r;
  }

  /** One step of `WithTimeInsert`: `p` goes behind the head of the list. */
  lemma WithTimeInsertBehindHead(p: Post, posts: seq<Post>, t: int, tailGroup: seq<Post>)
    requires SortedNewestFirst(posts) && posts != [] && Time(posts[0]) > Time(p)
    requires tailGroup == WithTime(posts[1..], t)
    requires Time(p) == t ==> WithTime(Insert(p, posts)[1..], t) == [p] + tailGroup
    requires Time(p) != t ==> WithTime(Insert(p, posts)[1..], t) == tailGroup
    ensures Time(p) == t ==> WithTime(Insert(p, posts), t) == [p] + WithTime(posts, t)
    ensures Time(p) != t ==> WithTime(Insert(p, posts), t) == WithTime(posts, t)
  {
    InsertBehindHead(p, posts);
    var r := Insert(p, posts);
    WithTimeCons(r, t);
    WithTimeCons(posts, t);
  }

  /** Inserting `p` puts it ahead of every post with the same time. */
  lemma {:induction false} WithTimeInsert(p: Post, posts: seq<Post>, t: int)
    requires SortedNewestFirst(posts)
    ensures WithTime(Insert(p, posts), t) ==
            (if Time(p) == t then [p] else []) + WithTime(posts, t)
    decreases |posts|
  {
    if posts == [] || Time(posts[0]) <= Time(p) {
      var r := [p] + posts;
      assert Insert(p, posts) == r;
      assert r[0] == p && r[1..] == posts;
      WithTimeCons(r, t);
    } else {
      InsertBehindHead(p, posts);
      WithTimeInsert(p, posts[1..], t);
      WithTimeInsertBehindHead(p, posts, t, WithTime(posts[1..], t));
    }
  }

  /** The sort is stable: for every timestamp, the posts carrying it appear
      in the output in the same order as in the input. */
  lemma {:induction false} SortNewestFirstIsStable(posts: seq<Post>, t: int)
    ensures WithTime(SortNewestFirst(posts), t) == WithTime(posts, t)
    decreases |posts|
  {
    if posts != [] {
      SortNewestFirstIsStable(posts[1..], t);
      WithTimeInsert(posts[0], SortNewestFirst(posts[1..]), t);
    }
  }

  /** A list already in order is left exactly as it is. */
  lemma {:induction false} SortNewestFirstOfSorted(posts: seq<Post>)
    requires SortedNewestFirst(posts)
    ensures SortNewestFirst(posts) == posts
    decreases |posts|
  {
    if posts != [] {
      SortNewestFirstOfSorted(posts[1..]);
    }
  }

  lemma {:induction false} WithTimeMembers(posts: seq<Post>, t: int, p: Post)
    ensures p in WithTime(posts, t) <==> p in posts && Time(p) == t
    decreases |posts|
  {
    if posts != [] {
      WithTimeMembers(posts[1..], t, p);
      assert p in posts <==> p == posts[0] || p in posts[1..];
    }
  }

  lemma WithTimeCons(posts: seq<Post>, t: int)
    requires posts != []
    ensures WithTime(posts, t) == (if Time(posts[0]) == t then [posts[0]] else []) + WithTime(posts[1..], t)
  {
  }

  /** The newest post of a newest-first list is at its head. */
  lemma HeadIsNewest(posts: seq<Post>, p: Post)
    requires SortedNewestFirst(posts) && p in posts
    ensures Time(p) <= Time(posts[0])
  {
    var k :| 0 <= k < |posts| && posts[k] == p;
    assert k == 0 || Time(posts[0]) >= Time(posts[k]);
  }

  /** The two lists list the posts of every timestamp in the same order. */
  ghost predicate SameGroups(a: seq<Post>, b: seq<Post>)
  {
    forall t :: WithTime(a, t) == WithTime(b, t)
  }

  /** Lists with the same groups contain the same posts. */
  lemma GroupsShareMembers(a: seq<Post>, b: seq<Post>, p: Post)
    requires SameGroups(a, b)
    requires p in a
    ensures p in b
  {
    WithTimeMembers(a, Time(p), p);
    WithTimeMembers(b, Time(p), p);
    assert WithTime(a, Time(p)) == WithTime(b, Time(p));
  }

  /** Newest-first lists with the same groups start with the same post. */
  lemma SameGroupsSameHead(a: seq<Post>, b: seq<Post>)
    requires SortedNewestFirst(a) && SortedNewestFirst(b) && SameGroups(a, b)
    requires a != [] && b != []
    ensures Time(a[0]) == Time(b[0]) && a[0] == b[0]
  {
    GroupsShareMembers(a, b, a[0]);
    GroupsShareMembers(b, a, b[0]);
    HeadIsNewest(a, b[0]);
    HeadIsNewest(b, a[0]);
    var head := Time(a[0]);
    WithTimeCons(a, head);
    WithTimeCons(b, head);
    assert WithTime(a, head) == WithTime(b, head);
    assert WithTime(a, head)[0] == WithTime(b, head)[0];
  }

  lemma TailGroupsAgree(a: seq<Post>, b: seq<Post>, t: int)
    requires a != [] && b != [] && Time(a[0]) == Time(b[0])
    requires WithTime(a, t) == WithTime(b, t)
    ensures WithTime(a[1..], t) == WithTime(b[1..], t)
  {
    WithTimeCons(a, t);
    WithTimeCons(b, t);
    if t == Time(a[0]) {
      assert WithTime(a[1..], t) == WithTime(a, t)[1..];
      assert WithTime(b[1..], t) == WithTime(b, t)[1..];
    } else {
      assert WithTime(a[1..], t) == WithTime(a, t);
    }
  }

  lemma SameGroupsOfTails(a: seq<Post>, b: seq<Post>)
    requires a != [] && b != [] && Time(a[0]) == Time(b[0]) && SameGroups(a, b)
    ensures SameGroups(a[1..], b[1..])
  {
    forall t
      ensures WithTime(a[1..], t) == WithTime(b[1..], t)
    {
      TailGroupsAgree(a, b, t);
    }
  }

  /** Newest-first lists that agree on the order of every group of equal
      timestamps are the same list. */
  lemma {:induction false} StableOrderIsUnique(a: seq<Post>, b: seq<Post>)
    requires SortedNewestFirst(a) && SortedNewestFirst(b)
    requires SameGroups(a, b)
    ensures a == b
    decreases |a|
  {
    if a == [] && b != [] {
      GroupsShareMembers(b, a, b[0]);
    } else if a != [] && b == [] {
      GroupsShareMembers(a, b, a[0]);
    } else if a != [] {
      SameGroupsSameHead(a, b);
      SameGroupsOfTails(a, b);
      SortedTail(a);
      SortedTail(b);
      StableOrderIsUnique(a[1..], b[1..]);
      assert a == [a[0]] + a[1..] && b == [b[0]] + b[1..];
    }
  }

  /** Any newest-first ordering of the posts that keeps equal timestamps in
      input order, such as the one a stable engine sort produces, is exactly
      the model's result. */
  lemma StableSortIsUnique(posts: seq<Post>, sorted: seq<Post>)
    requires SortedNewestFirst(sorted)
    requires SameGroups(sorted, posts)
    ensures sorted == SortNewestFirst(posts)
  {
    forall t
      ensures WithTime(sorted, t) == WithTime(SortNewestFirst(posts), t)
    {
      SortNewestFirstIsStable(posts, t);
    }
    StableOrderIsUnique(sorted, SortNewestFirst(posts));
  }
}
