/** BlogServiceImpl, the parts that work on the store: the likes of a blog, kept as a sorted set from user id to
    the millisecond of the like, and each user's feed inbox, a sorted set of blog ids scored by the millisecond
    they were pushed. The logged-in user (UserHolder) comes in as an optional user id, the outcome of each
    database call as an input. */
module Blogs {
  import opened Wrappers
  import opened Numbers
  import opened Text
  import opened Redis
  import opened Constants
  import SortedSet

  const SAVE_FAILED: string := "新增笔记失败!"

  /** How many users queryBlogLikes lists, and how many feed entries one scroll page reads. */
  const TOP_LIKERS: nat := 5
  const PAGE_COUNT: nat := 2

  function LikedKey(blogId: Long): string {
    BLOG_LIKED_KEY + DecimalString(blogId)
  }

  function FeedKey(userId: Long): string {
    FEED_KEY + DecimalString(userId)
  }

  /** Whether the user has liked the blog: the user's id has a score in the blog's liked set. */
  predicate Liked(zs: map<string, SortedSet.ZSet>, blogId: Long, userId: Long) {
    SortedSet.Score(ZOf(zs, LikedKey(blogId)), DecimalString(userId)).Some?
  }

  // ---------------------------------------------------------------------------------------------------------
  // likeBlog

  /** likeBlog for a logged-in user: a user who has not liked the blog is added with the current millisecond as
      score, one who has is removed, in each case only when the database update of the like counter succeeded. */
  function ToggleLike(zs: map<string, SortedSet.ZSet>, blogId: Long, userId: Long, dbUpdated: bool, nowMillis: int)
    : map<string, SortedSet.ZSet>
  {
    var key := LikedKey(blogId);
    var member := DecimalString(userId);
    if SortedSet.Score(ZOf(zs, key), member).None? then
      (if dbUpdated then zs[key := SortedSet.Add(ZOf(zs, key), member, nowMillis)] else zs)
    else if dbUpdated then ZRemoved(zs, key, member)
    else zs
  }

  /** likeBlog flips the user's like exactly when the database update succeeds (a new like scored with the current
      millisecond), and changes nothing else: not another user's like of the blog, not any other key. */
  lemma ToggleLikeSpec(zs: map<string, SortedSet.ZSet>, blogId: Long, userId: Long, dbUpdated: bool, nowMillis: int)
    requires ZSetsValid(zs)
    ensures var zs' := ToggleLike(zs, blogId, userId, dbUpdated, nowMillis);
      && ZSetsValid(zs')
      && (Liked(zs', blogId, userId) <==> Liked(zs, blogId, userId) != dbUpdated)
      && (!dbUpdated ==> zs' == zs)
      && (dbUpdated && !Liked(zs, blogId, userId) ==>
            SortedSet.Score(ZOf(zs', LikedKey(blogId)), DecimalString(userId)) == Some(nowMillis))
      && (forall u: Long :: u != userId ==>
            SortedSet.Score(ZOf(zs', LikedKey(blogId)), DecimalString(u))
              == SortedSet.Score(ZOf(zs, LikedKey(blogId)), DecimalString(u)))
      && (forall k :: k != LikedKey(blogId) ==> ZOf(zs', k) == ZOf(zs, k))
  {
    var key := LikedKey(blogId);
    var member := DecimalString(userId);
    var z := ZOf(zs, key);
    var zs' := ToggleLike(zs, blogId, userId, dbUpdated, nowMillis);
    assert SortedSet.Valid(z);
    if SortedSet.Score(z, member).None? {
      SortedSet.AddSpec(z, member, nowMillis);
    } else {
      SortedSet.RemoveSpec(z, member);
    }
    forall u: Long | u != userId
      ensures SortedSet.Score(ZOf(zs', key), DecimalString(u)) == SortedSet.Score(z, DecimalString(u))
    {
      if DecimalString(u) == member {
        DecimalStringInjective(u, userId);
      }
    }
  }

  /** Liking twice with both database updates succeeding gives the like back: a user who had not liked leaves
      the store exactly as it was, one who had is liked again, now scored with the second millisecond. */
  lemma LikeTwiceRestores(zs: map<string, SortedSet.ZSet>, blogId: Long, userId: Long, t1: int, t2: int)
    requires ZSetsValid(zs)
    ensures var zs' := ToggleLike(ToggleLike(zs, blogId, userId, true, t1), blogId, userId, true, t2);
      && (!Liked(zs, blogId, userId) ==> zs' == zs)
      && (Liked(zs, blogId, userId) ==>
            && SortedSet.Score(ZOf(zs', LikedKey(blogId)), DecimalString(userId)) == Some(t2)
            && forall k :: k != LikedKey(blogId) ==> ZOf(zs', k) == ZOf(zs, k))
  {
    if Liked(zs, blogId, userId) {
      UnlikeThenLike(zs, blogId, userId, t1, t2);
    } else {
      LikeThenUnlike(zs, blogId, userId, t1, t2);
    }
  }

  /** A like followed by its withdrawal leaves the store exactly as it was. */
  lemma LikeThenUnlike(zs: map<string, SortedSet.ZSet>, blogId: Long, userId: Long, t1: int, t2: int)
    requires ZSetsValid(zs) && !Liked(zs, blogId, userId)
    ensures ToggleLike(ToggleLike(zs, blogId, userId, true, t1), blogId, userId, true, t2) == zs
  {
    var key := LikedKey(blogId);
    var member := DecimalString(userId);
    var z := ZOf(zs, key);
    assert SortedSet.Valid(z);
    var zs1 := zs[key := SortedSet.Add(z, member, t1)];
    assert ToggleLike(zs, blogId, userId, true, t1) == zs1;
    SortedSet.AddSpec(z, member, t1);
    SortedSet.ScoreAbsent(z, member);
    SortedSet.RemoveAbsent(z, member);
    assert zs1 == zs[key := SortedSet.Insert(z, SortedSet.Item(member, t1))];
    assert ToggleLike(zs1, blogId, userId, true, t2) == ZRemoved(zs1, key, member);
    RemoveAfterInsert(zs, key, SortedSet.Item(member, t1));
  }

  /** ZREM of a member just inserted into a sorted set that did not hold it gives back the sets as they were. */
  lemma RemoveAfterInsert(zs: map<string, SortedSet.ZSet>, key: string, x: SortedSet.Item)
    requires ZSetsValid(zs)
    requires forall y :: y in ZOf(zs, key) ==> y.member != x.member
    ensures ZRemoved(zs[key := SortedSet.Insert(ZOf(zs, key), x)], key, x.member) == zs
  {
    var z := ZOf(zs, key);
    SortedSet.RemoveInsert(z, x);
    var zs1 := zs[key := SortedSet.Insert(z, x)];
    assert SortedSet.Remove(zs1[key], x.member) == z;
    if key in zs {
      assert z != [];
      assert ZRemoved(zs1, key, x.member) == zs1[key := z];
    } else {
      assert ZRemoved(zs1, key, x.member) == zs1 - {key};
    }
  }

  /** A withdrawal followed by a new like leaves the user liking the blog from the second moment, and no other key
      changed. */
  lemma UnlikeThenLike(zs: map<string, SortedSet.ZSet>, blogId: Long, userId: Long, t1: int, t2: int)
    requires ZSetsValid(zs) && Liked(zs, blogId, userId)
    ensures var zs' := ToggleLike(ToggleLike(zs, blogId, userId, true, t1), blogId, userId, true, t2);
      && SortedSet.Score(ZOf(zs', LikedKey(blogId)), DecimalString(userId)) == Some(t2)
      && forall k :: k != LikedKey(blogId) ==> ZOf(zs', k) == ZOf(zs, k)
  {
    var key := LikedKey(blogId);
    var member := DecimalString(userId);
    assert key in zs && SortedSet.Valid(zs[key]);
    var zs1 := ZRemoved(zs, key, member);
    assert ToggleLike(zs, blogId, userId, true, t1) == zs1;
    SortedSet.RemoveSpec(zs[key], member);
    var z1 := ZOf(zs1, key);
    assert z1 == SortedSet.Remove(zs[key], member);
    SortedSet.AddSpec(z1, member, t2);
    assert ToggleLike(zs1, blogId, userId, true, t2) == zs1[key := SortedSet.Add(z1, member, t2)];
  }

  // ---------------------------------------------------------------------------------------------------------
  // queryBlogLikes

  /** queryBlogLikes: the ids of the first five members of the liked set (ZRANGE 0 4), in Redis' order; an empty
      set gives an empty list, a member that is not a number makes Long.valueOf throw. */
  function TopLikers(z: SortedSet.ZSet): Result<seq<Long>> {
    var top := SortedSet.Range(z, 0, TOP_LIKERS - 1);
    if top == [] then Success([])
    else match ParseLongs(top)
      case None => Failure(BadNumber)
      case Some(ids) => Success(ids)
  }

  /** The list holds one id per liker up to five, read from the members in order; those are the lowest scores,
      the first users to like, and every liker left out has a later score. Nobody having liked gives []. */
  lemma TopLikersSpec(z: SortedSet.ZSet)
    requires SortedSet.Valid(z)
    ensures var r := TopLikers(z);
      var k := if |z| < TOP_LIKERS then |z| else TOP_LIKERS;
      && (z == [] ==> r == Success([]))
      && (r.Success? <==> forall i :: 0 <= i < k ==> ParseLong(z[i].member).Some?)
      && (r.Success? ==> |r.value| == k && forall i :: 0 <= i < k ==> ParseLong(z[i].member) == Some(r.value[i]))
      && (r.Failure? ==> r.error == BadNumber)
      && forall i, j :: 0 <= i < k <= j < |z| ==> SortedSet.Precedes(z[i], z[j])
  {
    var k := if |z| < TOP_LIKERS then |z| else TOP_LIKERS;
    var top := SortedSet.Range(z, 0, TOP_LIKERS - 1);
    SortedSet.RangeFromStart(z, TOP_LIKERS);
    forall i | 0 <= i < k ensures top[i] == z[i].member {
      assert top[i] == z[..k][i].member;
    }
  }

  // ---------------------------------------------------------------------------------------------------------
  // saveBlog

  /** The pushes of saveBlog, one follower after the other: ZADD feed:follower blogId millis, where each push
      reads the clock anew and millis[i] is the reading taken for followers[i]. */
  function FanOut(zs: map<string, SortedSet.ZSet>, followers: seq<Long>, millis: seq<int>, member: string)
    : map<string, SortedSet.ZSet>
    requires |millis| == |followers|
    decreases |followers|
  {
    if followers == [] then zs
    else
      var n := |followers| - 1;
      var before := FanOut(zs, followers[..n], millis[..n], member);
      var key := FeedKey(followers[n]);
      before[key := SortedSet.Add(ZOf(before, key), member, millis[n])]
  }

  function FeedKeys(followers: seq<Long>): set<string> {
    set f | f in followers :: FeedKey(f)
  }

  /** The clock reading of the last push to f's feed, or None when f is not among the followers. */
  function LastPush(followers: seq<Long>, millis: seq<int>, f: Long): Option<int>
    requires |millis| == |followers|
    decreases |followers|
  {
    if followers == [] then None
    else
      var n := |followers| - 1;
      if followers[n] == f then Some(millis[n]) else LastPush(followers[..n], millis[..n], f)
  }

  /** Distinct users have distinct feeds. */
  lemma FeedKeyInjective(a: Long, b: Long)
    requires FeedKey(a) == FeedKey(b)
    ensures a == b
  {
    assert FeedKey(a)[|FEED_KEY|..] == DecimalString(a);
    assert FeedKey(b)[|FEED_KEY|..] == DecimalString(b);
    DecimalStringInjective(a, b);
  }

  /** A follower's last push is one of the readings taken for that follower, and no later push went to the same
      feed; a user who is not a follower got no push. */
  lemma {:induction false} LastPushIsAReading(followers: seq<Long>, millis: seq<int>, f: Long)
    requires |millis| == |followers|
    ensures LastPush(followers, millis, f).Some? <==> f in followers
    ensures LastPush(followers, millis, f).Some? ==>
      exists j :: 0 <= j < |followers| && followers[j] == f && millis[j] == LastPush(followers, millis, f).value
                  && forall k :: j < k < |followers| ==> followers[k] != f
    decreases |followers|
  {
    if followers != [] {
      var n := |followers| - 1;
      assert followers == followers[..n] + [followers[n]];
      if followers[n] != f {
        LastPushIsAReading(followers[..n], millis[..n], f);
        if LastPush(followers, millis, f).Some? {
          var j :| 0 <= j < n && followers[..n][j] == f && millis[..n][j] == LastPush(followers, millis, f).value
                   && forall k :: j < k < n ==> followers[..n][k] != f;
          assert followers[j] == f && millis[j] == LastPush(followers, millis, f).value;
        }
      }
    }
  }

  /** With each follower listed once, every feed gets the reading taken for its own push. */
  lemma {:induction false} LastPushOfDistinct(followers: seq<Long>, millis: seq<int>, i: int)
    requires |millis| == |followers| && 0 <= i < |followers|
    requires forall j, k :: 0 <= j < k < |followers| ==> followers[j] != followers[k]
    ensures LastPush(followers, millis, followers[i]) == Some(millis[i])
    decreases |followers|
  {
    var n := |followers| - 1;
    if i < n {
      assert followers[n] != followers[i];
      LastPushOfDistinct(followers[..n], millis[..n], i);
    }
  }

  /** After the fan-out every follower's feed holds the blog, scored at the clock reading of the last push to that
      feed; no other entry of any feed changes, and no key other than the followers' feeds. */
  lemma FanOutSpec(zs: map<string, SortedSet.ZSet>, followers: seq<Long>, millis: seq<int>, member: string)
    requires ZSetsValid(zs) && |millis| == |followers|
    ensures var r := FanOut(zs, followers, millis, member);
      && ZSetsValid(r)
      && (forall f :: f in followers ==> SortedSet.Score(ZOf(r, FeedKey(f)), member) == LastPush(followers, millis, f))
      && (forall k, m :: m != member ==> SortedSet.Score(ZOf(r, k), m) == SortedSet.Score(ZOf(zs, k), m))
      && (forall k :: k !in FeedKeys(followers) ==> ZOf(r, k) == ZOf(zs, k))
  {
    FanOutKeepsOthers(zs, followers, millis, member);
    FanOutDelivers(zs, followers, millis, member);
    FanOutTouchesOnlyFeeds(zs, followers, millis, member);
    var r := FanOut(zs, followers, millis, member);
    forall f | f in followers ensures SortedSet.Score(ZOf(r, FeedKey(f)), member) == LastPush(followers, millis, f) {
      var i :| 0 <= i < |followers| && followers[i] == f;
    }
  }

  lemma {:induction false} FanOutValid(zs: map<string, SortedSet.ZSet>, followers: seq<Long>, millis: seq<int>,
                                       member: string)
    requires ZSetsValid(zs) && |millis| == |followers|
    ensures ZSetsValid(FanOut(zs, followers, millis, member))
    decreases |followers|
  {
    if followers != [] {
      var n := |followers| - 1;
      FanOutValid(zs, followers[..n], millis[..n], member);
      var before := FanOut(zs, followers[..n], millis[..n], member);
      var key := FeedKey(followers[n]);
      assert SortedSet.Valid(ZOf(before, key));
      SortedSet.AddSpec(ZOf(before, key), member, millis[n]);
    }
  }

  lemma {:induction false} FanOutKeepsOthers(zs: map<string, SortedSet.ZSet>, followers: seq<Long>, millis: seq<int>,
                                             member: string)
    requires ZSetsValid(zs) && |millis| == |followers|
    ensures var r := FanOut(zs, followers, millis, member);
      && ZSetsValid(r)
      && forall k, m :: m != member ==> SortedSet.Score(ZOf(r, k), m) == SortedSet.Score(ZOf(zs, k), m)
    decreases |followers|
  {
    FanOutValid(zs, followers, millis, member);
    if followers != [] {
      var n := |followers| - 1;
      FanOutKeepsOthers(zs, followers[..n], millis[..n], member);
      var before := FanOut(zs, followers[..n], millis[..n], member);
      var key := FeedKey(followers[n]);
      assert SortedSet.Valid(ZOf(before, key));
      SortedSet.AddSpec(ZOf(before, key), member, millis[n]);
    }
  }

  lemma {:induction false} FanOutDelivers(zs: map<string, SortedSet.ZSet>, followers: seq<Long>, millis: seq<int>,
                                          member: string)
    requires ZSetsValid(zs) && |millis| == |followers|
    ensures Delivered(FanOut(zs, followers, millis, member), followers, millis, member)
    decreases |followers|
  {
    if followers != [] {
      var n := |followers| - 1;
      FanOutDelivers(zs, followers[..n], millis[..n], member);
      FanOutValid(zs, followers[..n], millis[..n], member);
      DeliversStep(FanOut(zs, followers[..n], millis[..n], member), followers, millis, member);
    }
  }

  /** The last push of a fan-out whose earlier pushes have been delivered delivers them all. */
  lemma DeliversStep(before: map<string, SortedSet.ZSet>, followers: seq<Long>, millis: seq<int>, member: string)
    requires followers != [] && |millis| == |followers| && ZSetsValid(before)
    requires var n := |followers| - 1; Delivered(before, followers[..n], millis[..n], member)
    ensures var n := |followers| - 1;
      var key := FeedKey(followers[n]);
      Delivered(before[key := SortedSet.Add(ZOf(before, key), member, millis[n])], followers, millis, member)
  {
    var n := |followers| - 1;
    var front := followers[..n];
    var key := FeedKey(followers[n]);
    var after := before[key := SortedSet.Add(ZOf(before, key), member, millis[n])];
    assert SortedSet.Valid(ZOf(before, key));
    forall i | 0 <= i < |followers|
      ensures SortedSet.Score(ZOf(after, FeedKey(followers[i])), member) == LastPush(followers, millis, followers[i])
    {
      var k := FeedKey(followers[i]);
      AddDelivers(before, key, k, member, millis[n]);
      if followers[i] != followers[n] {
        if k == key {
          FeedKeyInjective(followers[i], followers[n]);
        }
        assert i < n && followers[i] == front[i];
        assert SortedSet.Score(ZOf(before, FeedKey(front[i])), member) == LastPush(front, millis[..n], front[i]);
      }
    }
  }

  /** Every feed of the followers scores the member at the reading of its last push. */
  predicate Delivered(zs: map<string, SortedSet.ZSet>, followers: seq<Long>, millis: seq<int>, member: string)
    requires |millis| == |followers|
  {
    forall i :: 0 <= i < |followers| ==>
      SortedSet.Score(ZOf(zs, FeedKey(followers[i])), member) == LastPush(followers, millis, followers[i])
  }

  /** One push: the pushed feed now scores the blog, and every other feed scores it as before. */
  lemma AddDelivers(before: map<string, SortedSet.ZSet>, key: string, k: string, member: string, score: int)
    requires SortedSet.Valid(ZOf(before, key))
    ensures var r := before[key := SortedSet.Add(ZOf(before, key), member, score)];
      SortedSet.Score(ZOf(r, k), member) == if k == key then Some(score) else SortedSet.Score(ZOf(before, k), member)
  {
    if k == key {
      SortedSet.AddSpec(ZOf(before, key), member, score);
    }
  }

  /** The fan-out over one more follower is one more push, with that push's reading. */
  lemma FanOutStep(zs: map<string, SortedSet.ZSet>, followers: seq<Long>, millis: seq<int>, i: int, member: string)
    requires |millis| == |followers| && 0 <= i < |followers|
    ensures var before := FanOut(zs, followers[..i], millis[..i], member);
      var key := FeedKey(followers[i]);
      FanOut(zs, followers[..i + 1], millis[..i + 1], member)
        == before[key := SortedSet.Add(ZOf(before, key), member, millis[i])]
  {
    assert followers[..i + 1][..i] == followers[..i];
    assert millis[..i + 1][..i] == millis[..i];
  }

  lemma {:induction false} FanOutTouchesOnlyFeeds(zs: map<string, SortedSet.ZSet>, followers: seq<Long>,
                                                  millis: seq<int>, member: string)
    requires |millis| == |followers|
    ensures var r := FanOut(zs, followers, millis, member);
      forall k :: k !in FeedKeys(followers) ==> ZOf(r, k) == ZOf(zs, k)
    decreases |followers|
  {
    if followers != [] {
      var n := |followers| - 1;
      var front := followers[..n];
      var last := followers[n];
      FanOutTouchesOnlyFeeds(zs, front, millis[..n], member);
      assert followers == front + [last];
      assert FeedKeys(followers) == FeedKeys(front) + {FeedKey(last)};
    }
  }

  // ---------------------------------------------------------------------------------------------------------
  // queryBlogOfFollow

  /** The scroll page handed back: the blog ids, and the cursor of the next page (its maximum score, and how many
      entries at that score to skip). */
  datatype ScrollResult = ScrollResult(ids: seq<Long>, minTime: int, offset: int)

  /** The two variables the loop keeps. */
  datatype Cursor = Cursor(minTime: int, os: int)

  /** One step of the loop: a score equal to the last one lengthens the run, any other score starts a new run. */
  function Advance(c: Cursor, time: int): Cursor {
    if time == c.minTime then Cursor(c.minTime, c.os + 1) else Cursor(time, 1)
  }

  /** The cursor after the loop has seen the scores, starting from minTime = 0, os = 1. */
  function CursorOf(scores: seq<int>): Cursor
    decreases |scores|
  {
    if scores == [] then Cursor(0, 1) else Advance(CursorOf(scores[..|scores| - 1]), scores[|scores| - 1])
  }

  function Scores(items: SortedSet.ZSet): (r: seq<int>)
    ensures |r| == |items| && forall i :: 0 <= i < |items| ==> r[i] == items[i].score
  {
    seq(|items|, i requires 0 <= i < |items| => items[i].score)
  }

  /** minTime ends as the last score, and, when the first score is not 0, os is the length of the final run of
      scores equal to it: all of them equal the last one, and the one before them (if any) does not. */
  lemma {:induction false} CursorIsTrailingRun(s: seq<int>)
    requires s != [] && s[0] != 0
    ensures var c := CursorOf(s);
      && c.minTime == s[|s| - 1]
      && 1 <= c.os <= |s|
      && (forall j :: |s| - c.os <= j < |s| ==> s[j] == s[|s| - 1])
      && (c.os < |s| ==> s[|s| - c.os - 1] != s[|s| - 1])
    decreases |s|
  {
    if |s| > 1 {
      var front := s[..|s| - 1];
      CursorIsTrailingRun(front);
    }
  }

  /** With every score 0 the initial values count one entry too many: os ends one above the number of scores. */
  lemma {:induction false} CursorOverCountsZeros(s: seq<int>)
    requires forall j :: 0 <= j < |s| ==> s[j] == 0
    ensures CursorOf(s) == Cursor(0, |s| + 1)
    decreases |s|
  {
    if s != [] {
      CursorOverCountsZeros(s[..|s| - 1]);
    }
  }

  /** What the loop computes over the tuples: the ids in order (Long.valueOf of each member, which throws on a
      member that is not a number), and the cursor of their scores. */
  function Scan(tuples: SortedSet.ZSet): Result<ScrollResult> {
    match ParseLongs(SortedSet.Members(tuples))
    case None => Failure(BadNumber)
    case Some(ids) =>
      var c := CursorOf(Scores(tuples));
      Success(ScrollResult(ids, c.minTime, c.os))
  }

  /** The loop reads one id per tuple, in order; minTime ends as the last score and, unless the first score is 0,
      os counts the final run of tuples at that score. */
  lemma ScanSpec(tuples: SortedSet.ZSet)
    ensures var r := Scan(tuples);
      && (r.Failure? <==> exists i :: 0 <= i < |tuples| && ParseLong(tuples[i].member).None?)
      && (r.Failure? ==> r.error == BadNumber)
      && (r.Success? ==>
            && |r.value.ids| == |tuples|
            && (forall i :: 0 <= i < |tuples| ==> ParseLong(tuples[i].member) == Some(r.value.ids[i]))
            && (tuples != [] ==> r.value.minTime == tuples[|tuples| - 1].score)
            && (tuples != [] && tuples[0].score != 0 ==>
                  && 1 <= r.value.offset <= |tuples|
                  && (forall j :: |tuples| - r.value.offset <= j < |tuples| ==> tuples[j].score == r.value.minTime)
                  && (r.value.offset < |tuples| ==> tuples[|tuples| - r.value.offset - 1].score != r.value.minTime)))
  {
    ScanIds(tuples);
    TupleCursor(tuples);
    var r := Scan(tuples);
    if r.Success? {
      var c := CursorOf(Scores(tuples));
      assert r.value.minTime == c.minTime && r.value.offset == c.os;
    }
  }

  /** The cursor part of Scan, over the tuples' scores. */
  lemma TupleCursor(tuples: SortedSet.ZSet)
    ensures var c := CursorOf(Scores(tuples));
      && (tuples != [] ==> c.minTime == tuples[|tuples| - 1].score)
      && (tuples != [] && tuples[0].score != 0 ==>
            && 1 <= c.os <= |tuples|
            && (forall j :: |tuples| - c.os <= j < |tuples| ==> tuples[j].score == c.minTime)
            && (c.os < |tuples| ==> tuples[|tuples| - c.os - 1].score != c.minTime))
  {
    if tuples != [] {
      var scores := Scores(tuples);
      assert scores[|scores| - 1] == tuples[|tuples| - 1].score;
      CursorEndsAtLast(scores);
      if tuples[0].score != 0 {
        CursorIsTrailingRun(scores);
      }
    }
  }

  /** The ids part of Scan: an exception exactly when some member is not a number, otherwise one id per tuple. */
  lemma ScanIds(tuples: SortedSet.ZSet)
    ensures var r := Scan(tuples);
      && (r.Failure? <==> exists i :: 0 <= i < |tuples| && ParseLong(tuples[i].member).None?)
      && (r.Failure? ==> r.error == BadNumber)
      && (r.Success? ==>
            && |r.value.ids| == |tuples|
            && (forall i :: 0 <= i < |tuples| ==> ParseLong(tuples[i].member) == Some(r.value.ids[i])))
  {
    var members := SortedSet.Members(tuples);
    var ids := ParseLongs(members);
    if ids.None? {
      var i :| 0 <= i < |members| && ParseLong(members[i]).None?;
      assert ParseLong(tuples[i].member).None?;
    }
  }

  lemma CursorEndsAtLast(s: seq<int>)
    requires s != []
    ensures CursorOf(s).minTime == s[|s| - 1]
  {
  }

  /** The reply, as written, on the feed z: ZREVRANGEBYSCORE max 0 WITHSCORES LIMIT offset 2; an empty page is
      ok with no data, and the next offset is the loop's os. */
  function FeedPage(z: SortedSet.ZSet, max: Long, offset: Int): Result<Response<ScrollResult>> {
    var tuples := SortedSet.RevRangeByScore(z, 0, max, offset, PAGE_COUNT);
    if tuples == [] then Success(Ok(None)) else OkWith(Scan(tuples))
  }

  /** queryBlogOfFollow for a logged-in user, as written, on the user's feed. */
  function FollowPageAsWritten(zs: map<string, SortedSet.ZSet>, userId: Long, max: Long, offset: Int)
    : Result<Response<ScrollResult>>
  {
    FeedPage(ZOf(zs, FeedKey(userId)), max, offset)
  }

  /** A page is empty, and then ok with no data, exactly when the offset is negative or skips every feed entry
      scored in [0, max]. Otherwise it lists one id per entry read, at most two, highest score first; minTime is
      the last entry's score and, unless the first score is 0, offset counts the entries at that score. */
  lemma FollowPageAsWrittenSpec(zs: map<string, SortedSet.ZSet>, userId: Long, max: Long, offset: Int)
    requires ZSetsValid(zs)
    ensures var z := ZOf(zs, FeedKey(userId));
      var tuples := SortedSet.RevRangeByScore(z, 0, max, offset, PAGE_COUNT);
      var r := FollowPageAsWritten(zs, userId, max, offset);
      && (r == Success(Ok(None)) <==> offset < 0 || |SortedSet.InScore(z, 0, max)| <= offset)
      && (r.Failure? ==> r.error == BadNumber)
      && (r.Success? && r.value.Ok? && r.value.data.Some? ==>
            var page := r.value.data.value;
            && 0 < |page.ids| == |tuples| <= PAGE_COUNT
            && (forall i :: 0 <= i < |tuples| ==>
                  tuples[i] in z && 0 <= tuples[i].score <= max && ParseLong(tuples[i].member) == Some(page.ids[i]))
            && (forall i, j :: 0 <= i < j < |tuples| ==> SortedSet.Precedes(tuples[j], tuples[i]))
            && page.minTime == tuples[|tuples| - 1].score
            && (tuples[0].score != 0 ==>
                  && 1 <= page.offset <= |tuples|
                  && forall j :: |tuples| - page.offset <= j < |tuples| ==> tuples[j].score == page.minTime))
  {
    var z := ZOf(zs, FeedKey(userId));
    assert SortedSet.Valid(z);
    SortedSet.RevRangeByScoreSpec(z, 0, max, offset, PAGE_COUNT);
    var tuples := SortedSet.RevRangeByScore(z, 0, max, offset, PAGE_COUNT);
    if tuples != [] {
      ScanSpec(tuples);
    }
  }

  /** The as-written cursor repeats entries forever. Three blogs pushed in the same millisecond (score 5): the
      first page (max 10, offset 0) holds 3 and 2 and points at (5, 2); that page holds 1 and points at (5, 1),
      which holds 2 and 1 again and points back at (5, 2). The corrected cursor goes from (5, 2) to (5, 3), where
      the feed ends. */
  lemma ScrollRepeatsAsWritten()
    ensures var zs := map[FeedKey(7) := [SortedSet.Item("1", 5), SortedSet.Item("2", 5), SortedSet.Item("3", 5)]];
      && ZSetsValid(zs)
      && FollowPageAsWritten(zs, 7, 10, 0) == Success(Ok(Some(ScrollResult([3, 2], 5, 2))))
      && FollowPageAsWritten(zs, 7, 5, 2) == Success(Ok(Some(ScrollResult([1], 5, 1))))
      && FollowPageAsWritten(zs, 7, 5, 1) == Success(Ok(Some(ScrollResult([2, 1], 5, 2))))
      && FollowPage(zs, 7, 10, 0) == Success(Ok(Some(ScrollResult([3, 2], 5, 2))))
      && FollowPage(zs, 7, 5, 2) == Success(Ok(Some(ScrollResult([1], 5, 3))))
      && FollowPage(zs, 7, 5, 3) == Success(Ok(None))
  {
    var z := [SortedSet.Item("1", 5), SortedSet.Item("2", 5), SortedSet.Item("3", 5)];
    var zs := map[FeedKey(7) := z];
    SameScoreFeed(z);
    assert ZOf(zs, FeedKey(7)) == z;
    SameScorePages(z);
    ParseSmall();
    ScanOfPage([z[2], z[1]], "3", "2", 3, 2);
    ScanOfPage([z[1], z[0]], "2", "1", 2, 1);
    ScanOfSingle([z[0]], "1", 1);
    PageRead(z, 10, 0, [z[2], z[1]], ScrollResult([3, 2], 5, 2));
    PageRead(z, 5, 2, [z[0]], ScrollResult([1], 5, 1));
    PageRead(z, 5, 1, [z[1], z[0]], ScrollResult([2, 1], 5, 2));
  }

  /** A page whose tuples are read without error. */
  lemma PageRead(z: SortedSet.ZSet, max: Long, offset: Int, tuples: SortedSet.ZSet, page: ScrollResult)
    requires tuples == SortedSet.RevRangeByScore(z, 0, max, offset, PAGE_COUNT) != []
    requires Scan(tuples) == Success(page)
    ensures FeedPage(z, max, offset) == Success(Ok(Some(page)))
    ensures NextFeedPage(z, max, offset) == Success(Ok(Some(page.(offset := NextOffset(max, offset, page)))))
  {
  }

  /** The replies of ZREVRANGEBYSCORE on that feed. */
  lemma SameScorePages(z: SortedSet.ZSet)
    requires z == [SortedSet.Item("1", 5), SortedSet.Item("2", 5), SortedSet.Item("3", 5)]
    ensures SortedSet.RevRangeByScore(z, 0, 10, 0, PAGE_COUNT) == [z[2], z[1]]
    ensures SortedSet.RevRangeByScore(z, 0, 5, 2, PAGE_COUNT) == [z[0]]
    ensures SortedSet.RevRangeByScore(z, 0, 5, 1, PAGE_COUNT) == [z[1], z[0]]
    ensures SortedSet.RevRangeByScore(z, 0, 5, 3, PAGE_COUNT) == []
  {
    var w := [z[2], z[1], z[0]];
    SameScoreWindow(z, w);
    assert w[..2] == [z[2], z[1]] && w[2..] == [z[0]] && w[1..] == [z[1], z[0]];
  }

  lemma ParseSmall()
    ensures ParseLong("1") == Some(1) && ParseLong("2") == Some(2) && ParseLong("3") == Some(3)
  {
    ParseLongOfDecimal(1);
    ParseLongOfDecimal(2);
    ParseLongOfDecimal(3);
  }

  lemma SameScoreWindow(z: SortedSet.ZSet, w: SortedSet.ZSet)
    requires z == [SortedSet.Item("1", 5), SortedSet.Item("2", 5), SortedSet.Item("3", 5)] && w == [z[2], z[1], z[0]]
    ensures Window(z, 10) == w && Window(z, 5) == w
  {
    SortedSet.InScoreWhole(z, 0, 10);
    SortedSet.InScoreWhole(z, 0, 5);
  }

  lemma SameScoreFeed(z: SortedSet.ZSet)
    requires z == [SortedSet.Item("1", 5), SortedSet.Item("2", 5), SortedSet.Item("3", 5)]
    ensures SortedSet.Valid(z)
  {
    assert SortedSet.MemberLess("1", "2") && SortedSet.MemberLess("2", "3") && SortedSet.MemberLess("1", "3");
  }

  /** The loop over two tuples at the score 5. */
  lemma ScanOfPage(t: SortedSet.ZSet, a: string, b: string, x: Long, y: Long)
    requires t == [SortedSet.Item(a, 5), SortedSet.Item(b, 5)]
    requires ParseLong(a) == Some(x) && ParseLong(b) == Some(y)
    ensures Scan(t) == Success(ScrollResult([x, y], 5, 2))
  {
    assert SortedSet.Members(t) == [a, b];
    var ids := ParseLongs([a, b]);
    assert ParseLong([a, b][0]) == Some(x) && ParseLong([a, b][1]) == Some(y);
    assert ids.value == [x, y];
    assert Scores(t) == [5, 5];
    assert CursorOf([5]) == Cursor(5, 1);
    assert CursorOf([5, 5]) == Cursor(5, 2);
  }

  /** The loop over one tuple at the score 5. */
  lemma ScanOfSingle(t: SortedSet.ZSet, a: string, x: Long)
    requires t == [SortedSet.Item(a, 5)]
    requires ParseLong(a) == Some(x)
    ensures Scan(t) == Success(ScrollResult([x], 5, 1))
  {
    assert SortedSet.Members(t) == [a];
    var ids := ParseLongs([a]);
    assert ParseLong([a][0]) == Some(x);
    assert ids.value == [x];
    assert Scores(t) == [5];
    assert CursorOf([5]) == Cursor(5, 1);
  }

  /** The offset of the next page, counted as the scroll needs it: the entries at the new maximum score that the
      client has already seen. When the page ends at the score the request started from, those are the entries
      this request skipped as well as the ones at that score on this page. */
  function NextOffset(max: Long, offset: Int, page: ScrollResult): int {
    if page.minTime == max then offset + page.offset else page.offset
  }

  /** The reply on the feed z, with the offset of the next page computed by NextOffset. */
  function NextFeedPage(z: SortedSet.ZSet, max: Long, offset: Int): Result<Response<ScrollResult>> {
    match FeedPage(z, max, offset)
    case Success(Ok(Some(page))) => Success(Ok(Some(page.(offset := NextOffset(max, offset, page)))))
    case other => other
  }

  /** queryBlogOfFollow for a logged-in user, with the offset of the next page computed by NextOffset. */
  function FollowPage(zs: map<string, SortedSet.ZSet>, userId: Long, max: Long, offset: Int)
    : Result<Response<ScrollResult>>
  {
    NextFeedPage(ZOf(zs, FeedKey(userId)), max, offset)
  }

  /** The feed entries a request with maximum score max may return, highest first. */
  function Window(z: SortedSet.ZSet, max: int): SortedSet.ZSet {
    SortedSet.Reverse(SortedSet.InScore(z, 0, max))
  }

  /** A cursor the client can hold: offset counts an initial run of the window, all at the score max. The first
      request (offset 0) is one. */
  predicate ScrollState(z: SortedSet.ZSet, max: int, offset: int) {
    LeadingRun(Window(z, max), max, offset)
  }

  /** The first n entries of w are all at the given score. */
  predicate LeadingRun(w: SortedSet.ZSet, score: int, n: int) {
    0 <= n <= |w| && forall j :: 0 <= j < n ==> w[j].score == score
  }

  /** The scroll visits every feed entry exactly once: from a cursor the client can hold, the page is empty exactly
      when the window is used up; otherwise it lists the next entries of the window in order, and the cursor it
      hands back is again one the client can hold, whose window left after its offset is what is left of this
      one after the page. Feed scores are positive (they are epoch milliseconds). */
  lemma ScrollContinues(zs: map<string, SortedSet.ZSet>, userId: Long, max: Long, offset: Int)
    requires ZSetsValid(zs)
    requires forall y :: y in ZOf(zs, FeedKey(userId)) ==> 0 < y.score
    requires ScrollState(ZOf(zs, FeedKey(userId)), max, offset)
    ensures var z := ZOf(zs, FeedKey(userId));
      var w := Window(z, max);
      var r := FollowPage(zs, userId, max, offset);
      && (r == Success(Ok(None)) <==> offset == |w|)
      && (r.Failure? ==> r.error == BadNumber)
      && (r.Success? && r.value.data.Some? ==>
            var page := r.value.data.value;
            && |page.ids| == (if |w| - offset < PAGE_COUNT then |w| - offset else PAGE_COUNT)
            && offset + |page.ids| <= |w|
            && (forall i :: 0 <= i < |page.ids| ==> ParseLong(w[offset + i].member) == Some(page.ids[i]))
            && ScrollState(z, page.minTime, page.offset)
            && Window(z, page.minTime)[page.offset..] == w[offset + |page.ids|..])
  {
    var z := ZOf(zs, FeedKey(userId));
    assert SortedSet.Valid(z);
    FeedContinues(z, max, offset);
  }

  /** ScrollContinues on one feed. */
  lemma FeedContinues(z: SortedSet.ZSet, max: Long, offset: Int)
    requires SortedSet.Valid(z) && (forall y :: y in z ==> 0 < y.score) && ScrollState(z, max, offset)
    ensures var w := Window(z, max);
      var r := NextFeedPage(z, max, offset);
      && (r == Success(Ok(None)) <==> offset == |w|)
      && (r.Failure? ==> r.error == BadNumber)
      && (r.Success? && r.value.data.Some? ==>
            var page := r.value.data.value;
            && |page.ids| == (if |w| - offset < PAGE_COUNT then |w| - offset else PAGE_COUNT)
            && offset + |page.ids| <= |w|
            && (forall i :: 0 <= i < |page.ids| ==> ParseLong(w[offset + i].member) == Some(page.ids[i]))
            && ScrollState(z, page.minTime, page.offset)
            && Window(z, page.minTime)[page.offset..] == w[offset + |page.ids|..])
  {
    FeedEnds(z, max, offset);
    FeedAdvances(z, max, offset);
  }

  /** The page is empty exactly at the end of the window, and fails only on a member that is not a number. */
  lemma FeedEnds(z: SortedSet.ZSet, max: Long, offset: Int)
    requires 0 <= offset <= |Window(z, max)|
    ensures var r := NextFeedPage(z, max, offset);
      && (r == Success(Ok(None)) <==> offset == |Window(z, max)|)
      && (r.Failure? ==> r.error == BadNumber)
  {
    SortedSet.RevRangeIsSlice(z, 0, max, offset, PAGE_COUNT);
    PageOutcome(z, max, offset);
  }

  /** A page read from a cursor the client can hold continues the scroll. */
  lemma FeedAdvances(z: SortedSet.ZSet, max: Long, offset: Int)
    requires SortedSet.Valid(z) && (forall y :: y in z ==> 0 < y.score) && ScrollState(z, max, offset)
    ensures var w := Window(z, max);
      var r := NextFeedPage(z, max, offset);
      r.Success? && r.value.data.Some? ==>
        var page := r.value.data.value;
        && |page.ids| == (if |w| - offset < PAGE_COUNT then |w| - offset else PAGE_COUNT)
        && offset + |page.ids| <= |w|
        && (forall i :: 0 <= i < |page.ids| ==> ParseLong(w[offset + i].member) == Some(page.ids[i]))
        && ScrollState(z, page.minTime, page.offset)
        && Window(z, page.minTime)[page.offset..] == w[offset + |page.ids|..]
  {
    var tuples := SortedSet.RevRangeByScore(z, 0, max, offset, PAGE_COUNT);
    PageOutcome(z, max, offset);
    if tuples != [] && Scan(tuples).Success? {
      PageAdvances(z, max, offset, tuples, Scan(tuples).value);
    }
  }

  /** FeedAdvances for the page read from the tuples. */
  lemma PageAdvances(z: SortedSet.ZSet, max: Long, offset: Int, tuples: SortedSet.ZSet, read: ScrollResult)
    requires SortedSet.Valid(z) && (forall y :: y in z ==> 0 < y.score) && ScrollState(z, max, offset)
    requires tuples == SortedSet.RevRangeByScore(z, 0, max, offset, PAGE_COUNT) != []
    requires Scan(tuples) == Success(read)
    ensures var w := Window(z, max);
      var next := NextOffset(max, offset, read);
      && |read.ids| == (if |w| - offset < PAGE_COUNT then |w| - offset else PAGE_COUNT)
      && offset + |read.ids| <= |w|
      && (forall i :: 0 <= i < |read.ids| ==> ParseLong(w[offset + i].member) == Some(read.ids[i]))
      && ScrollState(z, read.minTime, next)
      && Window(z, read.minTime)[next..] == w[offset + |read.ids|..]
  {
    ScanCursorOf(tuples, read);
    PageOfWindow(z, max, offset, tuples);
    assert tuples[0] in z;
    NextCursor(z, max, offset, tuples, read);
    PageIds(Window(z, max), offset, tuples, read);
  }

  /** The cursor of a page read is the cursor of its tuples' scores. */
  lemma ScanCursorOf(tuples: SortedSet.ZSet, read: ScrollResult)
    requires Scan(tuples) == Success(read)
    ensures CursorOf(Scores(tuples)) == Cursor(read.minTime, read.offset)
  {
  }

  /** The three outcomes of a request: no tuples, tuples with a member that is not a number, and a page read. */
  lemma PageOutcome(z: SortedSet.ZSet, max: Long, offset: Int)
    ensures var tuples := SortedSet.RevRangeByScore(z, 0, max, offset, PAGE_COUNT);
      var r := NextFeedPage(z, max, offset);
      && (tuples == [] ==> r == Success(Ok(None)))
      && (tuples != [] && Scan(tuples).Failure? ==> r == Failure(BadNumber))
      && (tuples != [] && Scan(tuples).Success? ==>
            var read := Scan(tuples).value;
            r == Success(Ok(Some(read.(offset := NextOffset(max, offset, read))))))
  {
  }

  /** The ids of a page read from the window come from the window's entries in order. */
  lemma PageIds(w: SortedSet.ZSet, offset: int, tuples: SortedSet.ZSet, page: ScrollResult)
    requires 0 <= offset && offset + |tuples| <= |w| && forall i :: 0 <= i < |tuples| ==> tuples[i] == w[offset + i]
    requires Scan(tuples) == Success(page)
    ensures |page.ids| == |tuples|
    ensures forall i :: 0 <= i < |page.ids| ==> ParseLong(w[offset + i].member) == Some(page.ids[i])
  {
    ScanSpec(tuples);
  }

  /** The step of ScrollContinues for a page that was read. */
  lemma NextCursor(z: SortedSet.ZSet, max: Long, offset: Int, tuples: SortedSet.ZSet, page: ScrollResult)
    requires SortedSet.Valid(z) && ScrollState(z, max, offset)
    requires tuples == SortedSet.RevRangeByScore(z, 0, max, offset, PAGE_COUNT) != [] && tuples[0].score != 0
    requires CursorOf(Scores(tuples)) == Cursor(page.minTime, page.offset)
    ensures var w := Window(z, max);
      var next := NextOffset(max, offset, page);
      && ScrollState(z, page.minTime, next)
      && Window(z, page.minTime)[next..] == w[offset + |tuples|..]
  {
    RunInWindow(z, max, offset, tuples, page);
    WindowDescends(z, max);
    WindowsStep(z, max, offset, |tuples|, page.offset, page.minTime, NextOffset(max, offset, page));
  }

  /** NextCursor once the page's final run is located in the window below max. */
  lemma WindowsStep(z: SortedSet.ZSet, max: int, offset: int, k: int, os: int, mt: int, next: int)
    requires SortedSet.Valid(z) && 0 <= mt <= max
    requires LeadingRun(Window(z, max), max, offset) && FinalRun(Window(z, max), offset + k, os, k, mt)
    requires Descending(Window(z, max))
    requires next == if mt == max then offset + os else os
    ensures LeadingRun(Window(z, mt), mt, next) && Window(z, mt)[next..] == Window(z, max)[offset + k..]
  {
    var h := WindowSplit(z, mt, max);
    CursorStep(Window(z, max), Window(z, mt), offset, k, os, mt, max, h, next);
  }

  /** The final run of a page of k entries ending at e: its os entries are at mt, and the entry before it on the
      page (if any) is not. */
  predicate FinalRun(w: SortedSet.ZSet, e: int, os: int, k: int, mt: int) {
    && 1 <= os <= k <= e <= |w|
    && (forall j :: e - os <= j < e ==> w[j].score == mt)
    && (os < k ==> w[e - os - 1].score != mt)
  }

  /** The first h entries of w are scored above m, the others at most m, and w' is what follows them. */
  predicate SplitAt(w: SortedSet.ZSet, w': SortedSet.ZSet, h: int, m: int, max: int) {
    && 0 <= h <= |w| && w' == w[h..]
    && (forall i :: 0 <= i < h ==> m < w[i].score)
    && (forall i :: h <= i < |w| ==> w[i].score <= m)
    && (forall i :: 0 <= i < |w| ==> w[i].score <= max)
  }

  predicate Descending(w: SortedSet.ZSet) {
    forall i, j :: 0 <= i < j < |w| ==> w[j].score <= w[i].score
  }

  /** NextCursor over the windows alone: w is the window below max, and w' the one below mt, which follows the
      first h entries of w, those scored above mt. */
  lemma CursorStep(w: SortedSet.ZSet, w': SortedSet.ZSet, offset: int, k: int, os: int, mt: int, max: int, h: int, next: int)
    requires LeadingRun(w, max, offset) && FinalRun(w, offset + k, os, k, mt)
    requires Descending(w) && SplitAt(w, w', h, mt, max)
    requires next == if mt == max then offset + os else os
    ensures LeadingRun(w', mt, next) && w'[next..] == w[offset + k..]
  {
    RunBoundary(w, offset, k, os, mt, max, h);
    WindowStep(w, w', h, next, offset + k, mt);
  }

  /** Where the cursor of a page points in the window: the page's final run at minTime, of length os, ends at
      e = offset + |tuples|, and the entry before it (if the page has one) is at another score. */
  lemma RunInWindow(z: SortedSet.ZSet, max: Long, offset: Int, tuples: SortedSet.ZSet, page: ScrollResult)
    requires tuples == SortedSet.RevRangeByScore(z, 0, max, offset, PAGE_COUNT) != [] && tuples[0].score != 0
    requires CursorOf(Scores(tuples)) == Cursor(page.minTime, page.offset)
    ensures 0 <= offset && 0 <= page.minTime <= max
    ensures FinalRun(Window(z, max), offset + |tuples|, page.offset, |tuples|, page.minTime)
  {
    PageOfWindow(z, max, offset, tuples);
    ScanCursor(tuples, page);
    assert 0 <= tuples[|tuples| - 1].score <= max;
    FinalRunOfPage(Window(z, max), offset, tuples, page.minTime, page.offset);
  }

  /** A page that is a slice of w from offset on, with a final run of os entries at mt, marks that run in w. */
  lemma FinalRunOfPage(w: SortedSet.ZSet, offset: int, tuples: SortedSet.ZSet, mt: int, os: int)
    requires 0 <= offset && offset + |tuples| <= |w|
    requires forall i :: 0 <= i < |tuples| ==> tuples[i] == w[offset + i]
    requires 1 <= os <= |tuples|
    requires forall j :: |tuples| - os <= j < |tuples| ==> tuples[j].score == mt
    requires os < |tuples| ==> tuples[|tuples| - os - 1].score != mt
    ensures FinalRun(w, offset + |tuples|, os, |tuples|, mt)
  {
    var k := |tuples|;
    var e := offset + k;
    forall j | e - os <= j < e ensures w[j].score == mt {
      assert w[j] == tuples[j - offset];
    }
    if os < k {
      assert w[e - os - 1] == tuples[k - os - 1];
    }
  }

  /** What the loop leaves in the cursor over tuples from the feed, whose scores are positive: minTime is the last
      score, and os the length of the final run of tuples at that score. */
  lemma ScanCursor(tuples: SortedSet.ZSet, page: ScrollResult)
    requires tuples != [] && tuples[0].score != 0 && CursorOf(Scores(tuples)) == Cursor(page.minTime, page.offset)
    ensures page.minTime == tuples[|tuples| - 1].score
    ensures 1 <= page.offset <= |tuples|
    ensures forall j :: |tuples| - page.offset <= j < |tuples| ==> tuples[j].score == page.minTime
    ensures page.offset < |tuples| ==> tuples[|tuples| - page.offset - 1].score != page.minTime
  {
    CursorIsTrailingRun(Scores(tuples));
  }

  /** A non-empty page is the run of the window from offset on, of feed entries scored in (0, max]. */
  lemma PageOfWindow(z: SortedSet.ZSet, max: Long, offset: Int, tuples: SortedSet.ZSet)
    requires tuples == SortedSet.RevRangeByScore(z, 0, max, offset, PAGE_COUNT) != []
    ensures 0 <= offset && offset + |tuples| <= |Window(z, max)| && |tuples| <= PAGE_COUNT
    ensures |tuples| == PAGE_COUNT || offset + |tuples| == |Window(z, max)|
    ensures forall i :: 0 <= i < |tuples| ==> tuples[i] == Window(z, max)[offset + i] && tuples[i] in z
    ensures forall i :: 0 <= i < |tuples| ==> 0 <= tuples[i].score <= max
  {
    SortedSet.RevRangeIsSlice(z, 0, max, offset, PAGE_COUNT);
    SortedSet.RevRangeInWindow(z, 0, max, offset, PAGE_COUNT);
  }

  /** The window falls from its first entry to its last. */
  lemma WindowDescends(z: SortedSet.ZSet, max: int)
    requires SortedSet.Valid(z)
    ensures Descending(Window(z, max))
  {
    var w := Window(z, max);
    SortedSet.InScoreOrdered(z, 0, max);
    SortedSet.ReverseDescends(SortedSet.InScore(z, 0, max));
    forall i, j | 0 <= i < j < |w| ensures w[j].score <= w[i].score {
      assert SortedSet.Precedes(w[j], w[i]);
    }
  }

  /** The window after h leading entries, read from next on, is the old window from e = h + next on; its first
      next entries are the old ones at h onwards. */
  lemma WindowStep(w: SortedSet.ZSet, w': SortedSet.ZSet, h: int, next: int, e: int, mt: int)
    requires 0 <= h <= |w| && w' == w[h..] && e == h + next && 0 <= next && e <= |w|
    requires forall j :: h <= j < e ==> w[j].score == mt
    ensures next <= |w'| && w'[next..] == w[e..]
    ensures forall j :: 0 <= j < next ==> w'[j].score == mt
  {
    forall j | 0 <= j < next ensures w'[j].score == mt {
      assert w'[j] == w[h + j];
    }
  }

  /** Where the entries scored above mt end in a window that falls from max: with the page's final run at mt at
      positions e - os .. e - 1 and the first offset entries at max, they are the first e - next entries, and the
      next entries from there on are at mt. */
  lemma RunBoundary(w: SortedSet.ZSet, offset: int, k: int, os: int, mt: int, max: int, h: int)
    requires 0 <= offset && offset + k <= |w| && 1 <= os <= k
    requires forall j :: offset + k - os <= j < offset + k ==> w[j].score == mt
    requires os < k ==> w[offset + k - os - 1].score != mt
    requires forall j :: 0 <= j < offset ==> w[j].score == max
    requires forall j :: 0 <= j < |w| ==> w[j].score <= max
    requires forall i, j :: 0 <= i < j < |w| ==> w[j].score <= w[i].score
    requires 0 <= h <= |w| && (forall i :: 0 <= i < h ==> mt < w[i].score) && (forall i :: h <= i < |w| ==> w[i].score <= mt)
    ensures var next := if mt == max then offset + os else os;
      && offset + k - next == h
      && forall j :: h <= j < h + next ==> w[j].score == mt
  {
    var e := offset + k;
    if os < k {
      assert w[e - os].score <= w[e - os - 1].score;
      assert w[e - os - 1].score > mt;
      assert w[e - os].score == mt;
      assert mt != max;
    } else if mt == max {
      assert 0 < |w| ==> w[0].score <= max;
      assert h == 0;
    } else {
      assert w[offset].score == mt;
      if offset > 0 {
        assert w[offset - 1].score > mt;
      }
    }
  }

  /** The window below a score m is what the window below max holds after its entries scored above m, and those
      come first. */
  lemma WindowSplit(z: SortedSet.ZSet, m: int, max: int) returns (h: nat)
    requires SortedSet.Valid(z) && 0 <= m <= max
    ensures SplitAt(Window(z, max), Window(z, m), h, m, max)
  {
    var lower := SortedSet.InScore(z, 0, m);
    var upper := SortedSet.InScore(z, m + 1, max);
    SortedSet.InScoreSplit(z, 0, m, max);
    SortedSet.ReverseConcat(lower, upper);
    var w := Window(z, max);
    h := |upper|;
    var ru := SortedSet.Reverse(upper);
    var rl := SortedSet.Reverse(lower);
    assert w == ru + rl;
    SortedSet.InScoreBounds(z, 0, m);
    SortedSet.InScoreBounds(z, m + 1, max);
    ScoresOfReversedPair(w, upper, lower, m + 1, max, 0, m);
  }

  /** The scores by position of the reverse of upper followed by the reverse of lower, whose scores lie in
      [ulo, uhi] and in [llo, lhi]. */
  lemma ScoresOfReversedPair(w: SortedSet.ZSet, upper: SortedSet.ZSet, lower: SortedSet.ZSet,
                             ulo: int, uhi: int, llo: int, lhi: int)
    requires w == SortedSet.Reverse(upper) + SortedSet.Reverse(lower)
    requires forall i :: 0 <= i < |upper| ==> SortedSet.Scored(upper[i], ulo, uhi)
    requires forall i :: 0 <= i < |lower| ==> SortedSet.Scored(lower[i], llo, lhi)
    ensures w[|upper|..] == SortedSet.Reverse(lower)
    ensures forall i :: 0 <= i < |upper| ==> SortedSet.Scored(w[i], ulo, uhi)
    ensures forall i :: |upper| <= i < |w| ==> SortedSet.Scored(w[i], llo, lhi)
  {
    ScoresOfPair(w, SortedSet.Reverse(upper), SortedSet.Reverse(lower), upper, lower, ulo, uhi, llo, lhi);
  }

  lemma ScoresOfPair(w: SortedSet.ZSet, ru: SortedSet.ZSet, rl: SortedSet.ZSet, upper: SortedSet.ZSet,
                     lower: SortedSet.ZSet, ulo: int, uhi: int, llo: int, lhi: int)
    requires w == ru + rl && |ru| == |upper| && |rl| == |lower|
    requires forall i :: 0 <= i < |upper| ==> ru[i] == upper[|upper| - 1 - i]
    requires forall i :: 0 <= i < |lower| ==> rl[i] == lower[|lower| - 1 - i]
    requires forall i :: 0 <= i < |upper| ==> SortedSet.Scored(upper[i], ulo, uhi)
    requires forall i :: 0 <= i < |lower| ==> SortedSet.Scored(lower[i], llo, lhi)
    ensures w[|upper|..] == rl
    ensures forall i :: 0 <= i < |upper| ==> SortedSet.Scored(w[i], ulo, uhi)
    ensures forall i :: |upper| <= i < |w| ==> SortedSet.Scored(w[i], llo, lhi)
  {
    var h := |upper|;
    forall i | 0 <= i < h ensures SortedSet.Scored(w[i], ulo, uhi) {
      assert w[i] == ru[i] == upper[h - 1 - i];
    }
    forall i | h <= i < |w| ensures SortedSet.Scored(w[i], llo, lhi) {
      assert w[i] == rl[i - h] == lower[|lower| - 1 - (i - h)];
    }
    assert w[h..] == rl;
  }

  // ---------------------------------------------------------------------------------------------------------
  // The objects

  /** A blog row, as far as these operations read and set it. */
  class Blog {
    var id: Long
    var userId: Option<Long>
    var isLike: Option<bool>  // a Boolean, null until isBlogLiked sets it

    constructor (id: Long)
      ensures this.id == id && userId == None && isLike == None
    {
      this.id := id;
      userId := None;
      isLike := None;
    }
  }

  class BlogService {
    const redis: Store

    constructor (redis: Store)
      ensures this.redis == redis
    {
      this.redis := redis;
    }

    /** isBlogLiked: sets isLike to whether the logged-in user has liked the blog; with nobody logged in the blog
        is left as it was. */
    method IsBlogLiked(blog: Blog, user: Option<Long>)
      modifies blog`isLike
      ensures user.None? ==> blog.isLike == old(blog.isLike)
      ensures user.Some? ==> blog.isLike == Some(Liked(redis.zsets, blog.id, user.value))
    {
      if user.None? {
        return;
      }
      var score := redis.ZScore("blog:liked:" + DecimalString(blog.id), DecimalString(user.value));
      blog.isLike := Some(score.Some?);
    }

    /** likeBlog; dbUpdated is whether the update of the blog's like counter hit a row. */
    method LikeBlog(id: Long, user: Option<Long>, dbUpdated: bool, nowMillis: int) returns (r: Result<Response<()>>)
      requires redis.Valid()
      modifies redis`zsets
      ensures redis.Valid()
      ensures user.None? ==> r == Failure(NullDereference) && redis.zsets == old(redis.zsets)
      ensures user.Some? ==>
        r == Success(Ok(None)) && redis.zsets == ToggleLike(old(redis.zsets), id, user.value, dbUpdated, nowMillis)
    {
      if user.None? {
        r := Failure(NullDereference);
        return;
      }
      var key := BLOG_LIKED_KEY + DecimalString(id);
      var member := DecimalString(user.value);
      var score := redis.ZScore(key, member);
      if score.None? {
        if dbUpdated {
          redis.ZAdd(key, member, nowMillis);
        }
      } else {
        if dbUpdated {
          redis.ZRem(key, member);
        }
      }
      r := Success(Ok(None));
    }

    /** queryBlogLikes, up to the user lookup: the ids of the users to fetch, in order. */
    method QueryBlogLikes(id: Long) returns (r: Result<Response<seq<Long>>>)
      ensures r == OkWith(TopLikers(ZOf(redis.zsets, LikedKey(id))))
    {
      var top := redis.ZRange(BLOG_LIKED_KEY + DecimalString(id), 0, TOP_LIKERS - 1);
      if top == [] {
        r := Success(Ok(Some([])));
        return;
      }
      var ids := ParseLongs(top);
      r := if ids.None? then Failure(BadNumber) else Success(Ok(Some(ids.value)));
    }

    /** saveBlog; saved is whether the insert succeeded, newId the id the database gave the row, followers the
        user ids of the author's followers, pushMillis the clock reading taken at each follower's push. */
    method SaveBlog(blog: Blog, user: Option<Long>, saved: bool, newId: Long, followers: seq<Long>,
                    pushMillis: seq<int>) returns (r: Result<Response<Long>>)
      requires redis.Valid() && |pushMillis| == |followers|
      modifies blog`userId, blog`id, redis`zsets
      ensures redis.Valid()
      ensures user.None? ==>
        && r == Failure(NullDereference)
        && blog.userId == old(blog.userId) && blog.id == old(blog.id) && redis.zsets == old(redis.zsets)
      ensures user.Some? && !saved ==>
        && r == Success(Refused(SAVE_FAILED))
        && blog.userId == user && blog.id == old(blog.id) && redis.zsets == old(redis.zsets)
      ensures user.Some? && saved ==>
        && r == Success(Ok(Some(newId)))
        && blog.userId == user && blog.id == newId
        && redis.zsets == FanOut(old(redis.zsets), followers, pushMillis, DecimalString(newId))
    {
      if user.None? {
        r := Failure(NullDereference);
        return;
      }
      blog.userId := user;
      if !saved {
        r := Success(Refused(SAVE_FAILED));
        return;
      }
      blog.id := newId;
      ghost var zs0 := redis.zsets;
      ghost var member := DecimalString(newId);
      var i := 0;
      while i < |followers|
        invariant 0 <= i <= |followers|
        invariant redis.Valid()
        invariant blog.userId == user && blog.id == newId
        invariant redis.zsets == FanOut(zs0, followers[..i], pushMillis[..i], member)
      {
        FanOutStep(zs0, followers, pushMillis, i, member);
        redis.ZAdd(FEED_KEY + DecimalString(followers[i]), DecimalString(blog.id), pushMillis[i]);
        i := i + 1;
      }
      assert followers[..i] == followers && pushMillis[..i] == pushMillis;
      r := Success(Ok(Some(blog.id)));
    }

    /** The loop of queryBlogOfFollow over the page's tuples. */
    method ScanPage(tuples: SortedSet.ZSet) returns (r: Result<ScrollResult>)
      ensures r == Scan(tuples)
    {
      var ids: seq<Long> := [];
      var minTime := 0;
      var os := 1;
      var i := 0;
      while i < |tuples|
        invariant 0 <= i <= |tuples|
        invariant ParseLongs(SortedSet.Members(tuples[..i])) == Some(ids)
        invariant CursorOf(Scores(tuples[..i])) == Cursor(minTime, os)
      {
        assert SortedSet.Members(tuples[..i + 1])[..i] == SortedSet.Members(tuples[..i]);
        assert Scores(tuples[..i + 1])[..i] == Scores(tuples[..i]);
        var id := ParseLong(tuples[i].member);
        if id.None? {
          assert ParseLong(SortedSet.Members(tuples)[i]).None?;
          r := Failure(BadNumber);
          return;
        }
        ids := ids + [id.value];
        var time := tuples[i].score;
        if time == minTime {
          os := os + 1;
        } else {
          minTime := time;
          os := 1;
        }
        i := i + 1;
      }
      assert tuples[..i] == tuples;
      r := Success(ScrollResult(ids, minTime, os));
    }

    /** queryBlogOfFollow, up to the blog lookup: the ids of the page and the cursor of the next one, whose offset
        NextOffset corrects. */
    method QueryBlogOfFollow(user: Option<Long>, max: Long, offset: Int) returns (r: Result<Response<ScrollResult>>)
      ensures user.None? ==> r == Failure(NullDereference)
      ensures user.Some? ==> r == FollowPage(redis.zsets, user.value, max, offset)
    {
      if user.None? {
        r := Failure(NullDereference);
        return;
      }
      var tuples := redis.ZRevRangeByScoreWithScores(FEED_KEY + DecimalString(user.value), 0, max, offset, PAGE_COUNT);
      ghost var z := ZOf(redis.zsets, FeedKey(user.value));
      assert FollowPage(redis.zsets, user.value, max, offset) == NextFeedPage(z, max, offset);
      PageOutcome(z, max, offset);
      if tuples == [] {
        r := Success(Ok(None));
        return;
      }
      var page := ScanPage(tuples);
      if page.Failure? {
        r := Failure(page.error);
        return;
      }
      var next := page.value.offset;
      if page.value.minTime == max {
        next := offset + next;
      }
      r := Success(Ok(Some(page.value.(offset := next))));
    }
  }
}
