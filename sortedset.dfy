/** Redis sorted sets: members with scores, kept in Redis' order (by score, ties by member bytes). */
module SortedSet {
  import opened Wrappers

  datatype Item = Item(member: string, score: int)

  type ZSet = seq<Item>

  /** Byte-wise comparison of members, the order Redis uses between equal scores. */
  predicate MemberLess(a: string, b: string)
    decreases |a|
  {
    if a == [] then b != []
    else b != [] && (a[0] < b[0] || (a[0] == b[0] && MemberLess(a[1..], b[1..])))
  }

  /** x comes before y in a sorted set. */
  predicate Precedes(x: Item, y: Item) {
    x.score < y.score || (x.score == y.score && MemberLess(x.member, y.member))
  }

  /** A well-formed sorted set: in Redis' order, and one score per member. */
  ghost predicate Valid(z: ZSet) {
    && (forall i, j :: 0 <= i < j < |z| ==> Precedes(z[i], z[j]))
    && (forall i, j :: 0 <= i < j < |z| ==> z[i].member != z[j].member)
  }

  lemma {:induction false} MemberLessIrreflexive(a: string)
    ensures !MemberLess(a, a)
  {
    if a != [] {
      MemberLessIrreflexive(a[1..]);
    }
  }

  lemma {:induction false} MemberLessTransitive(a: string, b: string, c: string)
    requires MemberLess(a, b) && MemberLess(b, c)
    ensures MemberLess(a, c)
    decreases |a|
  {
    if a != [] && a[0] == b[0] && b[0] == c[0] {
      MemberLessTransitive(a[1..], b[1..], c[1..]);
    }
  }

  lemma {:induction false} MemberLessTotal(a: string, b: string)
    requires a != b
    ensures MemberLess(a, b) || MemberLess(b, a)
    decreases |a|
  {
    if a != [] && b != [] && a[0] == b[0] {
      MemberLessTotal(a[1..], b[1..]);
    }
  }

  lemma PrecedesTransitive(x: Item, y: Item, w: Item)
    requires Precedes(x, y) && Precedes(y, w)
    ensures Precedes(x, w)
  {
    if x.score == y.score == w.score {
      MemberLessTransitive(x.member, y.member, w.member);
    }
  }

  lemma PrecedesTotal(x: Item, y: Item)
    requires x.member != y.member
    ensures Precedes(x, y) || Precedes(y, x)
  {
    if x.score == y.score {
      MemberLessTotal(x.member, y.member);
    }
  }

  lemma PrecedesIrreflexive(x: Item)
    ensures !Precedes(x, x)
  {
    MemberLessIrreflexive(x.member);
  }

  /** ZSCORE: the score of member m, or null. */
  function Score(z: ZSet, m: string): Option<int> {
    if z == [] then None
    else if z[0].member == m then Some(z[0].score)
    else Score(z[1..], m)
  }

  /** In a well-formed set, ZSCORE finds exactly the item that has the member. */
  lemma {:induction false} ScoreFinds(z: ZSet, m: string, s: int)
    requires Valid(z)
    ensures Score(z, m) == Some(s) <==> Item(m, s) in z
  {
    if z != [] {
      assert Valid(z[1..]);
      ScoreFinds(z[1..], m, s);
      if z[0].member == m && z[0].score != s {
        assert Item(m, s) !in z[1..] by {
          forall j | 1 <= j < |z| ensures z[j] != Item(m, s) {
            assert z[0].member != z[j].member;
          }
        }
      }
    }
  }

  lemma {:induction false} ScoreAbsent(z: ZSet, m: string)
    ensures Score(z, m) == None <==> forall y :: y in z ==> y.member != m
  {
    if z != [] {
      ScoreAbsent(z[1..], m);
    }
  }

  /** ZREM: the set without member m. */
  function Remove(z: ZSet, m: string): (r: ZSet)
    ensures forall y :: y in r <==> y in z && y.member != m
  {
    if z == [] then []
    else if z[0].member == m then Remove(z[1..], m)
    else [z[0]] + Remove(z[1..], m)
  }

  lemma {:induction false} RemoveValid(z: ZSet, m: string)
    requires Valid(z)
    ensures Valid(Remove(z, m))
  {
    if z != [] {
      assert Valid(z[1..]);
      RemoveValid(z[1..], m);
      if z[0].member != m {
        var rest := Remove(z[1..], m);
        var r := [z[0]] + rest;
        assert r == Remove(z, m);
        forall j | 0 < j < |r| ensures Precedes(r[0], r[j]) && r[0].member != r[j].member {
          assert r[j] in rest;
          var k :| 1 <= k < |z| && z[k] == r[j];
        }
      }
    }
  }

  /** ZREM of a member the set does not hold changes nothing. */
  lemma {:induction false} RemoveAbsent(z: ZSet, m: string)
    requires forall y :: y in z ==> y.member != m
    ensures Remove(z, m) == z
  {
    if z != [] {
      assert z[0] in z;
      RemoveAbsent(z[1..], m);
      assert [z[0]] + z[1..] == z;
    }
  }

  /** Removing a member just inserted, that the set did not hold before, gives back the set. */
  lemma {:induction false} RemoveInsert(z: ZSet, x: Item)
    requires forall y :: y in z ==> y.member != x.member
    ensures Remove(Insert(z, x), x.member) == z
  {
    if z == [] {
    } else if Precedes(x, z[0]) {
      assert Insert(z, x)[1..] == z;
      RemoveAbsent(z, x.member);
    } else {
      assert z[0] in z;
      RemoveInsert(z[1..], x);
      assert Insert(z, x)[0] == z[0] && Insert(z, x)[1..] == Insert(z[1..], x);
      assert [z[0]] + z[1..] == z;
    }
  }

  /** Put item x into its place in Redis' order. */
  function Insert(z: ZSet, x: Item): (r: ZSet)
    ensures forall y :: y in r <==> y in z || y == x
    ensures |r| == |z| + 1
  {
    if z == [] then [x]
    else if Precedes(x, z[0]) then [x] + z
    else [z[0]] + Insert(z[1..], x)
  }

  lemma {:induction false} InsertValid(z: ZSet, x: Item)
    requires Valid(z)
    requires forall y :: y in z ==> y.member != x.member
    ensures Valid(Insert(z, x))
  {
    if z != [] {
      var r := Insert(z, x);
      if Precedes(x, z[0]) {
        forall j | 0 < j < |r| ensures Precedes(r[0], r[j]) && r[0].member != r[j].member {
          assert r[j] == z[j - 1];
          if j > 1 {
            PrecedesTransitive(x, z[0], z[j - 1]);
          }
        }
      } else {
        assert Valid(z[1..]);
        InsertValid(z[1..], x);
        PrecedesTotal(x, z[0]);
        var rest := Insert(z[1..], x);
        assert r == [z[0]] + rest;
        forall j | 0 < j < |r| ensures Precedes(r[0], r[j]) && r[0].member != r[j].member {
          assert r[j] in rest;
          if r[j] != x {
            var k :| 1 <= k < |z| && z[k] == r[j];
          }
        }
      }
    }
  }

  /** ZADD: set member m's score to s, adding m if it is new. */
  function Add(z: ZSet, m: string, s: int): ZSet {
    Insert(Remove(z, m), Item(m, s))
  }

  /** ZADD keeps a sorted set well formed, gives m the new score and leaves every other member's score alone. */
  lemma AddSpec(z: ZSet, m: string, s: int)
    requires Valid(z)
    ensures Valid(Add(z, m, s))
    ensures Score(Add(z, m, s), m) == Some(s)
    ensures forall m' :: m' != m ==> Score(Add(z, m, s), m') == Score(z, m')
  {
    RemoveValid(z, m);
    InsertValid(Remove(z, m), Item(m, s));
    var r := Add(z, m, s);
    ScoreFinds(r, m, s);
    forall m' | m' != m ensures Score(r, m') == Score(z, m') {
      ScoreAbsent(r, m');
      ScoreAbsent(z, m');
      if Score(z, m') != None {
        ScoreFinds(z, m', Score(z, m').value);
        ScoreFinds(r, m', Score(z, m').value);
      }
    }
  }

  /** ZREM keeps a sorted set well formed, drops m and leaves every other member's score alone. */
  lemma RemoveSpec(z: ZSet, m: string)
    requires Valid(z)
    ensures Valid(Remove(z, m))
    ensures Score(Remove(z, m), m) == None
    ensures forall m' :: m' != m ==> Score(Remove(z, m), m') == Score(z, m')
  {
    RemoveValid(z, m);
    var r := Remove(z, m);
    ScoreAbsent(r, m);
    forall m' | m' != m ensures Score(r, m') == Score(z, m') {
      ScoreAbsent(r, m');
      ScoreAbsent(z, m');
      if Score(z, m') != None {
        ScoreFinds(z, m', Score(z, m').value);
        ScoreFinds(r, m', Score(z, m').value);
      }
    }
  }

  function Members(items: seq<Item>): (r: seq<string>)
    ensures |r| == |items| && forall i :: 0 <= i < |items| ==> r[i] == items[i].member
  {
    seq(|items|, i requires 0 <= i < |items| => items[i].member)
  }

  /** ZRANGE key start stop: the members at ranks start..stop (inclusive), negative ranks counting from the end. */
  function Range(z: ZSet, start: int, stop: int): seq<string> {
    var n := |z|;
    var lo := if start < 0 then (if n + start < 0 then 0 else n + start) else start;
    var hi := if stop < 0 then n + stop else if stop >= n then n - 1 else stop;
    if lo > hi || lo >= n then [] else Members(z[lo..hi + 1])
  }

  /** ZRANGE key 0 k-1 returns the first k members in Redis' order (all when fewer), and each member it returns
      comes before every member it leaves out: they are the lowest scores. */
  lemma RangeFromStart(z: ZSet, k: nat)
    requires Valid(z) && 0 < k
    ensures var r := Range(z, 0, k - 1);
      && |r| == (if |z| < k then |z| else k)
      && r == Members(z[..|r|])
      && forall i, j :: 0 <= i < |r| <= j < |z| ==> Precedes(z[i], z[j])
  {
    var r := Range(z, 0, k - 1);
    if z != [] {
      var hi := if k - 1 >= |z| then |z| - 1 else k - 1;
      assert r == Members(z[0..hi + 1]);
      assert z[..|r|] == z[0..hi + 1];
    }
  }

  /** An item whose score lies in [lo, hi]. */
  predicate Scored(y: Item, lo: int, hi: int) {
    lo <= y.score <= hi
  }

  /** The items whose score lies in [lo, hi], in Redis' order. */
  function InScore(z: ZSet, lo: int, hi: int): (r: ZSet)
    ensures forall y :: y in r <==> y in z && Scored(y, lo, hi)
  {
    if z == [] then []
    else (if lo <= z[0].score <= hi then [z[0]] else []) + InScore(z[1..], lo, hi)
  }

  function Reverse(z: ZSet): (r: ZSet)
    ensures |r| == |z| && forall i :: 0 <= i < |z| ==> r[i] == z[|z| - 1 - i]
  {
    if z == [] then [] else Reverse(z[1..]) + [z[0]]
  }

  /** ZREVRANGEBYSCORE key hi lo WITHSCORES LIMIT offset count: items scored in [lo, hi], highest first; skip offset
      of them (a negative offset skips them all), then take count (a negative count takes the rest). */
  function RevRangeByScore(z: ZSet, lo: int, hi: int, offset: int, count: int): ZSet {
    var sel := Reverse(InScore(z, lo, hi));
    if offset < 0 || offset >= |sel| then []
    else
      var rest := sel[offset..];
      if count < 0 || count >= |rest| then rest else rest[..count]
  }

  /** In a well-formed set the items in a score window are still in Redis' order. */
  lemma {:induction false} InScoreOrdered(z: ZSet, lo: int, hi: int)
    requires Valid(z)
    ensures Valid(InScore(z, lo, hi))
  {
    if z != [] {
      assert Valid(z[1..]);
      InScoreOrdered(z[1..], lo, hi);
      var rest := InScore(z[1..], lo, hi);
      var r := InScore(z, lo, hi);
      if lo <= z[0].score <= hi {
        assert r == [z[0]] + rest;
        forall j | 0 < j < |r| ensures Precedes(r[0], r[j]) && r[0].member != r[j].member {
          assert r[j] in rest;
          var k :| 1 <= k < |z| && z[k] == r[j];
        }
      } else {
        assert r == rest;
      }
    }
  }

  /** No item of a set whose scores all exceed hi lies in a window ending at hi. */
  lemma {:induction false} InScoreAbove(z: ZSet, lo: int, hi: int)
    requires forall i :: 0 <= i < |z| ==> hi < z[i].score
    ensures InScore(z, lo, hi) == []
    decreases |z|
  {
    if z != [] {
      InScoreAbove(z[1..], lo, hi);
    }
  }

  /** Scores never fall along the sequence. */
  predicate ScoresAscend(z: ZSet) {
    forall i, j :: 0 <= i < j < |z| ==> z[i].score <= z[j].score
  }

  /** Every item of a window, by position, has a score in the window. */
  lemma InScoreBounds(z: ZSet, lo: int, hi: int)
    ensures var w := InScore(z, lo, hi); forall i :: 0 <= i < |w| ==> Scored(w[i], lo, hi)
  {
    var w := InScore(z, lo, hi);
    forall i | 0 <= i < |w| ensures Scored(w[i], lo, hi) {
      assert w[i] in w;
    }
  }

  /** A window that covers every score keeps the whole set. */
  lemma {:induction false} InScoreWhole(z: ZSet, lo: int, hi: int)
    requires forall i :: 0 <= i < |z| ==> lo <= z[i].score <= hi
    ensures InScore(z, lo, hi) == z
    decreases |z|
  {
    if z != [] {
      InScoreWhole(z[1..], lo, hi);
      assert z == [z[0]] + z[1..];
    }
  }

  /** In a well-formed set the window [lo, hi] is the window [lo, m] followed by the window [m + 1, hi]: the lower
      scores come first. */
  lemma InScoreSplit(z: ZSet, lo: int, m: int, hi: int)
    requires Valid(z) && lo - 1 <= m <= hi
    ensures InScore(z, lo, hi) == InScore(z, lo, m) + InScore(z, m + 1, hi)
  {
    assert ScoresAscend(z) by {
      forall i, j | 0 <= i < j < |z| ensures z[i].score <= z[j].score {
        assert Precedes(z[i], z[j]);
      }
    }
    AscendingSplit(z, lo, m, hi);
  }

  lemma {:induction false} AscendingSplit(z: ZSet, lo: int, m: int, hi: int)
    requires ScoresAscend(z) && lo - 1 <= m <= hi
    ensures InScore(z, lo, hi) == InScore(z, lo, m) + InScore(z, m + 1, hi)
    decreases |z|
  {
    if z != [] {
      var rest := z[1..];
      assert ScoresAscend(rest) by {
        forall i, j | 0 <= i < j < |rest| ensures rest[i].score <= rest[j].score {
          assert rest[i] == z[i + 1] && rest[j] == z[j + 1];
        }
      }
      AscendingSplit(rest, lo, m, hi);
      if z[0].score <= m {
        SplitHeadBelow(z, lo, m, hi);
      } else {
        forall i | 0 <= i < |rest| ensures m < rest[i].score {
          assert rest[i] == z[i + 1];
        }
        InScoreAbove(rest, lo, m);
        SplitHeadAbove(z, lo, m, hi);
      }
    }
  }

  /** The step of AscendingSplit when the first item falls in the lower window. */
  lemma SplitHeadBelow(z: ZSet, lo: int, m: int, hi: int)
    requires z != [] && z[0].score <= m <= hi
    requires InScore(z[1..], lo, hi) == InScore(z[1..], lo, m) + InScore(z[1..], m + 1, hi)
    ensures InScore(z, lo, hi) == InScore(z, lo, m) + InScore(z, m + 1, hi)
  {
    var h := if lo <= z[0].score then [z[0]] else [];
    var a, b := InScore(z[1..], lo, m), InScore(z[1..], m + 1, hi);
    assert InScore(z, lo, hi) == h + (a + b);
    assert InScore(z, lo, m) == h + a;
    assert InScore(z, m + 1, hi) == b;
    ConcatAssociative(h, a, b);
  }

  lemma ConcatAssociative(h: ZSet, a: ZSet, b: ZSet)
    ensures h + (a + b) == (h + a) + b
  {
  }

  /** The step of AscendingSplit when the first item, and so every item, lies above the lower window. */
  lemma SplitHeadAbove(z: ZSet, lo: int, m: int, hi: int)
    requires z != [] && lo - 1 <= m < z[0].score
    requires InScore(z[1..], lo, m) == []
    requires InScore(z[1..], lo, hi) == InScore(z[1..], lo, m) + InScore(z[1..], m + 1, hi)
    ensures InScore(z, lo, hi) == InScore(z, lo, m) + InScore(z, m + 1, hi)
  {
    var h := if z[0].score <= hi then [z[0]] else [];
    assert InScore(z, lo, m) == [];
    assert InScore(z, lo, hi) == h + InScore(z[1..], lo, hi);
    assert InScore(z, m + 1, hi) == h + InScore(z[1..], m + 1, hi);
  }

  lemma ReverseConcat(a: ZSet, b: ZSet)
    ensures Reverse(a + b) == Reverse(b) + Reverse(a)
  {
    var l := Reverse(a + b);
    var r := Reverse(b) + Reverse(a);
    forall i | 0 <= i < |l| ensures l[i] == r[i] {
      if i < |b| {
        assert l[i] == (a + b)[|a| + |b| - 1 - i] == b[|b| - 1 - i];
      } else {
        assert l[i] == (a + b)[|a| + |b| - 1 - i] == a[|a| - 1 - (i - |b|)];
      }
    }
  }

  /** Reversing a set in Redis' order puts it highest first. */
  lemma ReverseDescends(w: ZSet)
    requires Valid(w)
    ensures var v := Reverse(w); forall i, j :: 0 <= i < j < |v| ==> Precedes(v[j], v[i])
  {
    var v := Reverse(w);
    forall i, j | 0 <= i < j < |v| ensures Precedes(v[j], v[i]) {
      assert v[i] == w[|w| - 1 - i] && v[j] == w[|w| - 1 - j];
    }
  }

  /** What ZREVRANGEBYSCORE returns lies in the window, comes straight from the set, is highest first, holds at most
      count items when count is not negative, and is empty exactly when offset is negative or skips every match. */
  lemma RevRangeByScoreSpec(z: ZSet, lo: int, hi: int, offset: int, count: int)
    requires Valid(z)
    ensures var r := RevRangeByScore(z, lo, hi, offset, count);
      && (forall i :: 0 <= i < |r| ==> r[i] in z && lo <= r[i].score <= hi)
      && (forall i, j :: 0 <= i < j < |r| ==> Precedes(r[j], r[i]))
      && (0 <= count ==> |r| <= count)
      && (r == [] <==> offset < 0 || |InScore(z, lo, hi)| <= offset || count == 0)
  {
    RevRangeInWindow(z, lo, hi, offset, count);
    RevRangeDescends(z, lo, hi, offset, count);
    RevRangeIsSlice(z, lo, hi, offset, count);
  }

  lemma RevRangeInWindow(z: ZSet, lo: int, hi: int, offset: int, count: int)
    ensures var r := RevRangeByScore(z, lo, hi, offset, count);
      forall i :: 0 <= i < |r| ==> r[i] in z && lo <= r[i].score <= hi
  {
    var w := InScore(z, lo, hi);
    var r := RevRangeByScore(z, lo, hi, offset, count);
    RevRangeIsSlice(z, lo, hi, offset, count);
    if r != [] {
      ReversedSliceMembers(r, Reverse(w), w, offset);
    }
    forall i | 0 <= i < |r| ensures r[i] in z && lo <= r[i].score <= hi {
      assert r[i] in w;
    }
  }

  /** Every item of a run taken from the reverse of w is an item of w. */
  lemma ReversedSliceMembers(r: ZSet, sel: ZSet, w: ZSet, offset: int)
    requires 0 <= offset && offset + |r| <= |sel| == |w|
    requires forall i :: 0 <= i < |w| ==> sel[i] == w[|w| - 1 - i]
    requires forall i :: 0 <= i < |r| ==> r[i] == sel[offset + i]
    ensures forall i :: 0 <= i < |r| ==> r[i] in w
  {
    forall i | 0 <= i < |r| ensures r[i] in w {
      assert r[i] == w[|w| - 1 - (offset + i)];
    }
  }

  lemma RevRangeDescends(z: ZSet, lo: int, hi: int, offset: int, count: int)
    requires Valid(z)
    ensures var r := RevRangeByScore(z, lo, hi, offset, count);
      forall i, j :: 0 <= i < j < |r| ==> Precedes(r[j], r[i])
  {
    var w := InScore(z, lo, hi);
    var sel := Reverse(w);
    var r := RevRangeByScore(z, lo, hi, offset, count);
    RevRangeIsSlice(z, lo, hi, offset, count);
    InScoreOrdered(z, lo, hi);
    ReverseDescends(w);
    forall i, j | 0 <= i < j < |r| ensures Precedes(r[j], r[i]) {
      assert r[i] == sel[offset + i] && r[j] == sel[offset + j];
    }
  }

  /** The reply is a run of the window's items, highest first, starting offset places in. */
  lemma RevRangeIsSlice(z: ZSet, lo: int, hi: int, offset: int, count: int)
    ensures var sel := Reverse(InScore(z, lo, hi));
      var r := RevRangeByScore(z, lo, hi, offset, count);
      && (offset < 0 || |sel| <= offset ==> r == [])
      && (0 <= offset < |sel| ==>
            && |r| == (if count < 0 || count >= |sel| - offset then |sel| - offset else count)
            && forall i :: 0 <= i < |r| ==> r[i] == sel[offset + i])
  {
    var sel := Reverse(InScore(z, lo, hi));
    if 0 <= offset < |sel| {
      var rest := sel[offset..];
      assert RevRangeByScore(z, lo, hi, offset, count) == if count < 0 || count >= |rest| then rest else rest[..count];
    }
  }
}
