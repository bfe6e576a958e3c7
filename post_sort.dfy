/** The publication order of sortPosts: pinned ("top") posts first, "last"
    posts at the end, the rest by descending creation time, equal keys in
    their input order. The comparator of data/post.go does not order two
    "top" posts or two "last" posts consistently (it says each precedes the
    other), so the order is stated here through the explicit key
    (top = 0, default = 1, last = 2; then descending `created`), and the
    source's comparator is kept beside it for comparison. */
module PostSort {
  import opened Posts

  /** The pin class of an order value. */
  function Rank(order: string): (r: nat)
    ensures r <= 2
    ensures r == 0 <==> order == OrderTop
    ensures r == 2 <==> order == OrderLast
  {
    if order == OrderTop then 0 else if order == OrderLast then 2 else 1
  }

  /** `a` goes strictly before `b`: a lower pin class, or the same class and a
      later creation time. */
  predicate Before(a: Post, b: Post) {
    Rank(a.order) < Rank(b.order) || (Rank(a.order) == Rank(b.order) && a.created > b.created)
  }

  /** `a` and `b` have the same sort key, so neither goes before the other. */
  predicate SameKey(a: Post, b: Post) {
    Rank(a.order) == Rank(b.order) && a.created == b.created
  }

  /** The comparator of sortPosts as written. */
  predicate SourceLess(a: Post, b: Post) {
    if a.order == OrderTop || b.order == OrderLast then true
    else if a.order == OrderLast || b.order == OrderTop then false
    else a.created > b.created
  }

  /** Two "top" posts, or two "last" posts: the source's comparator says each
      goes before the other, so it is not a strict ordering and the sort may
      place them either way. */
  lemma SourceLessNotAsymmetric(a: Post, b: Post)
    requires (a.order == OrderTop && b.order == OrderTop) || (a.order == OrderLast && b.order == OrderLast)
    ensures SourceLess(a, b) && SourceLess(b, a)
    ensures !Before(a, b) || !Before(b, a)
  {
  }

  /** Where neither both posts are "top" nor both are "last", the source's
      comparator agrees with the key. */
  lemma SourceLessAgreesWithKey(a: Post, b: Post)
    requires !(a.order == OrderTop && b.order == OrderTop)
    requires !(a.order == OrderLast && b.order == OrderLast)
    ensures SourceLess(a, b) == Before(a, b)
  {
  }

  /** Before is a strict weak order: irreflexive, transitive, and "neither
      before the other" (equal keys) is an equivalence. */
  lemma BeforeIsStrictWeakOrder(a: Post, b: Post, c: Post)
    ensures !Before(a, a)
    ensures Before(a, b) ==> !Before(b, a)
    ensures Before(a, b) && Before(b, c) ==> Before(a, c)
    ensures Before(a, c) ==> Before(a, b) || Before(b, c)
    ensures (!Before(a, b) && !Before(b, a)) <==> SameKey(a, b)
  {
  }

  // ---------------------------------------------------------------------------
  // The sorted order as a function: stable insertion from the right
  // ---------------------------------------------------------------------------

  /** Insert `x` after every element that does not go after it. */
  function Insert(s: seq<Post>, x: Post): seq<Post>
  {
    if s == [] || !Before(x, s[|s| - 1]) then s + [x]
    else Insert(s[..|s| - 1], x) + [s[|s| - 1]]
  }

  /** The stable sort of `s` by the key. */
  function SortByKey(s: seq<Post>): seq<Post>
  {
    if s == [] then [] else Insert(SortByKey(s[..|s| - 1]), s[|s| - 1])
  }

  /** No element goes before an earlier one. */
  predicate Sorted(s: seq<Post>) {
    forall i, j :: 0 <= i < j < |s| ==> !Before(s[j], s[i])
  }

  /** The elements of `s` with the same key as `k`, in their order in `s`. */
  function KeyClass(s: seq<Post>, k: Post): seq<Post>
  {
    if s == [] then []
    else KeyClass(s[..|s| - 1], k) + (if SameKey(s[|s| - 1], k) then [s[|s| - 1]] else [])
  }

  lemma {:induction false} KeyClassAppend(s: seq<Post>, t: seq<Post>, k: Post)
    ensures KeyClass(s + t, k) == KeyClass(s, k) + KeyClass(t, k)
  {
    if t != [] {
      assert (s + t)[..|s + t| - 1] == s + t[..|t| - 1];
      KeyClassAppend(s, t[..|t| - 1], k);
    } else {
      assert s + t == s;
    }
  }

  lemma {:induction false} InsertPermutation(s: seq<Post>, x: Post)
    ensures multiset(Insert(s, x)) == multiset(s) + multiset{x}
  {
    if s != [] && Before(x, s[|s| - 1]) {
      var init, last := s[..|s| - 1], s[|s| - 1];
      InsertPermutation(init, x);
      assert s == init + [last];
      assert multiset(s) == multiset(init) + multiset{last};
    }
  }

  /** sortPosts only reorders: the output is a permutation of the input. */
  lemma {:induction false} SortPermutation(s: seq<Post>)
    ensures multiset(SortByKey(s)) == multiset(s)
  {
    if s != [] {
      var init, last := s[..|s| - 1], s[|s| - 1];
      SortPermutation(init);
      InsertPermutation(SortByKey(init), last);
      assert s == init + [last];
      assert multiset(s) == multiset(init) + multiset{last};
    }
  }

  lemma {:induction false} InsertSorted(s: seq<Post>, x: Post)
    requires Sorted(s)
    ensures Sorted(Insert(s, x))
  {
    if s == [] {
    } else if !Before(x, s[|s| - 1]) {
      var r := s + [x];
      forall i, j | 0 <= i < j < |r| ensures !Before(r[j], r[i]) {
        if j == |s| && i < |s| - 1 {
          BeforeIsStrictWeakOrder(s[i], s[|s| - 1], x);
        }
      }
    } else {
      var init, last := s[..|s| - 1], s[|s| - 1];
      InsertSorted(init, x);
      var t := Insert(init, x);
      InsertPermutation(init, x);
      var r := t + [last];
      forall i, j | 0 <= i < j < |r| ensures !Before(r[j], r[i]) {
        if j == |t| {
          assert r[i] in multiset(t);
          if r[i] != x {
            assert r[i] in multiset(init);
            var k :| 0 <= k < |init| && init[k] == r[i];
            assert s[k] == r[i];
          } else {
            BeforeIsStrictWeakOrder(x, last, x);
          }
        }
      }
    }
  }

  /** sortPosts orders by the key: no post goes before an earlier one. */
  lemma {:induction false} SortSorted(s: seq<Post>)
    ensures Sorted(SortByKey(s))
  {
    if s != [] {
      SortSorted(s[..|s| - 1]);
      InsertSorted(SortByKey(s[..|s| - 1]), s[|s| - 1]);
    }
  }

  /** Inserting `x` into `s` adds `x` at the end of its own key class and
      leaves every other class as it was. */
  lemma {:induction false} InsertStable(s: seq<Post>, x: Post, k: Post)
    ensures KeyClass(Insert(s, x), k) == KeyClass(s, k) + KeyClass([x], k)
  {
    if s == [] || !Before(x, s[|s| - 1]) {
      KeyClassAppend(s, [x], k);
    } else {
      var init, last := s[..|s| - 1], s[|s| - 1];
      InsertStable(init, x, k);
      InsertStableShift(s, x, k);
    }
  }

  /** The step of InsertStable where `x` moves past the last element. */
  lemma {:induction false} InsertStableShift(s: seq<Post>, x: Post, k: Post)
    requires s != [] && Before(x, s[|s| - 1])
    requires KeyClass(Insert(s[..|s| - 1], x), k) == KeyClass(s[..|s| - 1], k) + KeyClass([x], k)
    ensures KeyClass(Insert(s, x), k) == KeyClass(s, k) + KeyClass([x], k)
  {
  }

  /** sortPosts is stable: the posts of any one key appear in the output in
      exactly their input order. */
  lemma {:induction false} SortStable(s: seq<Post>, k: Post)
    ensures KeyClass(SortByKey(s), k) == KeyClass(s, k)
  {
    if s != [] {
      var init, last := s[..|s| - 1], s[|s| - 1];
      SortStable(init, k);
      InsertStable(SortByKey(init), last, k);
      assert [last][..0] == [];
    }
  }

  /** What the order promises between pin classes and within the default
      class: every "top" post precedes every other post, every "last" post
      follows every other post, and default posts run from newest to oldest. */
  lemma {:induction false} SortedClasses(s: seq<Post>, i: int, j: int)
    requires Sorted(s) && 0 <= i < j < |s|
    ensures s[j].order == OrderTop ==> s[i].order == OrderTop
    ensures s[i].order == OrderLast ==> s[j].order == OrderLast
    ensures Rank(s[i].order) == 1 && Rank(s[j].order) == 1 ==> s[i].created >= s[j].created
  {
  }

  // ---------------------------------------------------------------------------
  // sortPosts, in place
  // ---------------------------------------------------------------------------

  /** Sorting one more element inserts it into the sorted prefix. */
  lemma {:induction false} SortByKeySnoc(s: seq<Post>, i: nat)
    requires i < |s|
    ensures SortByKey(s[..i + 1]) == Insert(SortByKey(s[..i]), s[i])
  {
    assert s[..i + 1][..i] == s[..i];
  }

  /** Where `x` lands: after `sorted[..j]` when it goes before every element
      from `j` on and not before `sorted[j - 1]`. */
  lemma {:induction false} InsertPosition(sorted: seq<Post>, x: Post, j: nat)
    requires j <= |sorted| && (j == 0 || !Before(x, sorted[j - 1]))
    requires forall k :: j <= k < |sorted| ==> Before(x, sorted[k])
    ensures Insert(sorted, x) == sorted[..j] + [x] + sorted[j..]
    decreases |sorted|
  {
    if j == |sorted| {
      assert sorted[..j] == sorted && sorted[j..] == [];
    } else {
      var init := sorted[..|sorted| - 1];
      InsertPosition(init, x, j);
      assert init[..j] == sorted[..j];
      assert sorted[j..] == init[j..] + [sorted[|sorted| - 1]];
    }
  }

  /** The array contents InsertAt leaves behind: `sorted[..j]`, then `x`,
      then the rest of `sorted` shifted one place right, is the insertion. */
  lemma {:induction false} ShiftedIsInsert(sorted: seq<Post>, x: Post, j: nat, r: seq<Post>)
    requires j <= |sorted| && (j == 0 || !Before(x, sorted[j - 1]))
    requires forall k :: j <= k < |sorted| ==> Before(x, sorted[k])
    requires |r| == |sorted| + 1 && r[j] == x
    requires forall k :: 0 <= k < j ==> r[k] == sorted[k]
    requires forall k :: j < k < |r| ==> r[k] == sorted[k - 1]
    ensures r == Insert(sorted, x)
  {
    InsertPosition(sorted, x, j);
    var want := sorted[..j] + [x] + sorted[j..];
    forall k | 0 <= k < |r|
      ensures r[k] == want[k]
    {
      if k < j {
        assert want[k] == sorted[k];
      } else if k == j {
        assert want[k] == x;
      } else {
        assert want[k] == sorted[j..][k - j - 1] == sorted[k - 1];
      }
    }
  }

  /** Moves `a[i]` leftwards past every element it goes before, shifting those
      one place right: the prefix `a[..i + 1]` becomes the insertion of the old
      `a[i]` into the old prefix `a[..i]`, and nothing after `i` moves. */
  method InsertAt(a: array<Post>, i: nat)
    requires i < a.Length
    modifies a
    ensures a[..i + 1] == Insert(old(a[..i]), old(a[i]))
    ensures a[i + 1..] == old(a[i + 1..])
  {
    var x := a[i];
    ghost var sorted := a[..i];
    var j := i;
    while j > 0 && Before(x, a[j - 1])
      invariant 0 <= j <= i
      invariant forall k :: 0 <= k < j ==> a[k] == sorted[k]
      invariant forall k :: j < k <= i ==> a[k] == sorted[k - 1]
      invariant forall k :: i < k < a.Length ==> a[k] == old(a[k])
      invariant forall k :: j <= k < i ==> Before(x, sorted[k])
    {
      a[j] := a[j - 1];
      j := j - 1;
    }
    a[j] := x;
    ShiftedIsInsert(sorted, x, j, a[..i + 1]);
  }

  /** sortPosts: a stable in-place sort of the post slice by the key. */
  method SortPosts(a: array<Post>)
    modifies a
    ensures a[..] == SortByKey(old(a[..]))
  {
    ghost var s := a[..];
    var i := 0;
    while i < a.Length
      invariant 0 <= i <= a.Length
      invariant a[..i] == SortByKey(s[..i])
      invariant a[i..] == s[i..]
    {
      InsertAt(a, i);
      SortByKeySnoc(s, i);
      assert s[i..][0] == s[i];
      assert a[i + 1..] == s[i + 1..];
      i := i + 1;
    }
    assert s[..a.Length] == s;
  }
}
