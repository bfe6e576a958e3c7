/** checkPostsDup of data/post.go: for each post in turn, count the posts with
    its slug; the first post whose slug is counted more than once stops the
    scan with an error naming that slug. */
module PostDup {
  import opened Helper
  import opened Posts

  /** How many of `posts` carry `slug`. */
  function Occurrences(posts: seq<Post>, slug: string): (n: nat)
    ensures n <= |posts|
    ensures n == 0 <==> forall k :: 0 <= k < |posts| ==> posts[k].slug != slug
  {
    if posts == [] then 0
    else Occurrences(posts[..|posts| - 1], slug) + (if posts[|posts| - 1].slug == slug then 1 else 0)
  }

  /** No two posts share a slug. */
  predicate SlugsDistinct(posts: seq<Post>) {
    forall i, j :: 0 <= i < j < |posts| ==> posts[i].slug != posts[j].slug
  }

  /** Some post other than the one at `i` has its slug. */
  predicate HasTwin(posts: seq<Post>, i: int)
    requires 0 <= i < |posts|
  {
    exists j :: 0 <= j < |posts| && j != i && posts[j].slug == posts[i].slug
  }

  /** At most one post carries `slug`. */
  predicate AtMostOnce(posts: seq<Post>, slug: string) {
    forall i, j :: 0 <= i < j < |posts| && posts[i].slug == slug ==> posts[j].slug != slug
  }

  /** Counting agrees with looking for a second post: the count is at most one
      exactly when no two posts carry the slug. */
  lemma {:induction false} OccurrencesAtMostOne(posts: seq<Post>, slug: string)
    ensures Occurrences(posts, slug) <= 1 <==> AtMostOnce(posts, slug)
  {
    if posts != [] {
      var init, last := posts[..|posts| - 1], posts[|posts| - 1];
      OccurrencesAtMostOne(init, slug);
      if last.slug == slug {
        if Occurrences(init, slug) > 0 {
          var k :| 0 <= k < |init| && init[k].slug == slug;
          assert posts[k].slug == slug;
        }
      } else {
        assert AtMostOnce(posts, slug) <==> AtMostOnce(init, slug) by {
          if AtMostOnce(init, slug) {
            forall i, j | 0 <= i < j < |posts| && posts[i].slug == slug
              ensures posts[j].slug != slug
            {
              if j < |init| {
                assert init[i] == posts[i] && init[j] == posts[j];
              }
            }
          }
        }
      }
    }
  }

  /** A post's slug is counted more than once exactly when another post has it. */
  lemma {:induction false} OccurrencesTwin(posts: seq<Post>, i: int)
    requires 0 <= i < |posts|
    ensures Occurrences(posts, posts[i].slug) > 1 <==> HasTwin(posts, i)
  {
    var s := posts[i].slug;
    OccurrencesAtMostOne(posts, s);
    if HasTwin(posts, i) {
      var j :| 0 <= j < |posts| && j != i && posts[j].slug == s;
      if i < j {
        assert !AtMostOnce(posts, s);
      } else {
        assert posts[j].slug == s && posts[i].slug == s;
      }
    }
  }

  /** count of checkPostsDup: the number of posts with `slug`. */
  method Count(posts: seq<Post>, slug: string) returns (cnt: nat)
    ensures cnt == Occurrences(posts, slug)
  {
    cnt := 0;
    for i := 0 to |posts|
      invariant cnt == Occurrences(posts[..i], slug)
    {
      assert posts[..i + 1][..i] == posts[..i];
      if posts[i].slug == slug {
        cnt := cnt + 1;
      }
    }
    assert posts[..|posts|] == posts;
  }

  /** The first index from `i` on whose slug is counted more than once. */
  function FirstDuplicateFrom(posts: seq<Post>, i: nat): (r: Option<nat>)
    requires i <= |posts|
    ensures r.Some? ==> i <= r.value < |posts| && Occurrences(posts, posts[r.value].slug) > 1
    ensures r.Some? ==> forall k :: i <= k < r.value ==> Occurrences(posts, posts[k].slug) <= 1
    ensures r.None? <==> forall k :: i <= k < |posts| ==> Occurrences(posts, posts[k].slug) <= 1
    decreases |posts| - i
  {
    if i == |posts| then None
    else if Occurrences(posts, posts[i].slug) > 1 then Some(i)
    else FirstDuplicateFrom(posts, i + 1)
  }

  /** What checkPostsDup returns: nothing, or the error naming the slug of the
      first post that has a twin. */
  function DupError(posts: seq<Post>): Option<Error>
  {
    match FirstDuplicateFrom(posts, 0)
    case None => None
    case Some(i) => Some(Duplicate(posts[i].slug))
  }

  /** checkPostsDup: the outer loop over the posts, counting each slug. */
  method CheckPostsDup(posts: seq<Post>) returns (err: Option<Error>)
    ensures err == DupError(posts)
  {
    for i := 0 to |posts|
      invariant FirstDuplicateFrom(posts, i) == FirstDuplicateFrom(posts, 0)
    {
      var n := Count(posts, posts[i].slug);
      if n > 1 {
        return Some(Duplicate(posts[i].slug));
      }
    }
    return None;
  }

  /** checkPostsDup succeeds exactly when all slugs are distinct. */
  lemma {:induction false} DupErrorNoneIffDistinct(posts: seq<Post>)
    ensures DupError(posts).None? <==> SlugsDistinct(posts)
  {
    if DupError(posts).None? {
      forall i, j | 0 <= i < j < |posts|
        ensures posts[i].slug != posts[j].slug
      {
        OccurrencesTwin(posts, i);
      }
    } else {
      var i := FirstDuplicateFrom(posts, 0).value;
      OccurrencesTwin(posts, i);
      var j :| 0 <= j < |posts| && j != i && posts[j].slug == posts[i].slug;
      if i < j {
        assert !SlugsDistinct(posts);
      } else {
        assert posts[j].slug == posts[i].slug;
      }
    }
  }

  /** The reported slug is a duplicated one: it belongs to a post with a twin
      after it, and no earlier post shares its slug with any other. */
  lemma {:induction false} DupErrorNamesDuplicate(posts: seq<Post>)
    requires DupError(posts).Some?
    ensures DupError(posts).value.Duplicate?
    ensures exists i, j :: 0 <= i < j < |posts| && posts[i].slug == posts[j].slug == DupError(posts).value.slug
    ensures exists i ::
      && 0 <= i < |posts|
      && posts[i].slug == DupError(posts).value.slug
      && HasTwin(posts, i)
      && (forall k :: 0 <= k < i ==> !HasTwin(posts, k))
  {
    var i := FirstDuplicateFrom(posts, 0).value;
    OccurrencesTwin(posts, i);
    forall k | 0 <= k < i
      ensures !HasTwin(posts, k)
    {
      OccurrencesTwin(posts, k);
    }
    var j :| 0 <= j < |posts| && j != i && posts[j].slug == posts[i].slug;
    assert i < j;
    assert posts[i].slug == posts[j].slug == DupError(posts).value.slug;
  }
}
