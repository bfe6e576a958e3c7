/** loadPosts of data/post.go: walk the posts directory collecting the slugs of
    directories that hold both a content file and a metadata file, load each
    post in turn (the first failure aborts everything), drop drafts, reject
    duplicate slugs and sort what is left. */
module PostIngest {
  import opened Helper
  import GoStd
  import opened Posts
  import opened PostDup
  import opened PostSort

  /** One call filepath.Walk makes to the walk function: a directory, any
      other file, or an error met while walking (the walk function returns
      it, which ends the walk). */
  datatype WalkEntry = Dir(path: string) | File(path: string) | Failed(error: Error)

  // ---------------------------------------------------------------------------
  // Slugs
  // ---------------------------------------------------------------------------

  /** The slug of the directory at `p`: its path relative to the posts
      directory, with '/' as separator and no slash at either end. */
  function SlugOf(env: Env, p: string): (slug: string)
    ensures slug == [] || (slug[0] != '/' && slug[|slug| - 1] != '/')
  {
    var rel := GoStd.ToSlash(GoStd.TrimPrefix(p, env.postsDir), env.separator);
    GoStd.TrimSlashesEnds(rel);
    GoStd.TrimSlashes(rel)
  }

  /** A slug never keeps a platform separator: the slug is what strings.Trim
      leaves of the ToSlash-converted relative path. */
  lemma {:induction false} SlugOfHasNoSeparator(env: Env, p: string, k: int)
    requires env.separator != '/'
    requires 0 <= k < |SlugOf(env, p)|
    ensures SlugOf(env, p)[k] != env.separator
  {
  }

  /** The directory `name` right under the posts directory has slug `name`. */
  lemma {:induction false} SlugOfChild(env: Env, name: string)
    requires forall k :: 0 <= k < |name| ==> name[k] != '/' && name[k] != env.separator
    ensures SlugOf(env, env.postsDir + [env.separator] + name) == name
  {
    var p := env.postsDir + [env.separator] + name;
    assert p[..|env.postsDir|] == env.postsDir;
    assert GoStd.TrimPrefix(p, env.postsDir) == [env.separator] + name;
    assert GoStd.ToSlash([env.separator] + name, env.separator) == ['/'] + name;
    TrimSlashesOfChild(name);
  }

  /** One leading slash before a name without slashes is all strings.Trim drops. */
  lemma {:induction false} TrimSlashesOfChild(name: string)
    requires forall k :: 0 <= k < |name| ==> name[k] != '/'
    ensures GoStd.TrimSlashes(['/'] + name) == name
  {
    var rel := ['/'] + name;
    assert rel[1..] == name;
    assert GoStd.TrimLeftSlashes(rel) == GoStd.TrimLeftSlashes(name) == name;
    assert GoStd.TrimRightSlashes(name) == name;
  }

  /** The cleaned posts directory itself has the empty slug. */
  lemma {:induction false} SlugOfRoot(env: Env)
    ensures SlugOf(env, env.postsDir) == ""
  {
  }

  /** A directory counts as a post when both of its files exist. */
  predicate IsPostDir(env: Env, disk: Disk, slug: string) {
    disk.fileExists(env.contentPath(slug)) && disk.fileExists(env.metaPath(slug))
  }

  /** The slugs of all directories the walk visits. */
  function DirSlugs(env: Env, entries: seq<WalkEntry>): set<string> {
    if entries == [] then {}
    else (if entries[0].Dir? then {SlugOf(env, entries[0].path)} else {}) + DirSlugs(env, entries[1..])
  }

  /** The walk: `slugs` collected so far, then the remaining `entries`. */
  function Discover(env: Env, disk: Disk, entries: seq<WalkEntry>, slugs: seq<string>): Result<seq<string>, Error>
  {
    if entries == [] then Ok(slugs)
    else match entries[0]
      case Failed(e) => Err(e)
      case File(_) => Discover(env, disk, entries[1..], slugs)
      case Dir(p) =>
        var slug := SlugOf(env, p);
        Discover(env, disk, entries[1..], if IsPostDir(env, disk, slug) then slugs + [slug] else slugs)
  }

  /** The slugs collected by one step of the walk: the slug of a directory
      holding both files is appended. */
  function Step(env: Env, disk: Disk, e: WalkEntry, slugs: seq<string>): seq<string> {
    if e.Dir? && IsPostDir(env, disk, SlugOf(env, e.path)) then slugs + [SlugOf(env, e.path)] else slugs
  }

  lemma {:induction false} DiscoverUnfold(env: Env, disk: Disk, entries: seq<WalkEntry>, slugs: seq<string>)
    requires entries != [] && !entries[0].Failed?
    ensures Discover(env, disk, entries, slugs) == Discover(env, disk, entries[1..], Step(env, disk, entries[0], slugs))
    ensures DirSlugs(env, entries) ==
      (if entries[0].Dir? then {SlugOf(env, entries[0].path)} else {}) + DirSlugs(env, entries[1..])
  {
  }

  /** A walk without errors keeps the slugs collected before and adds only
      slugs of visited directories that hold both files. */
  lemma {:induction false} DiscoverSound(env: Env, disk: Disk, entries: seq<WalkEntry>, slugs: seq<string>)
    requires Discover(env, disk, entries, slugs).Ok?
    ensures var r := Discover(env, disk, entries, slugs).value;
      && slugs <= r
      && (forall k :: |slugs| <= k < |r| ==> IsPostDir(env, disk, r[k]) && r[k] in DirSlugs(env, entries))
  {
    if entries != [] {
      var next := Step(env, disk, entries[0], slugs);
      DiscoverUnfold(env, disk, entries, slugs);
      DiscoverSound(env, disk, entries[1..], next);
    }
  }

  /** A walk without errors collects the slug of every visited directory that
      holds both files. */
  lemma {:induction false} DiscoverComplete(env: Env, disk: Disk, entries: seq<WalkEntry>, slugs: seq<string>, s: string)
    requires Discover(env, disk, entries, slugs).Ok?
    requires s in DirSlugs(env, entries) && IsPostDir(env, disk, s)
    ensures s in Discover(env, disk, entries, slugs).value
  {
    var next := Step(env, disk, entries[0], slugs);
    DiscoverUnfold(env, disk, entries, slugs);
    DiscoverSound(env, disk, entries[1..], next);
    if s in DirSlugs(env, entries[1..]) {
      DiscoverComplete(env, disk, entries[1..], next, s);
    } else {
      assert next[|slugs|] == s;
    }
  }

  /** The first error met by the walk is what the walk returns. */
  lemma {:induction false} DiscoverFailure(env: Env, disk: Disk, entries: seq<WalkEntry>, slugs: seq<string>, k: nat)
    requires k < |entries| && entries[k].Failed?
    requires forall j :: 0 <= j < k ==> !entries[j].Failed?
    ensures Discover(env, disk, entries, slugs) == Err(entries[k].error)
  {
    if k > 0 {
      assert !entries[0].Failed?;
      var next := Step(env, disk, entries[0], slugs);
      DiscoverFailure(env, disk, entries[1..], next, k - 1);
    }
  }

  /** A walk that meets no error succeeds. */
  lemma {:induction false} DiscoverNoFailure(env: Env, disk: Disk, entries: seq<WalkEntry>, slugs: seq<string>)
    requires forall j :: 0 <= j < |entries| ==> !entries[j].Failed?
    ensures Discover(env, disk, entries, slugs).Ok?
  {
    if entries != [] {
      assert !entries[0].Failed?;
      var next := Step(env, disk, entries[0], slugs);
      DiscoverNoFailure(env, disk, entries[1..], next);
    }
  }

  // ---------------------------------------------------------------------------
  // Loading
  // ---------------------------------------------------------------------------

  /** loadPost as a function value, so that the loading loop can be reasoned
      about without unfolding it. */
  function Loader(env: Env, disk: Disk): string -> Result<Post, Error> {
    slug => PostOutcome(env, disk, slug)
  }

  /** The loading loop: `posts` kept so far, then the remaining `slugs`, each
      loaded by `load`. */
  function LoadAll(load: string -> Result<Post, Error>, slugs: seq<string>, posts: seq<Post>): Result<seq<Post>, Error>
  {
    if slugs == [] then Ok(posts)
    else match load(slugs[0])
      case Err(e) => Err(e)
      case Ok(p) => LoadAll(load, slugs[1..], if p.draft then posts else posts + [p])
  }

  /** The loaded posts: those kept before, then the non-draft results of the
      slugs in order; every slug loads and its non-draft post is kept. */
  lemma {:induction false} LoadAllPosts(load: string -> Result<Post, Error>, slugs: seq<string>, posts: seq<Post>)
    requires LoadAll(load, slugs, posts).Ok?
    ensures var r := LoadAll(load, slugs, posts).value;
      && posts <= r
      && |r| <= |posts| + |slugs|
      && (forall k :: |posts| <= k < |r| ==>
            !r[k].draft && exists j :: 0 <= j < |slugs| && load(slugs[j]) == Ok(r[k]))
      && (forall j :: 0 <= j < |slugs| ==>
            load(slugs[j]).Ok? && (!load(slugs[j]).value.draft ==> load(slugs[j]).value in r))
  {
    if slugs != [] {
      var p := load(slugs[0]).value;
      var next := if p.draft then posts else posts + [p];
      var rest := slugs[1..];
      LoadAllPosts(load, rest, next);
      var r := LoadAll(load, slugs, posts).value;
      assert r == LoadAll(load, rest, next).value;
      forall k | |posts| <= k < |r|
        ensures exists j :: 0 <= j < |slugs| && load(slugs[j]) == Ok(r[k])
      {
        if k < |next| {
          assert r[k] == p && load(slugs[0]) == Ok(p);
        } else {
          var j :| 0 <= j < |rest| && load(rest[j]) == Ok(r[k]);
          assert slugs[j + 1] == rest[j];
        }
      }
      forall j | 0 <= j < |slugs|
        ensures load(slugs[j]).Ok? && (!load(slugs[j]).value.draft ==> load(slugs[j]).value in r)
      {
        if j == 0 {
          if !p.draft {
            assert r[|posts|] == p;
          }
        } else {
          assert slugs[j] == rest[j - 1];
        }
      }
    }
  }

  /** The first post that fails to load decides the error. */
  lemma {:induction false} LoadAllFailure(load: string -> Result<Post, Error>, slugs: seq<string>, posts: seq<Post>, k: nat)
    requires k < |slugs| && load(slugs[k]).Err?
    requires forall j :: 0 <= j < k ==> load(slugs[j]).Ok?
    ensures LoadAll(load, slugs, posts) == Err(load(slugs[k]).error)
  {
    if k > 0 {
      var p := load(slugs[0]).value;
      assert slugs[1..][k - 1] == slugs[k];
      LoadAllFailure(load, slugs[1..], if p.draft then posts else posts + [p], k - 1);
    }
  }

  /** When every post loads, so does the whole list. */
  lemma {:induction false} LoadAllNoFailure(load: string -> Result<Post, Error>, slugs: seq<string>, posts: seq<Post>)
    requires forall j :: 0 <= j < |slugs| ==> load(slugs[j]).Ok?
    ensures LoadAll(load, slugs, posts).Ok?
  {
    if slugs != [] {
      var p := load(slugs[0]).value;
      assert forall j :: 0 <= j < |slugs| - 1 ==> slugs[1..][j] == slugs[j + 1];
      LoadAllNoFailure(load, slugs[1..], if p.draft then posts else posts + [p]);
    }
  }

  // ---------------------------------------------------------------------------
  // The pipeline
  // ---------------------------------------------------------------------------

  /** What loadPosts returns for a walk that produces `entries`. */
  function Ingest(env: Env, disk: Disk, entries: seq<WalkEntry>): Result<seq<Post>, Error>
  {
    match Discover(env, disk, entries, [])
    case Err(e) => Err(e)
    case Ok(slugs) =>
      match LoadAll(Loader(env, disk), slugs, [])
      case Err(e) => Err(e)
      case Ok(posts) =>
        match DupError(posts)
        case Some(e) => Err(e)
        case None => Ok(SortByKey(posts))
  }

  /** loadPosts: the walk function appends slugs, the loading loop appends
      non-draft posts, then the duplicate check and the in-place sort. */
  method LoadPosts(env: Env, disk: Disk, entries: seq<WalkEntry>) returns (r: Result<seq<Post>, Error>)
    ensures r == Ingest(env, disk, entries)
  {
    var slugs: seq<string> := [];
    for i := 0 to |entries|
      invariant Discover(env, disk, entries[i..], slugs) == Discover(env, disk, entries, [])
    {
      assert entries[i..][0] == entries[i] && entries[i..][1..] == entries[i + 1..];
      match entries[i]
      case Failed(e) =>
        return Err(e);
      case File(_) =>
      case Dir(p) =>
        var slug := GoStd.TrimPrefix(p, env.postsDir);
        slug := GoStd.TrimSlashes(GoStd.ToSlash(slug, env.separator));
        if disk.fileExists(env.contentPath(slug)) && disk.fileExists(env.metaPath(slug)) {
          slugs := slugs + [slug];
        }
    }

    var posts: seq<Post> := [];
    for i := 0 to |slugs|
      invariant LoadAll(Loader(env, disk), slugs[i..], posts) == LoadAll(Loader(env, disk), slugs, [])
    {
      assert slugs[i..][0] == slugs[i] && slugs[i..][1..] == slugs[i + 1..];
      var post := LoadPost(env, disk, slugs[i]);
      if post.Err? {
        return Err(post.error);
      }
      if !post.value.draft {
        posts := posts + [post.value];
      }
    }

    var dup := CheckPostsDup(posts);
    if dup.Some? {
      return Err(dup.value);
    }

    var a := new Post[|posts|](k requires 0 <= k < |posts| => posts[k]);
    assert a[..] == posts;
    SortPosts(a);
    return Ok(a[..]);
  }

  // ---------------------------------------------------------------------------
  // What loadPosts promises
  // ---------------------------------------------------------------------------

  /** Sorting keeps slugs distinct. */
  lemma {:induction false} SortKeepsDistinct(s: seq<Post>)
    requires SlugsDistinct(s)
    ensures SlugsDistinct(SortByKey(s))
  {
    if s != [] {
      var init, last := s[..|s| - 1], s[|s| - 1];
      SortKeepsDistinct(init);
      var t := SortByKey(init);
      SortPermutation(init);
      forall y | y in t
        ensures y.slug != last.slug
      {
        assert y in multiset(init);
        var k :| 0 <= k < |init| && init[k] == y;
        assert s[k] == y;
      }
      InsertKeepsDistinct(t, last);
    }
  }

  /** Inserting a post whose slug is new keeps slugs distinct. */
  lemma {:induction false} InsertKeepsDistinct(s: seq<Post>, x: Post)
    requires SlugsDistinct(s)
    requires forall y :: y in s ==> y.slug != x.slug
    ensures SlugsDistinct(Insert(s, x))
  {
    if s != [] && Before(x, s[|s| - 1]) {
      var init, last := s[..|s| - 1], s[|s| - 1];
      assert forall y :: y in init ==> y in s;
      InsertKeepsDistinct(init, x);
      InsertPermutation(init, x);
      forall y | y in init
        ensures y.slug != last.slug
      {
        var k :| 0 <= k < |init| && init[k] == y;
        assert s[k] == y;
      }
      assert last in s;
      forall y | y in Insert(init, x)
        ensures y.slug != last.slug
      {
        assert y in multiset(Insert(init, x));
      }
      AppendKeepsDistinct(Insert(init, x), last);
    } else {
      AppendKeepsDistinct(s, x);
    }
  }

  /** Appending a post whose slug is new keeps slugs distinct. */
  lemma {:induction false} AppendKeepsDistinct(s: seq<Post>, x: Post)
    requires SlugsDistinct(s)
    requires forall y :: y in s ==> y.slug != x.slug
    ensures SlugsDistinct(s + [x])
  {
  }

  /** A successful loadPosts returns a stable sort, by the key, of the loaded
      non-draft posts. */
  lemma {:induction false} IngestOrdered(env: Env, disk: Disk, entries: seq<WalkEntry>)
    requires Ingest(env, disk, entries).Ok?
    ensures Discover(env, disk, entries, []).Ok?
    ensures LoadAll(Loader(env, disk), Discover(env, disk, entries, []).value, []).Ok?
    ensures var out := Ingest(env, disk, entries).value;
      var posts := LoadAll(Loader(env, disk), Discover(env, disk, entries, []).value, []).value;
      && Sorted(out)
      && multiset(out) == multiset(posts)
      && (forall c :: KeyClass(out, c) == KeyClass(posts, c))
  {
    var posts := LoadAll(Loader(env, disk), Discover(env, disk, entries, []).value, []).value;
    SortSorted(posts);
    SortPermutation(posts);
    forall c
      ensures KeyClass(SortByKey(posts), c) == KeyClass(posts, c)
    {
      SortStable(posts, c);
    }
  }

  /** Each loaded post is the well-formed record of one of the slugs. */
  lemma {:induction false} LoadedPostsWellFormed(env: Env, disk: Disk, slugs: seq<string>)
    requires LoadAll(Loader(env, disk), slugs, []).Ok?
    ensures var posts := LoadAll(Loader(env, disk), slugs, []).value;
      forall k :: 0 <= k < |posts| ==> WellFormed(env, posts[k]) && posts[k].slug in slugs
  {
    var posts := LoadAll(Loader(env, disk), slugs, []).value;
    LoadAllPosts(Loader(env, disk), slugs, []);
    forall k | 0 <= k < |posts|
      ensures WellFormed(env, posts[k]) && posts[k].slug in slugs
    {
      var j :| 0 <= j < |slugs| && Loader(env, disk)(slugs[j]) == Ok(posts[k]);
      LoadPostOutcome(env, disk, slugs[j]);
    }
  }

  /** Every post a successful loadPosts returns is well-formed (so not a
      draft), and no two share a slug. */
  lemma {:induction false} IngestWellFormed(env: Env, disk: Disk, entries: seq<WalkEntry>)
    requires Ingest(env, disk, entries).Ok?
    ensures var out := Ingest(env, disk, entries).value;
      && (forall k :: 0 <= k < |out| ==> WellFormed(env, out[k]) && !out[k].draft)
      && SlugsDistinct(out)
  {
    var slugs := Discover(env, disk, entries, []).value;
    var posts := LoadAll(Loader(env, disk), slugs, []).value;
    var out := SortByKey(posts);
    LoadedPostsWellFormed(env, disk, slugs);
    DupErrorNoneIffDistinct(posts);
    SortKeepsDistinct(posts);
    SortPermutation(posts);
    forall k | 0 <= k < |out|
      ensures WellFormed(env, out[k])
    {
      assert out[k] in multiset(posts);
    }
  }

  /** A collected slug belongs to a visited directory holding both files. */
  lemma {:induction false} DiscoveredSlug(env: Env, disk: Disk, entries: seq<WalkEntry>, s: string)
    requires Discover(env, disk, entries, []).Ok? && s in Discover(env, disk, entries, []).value
    ensures s in DirSlugs(env, entries) && IsPostDir(env, disk, s)
  {
    DiscoverSound(env, disk, entries, []);
  }

  /** Every post loadPosts returns comes from a visited directory holding both
      files. */
  lemma {:induction false} IngestSound(env: Env, disk: Disk, entries: seq<WalkEntry>)
    requires Ingest(env, disk, entries).Ok?
    ensures var out := Ingest(env, disk, entries).value;
      forall k :: 0 <= k < |out| ==> out[k].slug in DirSlugs(env, entries) && IsPostDir(env, disk, out[k].slug)
  {
    var slugs := Discover(env, disk, entries, []).value;
    var posts := LoadAll(Loader(env, disk), slugs, []).value;
    var out := SortByKey(posts);
    LoadedPostsWellFormed(env, disk, slugs);
    SortPermutation(posts);
    forall k | 0 <= k < |out|
      ensures out[k].slug in DirSlugs(env, entries) && IsPostDir(env, disk, out[k].slug)
    {
      assert out[k] in multiset(posts);
      DiscoveredSlug(env, disk, entries, out[k].slug);
    }
  }

  /** Every visited directory holding both files yields a post, and its post
      is returned unless it is a draft. */
  lemma {:induction false} IngestComplete(env: Env, disk: Disk, entries: seq<WalkEntry>, s: string)
    requires Ingest(env, disk, entries).Ok?
    requires s in DirSlugs(env, entries) && IsPostDir(env, disk, s)
    ensures PostOutcome(env, disk, s).Ok?
    ensures !PostOutcome(env, disk, s).value.draft ==> PostOutcome(env, disk, s).value in Ingest(env, disk, entries).value
  {
    var slugs := Discover(env, disk, entries, []).value;
    var posts := LoadAll(Loader(env, disk), slugs, []).value;
    DiscoverComplete(env, disk, entries, [], s);
    LoadAllPosts(Loader(env, disk), slugs, []);
    SortPermutation(posts);
    var i :| 0 <= i < |slugs| && slugs[i] == s;
    assert Loader(env, disk)(slugs[i]) == PostOutcome(env, disk, s);
    if !PostOutcome(env, disk, s).value.draft {
      assert PostOutcome(env, disk, s).value in multiset(SortByKey(posts));
    }
  }

  /** The first error of the walk is what loadPosts returns. */
  lemma {:induction false} IngestWalkError(env: Env, disk: Disk, entries: seq<WalkEntry>, k: nat)
    requires k < |entries| && entries[k].Failed?
    requires forall j :: 0 <= j < k ==> !entries[j].Failed?
    ensures Ingest(env, disk, entries) == Err(entries[k].error)
  {
    DiscoverFailure(env, disk, entries, [], k);
  }

  /** Fail fast: the first discovered post that fails to load makes loadPosts
      return that post's error and no posts. */
  lemma {:induction false} IngestLoadError(env: Env, disk: Disk, entries: seq<WalkEntry>, k: nat)
    requires Discover(env, disk, entries, []).Ok?
    requires var slugs := Discover(env, disk, entries, []).value;
      && k < |slugs| && PostOutcome(env, disk, slugs[k]).Err?
      && forall j :: 0 <= j < k ==> PostOutcome(env, disk, slugs[j]).Ok?
    ensures var slugs := Discover(env, disk, entries, []).value;
      Ingest(env, disk, entries) == Err(PostOutcome(env, disk, slugs[k]).error)
  {
    var slugs := Discover(env, disk, entries, []).value;
    assert forall j :: 0 <= j < |slugs| ==> Loader(env, disk)(slugs[j]) == PostOutcome(env, disk, slugs[j]);
    LoadAllFailure(Loader(env, disk), slugs, [], k);
  }

  /** Two loaded posts with the same slug make loadPosts fail with a duplicate
      error naming a slug that two loaded posts share. */
  lemma {:induction false} IngestDuplicate(env: Env, disk: Disk, entries: seq<WalkEntry>, i: nat, j: nat)
    requires Discover(env, disk, entries, []).Ok?
    requires LoadAll(Loader(env, disk), Discover(env, disk, entries, []).value, []).Ok?
    requires var posts := LoadAll(Loader(env, disk), Discover(env, disk, entries, []).value, []).value;
      i < j < |posts| && posts[i].slug == posts[j].slug
    ensures var posts := LoadAll(Loader(env, disk), Discover(env, disk, entries, []).value, []).value;
      var r := Ingest(env, disk, entries);
      && r.Err? && r.error.Duplicate?
      && exists a, b :: 0 <= a < b < |posts| && posts[a].slug == posts[b].slug == r.error.slug
    ensures var posts := LoadAll(Loader(env, disk), Discover(env, disk, entries, []).value, []).value;
      var r := Ingest(env, disk, entries);
      exists a, b :: 0 <= a < b < |posts| && posts[a].slug == posts[b].slug && Text(r.error) == MsgDuplicate + posts[a].slug
  {
    var posts := LoadAll(Loader(env, disk), Discover(env, disk, entries, []).value, []).value;
    DupErrorNoneIffDistinct(posts);
    DupErrorNamesDuplicate(posts);
  }

  /** The converse: with no walk error, every discovered post loading and
      the loaded posts' slugs distinct, loadPosts succeeds. */
  lemma {:induction false} IngestSucceeds(env: Env, disk: Disk, entries: seq<WalkEntry>)
    requires forall j :: 0 <= j < |entries| ==> !entries[j].Failed?
    ensures Discover(env, disk, entries, []).Ok?
    ensures var slugs := Discover(env, disk, entries, []).value;
      (forall k :: 0 <= k < |slugs| ==> PostOutcome(env, disk, slugs[k]).Ok?) ==>
        && LoadAll(Loader(env, disk), slugs, []).Ok?
        && (SlugsDistinct(LoadAll(Loader(env, disk), slugs, []).value) ==> Ingest(env, disk, entries).Ok?)
  {
    DiscoverNoFailure(env, disk, entries, []);
    var slugs := Discover(env, disk, entries, []).value;
    if forall k :: 0 <= k < |slugs| ==> PostOutcome(env, disk, slugs[k]).Ok? {
      assert forall j :: 0 <= j < |slugs| ==> Loader(env, disk)(slugs[j]) == PostOutcome(env, disk, slugs[j]);
      LoadAllNoFailure(Loader(env, disk), slugs, []);
      DupErrorNoneIffDistinct(LoadAll(Loader(env, disk), slugs, []).value);
    }
  }
}
