/** One post of data/post.go: its record, the Outdated policy and its
    validator, and loadPost, which turns a post's metadata and content files
    into a validated record or the field error of the first check it fails. */
module Posts {
  import opened Helper
  import opened Types
  import GoStd

  /** Outdated.Type values. */
  const OutdatedTypeCreated := "created"
  const OutdatedTypeModified := "modified"

  /** Post.Order values. */
  const OrderTop := "top"
  const OrderLast := "last"
  const OrderDefault := "default"

  /** A parsed time.Time, as an instant on an ordered scale. */
  type Time = int

  /** Outdated: the staleness notice policy. The duration is a time.Duration
      (a count of nanoseconds). */
  datatype Outdated = Outdated(kind: string, duration: int, content: string)

  /** Post. While the metadata is decoded, `htmlTitle` carries the raw
      "modified" text and `permalink` the raw "created" text; loadPost parses
      both and then overwrites them. The tag back-references are not part of
      this record (they are resolved by a collaborator). */
  datatype Post = Post(
    slug: string,
    title: string,
    htmlTitle: string,
    created: Time,
    modified: Time,
    summary: string,
    content: string,
    tagsString: string,
    permalink: string,
    outdated: string,
    order: string,
    draft: bool,
    author: Option<Author>,
    license: Option<Link>,
    template: string,
    keywords: string,
    searchTitle: string,
    searchContent: string)

  /** What the post pipeline takes from outside: the path layout, the posts
      URL, the default post template and the time parser for the configured
      date format (RFC 3339 date-time). A parse failure carries its message. */
  datatype Env = Env(
    postsDir: string,                           // filepath.Clean(path.PostsDir)
    separator: char,                            // filepath.Separator
    metaPath: string -> string,                 // path.PostMetaPath
    contentPath: string -> string,              // path.PostContentPath
    postURL: string -> string,                  // vars.PostURL
    pagePost: string,                           // vars.PagePost
    parseTime: string -> Result<Time, string>)  // time.Parse(vars.DateFormat, ·)

  /** The file system as the pipeline sees it: which files exist, what reading
      a file gives (its text or the read error's message) and what the YAML
      decoder makes of a metadata file. */
  datatype Disk = Disk(
    fileExists: string -> bool,                   // utils.FileExists
    readFile: string -> Result<string, string>, // ioutil.ReadFile
    loadMeta: string -> Result<Post, Error>)    // helper.LoadYAMLFile into a fresh Post

  // ---------------------------------------------------------------------------
  // Outdated.sanitize
  // ---------------------------------------------------------------------------

  /** Outdated.sanitize: a known comparison type, a non-empty notice and a
      strictly positive duration, checked in that order. */
  function SanitizeOutdated(o: Outdated): (r: Option<FieldError>)
    ensures r.None? <==>
      (o.kind == OutdatedTypeCreated || o.kind == OutdatedTypeModified) && o.content != "" && o.duration > 0
    ensures r.Some? ==> r.value.file == ""
    ensures r.Some? ==> (r.value.field == "outdated.type" <==>
      o.kind != OutdatedTypeCreated && o.kind != OutdatedTypeModified)
    ensures r.Some? ==> (r.value.field == "outdated.content" <==>
      (o.kind == OutdatedTypeCreated || o.kind == OutdatedTypeModified) && o.content == "")
    ensures r.Some? ==> (r.value.field == "outdated.duration" <==>
      (o.kind == OutdatedTypeCreated || o.kind == OutdatedTypeModified) && o.content != "" && o.duration <= 0)
    ensures r.Some? && r.value.field == "outdated.duration" ==>
      (r.value.message == MsgEmpty <==> o.duration == 0) && (r.value.message == MsgNegative <==> o.duration < 0)
  {
    if o.kind != OutdatedTypeCreated && o.kind != OutdatedTypeModified then
      Some(FieldError("", "outdated.type", MsgInvalid))
    else if |o.content| == 0 then
      Some(FieldError("", "outdated.content", MsgEmpty))
    else if o.duration == 0 then
      Some(FieldError("", "outdated.duration", MsgEmpty))
    else if o.duration < 0 then
      Some(FieldError("", "outdated.duration", MsgNegative))
    else
      None
  }

  // ---------------------------------------------------------------------------
  // The checks of loadPost, as a specification
  // ---------------------------------------------------------------------------

  /** An order value loadPost accepts: empty (meaning default) or one of the three. */
  predicate AcceptedOrder(order: string) {
    order == "" || order == OrderTop || order == OrderLast || order == OrderDefault
  }

  /** Order normalisation: empty becomes "default"; any other accepted value stays. */
  function NormalizedOrder(order: string): (r: string)
    requires AcceptedOrder(order)
    ensures r == OrderTop || r == OrderLast || r == OrderDefault
    ensures order == "" ==> r == OrderDefault
    ensures order != "" ==> r == order
  {
    if order == "" then OrderDefault else order
  }

  /** One validation step: whether it passes, and the field and message it
      reports when it does not. */
  datatype Check = Check(ok: bool, field: string, message: string)

  /** The checks of a non-draft post with metadata `m` and content read result
      `read`, in the order loadPost runs them. */
  function Checks(env: Env, m: Post, read: Result<string, string>): (cs: seq<Check>)
    ensures |cs| == 7
  {
    var created := env.parseTime(m.permalink);
    var modified := env.parseTime(m.htmlTitle);
    [ Check(read.Ok?, "path", if read.Err? then read.error else ""),
      Check(read.Ok? && read.value != "", "content", MsgEmpty),
      Check(created.Ok?, "created", if created.Err? then created.error else ""),
      Check(modified.Ok?, "modified", if modified.Err? then modified.error else ""),
      Check(m.title != "", "title", MsgEmpty),
      Check(m.tagsString != "", "tags", MsgEmpty),
      Check(AcceptedOrder(m.order), "order", MsgInvalid) ]
  }

  /** The position of the first failing check, if any. */
  function FirstFailure(cs: seq<Check>): (r: Option<nat>)
    ensures r.None? <==> forall k :: 0 <= k < |cs| ==> cs[k].ok
    ensures r.Some? ==> r.value < |cs| && !cs[r.value].ok
    ensures r.Some? ==> forall k :: 0 <= k < r.value ==> cs[k].ok
  {
    if cs == [] then None
    else if !cs[0].ok then Some(0)
    else match FirstFailure(cs[1..])
      case None => None
      case Some(i) => Some(i + 1)
  }

  /** A failing check with only passing checks before it is the first failure. */
  lemma FirstFailureAt(cs: seq<Check>, i: nat)
    requires i < |cs| && !cs[i].ok
    requires forall k :: 0 <= k < i ==> cs[k].ok
    ensures FirstFailure(cs) == Some(i)
  {
  }

  /** The record a non-draft post becomes once every check passed. */
  function Published(env: Env, slug: string, m: Post, content: string, created: Time, modified: Time): Post
    requires AcceptedOrder(m.order)
  {
    m.(slug := slug,
       content := content,
       created := created,
       permalink := env.postURL(slug),
       modified := modified,
       htmlTitle := "",
       keywords := if m.keywords == "" then m.tagsString else m.keywords,
       template := if m.template == "" then env.pagePost else m.template,
       order := NormalizedOrder(m.order),
       searchContent := GoStd.Lower(content),
       searchTitle := GoStd.Lower(m.title))
  }

  /** What the checks make of a non-draft post with metadata `m`: the field
      error of the first failing check, filed against `metaPath`, or the
      published record. */
  function Validated(env: Env, slug: string, metaPath: string, m: Post, read: Result<string, string>): Result<Post, Error> {
    var cs := Checks(env, m, read);
    match FirstFailure(cs)
    case Some(i) => Err(Field(FieldError(metaPath, cs[i].field, cs[i].message)))
    case None =>
      assert cs[0].ok && cs[2].ok && cs[3].ok && cs[6].ok;
      Ok(Published(env, slug, m, read.value, env.parseTime(m.permalink).value, env.parseTime(m.htmlTitle).value))
  }

  /** What loadPost yields for `slug`: the decoder's error, a draft exactly as
      decoded, or what the checks make of the decoded metadata. */
  function PostOutcome(env: Env, disk: Disk, slug: string): Result<Post, Error> {
    var metaPath := env.metaPath(slug);
    match disk.loadMeta(metaPath)
    case Err(e) => Err(e)
    case Ok(m) =>
      if m.draft then Ok(m)
      else Validated(env, slug, metaPath, m, disk.readFile(env.contentPath(slug)))
  }

  // ---------------------------------------------------------------------------
  // loadPost
  // ---------------------------------------------------------------------------

  /** loadPost: decodes the metadata, returns a draft untouched, and otherwise
      fills in and validates the record step by step, stopping at the first
      failure. */
  method LoadPost(env: Env, disk: Disk, slug: string) returns (r: Result<Post, Error>)
    ensures r == PostOutcome(env, disk, slug)
  {
    var metaPath := env.metaPath(slug);
    var decoded := disk.loadMeta(metaPath);
    if decoded.Err? {
      return Err(decoded.error);
    }
    var post := decoded.value;
    if post.draft {
      return Ok(post);
    }
    ghost var m := post;

    post := post.(slug := slug);

    var data := disk.readFile(env.contentPath(slug));
    ghost var cs := Checks(env, m, data);
    if data.Err? {
      FirstFailureAt(cs, 0);
      return Err(Field(FieldError(metaPath, "path", data.error)));
    }
    if |data.value| == 0 {
      FirstFailureAt(cs, 1);
      return Err(Field(FieldError(metaPath, "content", MsgEmpty)));
    }
    post := post.(content := data.value);

    var created := env.parseTime(post.permalink);
    if created.Err? {
      FirstFailureAt(cs, 2);
      return Err(Field(FieldError(metaPath, "created", created.error)));
    }
    post := post.(created := created.value);

    post := post.(permalink := env.postURL(post.slug));

    var modified := env.parseTime(post.htmlTitle);
    if modified.Err? {
      FirstFailureAt(cs, 3);
      return Err(Field(FieldError(metaPath, "modified", modified.error)));
    }
    post := post.(modified := modified.value);
    post := post.(htmlTitle := "");

    if |post.title| == 0 {
      FirstFailureAt(cs, 4);
      return Err(Field(FieldError(metaPath, "title", MsgEmpty)));
    }

    if |post.tagsString| == 0 {
      FirstFailureAt(cs, 5);
      return Err(Field(FieldError(metaPath, "tags", MsgEmpty)));
    }

    if |post.keywords| == 0 {
      post := post.(keywords := post.tagsString);
    }

    if |post.template| == 0 {
      post := post.(template := env.pagePost);
    }

    if |post.order| == 0 {
      post := post.(order := OrderDefault);
    } else if post.order != OrderDefault && post.order != OrderLast && post.order != OrderTop {
      FirstFailureAt(cs, 6);
      return Err(Field(FieldError(metaPath, "order", MsgInvalid)));
    }

    post := post.(searchContent := GoStd.Lower(post.content));
    post := post.(searchTitle := GoStd.Lower(post.title));

    assert forall k :: 0 <= k < 7 ==> cs[k].ok;
    assert post == Published(env, slug, m, data.value, created.value, modified.value);
    return Ok(post);
  }

  // ---------------------------------------------------------------------------
  // What loadPost promises
  // ---------------------------------------------------------------------------

  /** The outcome is a field error on `field`. */
  predicate FailsOn(r: Result<Post, Error>, field: string) {
    r.Err? && r.error.Field? && r.error.fe.field == field
  }

  /** A metadata file that does not decode is the error; a draft comes back
      exactly as decoded: no content load, no parsing, no validation, no field
      changed. */
  lemma LoadPostDraft(env: Env, disk: Disk, slug: string)
    ensures var meta := disk.loadMeta(env.metaPath(slug));
      && (meta.Err? ==> PostOutcome(env, disk, slug) == Err(meta.error))
      && (meta.Ok? && meta.value.draft ==> PostOutcome(env, disk, slug) == Ok(meta.value))
  {
  }

  /** The first failing check decides the error, in the order
      path, content, created, modified, title, tags, order. */
  lemma {:induction false} LoadPostErrorField(env: Env, disk: Disk, slug: string, m: Post)
    requires disk.loadMeta(env.metaPath(slug)) == Ok(m) && !m.draft
    ensures var r := PostOutcome(env, disk, slug);
      var read := disk.readFile(env.contentPath(slug));
      var created := env.parseTime(m.permalink);
      var modified := env.parseTime(m.htmlTitle);
      && (FailsOn(r, "path") <==> read.Err?)
      && (FailsOn(r, "content") <==> read.Ok? && read.value == "")
      && (FailsOn(r, "created") <==> read.Ok? && read.value != "" && created.Err?)
      && (FailsOn(r, "modified") <==> read.Ok? && read.value != "" && created.Ok? && modified.Err?)
      && (FailsOn(r, "title") <==>
            read.Ok? && read.value != "" && created.Ok? && modified.Ok? && m.title == "")
      && (FailsOn(r, "tags") <==>
            read.Ok? && read.value != "" && created.Ok? && modified.Ok? && m.title != "" && m.tagsString == "")
      && (FailsOn(r, "order") <==>
            read.Ok? && read.value != "" && created.Ok? && modified.Ok? && m.title != "" && m.tagsString != ""
            && !AcceptedOrder(m.order))
      && (r.Ok? <==>
            read.Ok? && read.value != "" && created.Ok? && modified.Ok? && m.title != "" && m.tagsString != ""
            && AcceptedOrder(m.order))
  {
    var cs := Checks(env, m, disk.readFile(env.contentPath(slug)));
    match FirstFailure(cs)
    case None =>
      assert cs[0].ok && cs[1].ok && cs[2].ok && cs[3].ok && cs[4].ok && cs[5].ok && cs[6].ok;
    case Some(i) =>
      assert !cs[i].ok && i < 7;
      if i == 0 {
      } else if i == 1 {
        assert cs[0].ok;
      } else if i == 2 {
        assert cs[0].ok && cs[1].ok;
      } else if i == 3 {
        assert cs[0].ok && cs[1].ok && cs[2].ok;
      } else if i == 4 {
        assert cs[0].ok && cs[1].ok && cs[2].ok && cs[3].ok;
      } else if i == 5 {
        assert cs[0].ok && cs[1].ok && cs[2].ok && cs[3].ok && cs[4].ok;
      } else {
        assert cs[0].ok && cs[1].ok && cs[2].ok && cs[3].ok && cs[4].ok && cs[5].ok;
      }
  }

  /** Every error of a non-draft post is a field error filed against its
      metadata file; a failed read or parse passes its own message on. */
  lemma {:induction false} LoadPostErrorDetails(env: Env, disk: Disk, slug: string, m: Post)
    requires disk.loadMeta(env.metaPath(slug)) == Ok(m) && !m.draft
    ensures var r := PostOutcome(env, disk, slug);
      var read := disk.readFile(env.contentPath(slug));
      var created := env.parseTime(m.permalink);
      var modified := env.parseTime(m.htmlTitle);
      && (r.Err? ==> r.error.Field? && r.error.fe.file == env.metaPath(slug))
      && (FailsOn(r, "path") ==> read.Err? && r.error.fe.message == read.error)
      && (FailsOn(r, "created") ==> created.Err? && r.error.fe.message == created.error)
      && (FailsOn(r, "modified") ==> modified.Err? && r.error.fe.message == modified.error)
  {
  }

  /** The invariants of a record that passed loadPost's validation. */
  predicate WellFormed(env: Env, p: Post) {
    && !p.draft
    && p.content != "" && p.title != "" && p.tagsString != "" && p.keywords != ""
    && (p.order == OrderTop || p.order == OrderLast || p.order == OrderDefault)
    && p.htmlTitle == ""
    && p.permalink == env.postURL(p.slug)
    && p.searchTitle == GoStd.Lower(p.title)
    && p.searchContent == GoStd.Lower(p.content)
  }

  /** A post that passes loadPost carries its slug, the content file's text,
      both parsed timestamps, the computed permalink, a cleared HTML title,
      keywords and template defaulted only when empty, a normalised order and
      lower-case search copies; the rest of its metadata is kept. */
  lemma {:induction false} LoadPostPublished(env: Env, disk: Disk, slug: string, m: Post)
    requires disk.loadMeta(env.metaPath(slug)) == Ok(m) && !m.draft
    requires PostOutcome(env, disk, slug).Ok?
    ensures var p := PostOutcome(env, disk, slug).value;
      var read := disk.readFile(env.contentPath(slug));
      && WellFormed(env, p)
      && p.slug == slug
      && read.Ok? && p.content == read.value
      && env.parseTime(m.permalink) == Ok(p.created)
      && env.parseTime(m.htmlTitle) == Ok(p.modified)
      && p.keywords == (if m.keywords == "" then m.tagsString else m.keywords)
      && p.template == (if m.template == "" then env.pagePost else m.template)
      && (m.order == "" ==> p.order == OrderDefault)
      && (m.order != "" ==> p.order == m.order)
      && p.title == m.title && p.summary == m.summary && p.tagsString == m.tagsString
      && p.author == m.author && p.license == m.license && p.outdated == m.outdated
  {
    LoadPostErrorField(env, disk, slug, m);
  }

  /** Every successful outcome is either a draft or a well-formed record for
      the requested slug. */
  lemma {:induction false} LoadPostOutcome(env: Env, disk: Disk, slug: string)
    requires PostOutcome(env, disk, slug).Ok?
    ensures var p := PostOutcome(env, disk, slug).value;
      p.draft || (WellFormed(env, p) && p.slug == slug)
  {
    var m := disk.loadMeta(env.metaPath(slug)).value;
    if !m.draft {
      LoadPostPublished(env, disk, slug, m);
    }
  }
}
