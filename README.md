# Post ingestion of gitype, modelled in Dafny

gitype is a static blog engine. It reads its content from a data directory, and
this project models the part of `data/` that turns that directory into the
blog's posts:

- **`loadPosts`** walks the posts directory. A directory becomes a slug when it
  holds both a content file and a metadata file. `loadPosts` then loads each
  slug's post, and the first failure aborts the whole pass. Drafts are dropped,
  duplicate slugs are rejected, and the posts are stably sorted: pinned
  ("top") posts first, "last" posts at the end, and the rest newest first.
- **`loadPost`** decodes one post's metadata. A draft is returned untouched.
  Any other post goes through a fixed sequence of checks, defaults and field
  rewrites. The first failing check yields a field error naming that field.
- **`checkPostsDup`**, **`sortPosts`** and **`Outdated.sanitize`**.
- The validators of `data/types.go`: `Link`, `Icon` and `Author` `sanitize`,
  and `loadLinks`, which reports the index of the first bad link in the error's
  field path.

Modules (one per file):

- `Helper` (`helper.dfy`): `Option`, `Result`, the field error and the error
  messages.
- `GoStd` (`gostd.dfy`): the Go library string functions the core uses.
  `strings.TrimPrefix`, `strings.Trim(·, "/")`, `filepath.ToSlash`,
  `strings.ToLower` and `strconv.Itoa` are written out with their properties.
- `Types` (`types.dfy`): `data/types.go`.
- `Posts` (`post.dfy`): the post record, `Outdated.sanitize` and `loadPost`.
- `PostSort` (`post_sort.dfy`): the sort key, the source's comparator, the sort
  as a function, and `sortPosts` as an in-place insertion sort on an array.
- `PostDup` (`post_dup.dfy`): `checkPostsDup` and its nested counting loops.
- `PostIngest` (`post_ingest.dfy`): slug derivation, the walk, the loading
  loop and `loadPosts`.

Pure code is written as functions and imperative code as methods:

- `loadPost` (`Posts.LoadPost`) rebinds its record field by field, returning
  early on each failure.
- `loadLinks`, `checkPostsDup` and `loadPosts` keep their loops.
- `sortPosts` sorts an `array` in place.

Each method is proved equal to a specification function: `PostOutcome`,
`DupError`, `SortByKey` or `Ingest`. Each function's meaning is proved in
lemmas.

What the program takes from outside is passed in as values:

- `Env` holds the posts directory (already passed through
  `filepath.Clean`), the path separator, the metadata and content path
  functions, `vars.PostURL`, `vars.PagePost`, and `time.Parse` with the
  configured RFC 3339 `date-time` format (section 5.6 of RFC 3339).
- `Disk` holds file existence, file reading, and what the YAML decoder makes
  of a metadata file.
- The directory walk is the sequence of calls `filepath.Walk` makes to the
  walk function (`WalkEntry`).

## Model

| member | source | states |
|---|---|---|
| GoStd.TrimPrefix | data/post.go:98 | a leading posts-dir prefix is removed (prefix + result == input); otherwise the path is unchanged |
| GoStd.TrimLeftSlashes | data/post.go:99 | the result is a suffix of the input, only slashes were dropped, and it does not start with '/' |
| GoStd.TrimRightSlashes | data/post.go:99 | the result is a prefix of the input, only slashes were dropped, and it does not end with '/' |
| GoStd.TrimSlashesEnds | data/post.go:99 | the trimmed slug neither starts nor ends with '/' |
| GoStd.TrimSlashesMiddle | data/post.go:99 | the trimmed slug is the slice of the input between a run of leading slashes and a run of trailing slashes |
| GoStd.TrimSlashesIdempotent | data/post.go:99 | trimming an already trimmed slug changes nothing |
| GoStd.ToSlash | data/post.go:99 | same length; every separator becomes '/', every other character is kept |
| GoStd.ToSlashRemovesSeparator | data/post.go:99 | no platform separator other than '/' survives ToSlash |
| GoStd.Lower | data/post.go:203-204 | same length, no upper-case letter left, each character kept or replaced by its lower-case letter |
| GoStd.LowerFixesLowerCase | data/post.go:203-204 | a string without upper-case letters is its own lower-case copy (so lowering is idempotent) |
| GoStd.Itoa | data/types.go:57 | the index is printed as a non-empty run of digits without a leading zero |
| GoStd.ItoaRoundTrip | data/types.go:57 | reading the printed digits back gives the index |
| GoStd.ItoaInjective | data/types.go:57 | different indexes print differently |
| Types.SanitizeIcon | data/types.go:65-71 | nil iff the URL is non-empty; otherwise the "url" field is empty, with no file set |
| Types.SanitizeLink | data/types.go:73-83 | nil iff text and URL are both non-empty; an empty text is reported as "text" before the URL is looked at; an empty URL with a text is reported as "url" |
| Types.SanitizeAuthor | data/types.go:85-91 | nil iff the name is non-empty; otherwise the "name" field is empty |
| Types.FirstInvalidLink | data/types.go:54-60 | the first index whose link fails its check; every earlier link passes; none when all pass |
| Types.IndexedError | data/types.go:56-57 | the error keeps the message, gets the links file, and its field is "[" + index + "]." + the link's field |
| Types.LoadLinks | data/types.go:48-63 | a decode error is passed on; all links valid gives the decoded list unchanged; otherwise the error of the first invalid link, with its index |
| Types.LoadLinksIgnoresRest | data/types.go:54-59 | links after the first bad one are never looked at: any continuation gives the same index |
| Types.IndexedErrorDistinguishesIndexes | data/types.go:57 | the field path identifies the index: two indexes give two different field paths |
| Posts.SanitizeOutdated | data/post.go:243-260 | nil iff type is "created" or "modified", content is non-empty and duration > 0; the checks run in that order; zero and negative durations get different messages on "outdated.duration" |
| Posts.NormalizedOrder | data/post.go:195-201 | an accepted order ends up as "top", "last" or "default"; a non-empty one is kept as it is |
| Posts.LoadPost | data/post.go:134-207 | the step-by-step loader returns exactly the specified outcome (PostOutcome) |
| Posts.LoadPostDraft | data/post.go:136-141 | a metadata decode error is the result; a draft is returned exactly as decoded |
| Posts.LoadPostErrorField | data/post.go:147-201 | the error names the first failing check in the order path, content, created, modified, title, tags, order; the load succeeds iff all seven pass |
| Posts.LoadPostErrorDetails | data/post.go:147-201 | every error is a field error against the metadata file; read and parse errors pass their own message on |
| Posts.LoadPostPublished | data/post.go:143-206 | a loaded post has the slug, the content file's text and both parsed times; permalink = PostURL(slug); HTML title cleared; keywords and template defaulted only when empty; order normalised; lower-case search copies; the other metadata kept |
| Posts.LoadPostOutcome | data/post.go:134-207 | every successful load is a draft or a well-formed post for the requested slug |
| PostSort.Rank | data/post.go:30-34 | pin class 0 exactly for "top", 2 exactly for "last", 1 otherwise |
| PostSort.SourceLessNotAsymmetric | data/post.go:231-239 | the comparator as written says each of two "top" posts, or of two "last" posts, goes before the other |
| PostSort.SourceLessAgreesWithKey | data/post.go:231-239 | outside the top/top and last/last pairs, the comparator as written agrees with the key |
| PostSort.BeforeIsStrictWeakOrder | data/post.go:231-239 | the key order is irreflexive, asymmetric and transitive, and "neither before the other" means equal keys |
| PostSort.InsertPermutation | data/post.go:230-240 | one insertion step adds exactly the inserted post |
| PostSort.SortPermutation | data/post.go:230-240 | the sorted posts are a permutation of the input |
| PostSort.InsertSorted | data/post.go:230-240 | inserting into a sorted list keeps it sorted |
| PostSort.SortSorted | data/post.go:230-240 | no post of the output goes before an earlier one |
| PostSort.InsertStable | data/post.go:231 | an insertion appends the post to its own key class and leaves every other class unchanged |
| PostSort.SortStable | data/post.go:231 | stability: the posts of each key keep their input order |
| PostSort.SortedClasses | data/post.go:233-238 | in sorted output every "top" precedes every other post, every "last" follows every other post, and default posts run newest first |
| PostSort.InsertAt | data/post.go:230-240 | moving a[i] left over the posts it goes before turns a[..i+1] into the insertion of the old a[i] into the old a[..i]; nothing after i moves |
| PostSort.SortPosts | data/post.go:230-240 | the in-place sort leaves the array equal to the stable key sort of its old contents |
| PostDup.Occurrences | data/post.go:211-218 | the count is at most the length, and zero iff no post has the slug |
| PostDup.Count | data/post.go:211-218 | the counting loop returns the number of posts with the slug |
| PostDup.OccurrencesAtMostOne | data/post.go:211-218 | a count of at most one means no two posts carry the slug |
| PostDup.OccurrencesTwin | data/post.go:220-224 | a post's slug is counted more than once iff another post has the same slug |
| PostDup.FirstDuplicateFrom | data/post.go:220-224 | the first post, from a given position on, whose slug is counted more than once; none iff there is no such post |
| PostDup.CheckPostsDup | data/post.go:210-227 | the nested loops return exactly the specified result (DupError) |
| PostDup.DupErrorNoneIffDistinct | data/post.go:210-227 | the check returns no error iff all slugs are distinct |
| PostDup.DupErrorNamesDuplicate | data/post.go:220-224 | the error names a slug that two posts share: that of the first post that has a twin |
| PostIngest.SlugOf | data/post.go:97-99 | a derived slug neither starts nor ends with '/' |
| PostIngest.SlugOfHasNoSeparator | data/post.go:99 | a derived slug contains no platform separator |
| PostIngest.SlugOfChild | data/post.go:97-99 | the directory postsDir + separator + name has slug name (for a name with no separators) |
| PostIngest.SlugOfRoot | data/post.go:97-99 | the posts directory itself has the empty slug |
| PostIngest.DiscoverSound | data/post.go:88-106 | the walk only appends, and each appended slug belongs to a visited directory that has both files |
| PostIngest.DiscoverComplete | data/post.go:101-104 | every visited directory with both files has its slug collected |
| PostIngest.DiscoverFailure | data/post.go:88-91 | the first error met by the walk is the walk's result |
| PostIngest.DiscoverNoFailure | data/post.go:108-110 | a walk that meets no error succeeds |
| PostIngest.LoadAllPosts | data/post.go:113-123 | the loop keeps what it had and adds only non-draft loaded posts of the slugs; every slug loads and each non-draft one is kept |
| PostIngest.LoadAllFailure | data/post.go:114-118 | the first post that fails to load decides the error |
| PostIngest.LoadAllNoFailure | data/post.go:114-123 | when every post loads, the loop succeeds |
| PostIngest.LoadedPostsWellFormed | data/post.go:114-122 | each kept post is well-formed and carries one of the slugs |
| PostIngest.LoadPosts | data/post.go:83-132 | the imperative pipeline returns exactly the specified result (Ingest) |
| PostIngest.SortKeepsDistinct | data/post.go:125-129 | sorting posts with distinct slugs keeps them distinct |
| PostIngest.IngestOrdered | data/post.go:129-131 | a successful result is sorted by the key, is a permutation of the loaded non-draft posts, and keeps each key class in loading order |
| PostIngest.IngestWellFormed | data/post.go:113-131 | every returned post is well-formed and not a draft, and no two share a slug |
| PostIngest.IngestSound | data/post.go:97-122 | every returned post comes from a visited directory that has both files |
| PostIngest.IngestComplete | data/post.go:101-122 | every visited directory with both files loads, and its post is returned unless it is a draft |
| PostIngest.IngestWalkError | data/post.go:108-110 | the first walk error is the result, with no posts |
| PostIngest.IngestLoadError | data/post.go:114-118 | fail fast: the first post that fails to load decides the error, with no posts |
| PostIngest.IngestDuplicate | data/post.go:125-127 | two loaded posts with one slug make the result a duplicate error naming a shared slug, whose text is the fixed duplicate message followed by that slug |
| PostIngest.IngestSucceeds | data/post.go:83-132 | with no walk error, every post loading and distinct slugs, the pipeline succeeds |

## Left out

- `filepath.Walk`, `utils.FileExists`, `ioutil.ReadFile` and `helper.LoadYAMLFile` are file-system and YAML input/output. The walk is given as the sequence of calls it makes to the walk function. The other three are fields of `Disk`. For `loadLinks`, the decoder's result is a parameter.
- `filepath.Clean(path.PostsDir)`: the model takes the already cleaned directory as `Env.postsDir`.
- `time.Parse` with the RFC 3339 layout is the `Env.parseTime` function, and a `time.Time` is an integer instant.
- `vars.PostURL`, `vars.PagePost`, `path.PostMetaPath` and `path.PostContentPath` are fields of `Env`, because their code is not part of this model.
- GoStd.Lower: maps only the ASCII letters A–Z. Go's `strings.ToLower` maps every Unicode upper-case letter.
- GoStd.Itoa: covers only non-negative values, the only ones `loadLinks` passes.
- The resolution of `Post.Tags` is done by a collaborator whose code is not shown, so the tag back-references are not part of the record.
- Types.LoadLinks: the decoded links are a sequence of `Link` values, not `[]*Link`. A null entry in the links file, which decodes to a nil pointer and makes `sanitize` panic, is not modelled.
- Posts are plain values, not `*Post` pointers. Each post is a fresh record owned by the slice, so no aliasing is lost.
- `Outdated.Duration` is an unbounded integer. Its 64-bit range is not modelled.
- FieldError's `Error()` text is not modelled (`helper` is not part of this model). Only the messages the validators put in are.
- PostSort.SortPosts: orders "top" posts among themselves, and "last" posts among themselves, by descending `created`, then input order. The comparator as written gives no consistent order inside those two classes (see Findings).
- PostSort.SortPosts: is an insertion sort, not Go's `sort.SliceStable` (insertion sort plus in-place merging). A stable sort by a strict weak order has only one possible result, so the output is the same, but the intermediate states differ.
- Go's `sort.SliceStable` behaviour under the inconsistent comparator is not modelled.
- Parallel loading and cancellation are not modelled. The source has neither.

## Findings

| source | as written | input that shows it | evidently intended | confidence | as-written member | corrected member |
|---|---|---|---|---|---|---|
| data/post.go:231-239 | `less(i, j)` returns true when post i is "top" or post j is "last", whatever the other post is | two posts both with order "top" (or both "last"): `less` is true in both directions, so it is not a strict weak ordering and `sort.SliceStable`'s result for them is unspecified | a strict ordering: "top" before "default" before "last", and inside a class by descending `created`, ties kept in input order | not executed | PostSort.SourceLessNotAsymmetric | PostSort.BeforeIsStrictWeakOrder |
