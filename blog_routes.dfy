/** The blog REST routes over an in-memory post collection: the admin-key gate,
    the published listing (all posts or one tag), the tag listing, lookup by
    slug, creation with its validators and slug-conflict check, deletion by id
    and clearing. */
module BlogRoutes {
  import opened Text
  import opened Query
  import opened BlogPostModel

  // ---------------------------------------------------------------- admin gate

  /** `authenticateAdmin`: the `x-admin-key` header must be strictly equal to
      `ADMIN_KEY`, both possibly absent. */
  predicate BlogAdmits(header: Option<string>, adminKey: Option<string>) {
    header == adminKey
  }

  /** With `ADMIN_KEY` unset, a request without the header is let through. */
  lemma {:induction false} UnsetKeyAdmitsMissingHeader()
    ensures BlogAdmits(None, None)
  {
  }

  /** Once `ADMIN_KEY` is set, only a header carrying exactly that value passes. */
  lemma {:induction false} SetKeyNeedsExactHeader(header: Option<string>, key: string)
    ensures BlogAdmits(header, Some(key)) <==> header.Some? && header.value == key
  {
  }

  // ---------------------------------------------------------------- replies

  /** The request-body fields the create route validates, in declaration order. */
  datatype Field = TitleField | ContentField | ExcerptField | SlugField | AuthorField | TagsField

  /** A post as listed: every field but `content`. */
  datatype Summary = Summary(
    id: nat,
    title: string,
    excerpt: string,
    slug: string,
    author: string,
    tags: seq<string>,
    publishedAt: int,
    updatedAt: int,
    isPublished: bool,
    featuredImage: Option<string>,
    readTime: int)

  datatype Reply =
    | Unauthorized
    | Invalid(fields: seq<Field>)
    | Conflict
    | NotFound
    | ServerError
    | Created(post: Post)
    | Deleted(title: string)
    | Cleared(count: nat)
    | Listing(posts: seq<Summary>, pagination: Pagination)
    | Tags(tags: seq<string>)
    | Found(post: Post)

  function Status(r: Reply): (code: int)
    ensures code == 200 <==> r.Deleted? || r.Cleared? || r.Listing? || r.Tags? || r.Found?
  {
    match r
    case Unauthorized => 401
    case Invalid(_) => 400
    case Conflict => 409
    case NotFound => 404
    case ServerError => 500
    case Created(_) => 201
    case _ => 200
  }

  // ---------------------------------------------------------------- listing

  /** `.select('-content')`. */
  function Summarize(p: Post): (s: Summary)
    ensures s.id == p.id && s.title == p.title && s.slug == p.slug && s.tags == p.tags
    ensures s.publishedAt == p.publishedAt && s.isPublished == p.isPublished
  {
    Summary(p.id, p.title, p.excerpt, p.slug, p.author, p.tags, p.publishedAt,
            p.updatedAt, p.isPublished, p.featuredImage, p.readTime)
  }

  function Summaries(ps: seq<Post>): (r: seq<Summary>)
    ensures |r| == |ps|
    ensures forall i :: 0 <= i < |ps| ==> r[i] == Summarize(ps[i])
  {
    seq(|ps|, i requires 0 <= i < |ps| => Summarize(ps[i]))
  }

  /** The filter `{ isPublished: true }`, with `tags: { $in: [tag] }` added on
      the tag route. Mongoose casts the condition through the `tags` path's
      setters, so the post must carry the trimmed, lower-cased tag. */
  predicate Listed(p: Post, tag: Option<string>) {
    p.isPublished && (tag.None? || NormalizeTag(tag.value) in p.tags)
  }

  function Matching(posts: seq<Post>, tag: Option<string>): (r: seq<Post>)
    ensures |r| <= |posts|
    ensures forall i :: 0 <= i < |r| ==> r[i] in posts && Listed(r[i], tag)
    ensures forall i :: 0 <= i < |posts| && Listed(posts[i], tag) ==> posts[i] in r
  {
    Where(posts, (p: Post) => Listed(p, tag))
  }

  function PublishedAt(p: Post): int { p.publishedAt }

  /** GET `/` (`tag` absent) and GET `/tag/:tag`: page and limit default to 1 and
      10, the matching posts newest first from position `(page - 1) * limit`, at
      most `|limit|` of them, plus the page metadata over all matching posts. A
      negative skip is refused by the store and answered with 500. */
  function ListPosts(posts: seq<Post>, tag: Option<string>, page: Option<int>, limit: Option<int>): (r: Reply)
    ensures var p, l := ParsedOr(page, 1), ParsedOr(limit, 10);
      && (r.ServerError? <==> SkipOf(p, l) < 0)
      && (r.Listing? <==> SkipOf(p, l) >= 0)
      && (r.Listing? ==> r.pagination == Paginate(p, l, |Matching(posts, tag)|))
  {
    var p, l := ParsedOr(page, 1), ParsedOr(limit, 10);
    var skip := SkipOf(p, l);
    if skip < 0 then ServerError
    else
      var ordered := SortDesc(Matching(posts, tag), PublishedAt);
      Listing(Summaries(Window(ordered, skip, l)), Paginate(p, l, |Matching(posts, tag)|))
  }

  /** The listed page holds `min(|limit|, count - skip)` posts, none past the end. */
  lemma {:induction false} ListPostsSize(posts: seq<Post>, tag: Option<string>, page: Option<int>, limit: Option<int>)
    requires ListPosts(posts, tag, page, limit).Listing?
    ensures var skip, l, n := SkipOf(ParsedOr(page, 1), ParsedOr(limit, 10)), ParsedOr(limit, 10), |Matching(posts, tag)|;
      |ListPosts(posts, tag, page, limit).posts| == (if skip <= n then Min(Abs(l), n - skip) else 0)
  {
    SortDescMembers(Matching(posts, tag), PublishedAt);
  }

  /** Every listed entry is the summary of a stored post the route's filter admits. */
  lemma {:induction false} ListPostsFromStore(posts: seq<Post>, tag: Option<string>, page: Option<int>, limit: Option<int>)
    requires ListPosts(posts, tag, page, limit).Listing?
    ensures var r := ListPosts(posts, tag, page, limit).posts;
      forall i :: 0 <= i < |r| ==> exists q :: q in posts && Listed(q, tag) && r[i] == Summarize(q)
  {
    var skip, l := SkipOf(ParsedOr(page, 1), ParsedOr(limit, 10)), ParsedOr(limit, 10);
    var m := Matching(posts, tag);
    var ordered := SortDesc(m, PublishedAt);
    var w := Window(ordered, skip, l);
    SortDescMembers(m, PublishedAt);
    forall i | 0 <= i < |w| ensures w[i] in posts && Listed(w[i], tag) {
      assert w[i] == ordered[skip + i];
      var k :| 0 <= k < |m| && m[k] == w[i];
    }
  }

  /** The listed entries come newest first. */
  lemma {:induction false} ListPostsNewestFirst(posts: seq<Post>, tag: Option<string>, page: Option<int>, limit: Option<int>)
    requires ListPosts(posts, tag, page, limit).Listing?
    ensures var r := ListPosts(posts, tag, page, limit).posts;
      forall i, j :: 0 <= i < j < |r| ==> r[i].publishedAt >= r[j].publishedAt
  {
    var skip, l := SkipOf(ParsedOr(page, 1), ParsedOr(limit, 10)), ParsedOr(limit, 10);
    SortedWindow(Matching(posts, tag), PublishedAt, skip, l);
  }

  /** Eight published posts read with page 2 and limit 6 give the last two and
      the metadata `{ current: 2, total: 2, hasNext: false, hasPrev: true }`. */
  lemma {:induction false} SecondPageOfEight(posts: seq<Post>)
    requires |Matching(posts, None)| == 8
    ensures var r := ListPosts(posts, None, Some(2), Some(6));
      && r.Listing? && |r.posts| == 2
      && r.pagination == Pagination(2, 2, false, true)
  {
    var t := CeilDiv(8, 6);
    assert t * 6 >= 8 && (t - 1) * 6 < 8;
    assert t == 2;
    ListPostsSize(posts, None, Some(2), Some(6));
  }

  /** The tag route ignores case and padding: a tag and its lower-cased
      form list the same posts, and so do a tag and its trimmed form. */
  lemma {:induction false} TagCaseIgnored(posts: seq<Post>, tag: string)
    ensures Matching(posts, Some(tag)) == Matching(posts, Some(Lower(tag)))
    ensures Matching(posts, Some(tag)) == Matching(posts, Some(Trim(tag)))
  {
    LowerIdempotent(Trim(tag));
    TrimLowerCommute(tag);
    TrimIdempotent(tag);
    TrimIdempotent(Lower(tag));
    assert NormalizeTag(Lower(tag)) == NormalizeTag(tag);
    assert NormalizeTag(Trim(tag)) == NormalizeTag(tag);
    WhereSame(posts, (p: Post) => Listed(p, Some(tag)), (p: Post) => Listed(p, Some(Lower(tag))));
    WhereSame(posts, (p: Post) => Listed(p, Some(tag)), (p: Post) => Listed(p, Some(Trim(tag))));
  }

  // ---------------------------------------------------------------- tags

  /** The tags of the published posts, post by post, with repetitions. */
  function PublishedTags(posts: seq<Post>): seq<string> {
    if posts == [] then []
    else if posts[0].isPublished then posts[0].tags + PublishedTags(posts[1..])
    else PublishedTags(posts[1..])
  }

  lemma {:induction false} PublishedTagsIff(posts: seq<Post>, t: string)
    ensures t in PublishedTags(posts) <==> exists q :: q in posts && q.isPublished && t in q.tags
  {
    if posts != [] {
      PublishedTagsIff(posts[1..], t);
      if exists q :: q in posts && q.isPublished && t in q.tags {
        var q :| q in posts && q.isPublished && t in q.tags;
        if q != posts[0] { assert q in posts[1..]; }
      }
      if exists q :: q in posts[1..] && q.isPublished && t in q.tags {
        var q :| q in posts[1..] && q.isPublished && t in q.tags;
        assert q in posts;
      }
    }
  }

  /** GET `/tags/all`: `distinct('tags', { isPublished: true })` then `sort()`. */
  function AllTags(posts: seq<Post>): (r: Reply)
    ensures r.Tags?
  {
    Tags(DistinctSorted(PublishedTags(posts)))
  }

  /** The tag listing holds each tag of a published post exactly once, in
      ascending order, and nothing else. */
  lemma {:induction false} AllTagsContents(posts: seq<Post>)
    ensures var r := AllTags(posts).tags;
      && StrictlySorted(r)
      && (forall i, j :: 0 <= i < j < |r| ==> r[i] != r[j])
      && (forall t :: t in r <==> exists q :: q in posts && q.isPublished && t in q.tags)
  {
    var r := AllTags(posts).tags;
    StrictlySortedDistinct(r);
    forall t ensures t in r <==> exists q :: q in posts && q.isPublished && t in q.tags {
      PublishedTagsIff(posts, t);
    }
  }

  // ---------------------------------------------------------------- by slug

  /** A `slug` condition as Mongoose casts it through the path's `trim`
      and `lowercase` setters. */
  function SlugCondition(slug: string): string {
    Lower(Trim(slug))
  }

  /** GET `/:slug`: the published post whose slug is the cast parameter, else 404. */
  function GetBySlug(posts: seq<Post>, slug: string): (r: Reply)
    ensures r.Found? || r.NotFound?
    ensures r.Found? ==> r.post in posts && r.post.slug == SlugCondition(slug) && r.post.isPublished
    ensures r.NotFound? <==> forall q :: q in posts ==> !(q.slug == SlugCondition(slug) && q.isPublished)
  {
    var m := Where(posts, (q: Post) => q.slug == SlugCondition(slug) && q.isPublished);
    if m == [] then NotFound else Found(m[0])
  }

  /** The slug route ignores case and padding: a parameter, its lower-cased
      form and its trimmed form find the same post. */
  lemma {:induction false} SlugCaseIgnored(posts: seq<Post>, slug: string)
    ensures GetBySlug(posts, slug) == GetBySlug(posts, Lower(slug))
    ensures GetBySlug(posts, slug) == GetBySlug(posts, Trim(slug))
  {
    LowerIdempotent(Trim(slug));
    TrimLowerCommute(slug);
    TrimIdempotent(slug);
    TrimIdempotent(Lower(slug));
    assert SlugCondition(Lower(slug)) == SlugCondition(slug);
    assert SlugCondition(Trim(slug)) == SlugCondition(slug);
    WhereSame(posts, (q: Post) => q.slug == SlugCondition(slug) && q.isPublished,
              (q: Post) => q.slug == SlugCondition(Lower(slug)) && q.isPublished);
    WhereSame(posts, (q: Post) => q.slug == SlugCondition(slug) && q.isPublished,
              (q: Post) => q.slug == SlugCondition(Trim(slug)) && q.isPublished);
  }

  // ---------------------------------------------------------------- create

  /** A create request's body; `None` is an absent field, and `tags` is `None`
      when the value is not an array. */
  datatype CreateRequest = CreateRequest(
    title: Option<string>,
    content: Option<string>,
    excerpt: Option<string>,
    slug: Option<string>,
    author: Option<string>,
    tags: Option<seq<string>>,
    isPublished: Option<bool>)

  /** The value a field's `trim()` sanitiser leaves; an absent field reads as "". */
  function Trimmed(o: Option<string>): string {
    if o.Some? then Trim(o.value) else ""
  }

  const RouteTitleMax := 200
  const RouteExcerptMax := 500
  const RouteSlugMax := 100
  const RouteAuthorMax := 100

  predicate InRange(s: string, lo: nat, hi: nat) { lo <= |s| <= hi }

  /** The validator of one field of the create route, run on the trimmed
      value: title 1..200, content at least 1, excerpt (when present) at most
      500, slug and author 1..100, and tags an array. */
  predicate FieldOk(req: CreateRequest, f: Field) {
    match f
    case TitleField => InRange(Trimmed(req.title), 1, RouteTitleMax)
    case ContentField => |Trimmed(req.content)| >= 1
    case ExcerptField => req.excerpt.None? || |Trim(req.excerpt.value)| <= RouteExcerptMax
    case SlugField => InRange(Trimmed(req.slug), 1, RouteSlugMax)
    case AuthorField => InRange(Trimmed(req.author), 1, RouteAuthorMax)
    case TagsField => req.tags.Some?
  }

  const FieldOrder: seq<Field> := [TitleField, ContentField, ExcerptField, SlugField, AuthorField, TagsField]

  lemma {:induction false} FieldOrderComplete()
    ensures forall f :: f in FieldOrder
  {
    forall f ensures f in FieldOrder {
      match f
      case TitleField => assert FieldOrder[0] == f;
      case ContentField => assert FieldOrder[1] == f;
      case ExcerptField => assert FieldOrder[2] == f;
      case SlugField => assert FieldOrder[3] == f;
      case AuthorField => assert FieldOrder[4] == f;
      case TagsField => assert FieldOrder[5] == f;
    }
  }

  lemma {:induction false} FilterIff(req: CreateRequest, r: seq<Field>)
    requires forall f :: f in FieldOrder
    requires r == Where(FieldOrder, (f: Field) => !FieldOk(req, f))
    ensures forall f :: f in r <==> !FieldOk(req, f)
  {
    forall f ensures f in r <==> !FieldOk(req, f) {
      WhereIn(FieldOrder, (f: Field) => !FieldOk(req, f), f);
    }
  }

  /** `validationResult(req)`: the fields whose validator fails, in declaration order. */
  function RouteErrors(req: CreateRequest): (r: seq<Field>)
    ensures forall f :: f in r <==> !FieldOk(req, f)
    ensures r == [] <==> forall f :: FieldOk(req, f)
  {
    var r := Where(FieldOrder, (f: Field) => !FieldOk(req, f));
    FieldOrderComplete();
    FilterIff(req, r);
    assert r != [] ==> r[0] in r;
    r
  }

  /** `content.substring(0, 200) + '...'`. */
  function DefaultExcerpt(content: string): (r: string)
    ensures |r| == Min(|content|, 200) + 3
    ensures r[..|r| - 3] == content[..|r| - 3] && r[|r| - 3..] == "..."
  {
    Take(content, 200) + "..."
  }

  /** The value an optional field's `trim()` sanitiser leaves in the body:
      an absent field stays absent. */
  function TrimmedOption(o: Option<string>): Option<string> {
    if o.Some? then Some(Trim(o.value)) else None
  }

  /** `excerpt || content.substring(0, 200) + '...'`. */
  function ExcerptOf(excerpt: Option<string>, content: string): (r: string)
    ensures Truthy(excerpt) ==> r == excerpt.value
    ensures !Truthy(excerpt) ==> r == DefaultExcerpt(content)
  {
    if Truthy(excerpt) then excerpt.value else DefaultExcerpt(content)
  }

  /** The route allows a default excerpt the schema then refuses: from 198
      characters of content on, it is longer than the 200 the schema admits. */
  lemma {:induction false} DefaultExcerptOverSchema(content: string)
    ensures |DefaultExcerpt(content)| > ExcerptMax <==> |content| >= 198
  {
  }

  predicate TagsNormalized(tags: seq<string>) {
    forall i :: 0 <= i < |tags| ==> forall k :: 0 <= k < |tags[i]| ==> !IsUpper(tags[i][k])
  }

  function NormalizeTags(tags: seq<string>): (r: seq<string>)
    ensures |r| == |tags|
    ensures forall i :: 0 <= i < |tags| ==> r[i] == NormalizeTag(tags[i])
    ensures TagsNormalized(r)
  {
    seq(|tags|, i requires 0 <= i < |tags| => NormalizeTag(tags[i]))
  }

  /** The post a successful create stores: the trimmed request fields, the
      defaulted excerpt and publication flag, `publishedAt` and `updatedAt`
      at `now` (an absent date falls back to the schema default, also now),
      and the slug and read time the save hooks compute. */
  function NewPost(id: nat, req: CreateRequest, now: int): (p: Post)
    ensures p.id == id && p.title == Trimmed(req.title) && p.content == Trimmed(req.content)
    ensures p.excerpt == ExcerptOf(TrimmedOption(req.excerpt), Trimmed(req.content))
    ensures p.author == Trimmed(req.author)
    ensures p.slug == DeriveSlug(Trimmed(req.title))
    ensures p.readTime == ReadTime(Trimmed(req.content))
    ensures p.isPublished == (req.isPublished.None? || req.isPublished.value)
    ensures p.publishedAt == now && p.updatedAt == now && p.featuredImage.None?
    ensures TagsNormalized(p.tags)
  {
    var content := Trimmed(req.content);
    var title := Trimmed(req.title);
    Post(id, title, content, ExcerptOf(TrimmedOption(req.excerpt), content), DeriveSlug(title),
         Trimmed(req.author), NormalizeTags(if req.tags.Some? then req.tags.value else []),
         now, now, req.isPublished.None? || req.isPublished.value, None,
         ReadTime(content))
  }

  /** The stored excerpt is the trimmed request excerpt when that is
      non-empty; an absent excerpt, or one of only whitespace, gets the
      default made from the trimmed content. */
  lemma {:induction false} NewPostExcerpt(id: nat, req: CreateRequest, now: int)
    ensures var p := NewPost(id, req, now);
      && (req.excerpt.Some? && Trim(req.excerpt.value) != "" ==> p.excerpt == Trim(req.excerpt.value))
      && (req.excerpt.None? || Trim(req.excerpt.value) == "" ==> p.excerpt == DefaultExcerpt(Trimmed(req.content)))
  {
  }

  /** The schema's checks on a new document, seeing the request's own slug
      (validation runs before the hooks replace it). */
  predicate SchemaAdmits(p: Post, requestSlug: string) {
    SchemaAccepts(p.title, p.content, p.excerpt, Lower(requestSlug), p.author)
  }

  /** Index of the first post whose key is `k`, in store order (the
      document `findOne` and `findById` return). */
  function FindBy<K(==)>(posts: seq<Post>, key: Post -> K, k: K): (r: Option<nat>)
    ensures r.Some? ==> r.value < |posts| && key(posts[r.value]) == k
    ensures r.Some? ==> forall i :: 0 <= i < r.value ==> key(posts[i]) != k
    ensures r.None? <==> forall i :: 0 <= i < |posts| ==> key(posts[i]) != k
  {
    if posts == [] then None
    else if key(posts[0]) == k then Some(0)
    else match FindBy(posts[1..], key, k)
      case None => None
      case Some(j) => Some(j + 1)
  }

  function SlugOf(p: Post): string { p.slug }

  function IdOf(p: Post): nat { p.id }

  /** `findOne({ slug })`. */
  function FindSlug(posts: seq<Post>, slug: string): Option<nat> {
    FindBy(posts, SlugOf, slug)
  }

  /** `findById(id)`. */
  function FindId(posts: seq<Post>, id: nat): Option<nat> {
    FindBy(posts, IdOf, id)
  }

  /** What every stored post satisfies: the schema limits, a well-formed
      slug, the hook-computed read time, and lower-case tags. */
  predicate WellFormed(p: Post) {
    && 1 <= |p.title| <= TitleMax
    && |p.content| >= 1
    && 1 <= |p.excerpt| <= ExcerptMax
    && |p.author| >= 1
    && IsSlug(p.slug)
    && p.readTime == ReadTime(p.content)
    && TagsNormalized(p.tags)
  }

  ghost predicate AllWellFormed(posts: seq<Post>) {
    forall i :: 0 <= i < |posts| ==> WellFormed(posts[i])
  }

  ghost predicate IdsBelow(posts: seq<Post>, nextId: nat) {
    forall i :: 0 <= i < |posts| ==> posts[i].id < nextId
  }

  /** No two posts share an identity (`_id`) or a slug (the unique index). */
  ghost predicate KeysUnique(posts: seq<Post>) {
    forall i, j :: 0 <= i < j < |posts| ==> posts[i].id != posts[j].id && posts[i].slug != posts[j].slug
  }

  /** The collection invariant: well-formed posts with identities below
      `nextId` and unique keys. */
  ghost predicate ValidPosts(posts: seq<Post>, nextId: nat) {
    AllWellFormed(posts) && IdsBelow(posts, nextId) && KeysUnique(posts)
  }

  /** Removing one post keeps the invariant. */
  lemma {:induction false} RemoveKeepsValid(posts: seq<Post>, nextId: nat, k: nat)
    requires ValidPosts(posts, nextId) && k < |posts|
    ensures ValidPosts(posts[..k] + posts[k + 1..], nextId)
  {
    RemoveKeepsWellFormed(posts, k);
    RemoveKeepsKeys(posts, nextId, k);
  }

  lemma {:induction false} RemoveKeepsKeys(posts: seq<Post>, nextId: nat, k: nat)
    requires IdsBelow(posts, nextId) && KeysUnique(posts) && k < |posts|
    ensures IdsBelow(posts[..k] + posts[k + 1..], nextId) && KeysUnique(posts[..k] + posts[k + 1..])
  {
    var r := posts[..k] + posts[k + 1..];
    assert forall i :: 0 <= i < |r| ==> r[i] == posts[if i < k then i else i + 1];
  }

  lemma {:induction false} RemoveKeepsWellFormed(posts: seq<Post>, k: nat)
    requires AllWellFormed(posts) && k < |posts|
    ensures AllWellFormed(posts[..k] + posts[k + 1..])
  {
    var r := posts[..k] + posts[k + 1..];
    forall i | 0 <= i < |r| ensures WellFormed(r[i]) {
      assert r[i] == posts[if i < k then i else i + 1];
    }
  }

  /** Appending a well-formed post with a fresh identity and a fresh slug
      keeps the invariant. */
  lemma {:induction false} AppendKeepsValid(posts: seq<Post>, nextId: nat, p: Post)
    requires ValidPosts(posts, nextId) && WellFormed(p) && p.id == nextId
    requires forall i :: 0 <= i < |posts| ==> posts[i].slug != p.slug
    ensures ValidPosts(posts + [p], nextId + 1)
  {
    AppendKeepsWellFormed(posts, p);
    AppendKeepsKeys(posts, nextId, p);
  }

  lemma {:induction false} AppendKeepsKeys(posts: seq<Post>, nextId: nat, p: Post)
    requires IdsBelow(posts, nextId) && KeysUnique(posts) && p.id == nextId
    requires forall i :: 0 <= i < |posts| ==> posts[i].slug != p.slug
    ensures IdsBelow(posts + [p], nextId + 1) && KeysUnique(posts + [p])
  {
    var r := posts + [p];
    assert forall i :: 0 <= i < |posts| ==> r[i] == posts[i];
  }

  lemma {:induction false} AppendKeepsWellFormed(posts: seq<Post>, p: Post)
    requires AllWellFormed(posts) && WellFormed(p)
    ensures AllWellFormed(posts + [p])
  {
    var r := posts + [p];
    forall i | 0 <= i < |r| ensures WellFormed(r[i]) {
      if i < |posts| { assert r[i] == posts[i]; }
    }
  }

  /** A new post the schema admits is well formed. */
  lemma {:induction false} AdmittedIsWellFormed(id: nat, req: CreateRequest, now: int)
    requires SchemaAdmits(NewPost(id, req, now), Trimmed(req.slug))
    ensures WellFormed(NewPost(id, req, now))
  {
    DeriveSlugIsSlug(Trimmed(req.title));
  }

  /** The request slug the route checks and the slug stored are different
      things: a title "Hello World!" sent with slug "greeting" passes the
      conflict check against a post stored under "hello-world", and then the
      save collides on the derived slug. */
  lemma {:induction false} ConflictCheckMissesDerivedSlug(posts: seq<Post>, req: CreateRequest)
    requires req.title == Some("Hello World!") && req.slug == Some("greeting")
    requires |posts| == 1 && posts[0].slug == "hello-world"
    ensures FindSlug(posts, SlugCondition(Trimmed(req.slug))).None?
    ensures FindSlug(posts, DeriveSlug(Trimmed(req.title))).Some?
  {
    RequestSlugFree(posts, req.slug);
    DerivedSlugTaken(posts, req.title);
  }

  lemma {:induction false} RequestSlugFree(posts: seq<Post>, slug: Option<string>)
    requires slug == Some("greeting")
    requires |posts| == 1 && posts[0].slug == "hello-world"
    ensures FindSlug(posts, SlugCondition(Trimmed(slug))).None?
  {
    var c := SlugCondition(Trimmed(slug));
    UnpaddedSlug(slug.value);
    assert c == slug.value;
    assert SlugOf(posts[0]) != c;
  }

  lemma {:induction false} DerivedSlugTaken(posts: seq<Post>, title: Option<string>)
    requires title == Some("Hello World!")
    requires |posts| == 1 && posts[0].slug == "hello-world"
    ensures FindSlug(posts, DeriveSlug(Trimmed(title))).Some?
  {
    UnpaddedTitle(title.value);
    HelloWorld(Trimmed(title));
  }

  lemma {:induction false} UnpaddedTitle(s: string)
    requires s == "Hello World!"
    ensures Trim(s) == s
  {
    assert !IsWs(s[0]) && !IsWs(s[|s| - 1]);
    TrimOfUnpadded(s);
  }

  lemma {:induction false} UnpaddedSlug(s: string)
    requires s == "greeting"
    ensures SlugCondition(Trim(s)) == s && s != "hello-world"
  {
    assert !IsWs(s[0]) && !IsWs(s[|s| - 1]);
    TrimOfUnpadded(s);
    assert forall i :: 0 <= i < |s| ==> !IsUpper(s[i]);
    LowerOfLower(s);
    assert |s| != |"hello-world"|;
  }

  // ---------------------------------------------------------------- the store

  /** The document `new BlogPost({...})` builds from the trimmed request, put
      through schema validation (which sees the request's slug) and then the
      two save hooks. `admitted` is false when validation fails. */
  method BuildPost(id: nat, req: CreateRequest, now: int) returns (admitted: bool, post: Post)
    ensures admitted == SchemaAdmits(NewPost(id, req, now), Trimmed(req.slug))
    ensures admitted ==> post == NewPost(id, req, now)
  {
    var title, content, slug := Trimmed(req.title), Trimmed(req.content), Trimmed(req.slug);
    var excerpt := ExcerptOf(TrimmedOption(req.excerpt), content);
    var author := Trimmed(req.author);
    var tags := NormalizeTags(if req.tags.Some? then req.tags.value else []);
    var isPublished := req.isPublished.None? || req.isPublished.value;
    var doc := new PostDocument(title, content, Lower(slug), RouteReadTime(content), now);
    admitted := SchemaAccepts(doc.title, doc.content, excerpt, doc.slug, author);
    if admitted {
      doc.RunSaveHooks(now);
    }
    post := Post(id, doc.title, doc.content, excerpt, doc.slug, author, tags,
                 now, doc.updatedAt, isPublished, None, doc.readTime);
  }

  /** The `BlogPost` collection. */
  class PostStore {
    var posts: seq<Post>
    var nextId: nat

    ghost predicate Valid()
      reads this
    {
      ValidPosts(posts, nextId)
    }

    constructor ()
      ensures Valid() && posts == []
    {
      posts := [];
      nextId := 0;
    }

    /** POST `/`: the gate (401), the validators (400), the request-slug
        conflict (409), the schema on the new document (500), the hooks, and
        the unique index on the derived slug (500); otherwise the post is
        appended and returned with 201. Every refusal leaves the store as it was. */
    method Create(header: Option<string>, adminKey: Option<string>, req: CreateRequest, now: int)
      returns (reply: Reply)
      requires Valid()
      modifies this
      ensures Valid()
      ensures !BlogAdmits(header, adminKey) ==> reply == Unauthorized
      ensures BlogAdmits(header, adminKey) && RouteErrors(req) != [] ==> reply == Invalid(RouteErrors(req))
      ensures BlogAdmits(header, adminKey) && RouteErrors(req) == [] ==>
        var p := NewPost(old(nextId), req, now);
        if FindSlug(old(posts), SlugCondition(Trimmed(req.slug))).Some? then reply == Conflict
        else if !SchemaAdmits(p, Trimmed(req.slug)) then reply == ServerError
        else if FindSlug(old(posts), p.slug).Some? then reply == ServerError
        else reply == Created(p)
      ensures reply.Created? ==> posts == old(posts) + [reply.post] && nextId == old(nextId) + 1
      ensures !reply.Created? ==> posts == old(posts) && nextId == old(nextId)
    {
      if !BlogAdmits(header, adminKey) {
        return Unauthorized;
      }
      var errors := RouteErrors(req);
      if errors != [] {
        return Invalid(errors);
      }
      if FindSlug(posts, SlugCondition(Trimmed(req.slug))).Some? {
        return Conflict;
      }
      reply := Save(req, now);
    }

    /** `new BlogPost({...}).save()` on the trimmed request: the schema check
        (500), the hooks, then the insert, refused (500) when the derived slug
        is already stored; otherwise the post is appended and returned. */
    method Save(req: CreateRequest, now: int) returns (reply: Reply)
      requires Valid()
      modifies this
      ensures Valid()
      ensures var p := NewPost(old(nextId), req, now);
        if !SchemaAdmits(p, Trimmed(req.slug)) then reply == ServerError
        else if FindSlug(old(posts), p.slug).Some? then reply == ServerError
        else reply == Created(p)
      ensures reply.Created? ==> posts == old(posts) + [reply.post] && nextId == old(nextId) + 1
      ensures !reply.Created? ==> posts == old(posts) && nextId == old(nextId)
    {
      var admitted, post := BuildPost(nextId, req, now);
      if !admitted {
        return ServerError;
      }
      AdmittedIsWellFormed(nextId, req, now);
      reply := Insert(post);
    }

    /** The insert under the unique slug index: refused (500) when a stored
        post has the same slug, otherwise the post is appended. */
    method Insert(post: Post) returns (reply: Reply)
      requires Valid() && WellFormed(post) && post.id == nextId
      modifies this
      ensures Valid()
      ensures FindSlug(old(posts), post.slug).Some? ==> reply == ServerError && posts == old(posts) && nextId == old(nextId)
      ensures FindSlug(old(posts), post.slug).None? ==> reply == Created(post) && posts == old(posts) + [post] && nextId == old(nextId) + 1
    {
      if FindSlug(posts, post.slug).Some? {
        return ServerError;
      }
      AppendKeepsValid(posts, nextId, post);
      posts := posts + [post];
      nextId := nextId + 1;
      return Created(post);
    }

    /** DELETE `/:id`: the gate (401), a malformed id (`None`, a cast error:
        500), an unknown id (404); otherwise exactly that post is removed and
        its title returned. */
    method Delete(header: Option<string>, adminKey: Option<string>, id: Option<nat>)
      returns (reply: Reply)
      requires Valid()
      modifies this
      ensures Valid() && nextId == old(nextId)
      ensures !BlogAdmits(header, adminKey) ==> reply == Unauthorized
      ensures BlogAdmits(header, adminKey) && id.None? ==> reply == ServerError
      ensures BlogAdmits(header, adminKey) && id.Some? ==>
        match FindId(old(posts), id.value)
        case None => reply == NotFound
        case Some(k) => reply == Deleted(old(posts)[k].title) && posts == old(posts)[..k] + old(posts)[k + 1..]
      ensures !reply.Deleted? ==> posts == old(posts)
    {
      if !BlogAdmits(header, adminKey) {
        return Unauthorized;
      }
      if id.None? {
        return ServerError;
      }
      match FindId(posts, id.value)
      case None =>
        return NotFound;
      case Some(k) =>
        var title := posts[k].title;
        RemoveKeepsValid(posts, nextId, k);
        posts := posts[..k] + posts[k + 1..];
        return Deleted(title);
    }

    /** DELETE `/clear/all`: the gate (401); otherwise every post goes and the
        number removed is reported. */
    method ClearAll(header: Option<string>, adminKey: Option<string>) returns (reply: Reply)
      requires Valid()
      modifies this
      ensures Valid() && nextId == old(nextId)
      ensures !BlogAdmits(header, adminKey) ==> reply == Unauthorized && posts == old(posts)
      ensures BlogAdmits(header, adminKey) ==> reply == Cleared(|old(posts)|) && posts == []
    {
      if !BlogAdmits(header, adminKey) {
        return Unauthorized;
      }
      var count := |posts|;
      posts := [];
      return Cleared(count);
    }
  }

  /** Deleting removes the post with that identity and no other. */
  lemma {:induction false} DeleteRemovesOnlyThatPost(posts: seq<Post>, k: nat)
    requires KeysUnique(posts) && k < |posts|
    ensures var r := posts[..k] + posts[k + 1..];
      && |r| == |posts| - 1
      && (forall i :: 0 <= i < |r| ==> r[i].id != posts[k].id)
      && (forall i :: 0 <= i < |posts| && i != k ==> posts[i] in r)
  {
    var r := posts[..k] + posts[k + 1..];
    assert forall i :: 0 <= i < |r| ==> r[i] == posts[if i < k then i else i + 1];
    forall i | 0 <= i < |posts| && i != k ensures posts[i] in r {
      if i < k { assert r[i] == posts[i]; } else { assert r[i - 1] == posts[i]; }
    }
  }
}
