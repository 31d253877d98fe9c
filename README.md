# Halil_Portfolio — a Dafny model of the blog and contact pipelines

This project models the logic of a personal portfolio site. The site has a
React front end and an Express/Mongoose back end. The model covers the parts
that decide things:

- **Blog post document** (`BlogPostModel`): the two `pre("save")` hooks. One
  derives the slug from the title by seven chained string replacements. The
  other derives the read time from the number of whitespace-separated pieces
  of the content. The model also covers the schema limits and the setters on
  tags. The hooks run as a method on a `PostDocument` class.
- **Blog routes** (`BlogRoutes`, over `Query`):
  - the `x-admin-key` gate;
  - the published listing, for all posts or one tag, with `skip`/`limit`
    and the `{ current, total, hasNext, hasPrev }` block;
  - `distinct` + `sort()` of the tags;
  - lookup by slug;
  - creation: validators, the request-slug conflict check, the default
    excerpt, the schema, the hooks, and the unique slug index;
  - deletion by id, and clearing.

  The collection is a `PostStore` class whose `posts` sequence the handlers
  reassign. The class keeps an invariant: every stored post is well formed,
  and no two posts share an id or a slug.
- **Contact document and routes** (`ContactModel`, `ContactRoutes`):
  - the schema's trim/lower-case setters, its required and maximum-length
    rules, and the email pattern `^\S+@\S+\.\S+$`, given a direct check
    proved equivalent to it;
  - the POST handler: validate, sanitise, save into a `ContactStore`, and
    build the two mails only when SMTP is configured;
  - the `[<>&"]` stripping and truncation in the mail bodies;
  - the admin-gated listing with its `min(limit, 50)` cap.
- **API client** (`ApiClient`):
  - `handleResponse`'s classification into `ApiError`s;
  - `withRetry`, as a recursive definition and as a loop proved equal to it;
  - the six service calls, each wrapped in the retry.
- **Client pages**:
  - the blog list page (`BlogPage`): case-insensitive search, six posts per
    page, the five-button page window, Previous/Next, tag chips, and the
    filter state with its two competing effects;
  - the single-post page (`BlogPostPage`): related posts, paragraphs, and
    the fetch-then-render state;
  - the contact form (`ContactPage`): field edits, the blank check, and the
    submit sequence.
- **Server configuration** (`ServerConfig`): the MongoDB URI credential
  splice in `connectDB`, the rate-limit multiplier, and the error handler's
  reply.

`Text` holds the JavaScript string operations the code relies on, on ASCII:

- `toLowerCase`, `trim`, `includes`, `split`/`join`, `substring`;
- the regular-expression replacements, written as functions.

Several places where parts of the code disagree with each other, or with
what the API tells its clients, are modelled as the code does them. A lemma or a
contract states each one; the name in brackets is the lemma:

- **Conflict check.** The 409 check looks for a stored post with the
  *request's* `slug`. The stored slug is then re-derived from the title by
  the hook. A derived slug that is already taken is refused by the unique
  index, which gives 500, not 409 (`ConflictCheckMissesDerivedSlug`).
- **Validation sees the request's slug.** Schema validation runs before the
  `pre("save")` hooks, so it checks the request's slug, lower-cased by its
  setter, not the derived one.
- **Route and schema limits differ.** The route admits a title of 200 and an
  excerpt of 500 characters. The schema admits 100 and 200, so a post between
  the two limits is refused with 500. The default excerpt
  `content.substring(0, 200) + '...'` is over the schema's 200 from 198
  characters of content on (`DefaultExcerptOverSchema`).
- **Read time computed twice.** The route computes a read time from a split
  on single spaces. The content hook overwrites it with the `\s+` split.
- **Page parameters.** `parseInt(...) || default` turns 0 into the default.
  A negative page gives a negative skip, which the store refuses (500). There
  is no validation error for these.
- **Admin gates differ.** The blog gate compares the header with `ADMIN_KEY`
  by strict equality, so with no key configured a request without the header
  passes. The contact listing's gate also refuses a missing header
  (`ContactGateStricter`).
- **Contact cap.** `Math.min(limit, 50)` lets a negative limit through. A
  store that reads a negative limit as its absolute value then returns more
  than 50 messages (`NegativeLimitPassesCap`).
- **Contact lengths checked before trimming.** The route checks contact
  lengths on the raw value, before `trim()`. A name of two spaces passes that
  check, and the schema then refuses the trimmed empty name, so the reply
  is 500 rather than 400 (`BlankNamePassesValidation`).
- **Mails only after a save.** Mails are attempted only after a successful
  save, and the reply is 201 whatever they do.
- **POSTs retried.** `createPost` and `sendMessage` go through `withRetry`
  like the reads, so one call can send the same POST three times
  (`PostSentThrice`).
- **Search before the posts arrive.** The client-side search effect returns
  while `allPosts` is empty, and the API effect returns once a term is typed.
  If the initial fetch of all posts failed or returned nothing, a typed
  search changes nothing on screen (`SearchBeforePostsArrive`).
- **Failed related fetch.** On the post page, a failed related-posts fetch
  after the post arrived ends on the not-found view (`ViewAfterLoad`).
- **Tag not echoed.** The tag listing reply has no `tag` member, although
  the client's response type declares one.

The stored-post invariant records that the slug is *well formed*:

- only `[a-z0-9-]`;
- no hyphen at either end;
- never two hyphens in a row.

It does not record `slug == DeriveSlug(title)`: that holds for every post
`Create` stores, but a document whose title was not modified keeps its slug.

Environment variables, the clock, the database's availability, the request's
address, the fetched responses and the library sanitisers (`escape`,
`normalizeEmail`, `isEmail`) are parameters.

## Model

| member | source | states |
|---|---|---|
| BlogPostModel.KeepSlugSource | server/src/models/BlogPost.ts:85 | what survives the first replacement lies in `[a-z0-9 -]` |
| BlogPostModel.RunsToHyphen | server/src/models/BlogPost.ts:86-87 | a run replacement is empty exactly on the empty string and starts with `-` exactly when the input starts with a run character |
| BlogPostModel.RunsToHyphenChars | server/src/models/BlogPost.ts:85-87 | after the whitespace runs of a `[a-z0-9 -]` string become hyphens, only `[a-z0-9-]` is left, and collapsing hyphen runs keeps it so |
| BlogPostModel.CollapsedHasNoDoubleHyphen | server/src/models/BlogPost.ts:87 | collapsing hyphen runs leaves no two consecutive hyphens |
| BlogPostModel.DeriveSlugIsSlug | server/src/models/BlogPost.ts:82-89 | every derived slug has only `[a-z0-9-]`, no leading or trailing hyphen, and no `--` |
| BlogPostModel.DeriveSlugAlnums | server/src/models/BlogPost.ts:82-89 | the slug holds exactly the letters and digits of the lower-cased title, in their order |
| BlogPostModel.DeriveSlugEmptyIff | server/src/models/BlogPost.ts:82-89 | the slug is empty if and only if the lower-cased title has no `[a-z0-9]` character |
| BlogPostModel.DeriveSlugIdempotent | server/src/models/BlogPost.ts:82-89 | deriving a slug from a derived slug returns it unchanged |
| BlogPostModel.SlugIsFixedPoint | server/src/models/BlogPost.ts:82-89 | every well-formed slug is its own slug |
| BlogPostModel.TwoWordSlug | server/src/models/BlogPost.ts:82-89 | two alphanumeric words separated by a space and followed by punctuation give the two lower-cased words joined by one hyphen |
| BlogPostModel.HelloWorld | server/src/models/BlogPost.ts:82-89 | the title "Hello World!" gives the slug "hello-world" |
| BlogPostModel.SplitWs | server/src/models/BlogPost.ts:99 | `split(/\s+/)` gives at least one piece and no piece holds whitespace |
| BlogPostModel.SplitWsSentence | server/src/models/BlogPost.ts:99 | splitting words joined by single spaces gives back the words |
| BlogPostModel.ReadTime | server/src/models/BlogPost.ts:98-100 | the read time is the least `r` with `200 * r` at least the number of pieces, so it is at least 1 |
| BlogPostModel.ReadTimeOfWords | server/src/models/BlogPost.ts:98-100 | 450 words read in 3 minutes |
| BlogPostModel.RouteReadTime | server/src/routes/blog.ts:167 | the route's own estimate, from the split on single spaces, is at least 1 |
| BlogPostModel.NormalizeTag | server/src/models/BlogPost.ts:46-51 | a stored tag is the trimmed, lower-cased value and has no upper-case letter |
| BlogPostModel.PostDocument.constructor | server/src/routes/blog.ts:159-169 | a new document holds the given values with every path modified |
| BlogPostModel.PostDocument.RunSaveHooks | server/src/models/BlogPost.ts:80-103 | the slug is re-derived only when the title was modified, `updatedAt` is refreshed on every save, and the read time is recomputed only when the content was modified; nothing else changes |
| Text.TrimIdempotent | server/src/models/BlogPost.ts:84 | trimming twice is trimming once |
| Text.TrimLowerCommute | server/src/models/BlogPost.ts:46-51 | trimming and lower-casing commute, so the order of a field's two setters does not matter |
| Text.LowerIdempotent | server/src/models/BlogPost.ts:83 | lower-casing twice is lower-casing once |
| Text.JoinSplit | src/pages/BlogPost.tsx:139 | joining the pieces of a split with the separator gives back the string |
| Text.SplitPiecesFree | src/pages/BlogPost.tsx:139 | no piece of a split contains the separator |
| BlogRoutes.SetKeyNeedsExactHeader | server/src/routes/blog.ts:8-14 | with `ADMIN_KEY` set, the gate admits exactly a header equal to it |
| BlogRoutes.UnsetKeyAdmitsMissingHeader | server/src/routes/blog.ts:10 | with `ADMIN_KEY` unset, a request without the header passes |
| Query.ParsedOr | server/src/routes/blog.ts:19-20 | a parsed parameter is its value unless it is absent, unparsable or 0, and the default otherwise |
| Query.CeilDiv | server/src/routes/blog.ts:32 | `Math.ceil(n / d)` for positive `d` is the least `r` with `r * d >= n` |
| Query.Paginate | server/src/routes/blog.ts:32-41 | the block reports the page, the page count `ceil(count / limit)`, `hasNext` exactly when page < total and `hasPrev` exactly when page > 1 |
| Query.Window | server/src/routes/blog.ts:27-28 | `skip(k).limit(l)` gives the elements from position `k` on, in order, at most the absolute value of `l` of them, and none past the end |
| Query.Where | server/src/routes/blog.ts:24 | a filter keeps elements of the input that satisfy it, and every such element |
| Query.WhereIn | server/src/routes/blog.ts:24 | an element is in the filtered result exactly when it is in the input and satisfies the filter |
| Query.SortDesc | server/src/routes/blog.ts:26 | `sort({ field: -1 })` gives a descending permutation of the input |
| Query.SortedWindow | server/src/routes/blog.ts:26-28 | a page of the sorted result is descending and drawn from the input |
| Query.InsertDistinct | server/src/routes/blog.ts:63-64 | inserting into a strictly ascending list keeps it strictly ascending and adds exactly the new value |
| Query.DistinctSorted | server/src/routes/blog.ts:63-64 | `distinct` + `sort()` gives a strictly ascending list of exactly the input's values |
| Query.StrictlySortedDistinct | server/src/routes/blog.ts:63-64 | a strictly ascending list has no repeated value |
| BlogRoutes.Summaries | server/src/routes/blog.ts:25 | each listed entry is the stored post without its content, one per post, in order |
| BlogRoutes.Matching | server/src/routes/blog.ts:79-83 | the filter keeps the posts that are published and, on the tag route, hold the tag as the `tags` setters trim and lower-case it, and all such posts |
| BlogRoutes.ListPosts | server/src/routes/blog.ts:17-47 | a listing is answered exactly when the skip is non-negative (500 otherwise), with the page block over all matching posts |
| BlogRoutes.ListPostsSize | server/src/routes/blog.ts:21-28 | a listed page holds the smaller of the absolute limit and `count - skip` posts, or none past the end |
| BlogRoutes.ListPostsFromStore | server/src/routes/blog.ts:23-29 | every listed entry summarises a stored post that the filter admits |
| BlogRoutes.ListPostsNewestFirst | server/src/routes/blog.ts:26 | the listed entries come in descending `publishedAt` order |
| BlogRoutes.SecondPageOfEight | server/src/routes/blog.ts:19-41 | eight published posts read with page 2 and limit 6 give two posts and `{ 2, 2, false, true }` |
| BlogRoutes.TagCaseIgnored | server/src/routes/blog.ts:79-83 | a tag lists the same posts as its lower-cased form and as its trimmed form |
| BlogRoutes.PublishedTagsIff | server/src/routes/blog.ts:63 | a tag is collected exactly when some published post has it |
| BlogRoutes.AllTagsContents | server/src/routes/blog.ts:61-69 | the tag listing is strictly ascending and duplicate-free, and holds exactly the tags of published posts |
| BlogRoutes.GetBySlug | server/src/routes/blog.ts:112-129 | a published stored post whose slug is the parameter after the `slug` path's trim and lowercase setters is returned, and 404 comes exactly when there is none |
| BlogRoutes.SlugCaseIgnored | server/src/routes/blog.ts:115-118 | a slug parameter, its lower-cased form and its trimmed form find the same post |
| BlogRoutes.RouteErrors | server/src/routes/blog.ts:134-150 | the error list holds exactly the fields whose validator fails on the trimmed value, and is empty exactly when all pass |
| BlogRoutes.DefaultExcerpt | server/src/routes/blog.ts:162 | the default excerpt is at most the first 200 characters of the content followed by "..." |
| BlogRoutes.ExcerptOf | server/src/routes/blog.ts:162 | a non-empty excerpt is kept and an absent or empty one is defaulted |
| BlogRoutes.NewPostExcerpt | server/src/routes/blog.ts:137-162 | the stored excerpt is the trimmed request excerpt when that is non-empty, and the default from the trimmed content when it is absent or only whitespace |
| BlogRoutes.DefaultExcerptOverSchema | server/src/routes/blog.ts:162 | the default excerpt exceeds the schema's 200 characters exactly when the content has at least 198 |
| BlogRoutes.NormalizeTags | server/src/models/BlogPost.ts:46-51 | every tag goes through its setters, and the result has no upper-case letter |
| BlogRoutes.NewPost | server/src/routes/blog.ts:133-169 | the created post has the trimmed title, content and author, the excerpt defaulted from the trimmed request excerpt, `isPublished` defaulting to true, dates at now, no image, lower-case tags, and the slug and read time from the hooks |
| BlogRoutes.FindBy | server/src/routes/blog.ts:154 | gives the first index of a post with that key (the slug for `findOne`, the id for `findByIdAndDelete`), and none exactly when no post has it |
| BlogRoutes.AppendKeepsValid | server/src/models/BlogPost.ts:106 | appending a well-formed post with a fresh id and an unused slug keeps ids and slugs unique |
| BlogRoutes.RemoveKeepsValid | server/src/routes/blog.ts:184 | removing one post keeps the collection invariant |
| BlogRoutes.AdmittedIsWellFormed | server/src/models/BlogPost.ts:17-77 | a new post the schema admits meets the title, content, excerpt and author limits, has a well-formed slug and the hook's read time |
| BlogRoutes.ConflictCheckMissesDerivedSlug | server/src/routes/blog.ts:154-157 | a request slug can miss the conflict check while the slug derived from the title is already stored |
| BlogRoutes.BuildPost | server/src/routes/blog.ts:159-171 | the document is admitted exactly when the schema accepts it (seeing the request's slug), and then it is the new post after the hooks |
| BlogRoutes.PostStore.Create | server/src/routes/blog.ts:132-178 | gives 401, then 400 with the failing fields, then 409 on the request slug, then 500 on a schema refusal or a taken derived slug, and otherwise 201 with the post appended; every refusal leaves the store unchanged and the invariant holds |
| BlogRoutes.PostStore.Save | server/src/routes/blog.ts:171 | the save refuses schema failures and taken slugs with 500 and otherwise appends the new post |
| BlogRoutes.PostStore.Insert | server/src/models/BlogPost.ts:106 | the unique index refuses a taken slug and otherwise appends |
| BlogRoutes.PostStore.Delete | server/src/routes/blog.ts:181-195 | gives 401, then 500 for a malformed id, then 404 for an unknown id with the store unchanged; otherwise exactly that post is removed and its title returned |
| BlogRoutes.PostStore.ClearAll | server/src/routes/blog.ts:50-58 | gives 401 with the store unchanged, or empties the store and reports how many posts were removed |
| BlogRoutes.DeleteRemovesOnlyThatPost | server/src/routes/blog.ts:184-190 | after the removal no post has that id and every other post is still there |
| ContactModel.EmailShapedIff | server/src/models/Contact.ts:25 | the direct check accepts exactly the strings `^\S+@\S+\.\S+$` matches |
| ContactModel.NormalizeEmail | server/src/models/Contact.ts:23-24 | the stored email is trimmed and has no upper-case letter |
| ContactModel.MakeContact | server/src/models/Contact.ts:13-53 | a document is built exactly when the trimmed fields pass the required, length and pattern rules, with `isRead` false, `createdAt` now and the given address |
| ContactModel.BlankFieldRefused | server/src/models/Contact.ts:14-38 | a field that is blank after trimming is refused |
| ContactModel.MadeContactWellFormed | server/src/models/Contact.ts:41-46 | a built document meets the schema and is unread |
| ContactRoutes.ContactErrors | server/src/routes/contact.ts:24-54 | the error list holds exactly the fields whose check fails on the raw value (name 2–50, subject 5–100, message 10–1000, the email check), and is empty exactly when all pass |
| ContactRoutes.StripSpecial | server/src/routes/contact.ts:89 | stripping keeps exactly the characters other than `<>&"` and never lengthens |
| ContactRoutes.StripSpecialIdentity | server/src/routes/contact.ts:89-101 | a string without the four characters is unchanged |
| ContactRoutes.StripSpecialConcat | server/src/routes/contact.ts:89-101 | stripping distributes over concatenation, so the kept characters stay in order |
| ContactRoutes.StripSpecialIdempotent | server/src/routes/contact.ts:89-101 | stripping twice is stripping once |
| ContactRoutes.SubjectFragment | server/src/routes/contact.ts:119-123 | the quoted subject is the first 50 stripped characters, followed by "..." exactly when the unstripped subject is longer than 50 |
| ContactRoutes.MakeOwnerMail | server/src/routes/contact.ts:76-105 | the owner's mail goes to `CONTACT_EMAIL`, else `SMTP_USER`, with a subject of at most 100 and a message of at most 1000 characters, and a name free of `<>&"` |
| ContactRoutes.MakeAutoReply | server/src/routes/contact.ts:108-146 | the auto-reply goes to the sender and quotes at most 53 characters of the subject |
| ContactRoutes.ContactStatus | server/src/routes/contact.ts:163-173 | the status is 201 exactly for a sent message |
| ContactRoutes.ContactLimit | server/src/routes/contact.ts:191 | the page size is the parsed limit or 10, capped at 50 |
| ContactRoutes.ListContacts | server/src/routes/contact.ts:179-216 | gives 401 exactly when the header is missing or differs from the key, 500 exactly for a negative skip, and the page block over all messages |
| ContactRoutes.ListContactsContents | server/src/routes/contact.ts:194-198 | the listed messages are stored messages, newest first |
| ContactRoutes.ListContactsCapped | server/src/routes/contact.ts:191 | a non-negative limit gives at most 50 messages |
| ContactRoutes.NegativeLimitPassesCap | server/src/routes/contact.ts:191 | a limit of -100 gives 100 messages on the first page |
| ContactRoutes.ContactGateStricter | server/src/routes/contact.ts:182-188 | the listing gate admits only what the blog gate admits, and refuses every request when no key is configured |
| ContactRoutes.ContactStore.Save | server/src/routes/contact.ts:56-68 | the save succeeds exactly when the schema admits the document and the store is available, and then appends it; otherwise nothing changes |
| ContactRoutes.ContactStore.Submit | server/src/routes/contact.ts:45-175 | gives 400 with the failing fields, then 500 when the save fails, and otherwise 201 with the message appended; nothing is stored and no mail built unless the reply is 201, and the mails are built exactly when SMTP is configured |
| ContactRoutes.BlankNamePassesValidation | server/src/routes/contact.ts:25-29 | a name of two spaces passes the length check and is then refused by the schema |
| ApiClient.ErrorMessage | src/services/api.ts:41-52 | the error's message is the body's message, else `HTTP <status>: <statusText>`, or "Network error occurred" for a body that is not JSON |
| ApiClient.HandleResponse | src/services/api.ts:39-56 | a failed response throws an `ApiError` with its status, and a successful one yields its body |
| ApiClient.RetryableResponse | src/services/api.ts:31 | exactly the failed responses with a status of 500 or more are retryable |
| ApiClient.RetryShape | src/services/api.ts:23-37 | a run makes between 1 and retries + 1 attempts, returns the last attempt's outcome, retries only after 5xx `ApiError`s, stops on anything else or when retries run out, and waits `delay * 2^i` before retry `i` |
| ApiClient.FirstSuccessReturned | src/services/api.ts:28-29 | the first success after retryable failures is returned unchanged and ends the run |
| ApiClient.AllServerErrors | src/services/api.ts:25-33 | with the defaults and only 5xx errors there are three attempts with waits of 1000 and 2000 |
| ApiClient.WithRetry | src/services/api.ts:23-37 | the loop with a retries counter and a doubling delay computes the recursive run |
| ApiClient.ApiBase | src/services/api.ts:10 | the base URL is `VITE_API_URL`, else the localhost default |
| ApiClient.Endpoint | src/services/api.ts:71-133 | exactly `createPost` and `sendMessage` are POSTs, and every URL starts with the base |
| ApiClient.Call | src/services/api.ts:73-132 | a service call sends its request once per attempt, one to three times |
| ApiClient.PostSentThrice | src/services/api.ts:105-132 | a POST that keeps meeting 5xx responses is sent three times |
| ApiClient.ClientErrorNotRetried | src/services/api.ts:31-35 | a 4xx response is thrown after one attempt |
| BlogPage.Search | src/pages/Blog.tsx:40-47 | the search keeps exactly the posts whose lower-cased title, excerpt or some tag contains the lower-cased term |
| BlogPage.SearchIgnoresCase | src/pages/Blog.tsx:42-46 | searching for a term and for its lower-case form give the same posts |
| BlogPage.TotalPages | src/pages/Blog.tsx:62 | the page count is `ceil(n / 6)` |
| BlogPage.PageSliceContents | src/pages/Blog.tsx:56-59 | page `p` shows the posts at positions `[(p - 1) * 6, p * 6)` |
| BlogPage.PageNonEmptyIff | src/pages/Blog.tsx:56-62 | a page from 1 on is non-empty exactly when it is at most the page count |
| BlogPage.PageWindow | src/pages/Blog.tsx:329-339 | there are `min(5, total)` buttons, numbered consecutively, all within `[1, total]` |
| BlogPage.PageWindowHasCurrent | src/pages/Blog.tsx:329-339 | a current page within `[1, total]` has its button |
| BlogPage.PageWindowFull | src/pages/Blog.tsx:329 | five pages or more give five buttons |
| BlogPage.NavigationStaysInRange | src/pages/Blog.tsx:319-364 | from a real page, an enabled Previous or Next leads to a real page |
| BlogPage.TagChips | src/pages/Blog.tsx:283-298 | a card shows its first three tags, plus the number of the rest when there are more than three |
| BlogPage.EffectsComplementary | src/pages/Blog.tsx:34-67 | the two effects never both fill the list, and once all posts have arrived the API effect fetches exactly when the client-side effect does not fill it |
| BlogPage.SearchBeforePostsArrive | src/pages/Blog.tsx:35-67 | with no posts loaded, a typed search is handled by neither effect |
| BlogPage.FetchFor | src/pages/Blog.tsx:74-78 | the effect asks for the current page with limit 6, by tag exactly when a tag is selected |
| BlogPage.ClearingSearchRefetches | src/pages/Blog.tsx:128-134 | clearing the search with no tag selected hands the list back to the API's first page of latest posts |
| BlogPage.BlogPageState.constructor | src/pages/Blog.tsx:8-17 | the page starts on page 1 with no term, no tag and no search done |
| BlogPage.BlogPageState.HandlePageChange | src/pages/Blog.tsx:113-116 | only the current page changes |
| BlogPage.BlogPageState.HandleTagClick | src/pages/Blog.tsx:118-126 | clicking the selected tag clears it and keeps the page; any other tag, including "" from All Posts, is selected on page 1; `hasSearched` becomes false |
| BlogPage.BlogPageState.HandleSearchChange | src/pages/Blog.tsx:128-134 | the term is recorded, the page goes to 1, and `hasSearched` is cleared exactly when the term is empty |
| BlogPage.BlogPageState.ClientEffect | src/pages/Blog.tsx:34-63 | with posts loaded and a term (or a cleared search and no tag), shows the current page of the matches and their page count; otherwise changes nothing |
| BlogPage.BlogPageState.ApiEffect | src/pages/Blog.tsx:66-90 | a request is made exactly when the guard lets it through, and it is the one for the current tag and page |
| BlogPostPage.RelatedQuery | src/pages/BlogPost.tsx:24-25 | related posts are asked for exactly when the post has a tag, with its first tag, page 1 and limit 3 |
| BlogPostPage.RelatedPosts | src/pages/BlogPost.tsx:27-28 | at most two related posts, none with the current post's id, all from the fetched list |
| BlogPostPage.RelatedPostsPrefix | src/pages/BlogPost.tsx:27-28 | the related posts are the first `min(2, n)` of the other posts, in order |
| BlogPostPage.CurrentPostDropped | src/pages/BlogPost.tsx:27-28 | with the current post among three results, the other two are shown |
| BlogPostPage.ParagraphsPartition | src/pages/BlogPost.tsx:139 | the paragraphs joined with a blank line give the content, and no paragraph contains one |
| BlogPostPage.ErrorText | src/pages/BlogPost.tsx:31 | an error's own message, or the fallback for a value that is not an `Error` |
| BlogPostPage.PostPageState.FetchPost | src/pages/BlogPost.tsx:14-38 | nothing happens without a slug; otherwise the post, then its related posts, with a failure of either fetch recorded as the error, and loading off at the end |
| BlogPostPage.PostPageState.Render | src/pages/BlogPost.tsx:48-69 | a spinner exactly while loading, not-found exactly on an error or a missing post, and otherwise the post with its paragraphs |
| BlogPostPage.ViewAfterLoad | src/pages/BlogPost.tsx:14-69 | a fresh load ends on not-found exactly when the post fetch failed or a related fetch failed with a message; a shown post is the fetched one with at most two related posts |
| BlogPostPage.LoadPage | src/pages/BlogPost.tsx:14-69 | fetching then rendering from a fresh state gives the view described by `ViewAfterLoad` |
| ContactPage.Set | src/pages/Contact.tsx:70-78 | an edit changes the named field and no other |
| ContactPage.SetLaws | src/pages/Contact.tsx:73-77 | writing a field's own value changes nothing, and a second edit of a field replaces the first |
| ContactPage.AnyBlankIff | src/pages/Contact.tsx:83-88 | some field is blank after trimming exactly when one of the four checks fires |
| ContactPage.Blank | src/pages/Contact.tsx:83-88 | the handler's check holds exactly when some field is blank |
| ContactPage.FailureText | src/pages/Contact.tsx:103-107 | an error's own message, or the fallback for a value that is not an `Error` |
| ContactPage.ContactFormState.constructor | src/pages/Contact.tsx:58-68 | an empty form, idle and not submitting |
| ContactPage.ContactFormState.HandleInputChange | src/pages/Contact.tsx:70-78 | exactly the named field takes the value |
| ContactPage.ContactFormState.BeginSubmit | src/pages/Contact.tsx:94-95 | submitting, with the status idle |
| ContactPage.ContactFormState.FinishSubmit | src/pages/Contact.tsx:97-110 | success clears the form; failure shows the error's text and keeps the form; the form stops submitting either way |
| ContactPage.ContactFormState.HandleSubmit | src/pages/Contact.tsx:80-111 | a blank field gives the fill-in error with nothing sent; otherwise the form is sent and the outcome decides success or error |
| ContactPage.RejectedMessageShown | src/pages/Contact.tsx:98-107 | a 400 with a message reaches the form as that message after one attempt |
| ServerConfig.BaseUri | server/src/index.ts:87-88 | the URI is `MONGODB_URI`, else the localhost default |
| ServerConfig.MongoUri | server/src/index.ts:87-99 | without both credentials the URI is the base URI, unchanged |
| ServerConfig.SpliceWellFormed | server/src/index.ts:91-98 | for `p://h`, the credentials go between `p://` and `h` |
| ServerConfig.SecondSeparatorLost | server/src/index.ts:95-96 | for `p://h://t`, everything from the second separator on is lost |
| ServerConfig.NoSeparatorDefaultsProtocol | server/src/index.ts:92-97 | a URI without a separator is kept whole behind the protocol `mongodb` |
| ServerConfig.DefaultWithCredentials | server/src/index.ts:87-98 | with no URI configured, the credentials are spliced into the localhost default |
| ServerConfig.RateLimitMax | server/src/index.ts:48 | the ceiling is the given one in production and ten times it otherwise |
| ServerConfig.DevelopmentLimits | server/src/index.ts:55-62 | outside production the contact limit is 50 and the API limit 1000 per window |
| ServerConfig.ErrorResponse | server/src/index.ts:145-151 | always 500 with the same message, and the error's text only in development |
| ServerConfig.ErrorDetailsHidden | server/src/index.ts:146-151 | outside development two different errors get the same reply |
| ServerConfig.UnsetEnvironment | server/src/index.ts:137-153 | an unset `NODE_ENV` hides errors and uses the development limits |

## Left out

- I/O of every kind is left out. This covers the MongoDB connection, `mongoose.connect` and its log lines, nodemailer and its transporter settings, `fetch`, and `app.listen`. The store is a sequence in a class, and a send or a fetch is an outcome passed in.
- Sending the two mails with `Promise.all`, and their failure, is left out: the failure is caught and never changes the reply. The model builds the mails and returns them.
- `fetchWithTimeout` (the 10-second `AbortController` and `setTimeout`) and the actual sleeping in `withRetry` are timers. A timeout is an attempt that throws a non-`ApiError` (`OtherError`), which is not retried, and the waits are returned as a list of delays.
- Dates are abstract integers: `Date.now`, `new Date()`, the `timestamps` option, `toLocaleString` and `formatDate`. A document's times are the `now` passed in.
- `escape`, `normalizeEmail` and `isEmail` of the validation library are not part of this model. They are function parameters.
- `parseInt` text parsing is left out. A query parameter is an optional integer, with `None` standing for an absent or unparsable value.
- Unicode case mapping and the Unicode whitespace class are left out. `toLowerCase` and `\s` are modelled on ASCII.
- Mongoose's casting of query conditions is modelled only through the `slug` and `tags` setters, which trim and lower-case the condition. Casting an `_id` is reduced to a well-formed id or `None`, which stands for a cast error.
- MongoDB leaves the order of equal sort keys unspecified. The model keeps store order for ties.
- MongoDB's reading of a negative `limit` is taken as its absolute value. A negative `skip` is taken as a refusal.
- React rendering and effect scheduling are left out: markup, styling, scrolling, and when effects run. Only the state transitions and the effects' conditions are modelled.
- The list page's two loading effects, `getPosts(1, 100)` and `getTags`, are fetches. `allPosts` is the page's field that they fill.
- The list page's `loading` and `error` flags and its spinner and error views are left out. They are display over one fetch.
- The CORS, helmet, body-size, logging, health-check and 404 middleware of the server are configuration and are not part of this model. So are the rate limiter's internals; only the ceiling multiplier is modelled.
- Editing a stored post is not modelled: no route updates a post. `RunSaveHooks` still covers a document with only some paths modified.
- BlogPostModel.RunsToHyphen: its contract gives only emptiness and the first character. What the replacement produces is stated by the lemmas about it (`RunsToHyphenChars`, `CollapsedHasNoDoubleHyphen`, `RunsToHyphenAlnums`).
- ServerConfig.MongoUri: its own contract covers only the case without credentials. The case with credentials is stated by `SpliceWellFormed`, `SecondSeparatorLost` and `NoSeparatorDefaultsProtocol`, one lemma per shape of URI.
- The home page, navigation, footer, layout, routing and type declarations are not part of this model. They hold static content and markup.
