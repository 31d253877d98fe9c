/** The blog list page: the client-side search over all posts, six posts per
    page, the five-button page-number window, the Previous/Next rules, the
    tag chips of a card, and the page's filter state with its two competing
    ways of filling the list (client-side search or an API fetch). */
module BlogPage {
  import opened Text
  import opened Query

  /** The fields of a post the list page reads. */
  datatype ClientPost = ClientPost(id: string, title: string, excerpt: string, slug: string, tags: seq<string>)

  // ---------------------------------------------------------------- search

  /** The search predicate: the lower-cased term occurs in the lower-cased
      title, excerpt or one of the tags. */
  predicate Matches(p: ClientPost, term: string) {
    var q := Lower(term);
    || Includes(Lower(p.title), q)
    || Includes(Lower(p.excerpt), q)
    || exists k :: 0 <= k < |p.tags| && Includes(Lower(p.tags[k]), q)
  }

  /** `allPosts.filter(...)`: the matching posts in their original order. */
  function Search(posts: seq<ClientPost>, term: string): (r: seq<ClientPost>)
    ensures forall p :: p in r <==> p in posts && Matches(p, term)
  {
    Where(posts, (p: ClientPost) => Matches(p, term))
  }

  /** Search ignores case on both sides. */
  lemma {:induction false} SearchIgnoresCase(posts: seq<ClientPost>, term: string)
    ensures Search(posts, Lower(term)) == Search(posts, term)
  {
    LowerIdempotent(term);
    WhereSame(posts, (p: ClientPost) => Matches(p, Lower(term)), (p: ClientPost) => Matches(p, term));
  }

  // ---------------------------------------------------------------- slicing

  const PostsPerPage := 6

  /** The index `Array.prototype.slice` resolves an argument to: a negative
      one counts from the end, and both are clamped to the length. */
  function SliceIndex(x: int, n: nat): (r: nat)
    ensures r <= n
    ensures 0 <= x ==> r == Min(x, n)
  {
    if x < 0 then (if x + n < 0 then 0 else x + n) else Min(x, n)
  }

  function JsSlice<T>(s: seq<T>, start: int, end: int): (r: seq<T>)
    ensures |r| <= |s|
  {
    var a, b := SliceIndex(start, |s|), SliceIndex(end, |s|);
    if a < b then s[a..b] else []
  }

  /** `filteredPosts.slice((page - 1) * 6, (page - 1) * 6 + 6)`. */
  function PageSlice<T>(filtered: seq<T>, page: int): seq<T> {
    var start := (page - 1) * PostsPerPage;
    JsSlice(filtered, start, start + PostsPerPage)
  }

  /** `Math.ceil(filteredPosts.length / 6)`. */
  function TotalPages(n: nat): (r: nat)
    ensures (r - 1) * PostsPerPage < n <= r * PostsPerPage
  {
    CeilDivPos(n, PostsPerPage)
  }

  /** Page `p` holds the posts at positions `[(p - 1) * 6, p * 6)`. */
  lemma {:induction false} PageSliceContents<T>(filtered: seq<T>, page: int)
    requires page >= 1
    ensures var r, start := PageSlice(filtered, page), (page - 1) * PostsPerPage;
      && |r| == (if start >= |filtered| then 0 else Min(PostsPerPage, |filtered| - start))
      && forall i :: 0 <= i < |r| ==> r[i] == filtered[start + i]
  {
  }

  /** A page has posts exactly when it is one of the `TotalPages` pages. */
  lemma {:induction false} PageNonEmptyIff<T>(filtered: seq<T>, page: int)
    requires page >= 1
    ensures PageSlice(filtered, page) != [] <==> page <= TotalPages(|filtered|)
  {
    PageSliceContents(filtered, page);
    var t := TotalPages(|filtered|);
    if page <= t {
      assert (page - 1) * PostsPerPage <= (t - 1) * PostsPerPage;
    } else {
      assert (page - 1) * PostsPerPage >= t * PostsPerPage;
    }
  }

  // ---------------------------------------------------------------- page window

  /** `Math.min(5, totalPages)`, as the length `Array.from` takes. */
  function WindowLength(total: int): nat {
    if total < 0 then 0 else Min(5, total)
  }

  /** The page number of the `i`-th button. */
  function PageNum(current: int, total: int, i: int): int {
    if total <= 5 then i + 1
    else if current <= 3 then i + 1
    else if current >= total - 2 then total - 4 + i
    else current - 2 + i
  }

  /** The numbered buttons: consecutive page numbers, all within `[1, total]`
      whatever the current page. */
  function PageWindow(current: int, total: int): (w: seq<int>)
    ensures |w| == WindowLength(total)
    ensures forall i :: 0 <= i < |w| - 1 ==> w[i + 1] == w[i] + 1
    ensures forall i :: 0 <= i < |w| ==> 1 <= w[i] <= total
  {
    seq(WindowLength(total), i requires 0 <= i < WindowLength(total) => PageNum(current, total, i))
  }

  /** The current page, when it is a real page, always has its button. */
  lemma {:induction false} PageWindowHasCurrent(current: int, total: int)
    requires 1 <= current <= total
    ensures current in PageWindow(current, total)
  {
    var w := PageWindow(current, total);
    var i := current - w[0];
    assert 0 <= i < |w| && w[i] == current by {
      assert forall j :: 0 <= j < |w| ==> w[j] == w[0] + j;
    }
  }

  /** Five pages or more give five buttons. */
  lemma {:induction false} PageWindowFull(current: int, total: int)
    requires total >= 5
    ensures |PageWindow(current, total)| == 5
  {
  }

  /** Previous is disabled on page 1 and Next on the last page. */
  predicate PrevDisabled(current: int) { current == 1 }
  predicate NextDisabled(current: int, total: int) { current == total }

  /** From a real page, an enabled Previous or Next leads to a real page. */
  lemma {:induction false} NavigationStaysInRange(current: int, total: int)
    requires 1 <= current <= total
    ensures !PrevDisabled(current) ==> 1 <= current - 1
    ensures !NextDisabled(current, total) ==> current + 1 <= total
  {
  }

  // ---------------------------------------------------------------- tag chips

  /** A card's chips: the first three tags, and the count of the rest when
      there are more than three. */
  datatype Chips = Chips(shown: seq<string>, more: Option<nat>)

  function TagChips(tags: seq<string>): (c: Chips)
    ensures |c.shown| == Min(3, |tags|) && c.shown == tags[..|c.shown|]
    ensures c.more.Some? <==> |tags| > 3
    ensures c.more.Some? ==> |c.shown| + c.more.value == |tags|
  {
    if |tags| > 3 then Chips(tags[..3], Some(|tags| - 3)) else Chips(tags, None)
  }

  // ---------------------------------------------------------------- filter state

  /** The condition under which the client-side effect fills the list: all
      posts have arrived (`loaded`), and there is a search term or a cleared
      search with no tag selected. */
  predicate ClientFills(loaded: bool, searchTerm: string, selectedTag: Option<string>, hasSearched: bool) {
    loaded && (searchTerm != "" || (hasSearched && !Truthy(selectedTag)))
  }

  /** The API effect's guard: it returns early exactly in those cases. */
  predicate ApiFetches(searchTerm: string, selectedTag: Option<string>, hasSearched: bool) {
    !(Truthy(Some(searchTerm)) || (hasSearched && !Truthy(selectedTag)))
  }

  /** The two effects never both fill the list, and once all posts have
      arrived exactly one of them does. */
  lemma {:induction false} EffectsComplementary(loaded: bool, searchTerm: string, selectedTag: Option<string>, hasSearched: bool)
    ensures !(ApiFetches(searchTerm, selectedTag, hasSearched) && ClientFills(loaded, searchTerm, selectedTag, hasSearched))
    ensures loaded ==> (ApiFetches(searchTerm, selectedTag, hasSearched) <==> !ClientFills(loaded, searchTerm, selectedTag, hasSearched))
  {
  }

  /** Before all posts have arrived (or when none came back), a typed search
      is handled by neither effect: the list on screen stays as it was. */
  lemma {:induction false} SearchBeforePostsArrive(searchTerm: string, selectedTag: Option<string>, hasSearched: bool)
    requires searchTerm != ""
    ensures !ClientFills(false, searchTerm, selectedTag, hasSearched)
    ensures !ApiFetches(searchTerm, selectedTag, hasSearched)
  {
  }

  /** The request the API effect sends: by tag when a tag is selected. */
  datatype Fetch = ByTag(tag: string, page: int, limit: int) | Latest(page: int, limit: int)

  function FetchFor(selectedTag: Option<string>, currentPage: int): (f: Fetch)
    ensures f.limit == PostsPerPage && f.page == currentPage
    ensures f.ByTag? <==> Truthy(selectedTag)
  {
    if Truthy(selectedTag) then ByTag(selectedTag.value, currentPage, PostsPerPage)
    else Latest(currentPage, PostsPerPage)
  }

  /** The page component's state. `allPosts` is what the first fetch of up
      to 100 posts returned. */
  class BlogPageState {
    var allPosts: seq<ClientPost>
    var posts: seq<ClientPost>
    var currentPage: int
    var totalPages: int
    var searchTerm: string
    var selectedTag: Option<string>
    var hasSearched: bool

    constructor ()
      ensures allPosts == [] && posts == [] && currentPage == 1 && totalPages == 0
      ensures searchTerm == "" && selectedTag.None? && !hasSearched
    {
      allPosts, posts := [], [];
      currentPage, totalPages := 1, 0;
      searchTerm, selectedTag, hasSearched := "", None, false;
    }

    /** `handlePageChange`: moves to the page, nothing else. */
    method HandlePageChange(page: int)
      modifies this
      ensures currentPage == page
      ensures searchTerm == old(searchTerm) && selectedTag == old(selectedTag) && hasSearched == old(hasSearched)
      ensures allPosts == old(allPosts) && posts == old(posts) && totalPages == old(totalPages)
    {
      currentPage := page;
    }

    /** `handleTagClick`: clicking the selected tag clears it and keeps the
        page; any other tag (the "All Posts" button passes "") is selected
        and the page goes back to 1; the search flag is cleared either way. */
    method HandleTagClick(tag: string)
      modifies this
      ensures old(selectedTag) == Some(tag) ==> selectedTag.None? && currentPage == old(currentPage)
      ensures old(selectedTag) != Some(tag) ==> selectedTag == Some(tag) && currentPage == 1
      ensures !hasSearched
      ensures searchTerm == old(searchTerm)
      ensures allPosts == old(allPosts) && posts == old(posts) && totalPages == old(totalPages)
    {
      if selectedTag == Some(tag) {
        selectedTag := None;
      } else {
        selectedTag := Some(tag);
        currentPage := 1;
      }
      hasSearched := false;
    }

    /** `handleSearchChange`: records the term, goes back to page 1, and
        clears the search flag only when the term is empty. */
    method HandleSearchChange(value: string)
      modifies this
      ensures searchTerm == value && currentPage == 1
      ensures hasSearched == (old(hasSearched) && value != "")
      ensures selectedTag == old(selectedTag)
      ensures allPosts == old(allPosts) && posts == old(posts) && totalPages == old(totalPages)
    {
      searchTerm := value;
      currentPage := 1;
      if value == "" {
        hasSearched := false;
      }
    }

    /** The client-side effect: with posts loaded and a reason to search,
        shows the current page of the matches (or of all posts when the
        search was cleared) and their page count; otherwise changes nothing. */
    method ClientEffect()
      modifies this
      ensures var fills := ClientFills(|old(allPosts)| > 0, old(searchTerm), old(selectedTag), old(hasSearched));
        && (!fills ==> posts == old(posts) && totalPages == old(totalPages) && hasSearched == old(hasSearched))
        && (fills ==>
              var filtered := if old(searchTerm) != "" then Search(allPosts, searchTerm) else allPosts;
              && posts == PageSlice(filtered, currentPage)
              && totalPages == TotalPages(|filtered|)
              && hasSearched == (old(hasSearched) || old(searchTerm) != ""))
      ensures allPosts == old(allPosts) && currentPage == old(currentPage)
      ensures searchTerm == old(searchTerm) && selectedTag == old(selectedTag)
    {
      if |allPosts| == 0 {
        return;
      }
      var filtered := allPosts;
      if searchTerm != "" {
        hasSearched := true;
        filtered := Search(allPosts, searchTerm);
      } else if hasSearched && !Truthy(selectedTag) {
        filtered := allPosts;
      } else {
        return;
      }
      posts := PageSlice(filtered, currentPage);
      totalPages := TotalPages(|filtered|);
    }

    /** The API effect: the request it sends for the current state, or none
        when the client-side effect owns the list. */
    method ApiEffect() returns (f: Option<Fetch>)
      ensures f.Some? <==> ApiFetches(searchTerm, selectedTag, hasSearched)
      ensures f.Some? ==> f.value == FetchFor(selectedTag, currentPage)
    {
      if searchTerm != "" || (hasSearched && !Truthy(selectedTag)) {
        return None;
      }
      return Some(FetchFor(selectedTag, currentPage));
    }
  }

  /** Clearing the search with no tag selected hands the list back to the
      API effect, which fetches the first page of the latest posts. */
  lemma {:induction false} ClearingSearchRefetches(selectedTag: Option<string>, hasSearched: bool)
    requires !Truthy(selectedTag)
    ensures ApiFetches("", selectedTag, hasSearched && "" != "")
    ensures FetchFor(selectedTag, 1) == Latest(1, PostsPerPage)
  {
  }
}
