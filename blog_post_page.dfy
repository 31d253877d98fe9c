/** The single-post page: fetching the post named by the route's slug, the
    related posts drawn from its first tag, the paragraphs its content is
    split into, and which view the page shows. */
module BlogPostPage {
  import opened Text
  import opened Query
  import opened ApiClient

  /** The fields of a post the page reads. */
  datatype FullPost = FullPost(id: string, title: string, content: string, excerpt: string, tags: seq<string>)

  // ---------------------------------------------------------------- related posts

  /** The query for related posts: the first tag, page 1, three per page;
      none for an untagged post. */
  datatype TagQuery = TagQuery(tag: string, page: int, limit: int)

  function RelatedQuery(p: FullPost): (q: Option<TagQuery>)
    ensures q.Some? <==> |p.tags| >= 1
    ensures q.Some? ==> q.value == TagQuery(p.tags[0], 1, 3)
  {
    if |p.tags| > 0 then Some(TagQuery(p.tags[0], 1, 3)) else None
  }

  predicate OtherThan(id: string, q: FullPost) { q.id != id }

  /** `related.posts.filter(p => p._id !== post._id).slice(0, 2)`. */
  function RelatedPosts(fetched: seq<FullPost>, id: string): (r: seq<FullPost>)
    ensures |r| <= 2
    ensures forall i :: 0 <= i < |r| ==> r[i].id != id && r[i] in fetched
  {
    var others := Where(fetched, (q: FullPost) => OtherThan(id, q));
    if |others| < 2 then others else others[..2]
  }

  /** The related list is the first two of the other posts, in the order
      the server returned them: two whenever there are two. */
  lemma {:induction false} RelatedPostsPrefix(fetched: seq<FullPost>, id: string)
    ensures var others := Where(fetched, (q: FullPost) => OtherThan(id, q));
      && RelatedPosts(fetched, id) == others[..|RelatedPosts(fetched, id)|]
      && |RelatedPosts(fetched, id)| == Min(2, |others|)
  {
  }

  /** With the current post among three results, the other two are shown. */
  lemma {:induction false} CurrentPostDropped(a: FullPost, b: FullPost, c: FullPost)
    requires a.id != b.id && b.id != c.id && a.id != c.id
    ensures RelatedPosts([a, b, c], b.id) == [a, c]
  {
    var keep := (q: FullPost) => OtherThan(b.id, q);
    var s := [a, b, c];
    assert s[1..] == [b, c] && s[1..][1..] == [c] && s[1..][1..][1..] == [];
    assert Where([c], keep) == [c] + Where([], keep);
    assert Where([b, c], keep) == Where([c], keep);
    assert Where(s, keep) == [a] + Where([b, c], keep);
    assert Where(s, keep) == [a, c];
  }

  // ---------------------------------------------------------------- paragraphs

  const ParagraphBreak := "\n\n"

  /** `content.split('\n\n')`. */
  function Paragraphs(content: string): (r: seq<string>)
    ensures |r| >= 1
  {
    Split(content, ParagraphBreak)
  }

  /** The paragraphs are the whole content: joined with the break they give
      it back, and none of them contains a break. */
  lemma {:induction false} ParagraphsPartition(content: string)
    ensures Join(Paragraphs(content), ParagraphBreak) == content
    ensures forall i :: 0 <= i < |Paragraphs(content)| ==> !Includes(Paragraphs(content)[i], ParagraphBreak)
  {
    JoinSplit(content, ParagraphBreak);
    SplitPiecesFree(content, ParagraphBreak);
  }

  // ---------------------------------------------------------------- the page

  /** What the page renders. */
  datatype View = Spinner | NotFound(message: string) | Shown(post: FullPost, paragraphs: seq<string>, related: seq<FullPost>)

  const NotFoundMessage := "The blog post you're looking for doesn't exist."

  const FetchFailedMessage := "Failed to fetch post"

  /** `err instanceof Error ? err.message : 'Failed to fetch post'`. */
  function ErrorText(e: Failure): (m: string)
    ensures !e.NotAnError? ==> m == e.message
    ensures e.NotAnError? ==> m == FetchFailedMessage
  {
    if e.NotAnError? then FetchFailedMessage else e.message
  }

  /** The page component's state. */
  class PostPageState {
    var post: Option<FullPost>
    var loading: bool
    var error: Option<string>
    var relatedPosts: seq<FullPost>

    constructor ()
      ensures post.None? && loading && error.None? && relatedPosts == []
    {
      post, loading, error, relatedPosts := None, true, None, [];
    }

    /** `fetchPost` for the route's slug: nothing when there is no slug;
        otherwise the post, then (for a tagged post) its related posts, with
        a failure of either fetch recorded as the error. `fetched` is what
        `getPost` returned and `related` what `getPostsByTag` returned. */
    method FetchPost(slug: Option<string>, fetched: Attempt<FullPost>, related: Attempt<seq<FullPost>>)
      modifies this
      ensures !Truthy(slug) ==> post == old(post) && loading == old(loading) && error == old(error)
                                && relatedPosts == old(relatedPosts)
      ensures Truthy(slug) ==> !loading
      ensures Truthy(slug) && fetched.Threw? ==>
        post == old(post) && error == Some(ErrorText(fetched.error)) && relatedPosts == old(relatedPosts)
      ensures Truthy(slug) && fetched.Ok? ==> post == Some(fetched.value)
      ensures Truthy(slug) && fetched.Ok? && RelatedQuery(fetched.value).None? ==>
        error == old(error) && relatedPosts == old(relatedPosts)
      ensures Truthy(slug) && fetched.Ok? && RelatedQuery(fetched.value).Some? ==>
        if related.Ok? then error == old(error) && relatedPosts == RelatedPosts(related.value, fetched.value.id)
        else error == Some(ErrorText(related.error)) && relatedPosts == old(relatedPosts)
    {
      if !Truthy(slug) {
        return;
      }
      loading := true;
      if fetched.Threw? {
        error := Some(ErrorText(fetched.error));
      } else {
        post := Some(fetched.value);
        if RelatedQuery(fetched.value).Some? {
          if related.Ok? {
            relatedPosts := RelatedPosts(related.value, fetched.value.id);
          } else {
            error := Some(ErrorText(related.error));
          }
        }
      }
      loading := false;
    }

    /** The view for the current state. */
    function Render(): (v: View)
      reads this
      ensures loading <==> v.Spinner?
      ensures !loading && (Truthy(error) || post.None?) <==> v.NotFound?
      ensures v.NotFound? && Truthy(error) ==> v.message == error.value
      ensures v.Shown? ==> Some(v.post) == post && v.paragraphs == Paragraphs(v.post.content)
    {
      if loading then Spinner
      else if Truthy(error) || post.None? then NotFound(if Truthy(error) then error.value else NotFoundMessage)
      else Shown(post.value, Paragraphs(post.value.content), relatedPosts)
    }
  }

  /** The page a fresh load ends on: the view for a post whose related
      fetch succeeded, or not-found after any failure, including a failed
      related fetch after the post itself arrived. */
  function ViewAfterLoad(fetched: Attempt<FullPost>, related: Attempt<seq<FullPost>>): (v: View)
    ensures v.NotFound? <==>
      fetched.Threw? || (RelatedQuery(fetched.value).Some? && related.Threw? && ErrorText(related.error) != "")
    ensures v.Shown? ==> fetched == Ok(v.post) && |v.related| <= 2
  {
    if fetched.Threw? then
      var m := ErrorText(fetched.error);
      NotFound(if m != "" then m else NotFoundMessage)
    else if RelatedQuery(fetched.value).Some? && related.Threw? && ErrorText(related.error) != "" then
      NotFound(ErrorText(related.error))
    else
      var rel := if RelatedQuery(fetched.value).Some? && related.Ok? then RelatedPosts(related.value, fetched.value.id) else [];
      Shown(fetched.value, Paragraphs(fetched.value.content), rel)
  }

  /** Loading a page from scratch through `FetchPost` ends on exactly the
      view `ViewAfterLoad` describes. */
  method LoadPage(slug: string, fetched: Attempt<FullPost>, related: Attempt<seq<FullPost>>) returns (v: View)
    requires slug != ""
    ensures v == ViewAfterLoad(fetched, related)
  {
    var page := new PostPageState();
    page.FetchPost(Some(slug), fetched, related);
    v := page.Render();
  }
}
