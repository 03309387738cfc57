/** The main feed page (pages/feed/index.js): the client-side search over
    the fetched page of posts, the rule choosing what the card list shows,
    the search-form query, and the checks on a new post's content. The
    fetched `blogData`, the current `filterMode` and the typed text are
    inputs here. */
module FeedPage {
  import opened Wrappers
  import opened Seqs
  import opened Text
  import opened Records

  /** The shortest input for which the search filters at all. */
  const MinFilterLength: nat := 3
  /** The shortest search string the form submits. */
  const MinQueryLength: nat := 5
  /** The shortest content a post may be uploaded with. */
  const MinContentLength: nat := 5

  /** The callback `filterPostHandler` picks by `filterMode`; any mode it
      does not name falls through to the content search. */
  predicate Matches(post: Post, filterMode: string, input: string)
  {
    if filterMode == "content" then FoldIncludes(post.content, input)
    else if filterMode == "uploader_email" then FoldIncludes(post.uploaderEmail, input)
    else if filterMode == "username" then FoldIncludes(post.uploaderData.username, input)
    else if filterMode == "fullname" then
      FoldIncludes(post.uploaderData.firstName, input) || FoldIncludes(post.uploaderData.lastName, input)
    else FoldIncludes(post.content, input)
  }

  /** The value `filterPostHandler` stores in `filteredPosts`: nothing for an
      input under three characters, otherwise exactly the posts of the page
      whose selected field contains the input, ignoring case. The page
      attaches the handler to no element and never changes `filterMode`
      from "content", so this is what the handler computes when called. */
  function FilterPosts(blogData: seq<Post>, input: string, filterMode: string): (r: seq<Post>)
    ensures |input| < MinFilterLength ==> r == []
    ensures |input| >= MinFilterLength ==> forall p :: p in r <==> p in blogData && Matches(p, filterMode, input)
    ensures |input| >= MinFilterLength ==>
      forall p :: multiset(r)[p] == if Matches(p, filterMode, input) then multiset(blogData)[p] else 0
    ensures IsSubsequence(r, blogData)
  {
    if |input| >= MinFilterLength then
      FilterIsSubsequence(blogData, p => Matches(p, filterMode, input));
      FilterMultiplicity(blogData, p => Matches(p, filterMode, input));
      Filter(blogData, p => Matches(p, filterMode, input))
    else
      SubsequenceEmpty(blogData);
      []
  }

  /** A mode other than the four named ones searches the content. */
  lemma UnknownModeSearchesContent(blogData: seq<Post>, input: string, filterMode: string)
    requires filterMode != "content" && filterMode != "uploader_email"
    requires filterMode != "username" && filterMode != "fullname"
    ensures FilterPosts(blogData, input, filterMode) == FilterPosts(blogData, input, "content")
  {
    FilterCongruent(blogData, p => Matches(p, filterMode, input), p => Matches(p, "content", input));
  }

  /** The "fullname" search reads the first and last names only: posts that
      differ in their author's middle name match alike. */
  lemma FullnameIgnoresMiddleName(post: Post, middle: string, input: string)
    ensures Matches(post.(uploaderData := post.uploaderData.(middleName := middle)), "fullname", input)
        <==> FoldIncludes(post.uploaderData.firstName, input) || FoldIncludes(post.uploaderData.lastName, input)
  {
  }

  /** The search does not depend on the case of the input's letters. */
  lemma SearchIgnoresInputCase(blogData: seq<Post>, input: string, filterMode: string)
    ensures FilterPosts(blogData, ToLower(input), filterMode) == FilterPosts(blogData, input, filterMode)
  {
    forall p | p in blogData
      ensures Matches(p, filterMode, ToLower(input)) == Matches(p, filterMode, input)
    {
      FoldIncludesCaseInsensitive(p.content, input);
      FoldIncludesCaseInsensitive(p.uploaderEmail, input);
      FoldIncludesCaseInsensitive(p.uploaderData.username, input);
      FoldIncludesCaseInsensitive(p.uploaderData.firstName, input);
      FoldIncludesCaseInsensitive(p.uploaderData.lastName, input);
    }
    FilterCongruent(blogData, p => Matches(p, filterMode, ToLower(input)), p => Matches(p, filterMode, input));
  }

  /** The card list: `filteredPosts` when it has an element, else `blogData`.
      It is one of the two lists, is empty only when both are, and shows
      fetched posts in fetched order whenever the search result does. */
  function Displayed(filteredPosts: seq<Post>, blogData: seq<Post>): (shown: seq<Post>)
    ensures |filteredPosts| >= 1 ==> shown == filteredPosts
    ensures filteredPosts == [] ==> shown == blogData
    ensures shown == [] <==> filteredPosts == [] && blogData == []
    ensures IsSubsequence(filteredPosts, blogData) ==> IsSubsequence(shown, blogData)
  {
    SubsequenceReflexive(blogData);
    if |filteredPosts| >= 1 then filteredPosts else blogData
  }

  /** `filteredPosts` starts empty and only `filterPostHandler` changes it,
      so until that handler runs the cards are the whole fetched page. */
  lemma InitialDisplayShowsPage(blogData: seq<Post>)
    ensures Displayed([], blogData) == blogData
  {
  }

  /** What the page shows after a search: a short input shows the whole page,
      and so does an input no post matches; otherwise exactly the matching
      posts. Either way the cards are the fetched ones, in fetched order. */
  lemma DisplayAfterSearch(blogData: seq<Post>, input: string, filterMode: string)
    ensures var shown := Displayed(FilterPosts(blogData, input, filterMode), blogData);
      && IsSubsequence(shown, blogData)
      && (|input| < MinFilterLength ==> shown == blogData)
      && ((forall p :: p in blogData ==> !Matches(p, filterMode, input)) ==> shown == blogData)
      && (|FilterPosts(blogData, input, filterMode)| >= 1 ==> shown == FilterPosts(blogData, input, filterMode))
      && (|FilterPosts(blogData, input, filterMode)| >= 1 ==> forall p :: p in shown <==> p in blogData && Matches(p, filterMode, input))
      && (|FilterPosts(blogData, input, filterMode)| >= 1 ==>
            forall p :: multiset(shown)[p] == if Matches(p, filterMode, input) then multiset(blogData)[p] else 0)
  {
    var f := FilterPosts(blogData, input, filterMode);
    SubsequenceReflexive(blogData);
    if f != [] {
      assert f[0] in f;
    }
  }

  /** The search form: an input under five characters is refused (the page
      shows an error); otherwise the query is the trimmed input with each
      white-space character turned into `+`. */
  function SearchQuery(searchQuery: string): (r: Option<string>)
    ensures r.None? <==> |searchQuery| < MinQueryLength
    ensures r.Some? ==> forall i :: 0 <= i < |r.value| ==> !IsSpace(r.value[i])
    ensures r.Some? ==> |r.value| == |Trim(searchQuery)| <= |searchQuery|
  {
    if |searchQuery| >= MinQueryLength then Some(ReplaceSpaces(Trim(searchQuery))) else None
  }

  /** Only inner white space turns into `+`: the query starts and ends with
      the trimmed input's first and last characters, unchanged. */
  lemma SearchQueryEnds(searchQuery: string)
    requires |searchQuery| >= MinQueryLength
    requires Trim(searchQuery) != []
    ensures var q := SearchQuery(searchQuery).value; var t := Trim(searchQuery);
      q[0] == t[0] && q[|q| - 1] == t[|t| - 1]
  {
  }

  /** The length check comes before the trim: five or more white-space
      characters pass it and give the empty query. */
  lemma BlankSearchAccepted(searchQuery: string)
    requires |searchQuery| >= MinQueryLength
    requires AllSpace(searchQuery)
    ensures SearchQuery(searchQuery) == Some("")
  {
    TrimAllSpace(searchQuery);
  }

  /** The textarea's `onChange`: the stored content is the typed text with
      each line feed written as `<br />`. */
  function StoredContent(value: string): (r: string)
    ensures '\n' !in r
    ensures |r| == |value| + 5 * Count(value, '\n')
  {
    ReplaceNewlines(value)
  }

  /** `addPost`'s guard: content under five characters is refused (the page
      shows an error); otherwise the content goes into the new post as is. */
  function AddPost(blogContent: string): (r: Option<string>)
    ensures r.None? <==> |blogContent| < MinContentLength
    ensures r.Some? ==> r.value == blogContent
  {
    if |blogContent| < MinContentLength then None else Some(blogContent)
  }

  /** The guard measures the stored text, after the line feeds became tags:
      typed text is accepted when its length plus five per line feed reaches
      five, and what is uploaded holds no line feed. */
  lemma AddPostAfterExpansion(value: string)
    ensures AddPost(StoredContent(value)).Some? <==> |value| + 5 * Count(value, '\n') >= MinContentLength
    ensures AddPost(StoredContent(value)).Some? ==> '\n' !in AddPost(StoredContent(value)).value
  {
  }

  /** A lone line feed is accepted as a post: it is stored as `<br />`. */
  lemma LoneNewlineAccepted()
    ensures AddPost(StoredContent("\n")) == Some(LineBreakTag)
  {
    var v := "\n";
    assert v[0] == '\n' && v[1..] == "";
    assert ReplaceNewlines(v) == LineBreakTag + ReplaceNewlines("");
    assert LineBreakTag + "" == LineBreakTag;
    assert StoredContent(v) == LineBreakTag;
    assert |LineBreakTag| >= MinContentLength;
  }
}
