# Wicket feed logic, modelled in Dafny

Wicket is a social feed front end. Its storage, authentication and real-time
delivery all live in a hosted backend. On the client it does a few list and
string transformations, and those are what this project models:

- **Feed provider** (`components/FeedContext.js`). `fetchFeed` keeps the
  fetched `user_feed` rows written by the viewer or by one of the viewer's
  connections. It then splices a blank placeholder in at index 1, to make room
  for the inline recommendation widget. `fetchRecommendedUsers` drops the
  fetched users who are already connections. The viewer id and the stored
  `connections` field come from the `userData` session object.
  `FeedContext.FeedWrapper` is a class holding the provider's three state
  variables (`feed`, `recommendedUsers`, `loading`). Its two handler methods
  update them the way the `set…` calls do.
- **Alternative feed page** (`pages/feed/test.index.js`). The same filter,
  keyed on e-mail addresses. A recommendation filter that also drops the
  viewer. A display that shows the first 3 recommended users on narrow
  screens and the first 5 on wide ones.
- **Main feed page** (`pages/feed/index.js`). A search handler that would
  filter the fetched page case-insensitively by a selected field, starting
  at three characters of input, and a card list that shows the search
  result when it is non-empty and the whole page otherwise. The handler is
  attached to no element, so the page as written always shows the whole
  page (see "The search is not wired up" below). The search form requires five characters, then trims
  the input and turns each white-space character into `+`. Post content has
  each line feed written as `<br />` and must be at least five characters
  long.

Files: `wrappers.dfy` (Option), `seqs.dfy` (the array built-ins `filter`,
`splice` and an index-bounded `map` as React renders it, plus the
subsequence relation), `text.dfy` (`trim`, `\s`, `toLowerCase`, `includes`,
the newline replacement), `records.dfy` (post and user rows),
`feed_context.dfy`, `test_feed_page.dfy` and `feed_page.dfy` (one module per
source file).

Throughout, "subsequence" (`Seqs.IsSubsequence`) means "obtained by deleting
elements": no element is re-ordered, duplicated or invented.

Behaviour worth knowing, as the code does it:

- **Missing connections field.** A session object without a `connections`
  field makes `fetchFeed` throw: it calls `JSON.parse` on `undefined`
  (components/FeedContext.js:50-52), so the feed is not updated
  (`FeedContext.FeedConnections`, `FeedContext.ComposeFeed`).
  `fetchRecommendedUsers` reads the same absent field as `[]`
  (components/FeedContext.js:94-96, `FeedContext.RecommendConnections`).
  `FeedContext.ConnectionReadingsAgree` states where the two readings
  differ.
- **Missing session object.** When there is no `userData` object, `fetchFeed`
  uses `[]` as the connections list, but the filter callback reads
  `sessiondata.id` (components/FeedContext.js:56), so it throws as soon as
  there is a row to check. With no rows it stores the lone placeholder.
  `fetchRecommendedUsers` reads `sessiondata.connections` on `null`
  (components/FeedContext.js:94) and always throws in that case.
- **Viewer in the recommendations.** The filter of `fetchRecommendedUsers`
  (components/FeedContext.js:97-104) drops connections only. The viewer is
  kept out by the query's `.neq('id', user.id)` (line 86) alone; see
  `FeedContext.RecommendBounded`. `test.index.js` drops the viewer only
  when a connections list is present (pages/feed/test.index.js:99-103; see
  `TestFeedPage.NoConnectionsKeepsViewer`).
- **Truncation.** The provider does not truncate the recommendations on the
  client; the query's `.limit(5)` bounds them. Truncation to 3 or 5 happens
  only in the index-bounded `map` of `test.index.js`.
- **One list for e-mails and ids.** In `test.index.js`, the single
  `user_metadata.connections` list is compared with post authors' e-mail
  addresses for the feed (line 76) and with user ids for the
  recommendations (line 101). The model keeps both comparisons as written.
- **The search is not wired up.** In pages/feed/index.js, `filterPostHandler`
  (lines 134-170) is attached to no element; the search form (lines
  194-218) only navigates. `setFilterMode` is never called, so `filterMode`
  stays `"content"` (line 35). `filteredPosts` therefore stays `[]` and the
  card list (lines 223-237) always shows `blogData`
  (`FeedPage.InitialDisplayShowsPage`). `FeedPage.FilterPosts` and the
  lemmas beside it state what the handler computes when it is called.
- **Search with no match.** If the handler did run, a search that matches
  nothing would show the whole page, exactly as a too-short search does
  (`FeedPage.DisplayAfterSearch`).
- **Blank search.** The length check runs before the trim
  (pages/feed/index.js:198-200), so five spaces are accepted and give an
  empty query (`FeedPage.BlankSearchAccepted`).
- **Content length.** The content length check (pages/feed/index.js:74)
  counts the stored text, after each line feed has become `<br />`
  (line 341). A lone line feed is therefore accepted as a post
  (`FeedPage.LoneNewlineAccepted`).
- **Exported setters.** The provider hands `setFeed` and
  `setRecommendedUsers` to every consumer (components/FeedContext.js:110-116).
  `FeedContext.FeedWrapper.Valid` is what the constructor and the two fetch
  handlers keep. A consumer that calls a setter can break it:
  `FeedWrapper.SetFeed` and `FeedWrapper.SetRecommendedUsers` state when it
  still holds afterwards.

## Model

| member | source | states |
|---|---|---|
| `Seqs.Filter` | components/FeedContext.js:54-69 | `Array.prototype.filter`: no longer than the input; every kept element is an input element that passes the callback, and every input element that passes is kept |
| `Seqs.FilterMultiplicity` | components/FeedContext.js:54-69 | `filter` keeps every copy of an element that passes the callback and no copy of one that fails: each multiplicity is the input's or zero |
| `Seqs.FilterIsSubsequence` | components/FeedContext.js:54-69 | the result of `filter` is a subsequence of its input, so the input's order is kept |
| `Seqs.FilterKeepsAll` | components/FeedContext.js:97-104 | when every element passes the callback, `filter` returns the array unchanged |
| `Seqs.FilterIdempotent` | pages/feed/test.index.js:74-81 | filtering a second time with the same callback changes nothing |
| `Seqs.FilterCongruent` | pages/feed/index.js:137-164 | two callbacks that agree on every element give the same `filter` result |
| `Seqs.Splice` | components/FeedContext.js:73 | `splice(start, 0, item)` with JavaScript's clamping of `start`: one element longer; elements before `min(start, length)` stay in place, the item lands there, and later elements move up one place |
| `Seqs.SubsequenceEmpty` | pages/feed/index.js:167-168 | the empty list a short search stores is a subsequence of any page |
| `Seqs.RenderedPrefix` | pages/feed/test.index.js:171-177 | a `map` callback that returns the element only below an index bound, rendered with its `undefined` entries skipped, shows exactly the first `min(bound, length)` elements, in order |
| `Text.TrimStart` | pages/feed/index.js:200 | the result is a suffix of the input; everything removed is white space; the result does not start with white space |
| `Text.TrimEnd` | pages/feed/index.js:200 | the result is a prefix of the input; everything removed is white space; the result does not end with white space |
| `Text.Trim` | pages/feed/index.js:200 | `trim()` is no longer than its input, and its result neither starts nor ends with white space |
| `Text.TrimIsSlice` | pages/feed/index.js:200 | `trim()` returns a contiguous slice of its input with only white space on either side |
| `Text.TrimAllSpace` | pages/feed/index.js:198-200 | input made only of white space trims to the empty string |
| `Text.ReplaceSpaces` | pages/feed/index.js:202 | `replace(/\s/g, "+")` keeps the length; each white-space character becomes `+`, and every other character is unchanged in place |
| `Text.ReplaceNewlines` | pages/feed/index.js:341 | `replace(/\n/g, "<br />")` leaves no line feed, and the result is five characters longer per line feed |
| `Text.ReplaceNewlinesAppend` | pages/feed/index.js:341 | the replacement works character by character: it distributes over concatenation |
| `Text.ReplaceNewlinesNoNewline` | pages/feed/index.js:341 | text without a line feed is stored exactly as typed |
| `Text.RestoreReplaceNewlines` | pages/feed/index.js:341 | nothing but the line feeds changes: for text without `<`, turning each `<br />` back into a line feed recovers the original |
| `Text.LowerCharAgrees` | pages/feed/index.js:140 | folding two characters gives the same character iff they are equal or the same ASCII letter in the other case |
| `Text.ToLower` | pages/feed/index.js:140 | lower-casing keeps the length, leaves no ASCII capital, and leaves each character the same as the input's ignoring case |
| `Text.ToLowerEqual` | pages/feed/index.js:140 | two strings lower-case alike iff they have the same length and agree position by position ignoring case |
| `Text.ToLowerIdempotent` | pages/feed/index.js:140 | lower-casing twice is the same as lower-casing once |
| `Text.IncludesAt` | pages/feed/index.js:140 | `includes` holds exactly when the searched string occurs at some position |
| `Text.FoldIncludesMeaning` | pages/feed/index.js:140 | the folded containment test holds iff the query occurs at some position of the field, each character matching ignoring case |
| `Text.FoldIncludesCaseInsensitive` | pages/feed/index.js:140 | the case-folded containment test depends neither on the letter case of the query nor on that of the field |
| `FeedContext.FeedConnections` | components/FeedContext.js:49-52 | `fetchFeed`'s reading of the connections throws iff a session object has no `connections` field; otherwise the list read holds exactly the ids stored in the field (none without a session or for `null`) |
| `FeedContext.VisibleRows` | components/FeedContext.js:54-69 | the filtered rows are exactly the fetched rows whose `uploader_id` is the viewer's id or is in the connections list, each with its fetched multiplicity, as a subsequence of the fetched rows |
| `FeedContext.WithSlot` | components/FeedContext.js:71-73 | splicing the blank object in once gives one more entry than there are posts; the only placeholder is at index `min(1, number of posts)` |
| `FeedContext.RemovingPlaceholderRestoresRows` | components/FeedContext.js:71-75 | removing the placeholder from the spliced feed gives back exactly the filtered rows |
| `FeedContext.ComposeFeed` | components/FeedContext.js:49-75 | `fetchFeed` throws exactly when there is no session object and some row to check, or when the session has no `connections` field; with no session object and no rows, the feed is the lone placeholder |
| `FeedContext.FeedShowsExactlyVisible` | components/FeedContext.js:54-69 | soundness and completeness: the feed's posts are exactly the fetched rows by the viewer or by an id stored in the `connections` field, each with its fetched multiplicity, and they are a subsequence of the fetched rows |
| `FeedContext.NullConnectionsShowOwnPosts` | components/FeedContext.js:50-66 | with a `null` connections field, only the viewer's own posts remain |
| `FeedContext.FeedHasOneSlot` | components/FeedContext.js:73 | every feed `fetchFeed` stores has exactly one placeholder, at index `min(1, number of posts)`, and its length is the number of posts plus one |
| `FeedContext.FeedAtMostEleven` | components/FeedContext.js:39-73 | with at most 10 fetched rows (`.limit(10)`), the feed has at most 11 entries |
| `FeedContext.FeedKeepsNewestFirst` | components/FeedContext.js:39-54 | rows fetched newest-first give a newest-first feed: the provider does not re-sort |
| `FeedContext.RecommendConnections` | components/FeedContext.js:93-96 | `fetchRecommendedUsers`'s reading of the connections throws iff there is no session object; otherwise the list read holds exactly the ids stored in the field (none when it is absent or `null`) |
| `FeedContext.ConnectionReadingsAgree` | components/FeedContext.js:49-96 | `fetchFeed`'s reading (lines 49-52) and `fetchRecommendedUsers`'s (lines 93-96) read the connections alike iff there is a session object whose `connections` field is present |
| `FeedContext.Recommend` | components/FeedContext.js:93-106 | `fetchRecommendedUsers` throws exactly when there is no session object. Otherwise the result is a subsequence of the fetched users, and a user is in it iff it was fetched and its id is not stored in the `connections` field; each kept user keeps its fetched multiplicity. With an absent or `null` field the result is the fetched list unchanged |
| `FeedContext.RecommendBounded` | components/FeedContext.js:82-106 | with at most 5 fetched users (`.limit(5)`), none of them the viewer (`.neq`), at most 5 users are recommended and none of them is the viewer |
| `FeedContext.FeedWrapper.constructor` | components/FeedContext.js:12-14 | the provider starts with an empty feed, no recommended users, and `loading` set |
| `FeedContext.FeedWrapper.FetchFeed` | components/FeedContext.js:36-78 | a query error or a throw leaves the state unchanged. Otherwise `feed` becomes the composed feed and `loading` is cleared. The invariant holds throughout (at most 11 entries, newest-first, one placeholder once loaded), and the recommended users are untouched |
| `FeedContext.FeedWrapper.FetchRecommendedUsers` | components/FeedContext.js:81-108 | a query error or a missing session object leaves the state unchanged. Otherwise `recommendedUsers` becomes the filtered list. The feed and `loading` are untouched, and the invariant is kept |
| `FeedContext.FeedWrapper.SetFeed` | components/FeedContext.js:110-116 | the exported `setFeed` stores any array a consumer passes and nothing else; the invariant then holds iff that array has the shape the fetch handlers give the feed |
| `FeedContext.FeedWrapper.SetRecommendedUsers` | components/FeedContext.js:110-116 | the exported `setRecommendedUsers` stores any list a consumer passes and nothing else; the invariant then holds iff that list has at most 5 users |
| `TestFeedPage.FilterFeed` | pages/feed/test.index.js:70-83 | a post is kept iff the connections list is present and holds its `uploader_email`, or its `uploader_email` is the viewer's; a kept post keeps its multiplicity; the result is a subsequence of `feedData` |
| `TestFeedPage.NoConnectionsOwnPostsOnly` | pages/feed/test.index.js:76-77 | without a connections list, exactly the viewer's own posts remain |
| `TestFeedPage.FilterFeedIdempotent` | pages/feed/test.index.js:74-82 | re-running the feed filter on its own output changes nothing |
| `TestFeedPage.Recommend` | pages/feed/test.index.js:99-103 | without a connections list, the list is `recomUserData` unchanged. With one, a user is kept iff its id is neither in the list nor the viewer's id, with its fetched multiplicity. Either way the result is a subsequence of `recomUserData` |
| `TestFeedPage.NoConnectionsKeepsViewer` | pages/feed/test.index.js:99-103 | without a connections list, a fetched row with the viewer's id is still recommended |
| `TestFeedPage.NarrowRecommended` | pages/feed/test.index.js:171-177 | the narrow layout shows exactly the first `min(3, n)` recommended users, in order |
| `TestFeedPage.WideRecommended` | pages/feed/test.index.js:194-200 | the wide layout shows exactly the first `min(5, n)` recommended users, in order |
| `TestFeedPage.NarrowIsPrefixOfWide` | pages/feed/test.index.js:171-200 | what the narrow layout shows is a prefix of what the wide layout shows |
| `FeedPage.FilterPosts` | pages/feed/index.js:134-170 | an input under 3 characters gives the empty list. Otherwise a post is in the result iff it is on the page and its selected field contains the input, ignoring case. A matching post keeps its multiplicity. The result is always a subsequence of the page |
| `FeedPage.UnknownModeSearchesContent` | pages/feed/index.js:137-164 | a `filterMode` other than the four named ones gives the same result as `"content"` |
| `FeedPage.FullnameIgnoresMiddleName` | pages/feed/index.js:152-161 | the `"fullname"` mode matches iff the first or the last name contains the input, whatever the middle name |
| `FeedPage.SearchIgnoresInputCase` | pages/feed/index.js:137-164 | lower-casing the input does not change the search result |
| `FeedPage.Displayed` | pages/feed/index.js:223-237 | the card list is `filteredPosts` when that has at least one element and `blogData` when it is empty; it is empty only when both are; it is a subsequence of the page whenever the search result is |
| `FeedPage.InitialDisplayShowsPage` | pages/feed/index.js:223-237 | while `filteredPosts` keeps its initial `[]`, the cards are the whole page |
| `FeedPage.DisplayAfterSearch` | pages/feed/index.js:223-237 | the cards shown are a subsequence of the page. They are the whole page when the input is under 3 characters or matches no post, and otherwise exactly the search result: the matching posts, each with its multiplicity on the page |
| `FeedPage.SearchQuery` | pages/feed/index.js:196-207 | the search is refused iff the raw input is under 5 characters. Otherwise the query has no white space and is as long as the trimmed input |
| `FeedPage.SearchQueryEnds` | pages/feed/index.js:199-202 | only inner white space becomes `+`: the query's first and last characters are those of the trimmed input |
| `FeedPage.BlankSearchAccepted` | pages/feed/index.js:197-202 | five or more white-space characters pass the length check and give the empty query |
| `FeedPage.StoredContent` | pages/feed/index.js:340-342 | the stored content has no line feed and is exactly five characters longer than the typed text per line feed |
| `FeedPage.AddPost` | pages/feed/index.js:74-77 | a post is refused iff its content is under 5 characters; otherwise the content is uploaded as stored |
| `FeedPage.AddPostAfterExpansion` | pages/feed/index.js:74-77 | typed text becomes a post iff its length plus five per line feed reaches 5, and the uploaded text holds no line feed |
| `FeedPage.LoneNewlineAccepted` | pages/feed/index.js:74-77 | a lone line feed is accepted, and is uploaded as `<br />` |

## Left out

- All backend calls are left out. The model takes what a query resolves to
  (`Response`: rows or an error) as an input. These calls are `select`,
  `order`, `limit`, `neq` and `insert`, the `useSelect`/`useRealtime` hooks,
  and the realtime subscription that re-runs `fetchFeed` on every change
  (components/FeedContext.js:17-26). Three query properties are `requires`
  clauses on the `FeedWrapper` methods: the feed's newest-first order and
  `.limit(10)`, and the users' `.limit(5)`. The users' `.order('id')` plays
  no part in any property and is not modelled. The users' `.neq('id',
  user.id)` appears only as a `requires` of `FeedContext.RecommendBounded`.
- Storage reads are left out: `sessionStorage`, `localStorage` and
  `JSON.parse`. The decoded values are inputs. The stored `connections` field
  is limited to three forms: absent, the JSON of `null`, or the JSON of an
  array of ids. Any other text (malformed JSON, a JSON string or number) is
  not modelled.
- In pages/feed/test.index.js the signed-in user is an input. The case where
  `__supabase.auth.user()` returns `null`, so that `filterFeed` throws, is not
  modelled.
- `Text.ToLower`: only ASCII letters are folded. JavaScript's `toLowerCase`
  folds all of Unicode, so non-ASCII capitals are not matched
  case-insensitively here.
- Strings are sequences of Unicode scalar values. JavaScript's `length` counts
  UTF-16 code units, so the 3- and 5-character thresholds differ for
  characters outside the Basic Multilingual Plane.
- `FeedPage.SearchQuery` models only the query. The navigation to
  `/search?query=…` is left out. The query is not URL-encoded beyond the `+`
  substitution, and the model does not encode it either.
- `addPost` is modelled by its guard only. Filling the shared `$schema_blog`
  object (uuid, `dayjs` timestamps, uploader metadata), the insert, the toasts
  and the modal state are side effects on foreign libraries. `schemas/blog`
  is not part of this model.
- Rows are reduced to the fields the code reads. Comments, upvoters and update
  timestamps are not modelled, nor are rows with missing fields (reading them
  would throw in `toLowerCase`).
- `FeedContext.FeedWrapper.Valid` holds across the constructor and the two
  fetch handlers only. The fetch methods require it, so a sequence of calls
  that includes a consumer's `setFeed` or `setRecommendedUsers` with an
  arbitrary value is covered only up to that call (see `SetFeed` and
  `SetRecommendedUsers` for when the invariant survives it).
- In pages/feed/index.js, `filterPostHandler` is attached to no element and
  `setFilterMode` is never called. The model states what the handler
  computes when it is called, for every mode; as the page is written it
  only ever shows `blogData` (`FeedPage.InitialDisplayShowsPage`).
- `useFeed`'s check for a missing provider (components/FeedContext.js:123-131)
  is React context plumbing, and is not modelled.
- In pages/feed/index.js, `filteredPosts` and `blogData` are state that can
  change between a search and a render. The model evaluates the display rule
  on the same `blogData` that was searched.
- components/BottomNav.js (navigation highlight), pages/test.js (an animation
  demo), rendering, animation, the markdown cheatsheet and the rich-text
  editor are presentation only.
