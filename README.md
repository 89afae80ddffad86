# spicyspicy: comment digests, ranking extraction and the service worker cache

This project models the sequential core of the spicyspicy movie
recommender and proves properties of it. The core has four parts:

- **The Reddit digests** (`genre.py` `fetch_genre_posts`, `rec.py`
  `fetch_content`). Each script walks posts and their comment trees and
  builds one Markdown string through a nested `write_line` accumulator.
  The comment walk is a nested recursive `write_comment`. It is depth
  first, bounded in depth, skips deleted comments with their subtrees, and
  numbers the top-level comments.
- **The ranking extraction** (`ranking.py`, the block inside
  `process_file`). It picks the text handed to `json.loads` from a model
  reply: the first "```json" block, or else the whole reply. It saves the
  parsed value only when everything succeeded.
- **The service worker** (`sw.js`). It routes each request to one of four
  caching strategies, runs network-first and cache-first caching, trims a
  cache FIFO in `limitCacheSize` and deletes old caches on activation.

Files:

- `wrappers.dfy`: `Option` and `Min`.
- `text.dfy`: the string operations the scripts use, written out:
  - `str(int)` and its inverse;
  - Python's `str.find`, and JavaScript's `startsWith`, `endsWith` and
    `includes`;
  - `strip`, and counting leading blanks;
  - small lemmas on lists of lines.
- `thread.dfy`: what both scripts share:
  - the comment tree and `Flatten`, the lines of `write_comment`;
  - the line format and the comment block of one post;
  - the class `Document`. Its `content` field is the script's `content`
    string. Its methods are `write_line` and `write_comment` and the loops
    around them.
- `genre.dfy`, `rec.dfy`: the two scripts as methods over a `Document`.
  Each is proved against a function giving the list of lines it writes.
- `ranking.dfy`: the extraction and the save decision, as functions.
- `service_worker.dfy`:
  - the routing, and the cache storage as a value (`Storage`);
  - each handler as a function of the storage and the network;
  - the class `CacheStorage`, whose methods change the storage in place
    as sw.js does. Each method is proved equal to the corresponding
    function.

HTTP responses are inputs, not calls:

- A genre search is a `SearchResponse` (status, text, posts).
- Each post carries the `CommentsResponse` of its comments request
  (status, and the `children` list of each element of the decoded array).
- In rec.py, `fetch` maps a subreddit name to its listing response.
- In ranking.py, `parse` stands for `json.loads`. It returns None where
  `json.loads` raises `JSONDecodeError`.
- In sw.js, `network` is what `fetch(request)` resolves to, or None when
  it rejects.

Three behaviours of the code are worth knowing before reading the model:

- **A marker without a closing fence.** `ranking.py:93-94` parses the
  whole `content` when no "```" follows the "```json" marker, not the
  text after the marker (`UnclosedMarkerWhole`).
- **The comment header count.** `genre.py:92` and `rec.py:84` print
  `min(N, len(comments))`, which counts skipped comments too. A skipped
  comment also uses up its number `j` (`HeaderCountsSkipped`).
- **The sentinel.** It is compared exactly and case-sensitively: only
  `'[Deleted]'`, or a missing field, skips a comment. Reddit's own
  `"[deleted]"` is written like any other comment
  (`LowercaseSentinelKept`).

## Model

| member | source | states |
|---|---|---|
| Text.NatToStringRoundTrip | genre.py:75 | `str(i)` of a natural number is a digit string that reads back as `i` |
| Text.IntToStringRoundTrip | genre.py:77 | `str(score)` of any integer, negative included, reads back as the integer |
| Text.NatToString | genre.py:75 | definition of `str(i)` for a natural number: non-empty digits, no leading zero; properties in `NatToStringRoundTrip` |
| Text.IntToString | genre.py:77 | definition of `str(score)`: a "-" before the digits of a negative number; properties in `IntToStringRoundTrip` |
| Text.Find | ranking.py:85-88 | `find(pat, start)` is -1 exactly when no occurrence lies at or after `start`; otherwise it is the lowest such occurrence |
| Text.StartsWith | sw.js:45 | definition of `startsWith`: the string begins with the prefix |
| Text.EndsWith | sw.js:87 | definition of `endsWith`: the string ends with the suffix |
| Text.Contains | sw.js:45 | definition of `includes`: `Find` reports an occurrence; properties in `OccurrenceIsContained`, `MissingCharNotContained` |
| Text.IsSpace | ranking.py:90 | definition of the whitespace `strip()` removes; properties in `Strip` |
| Text.Strip | ranking.py:90 | `strip()` is a slice of its input with whitespace at neither end, and everything cut off is whitespace |
| Text.StripIdempotent | ranking.py:90 | stripping twice gives what stripping once gives |
| Thread.AuthorOf | genre.py:100 | definition of `comment_data.get('author', '[Deleted]')`; properties in `FlattenShape` |
| Thread.BodyOf | genre.py:99 | definition of `comment_data.get('body', '[Deleted]')`; properties in `FlattenShape` |
| Thread.IsDeleted | genre.py:101-102 | definition of the skip rule: author or body equal to the sentinel; properties in `DeletedReplyPruned`, `LowercaseSentinelKept` |
| Thread.Flatten | genre.py:95-113 | definition of the lines `write_comment` writes for one comment; properties in `FlattenShape`, `DeletedReplyPruned` |
| Thread.FlattenAll | genre.py:110-113 | definition of the lines of a reply list, one level deeper, in listed order; properties in `FlattenAllShape`, `FlattenAllSplit` |
| Thread.Format | genre.py:103-107 | definition of the text of one comment line; properties in `FormatReadsBack` |
| Thread.Render | genre.py:56-58 | definition of the `content` that `write_line` builds from the lines; properties in `RenderAppend` |
| Thread.Section | genre.py:115-116 | definition of the lines of the first `n` top-level comments, numbered from 1; properties in `SectionPrefix`, `SectionNumbering` |
| Thread.TopComments | genre.py:115-116 | definition of the lines of `comments[:cap]`; properties in `TopCommentsCapped`, `SectionEmpty` |
| Thread.CommentsHeader | genre.py:92 | definition of the comments header text; properties in `CommentBlockShape`, `HeaderCountsSkipped` |
| Thread.CommentsError | genre.py:119 | definition of the comments error text; properties in `CommentsErrorReadsBack` |
| Thread.Enumerated | genre.py:73 | definition of the lines of a loop over `enumerate(xs[:n], 1)`; properties in `EnumeratedPrefix` |
| Thread.CommentBlock | genre.py:89-120 | definition of the comments part of one post; properties in `CommentBlockShape`, `CommentBlockIndent` |
| Thread.FlattenShape | genre.py:95-113 | `write_comment` writes nothing exactly when the comment is below the depth bound or deleted. Otherwise its own line comes first, at its depth, and every later line is deeper. No line is deeper than the bound, and none carries the sentinel body |
| Thread.FlattenAllShape | genre.py:110-113 | the replies' lines all lie strictly below the parent and within the bound |
| Thread.FlattenAllSplit | genre.py:112-113 | a reply's lines sit between those of its earlier and its later siblings (listed order, pre-order) |
| Thread.DeletedReplyPruned | genre.py:99-102 | a deleted reply contributes no line for itself or its subtree, and leaves its siblings' lines unchanged |
| Thread.LowercaseSentinelKept | genre.py:99-102 | a comment whose author is the lower-case "[deleted]" is not skipped and is written with its body |
| Thread.Indent | genre.py:103 | `"  " * depth` is exactly 2·depth blanks |
| Thread.FormatReadsBack | genre.py:103-107 | a reply line has exactly 2·depth leading blanks, then "- ", then the body. A top-level line starts with digits that read back as `j`, then ". ", then the body |
| Thread.RenderAppend | genre.py:56-58 | the rendering of lines written in two runs is the concatenation of the two renderings |
| Thread.SectionPrefix | genre.py:115-116 | lines written for earlier top-level comments are never revised by later ones |
| Thread.SectionNumbering | genre.py:104-105 | a non-deleted `(k+1)`-th top-level comment is written as `"{k+1}. {body}"`, right after the lines of the comments before it, even when some of those were skipped |
| Thread.TopCommentsCapped | genre.py:115 | comments beyond the cap are never visited: appending to the list past the cap changes nothing |
| Thread.SectionIndentBound | genre.py:95-97 | no comment text passed to `write_line` has more than 2·maxDepth leading blanks |
| Thread.SectionEmpty | genre.py:92 | the section is empty exactly when every numbered comment is deleted |
| Thread.CommentBlockShape | genre.py:89-120 | a failed comments request writes just the error line and a blank. A successful one writes the header counting `min(cap, len)`, a blank, exactly the capped section and a closing blank |
| Thread.CommentsErrorReadsBack | genre.py:119 | the error line is the fixed prefix followed by the status, which reads back |
| Thread.CommentBlockIndent | genre.py:92-120 | no text of a comment block passed to `write_line` has more than 2·maxDepth leading blanks |
| Thread.EnumeratedPrefix | genre.py:73 | in a numbered loop, the lines of the first `k` items are a prefix of those of the first `n` |
| Thread.Document.constructor | genre.py:55 | `content` starts empty, with nothing written |
| Thread.Document.WriteLine | genre.py:56-58 | `content` grows by `text + "\n"`, and `text` is appended to the lines written |
| Thread.Document.WriteComment | genre.py:95-113 | the recursive `write_comment` appends exactly the formatted `Flatten` lines of its comment |
| Thread.Document.WriteReplies | genre.py:110-113 | the reply loop appends each reply's lines, one level deeper, in listed order |
| Thread.Document.WriteTopComments | genre.py:115-116 | the top-level loop appends the section of `comments[:cap]`, numbered from 1 |
| Thread.Document.WriteCommentBlock | genre.py:89-120 | one post's comments branch appends exactly `CommentBlock` |
| Genre.PostLinesShape | genre.py:75-81 | a post's lines are its header, a blank, the score, the URL, the body exactly when `selftext` is non-empty, a blank, then its comment block |
| Genre.SearchLines | genre.py:69-125 | definition of the lines of one search; properties in `SearchEnding`, `SearchIndent`, `PostsAt` |
| Genre.PostHeader | genre.py:75 | definition of the post header text; properties in `PostLinesShape` |
| Genre.PostHead | genre.py:75-81 | definition of a post's lines before its comments; properties in `PostLinesShape`, `PostHeadIndent` |
| Genre.PostLines | genre.py:74-120 | definition of one iteration of the post loop; properties in `PostLinesShape`, `PostsAt` |
| Genre.PostsLines | genre.py:73-120 | definition of the post loop, numbered from 1; properties in `PostsAt`, `PostsIndent` |
| Genre.SearchError | genre.py:125 | definition of the search error text; properties in `SearchEnding` |
| Genre.PostsAt | genre.py:73 | post `i` is written, numbered `i+1`, right after the posts before it, and later posts only append |
| Genre.SearchEnding | genre.py:122-125 | a successful search ends with "---\n\n". A failed search is only the error line, with no separator |
| Genre.SearchIndent | genre.py:95-97 | no text the search passes to `write_line` has more than 2·25 leading blanks |
| Genre.HeaderCountsSkipped | genre.py:92 | twenty deleted top-level comments give the header "Top 20" with no comment line |
| Genre.WritePostHead | genre.py:75-81 | appends exactly the lines before the comments of one post |
| Genre.WritePost | genre.py:74-120 | one iteration of the post loop appends exactly `PostLines` |
| Genre.FetchGenrePosts | genre.py:54-127 | the returned `content` is the rendering of `SearchLines`: every post with its comment block, then "---" and "", or only the search error |
| Rec.SubredditShape | rec.py:50-52 | a section opens with its header and a blank and closes with "---" and a blank, whatever its request returned. A failed request leaves exactly the error line between them |
| Rec.SubredditLines | rec.py:51-119 | definition of the lines of one subreddit's section; properties in `SubredditShape`, `SubredditIndent` |
| Rec.ContentLines | rec.py:50-119 | definition of the lines of all sections, in order; properties in `ContentAppend`, `ContentSectionAt`, `ContentOrder` |
| Rec.SectionHeader | rec.py:51 | definition of a section header text; properties in `SubredditShape` |
| Rec.PostHeader | rec.py:69 | definition of the post header text; properties in `PostHeaderNumber` |
| Rec.PostHead | rec.py:69-74 | definition of a post's lines before its comments; properties in `PostLinesShape`, `PostHeadIndent` |
| Rec.PostLines | rec.py:68-112 | definition of one iteration of the post loop; properties in `PostLinesShape`, `PostsAt` |
| Rec.PostsLines | rec.py:67-112 | definition of the post loop, numbered from 1; properties in `PostsAt`, `PostsIndent` |
| Rec.ListingError | rec.py:117 | definition of a subreddit's error text; properties in `SubredditShape` |
| Rec.PostLinesShape | rec.py:69-74 | a post's lines are its header, a blank, the score, the body exactly when `selftext` is non-empty, a blank, then its comment block |
| Rec.PostHeaderNumber | rec.py:69 | the post header is "## ", then digits that read back as `i`, then ". ", then the title |
| Rec.PostsAt | rec.py:67 | post `i` is written, numbered `i+1`, right after the posts before it, and later posts only append |
| Rec.ContentAppend | rec.py:50 | the content for two lists of subreddits is the two contents concatenated |
| Rec.ContentSectionAt | rec.py:116-119 | the section of subreddit `i` follows those before it, and a failed request does not stop the ones after |
| Rec.ContentOrder | rec.py:41 | the digest is the sections of MovieSuggestions, moviecritic and TrueFilm, in that order |
| Rec.ContentIndent | rec.py:87-89 | no text the digest passes to `write_line` has more than 2·10 leading blanks |
| Rec.WritePostHead | rec.py:69-74 | appends exactly the lines before the comments of one post |
| Rec.WritePost | rec.py:68-112 | one iteration of the post loop appends exactly `PostLines` |
| Rec.WritePosts | rec.py:67-112 | the post loop appends the lines of every post, numbered from 1 |
| Rec.WriteSubreddit | rec.py:51-119 | one iteration of the subreddit loop appends exactly `SubredditLines` |
| Rec.FetchContent | rec.py:44-121 | the returned `content` is the rendering of the sections of the three subreddits, in order |
| Ranking.Preview | ranking.py:108 | `content[:500]` is a prefix of the reply of length `min(len, 500)` |
| Ranking.Process | ranking.py:75-108 | a ranking is saved exactly when the status is 200, `choices` is non-empty and the chosen text parses, and the saved value is the parser's. A parse failure keeps the preview. No choices and a failed request are told apart |
| Ranking.JsonText | ranking.py:84-98 | definition of the text handed to `json.loads`; properties in `FencedBlockChosen`, `UnclosedMarkerWhole`, `NoMarkerWhole`, `OnlyFirstBlock` |
| Ranking.FencedBlockChosen | ranking.py:85-91 | with the first marker at `s` and the first fence at `e >= s+7`, the parser gets `strip(content[s+7:e])` |
| Ranking.FencedTextAfterMarker | ranking.py:87-88 | when a block is chosen, the closing fence lies at or after the end of the marker |
| Ranking.EmptyBlock | ranking.py:87-90 | for the reply "```json```", the marker's own backticks are not taken as the closing fence |
| Ranking.UnclosedMarkerWhole | ranking.py:93-94 | a marker with no fence after it makes the whole reply be parsed |
| Ranking.NoMarkerWhole | ranking.py:96-98 | with no marker, the whole reply is parsed |
| Ranking.OnlyFirstBlock | ranking.py:85 | only the first "```json" block counts, whatever follows it |
| Ranking.SavedOnlyOnSuccess | ranking.py:101-108 | saved means the status is 200, there is a choice and the parse succeeded. A parse failure saves nothing, and its preview is at most 500 characters of the reply |
| ServiceWorker.Route | sw.js:62-122 | the chosen strategy's guard holds and every earlier branch's guard fails |
| ServiceWorker.Response.Ok | sw.js:67 | definition of `response.ok`, a status in 200-299; properties in `StoresOnlyOkResponses`, `OkApiResponseCached` |
| ServiceWorker.Requests | sw.js:129 | `cache.keys()` lists the requests of the entries, one per entry, oldest first |
| ServiceWorker.RouteIsFirstMatch | sw.js:62-120 | a strategy whose guard holds while all earlier guards fail is the one routed to |
| ServiceWorker.ApiImagesAreNetworkFirst | sw.js:62 | the API host is served network-first, even for ".jpg"/".png" paths |
| ServiceWorker.Lookup | sw.js:121 | the per-cache search that `caches.match` runs over each cache: None exactly when no entry has the request, otherwise a stored response for it |
| ServiceWorker.Remove | sw.js:135 | `cache.delete(req)` keeps every other entry and no entry for `req` |
| ServiceWorker.RemoveAppend | sw.js:135 | `cache.delete` distributes over concatenation, so the other entries keep their order |
| ServiceWorker.RemoveSingle | sw.js:135 | a single entry is kept exactly when its request differs from the one deleted |
| ServiceWorker.PutEntry | sw.js:70 | `cache.put` leaves the new entry as the most recent one; properties in `PutThenLookup`, `PutKeepsUnique` |
| ServiceWorker.PutThenLookup | sw.js:70 | after `put`, the cache answers the request with the new response, and every other request as before |
| ServiceWorker.Trimmed | sw.js:131-135 | what is left is the newest `min(len, maxItems)` entries, a suffix in the original order |
| ServiceWorker.TrimDeletesOldest | sw.js:131-135 | at or under the limit nothing changes. Over it, exactly `len - maxItems` oldest entries go, and exactly `maxItems` remain |
| ServiceWorker.RemoveOldest | sw.js:135 | deleting the oldest key removes exactly the oldest entry |
| ServiceWorker.PutSurvivesTrim | sw.js:70-72 | a response just put survives the trim that follows it |
| ServiceWorker.Opened | sw.js:128 | `caches.open` creates an empty cache under a new name and changes no existing cache |
| ServiceWorker.Cached | sw.js:69-72 | definition of open, put, then trim; properties in `CachedIsServed`, `CachedWellFormed` |
| ServiceWorker.MatchAll | sw.js:121 | `caches.match` is None exactly when no cache holds the request; otherwise it is the response stored for the request in the first cache, in creation order, that holds one |
| ServiceWorker.Match | sw.js:80 | definition of `caches.match` over the storage; properties in `MatchAll`, `CacheFirstStaticReply` |
| ServiceWorker.IsStale | sw.js:45 | definition of the old-cache filter; properties in `CurrentCachesKept`, `EarlierVersionStale`, `ForeignCacheKept`, `SubstringVersionTest` |
| ServiceWorker.KeepCurrent | sw.js:44-45 | the surviving names are exactly the names that are not stale |
| ServiceWorker.KeepCurrentAppend | sw.js:44-45 | the survivors keep their relative order |
| ServiceWorker.Without | sw.js:48 | after `caches.delete(name)` exactly the other names remain |
| ServiceWorker.Activated | sw.js:40-50 | definition of the storage after activation; properties in `ActivatedKeepsCurrent` |
| ServiceWorker.NetworkFirstOutcome | sw.js:62-84 | definition of strategy 1; properties in `NetworkFirstReply`, `StoresOnlyOkResponses` |
| ServiceWorker.CacheFirstImageOutcome | sw.js:87-109 | definition of strategy 2; properties in `ImageHitIgnoresNetwork`, `StoresOnlyOkResponses` |
| ServiceWorker.CacheFirstStaticOutcome | sw.js:119-123 | definition of strategy 4; properties in `CacheFirstStaticReply` |
| ServiceWorker.FetchOutcome | sw.js:57-124 | definition of the fetch handler for the routed strategy; properties in the lemmas below |
| ServiceWorker.StoresOnlyOkResponses | sw.js:67-70 | the storage changes only when the network gave an ok response to the API or image strategy |
| ServiceWorker.ImageHitIgnoresNetwork | sw.js:89-93 | a cached image is returned as is, whatever the network would answer |
| ServiceWorker.NetworkFirstReply | sw.js:64-81 | network-first returns the network response, ok or not, and falls back to the cache only when the network fails |
| ServiceWorker.CacheFirstStaticReply | sw.js:119-123 | static cache-first stores nothing, answers a hit with the response stored for the request in a cache, and a miss with the network's answer |
| ServiceWorker.CachedIsServed | sw.js:69-72 | after caching, that cache answers the request with the response and holds at most `maxItems` entries. Other caches are untouched |
| ServiceWorker.OkApiResponseCached | sw.js:64-75 | an ok network-first answer is returned, and the API cache then answers the request with it |
| ServiceWorker.ImageMissReply | sw.js:95-104 | an image miss is answered with the network's reply; an ok reply is then served by the image cache, and any other leaves the storage unchanged |
| ServiceWorker.CachedWellFormed | sw.js:69-72 | caching keeps the storage well formed: distinct names, one cache per name, no request stored twice |
| ServiceWorker.CurrentCachesKept | sw.js:5-7 | the three caches of version v2 are never deleted on activation |
| ServiceWorker.EarlierVersionStale | sw.js:45 | an earlier version's cache ("spicy-static-v1") is deleted |
| ServiceWorker.ForeignCacheKept | sw.js:45 | a cache whose name does not start with "spicy-" is never deleted |
| ServiceWorker.SubstringVersionTest | sw.js:45 | the version test is a substring test: "spicy-static-v20" is kept |
| ServiceWorker.ActivatedKeepsCurrent | sw.js:44-49 | activation leaves exactly the non-stale caches, each with its entries, and the storage stays well formed |
| ServiceWorker.CacheStorage.Open | sw.js:128 | the storage becomes `Opened(old, name)` |
| ServiceWorker.CacheStorage.Put | sw.js:70 | only the cache `name` changes, to `PutEntry` of its old entries |
| ServiceWorker.CacheStorage.DeleteEntry | sw.js:135 | only the cache `name` changes, to `Remove` of its old entries |
| ServiceWorker.CacheStorage.DeleteCache | sw.js:48 | the name and its cache are removed, and nothing else changes |
| ServiceWorker.CacheStorage.LimitCacheSize | sw.js:127-139 | the loop over `keys[0..deleteCount)` leaves the opened cache holding `Trimmed` of its entries |
| ServiceWorker.CacheStorage.CacheResponse | sw.js:69-72 | open, put and trim together give `Cached(old, ...)` |
| ServiceWorker.CacheStorage.DeleteIfStale | sw.js:45-48 | a stale name's cache is deleted, and any other name leaves the storage unchanged |
| ServiceWorker.CacheStorage.Activate | sw.js:40-50 | the storage becomes `Activated(old)`: exactly the stale caches are gone |
| ServiceWorker.CacheStorage.NetworkFirstFetch | sw.js:62-84 | the new storage and the reply are those of `NetworkFirstOutcome` |
| ServiceWorker.CacheStorage.CacheFirstImageFetch | sw.js:87-109 | the new storage and the reply are those of `CacheFirstImageOutcome` |
| ServiceWorker.CacheStorage.HandleFetch | sw.js:57-124 | the new storage and the reply are those of `FetchOutcome` for the routed strategy |

## Left out

- Genre.SearchIndent: a body, title or `selftext` may contain newlines.
  The bound is on the texts passed to `write_line`, not on the physical
  lines of `content`.
- Rec.ContentIndent: likewise, the bound is on the texts passed to
  `write_line`, not on the physical lines of `content`.
- HTTP, authentication and credentials: these become input values.
  - This covers the token request and `sys.exit`, `requests.get`/`post`
    and the environment variables.
  - The URL and header construction for Reddit and OpenRouter is left out
    too.
- Files and drivers: `json.dump`/`json.load` persistence and the
  per-search, per-timeframe and per-file driver loops. They are file I/O.
- `json.loads`: an uninterpreted parameter. A JSON parser is not part of
  this model. The decoded Reddit JSON is given already in the shape the
  scripts index into. A missing `data`, `children` or `title` key, which
  would raise `KeyError`, is not modelled.
- The prompt text of ranking.py: verbatim interpolation.
- Printing and console logging, in all four files.
- The `except Exception` of ranking.py: with the inputs modelled, only
  the parse can fail.
- Thread.Comment: `author` and `body` are strings or absent. A JSON `null`
  value, which Python would print as "None", is not modelled, and neither
  is a non-string body.
- Genre.Post, Rec.Post: a missing or empty `selftext` is "". The only
  other falsy values, `None` and non-strings, are not modelled.
- Ranking.ApiResponse: `choices` is the list of each choice's
  `message.content`. A choice without these keys is not modelled.
- sw.js Promise and event wiring:
  - `event.respondWith`, `waitUntil`, `skipWaiting` and `clients.claim`
    are not modelled.
  - The order in which concurrently pending promises settle is not
    modelled.
- ServiceWorker.CacheStorage.CacheResponse: the `put` and
  `limitCacheSize` that sw.js starts without awaiting are modelled as
  finishing before the response is returned. Interleavings with other
  fetches are not modelled.
- ServiceWorker.PutEntry: `cache.put` on a request already stored is
  modelled as delete-then-append. The new entry becomes the newest for
  FIFO trimming. The browser's Cache API is not part of this model.
- ServiceWorker.Request: requests are compared as whole values, without
  the Cache API's header and option matching.
- ServiceWorker.CacheStorage.Activate: the filter-then-map over
  `cacheNames` is one loop that deletes each stale name in turn. Deletion
  of distinct names does not interfere, so the result is the same.
- The `install` handler and its `cache.addAll(urlsToCache)`: they need
  the network responses of six fixed URLs and involve none of the logic
  above.
- The `message` handler (`skipWaiting`, and `clearCache` deleting every
  cache).
- sources.js: a static data literal that no modelled code reads.
