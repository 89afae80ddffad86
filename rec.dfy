/** rec.py's `fetch_content`: the Markdown digest of the top posts of a
    fixed list of subreddits for one timeframe, each with its comment tree.
    The HTTP responses are inputs: `fetch` gives the listing response of
    each subreddit, and each post carries the response of its comments
    request. */
module Rec {
  import opened Text
  import opened Thread

  /** `max_depth=10` of the nested `write_comment`. */
  const MaxDepth: nat := 10

  /** `comments[:10]`. */
  const CommentCap: nat := 10

  /** The module-level `subreddits` list, visited in this order. */
  const Subreddits: seq<string> := ["MovieSuggestions", "moviecritic", "TrueFilm"]

  /** One listed post's `data` record; `selftext` is "" when absent or
      empty, `comments` is the response of its comments request. */
  datatype Post = Post(title: string, score: int, selftext: string, comments: CommentsResponse)

  /** The response of a subreddit's top-posts request: its status, its text
      (used only in the error line) and, on status 200, its posts. */
  datatype ListingResponse = ListingResponse(status: int, text: string, posts: seq<Post>)

  function SectionHeader(subreddit: string, timeframe: string): string {
    "# Top 5 posts from r/" + subreddit + " " + timeframe
  }

  function ListingError(subreddit: string, r: ListingResponse): string {
    "**Error for r/" + subreddit + ":** " + IntToString(r.status) + " - " + r.text
  }

  function PostHeader(p: Post, i: nat): string {
    "## " + NatToString(i) + ". " + p.title
  }

  /** The lines written for the `i`-th post before its comments: header,
      blank, score, the body only when `selftext` is non-empty, blank. */
  function PostHead(p: Post, i: nat): seq<string> {
    [PostHeader(p, i), "", "**Score:** " + IntToString(p.score)]
    + (if p.selftext != "" then ["**Body:** " + p.selftext] else [])
    + [""]
  }

  function PostLines(p: Post, i: nat): seq<string> {
    PostHead(p, i) + CommentBlock(p.comments, CommentCap, MaxDepth)
  }

  /** The lines of the first `n` posts, numbered from 1 in listing order. */
  function PostsLines(ps: seq<Post>, n: nat): seq<string>
    requires n <= |ps|
  {
    Enumerated(ps, n, PostLines)
  }

  /** The lines of one subreddit's section: header and blank, then its posts
      or its error line, then "---" and a blank either way. */
  function SubredditLines(subreddit: string, timeframe: string, r: ListingResponse): seq<string> {
    [SectionHeader(subreddit, timeframe), ""]
    + (if r.status == 200 then PostsLines(r.posts, |r.posts|) else [ListingError(subreddit, r)])
    + ["---", ""]
  }

  /** The sections of `subs`, in list order. */
  function ContentLines(subs: seq<string>, timeframe: string, fetch: string -> ListingResponse): seq<string>
    decreases |subs|
  {
    if subs == [] then
      []
    else
      ContentLines(subs[..|subs| - 1], timeframe, fetch)
      + SubredditLines(subs[|subs| - 1], timeframe, fetch(subs[|subs| - 1]))
  }

  // ---------------------------------------------------------------------
  // Properties of the digest

  /** A section opens with its header and a blank line and closes with
      "---" and a blank, whether or not its request succeeded; a failed
      request leaves exactly the error line between them. */
  lemma SubredditShape(subreddit: string, timeframe: string, r: ListingResponse)
    ensures |SubredditLines(subreddit, timeframe, r)| >= 4
    ensures SubredditLines(subreddit, timeframe, r)[..2] == [SectionHeader(subreddit, timeframe), ""]
    ensures SubredditLines(subreddit, timeframe, r)[|SubredditLines(subreddit, timeframe, r)| - 2..] == ["---", ""]
    ensures r.status != 200 ==>
      SubredditLines(subreddit, timeframe, r) == [SectionHeader(subreddit, timeframe), "", ListingError(subreddit, r), "---", ""]
  {
  }

  /** A post's lines: the fixed header lines, the body line exactly when
      `selftext` is non-empty, a blank, then its comment block. */
  lemma PostLinesShape(p: Post, i: nat)
    ensures var h := if p.selftext != "" then 5 else 4;
      |PostLines(p, i)| == h + |CommentBlock(p.comments, CommentCap, MaxDepth)|
      && PostLines(p, i)[0] == PostHeader(p, i)
      && PostLines(p, i)[1] == ""
      && PostLines(p, i)[2] == "**Score:** " + IntToString(p.score)
      && (p.selftext != "" ==> PostLines(p, i)[3] == "**Body:** " + p.selftext)
      && PostLines(p, i)[h - 1] == ""
      && PostLines(p, i)[h..] == CommentBlock(p.comments, CommentCap, MaxDepth)
  {
  }

  /** Post `i` (0-based) is written, numbered `i + 1`, right after the lines
      of the posts before it; later posts only append. */
  lemma PostsAt(ps: seq<Post>, i: nat)
    requires i < |ps|
    ensures PostsLines(ps, i) + PostLines(ps[i], i + 1) <= PostsLines(ps, |ps|)
  {
    EnumeratedPrefix(ps, i + 1, |ps|, PostLines);
  }

  /** The post header reads back as its 1-based position: the digits after
      "## " and before the first ". " are `i`. */
  lemma PostHeaderNumber(p: Post, i: nat)
    ensures var s, e := PostHeader(p, i), 3 + |NatToString(i)|;
      e + 2 <= |s| && s[..3] == "## " && ParseDigits(s[3..e]) == i && s[e..e + 2] == ". " && s[e + 2..] == p.title
  {
    var s := PostHeader(p, i);
    var d := NatToString(i);
    assert s[3..3 + |d|] == d;
    NatToStringRoundTrip(i);
  }

  /** Sections are independent and keep the list order: the content for
      `a + b` is the content for `a` followed by that for `b`. */
  lemma {:induction false} ContentAppend(a: seq<string>, b: seq<string>, timeframe: string, fetch: string -> ListingResponse)
    ensures ContentLines(a + b, timeframe, fetch) == ContentLines(a, timeframe, fetch) + ContentLines(b, timeframe, fetch)
    decreases |b|
  {
    if b == [] {
      assert a + b == a;
    } else {
      var b', last := b[..|b| - 1], b[|b| - 1];
      assert (a + b)[..|a + b| - 1] == a + b' && (a + b)[|a + b| - 1] == last;
      ContentAppend(a, b', timeframe, fetch);
      var tail := SubredditLines(last, timeframe, fetch(last));
      AppendAssoc(ContentLines(a, timeframe, fetch), ContentLines(b', timeframe, fetch), tail);
    }
  }

  /** The section of the `i`-th subreddit comes right after those of the
      subreddits before it, and a failed request ends that section only:
      the next one still follows. */
  lemma ContentSectionAt(subs: seq<string>, i: nat, timeframe: string, fetch: string -> ListingResponse)
    requires i < |subs|
    ensures ContentLines(subs[..i], timeframe, fetch) + SubredditLines(subs[i], timeframe, fetch(subs[i]))
      <= ContentLines(subs, timeframe, fetch)
  {
    var single := [subs[i]];
    assert subs == subs[..i] + single + subs[i + 1..];
    ContentAppend(subs[..i] + single, subs[i + 1..], timeframe, fetch);
    ContentAppend(subs[..i], single, timeframe, fetch);
    ContentSingle(subs[i], timeframe, fetch);
  }

  lemma ContentSingle(subreddit: string, timeframe: string, fetch: string -> ListingResponse)
    ensures ContentLines([subreddit], timeframe, fetch) == SubredditLines(subreddit, timeframe, fetch(subreddit))
  {
    assert [subreddit][..0] == [];
  }

  /** The digest is the three sections, in the order of `subreddits`. */
  lemma ContentOrder(timeframe: string, fetch: string -> ListingResponse)
    ensures ContentLines(Subreddits, timeframe, fetch)
      == SubredditLines("MovieSuggestions", timeframe, fetch("MovieSuggestions"))
      + SubredditLines("moviecritic", timeframe, fetch("moviecritic"))
      + SubredditLines("TrueFilm", timeframe, fetch("TrueFilm"))
  {
    var a, b, c := ["MovieSuggestions"], ["moviecritic"], ["TrueFilm"];
    assert Subreddits == a + b + c;
    ContentAppend(a + b, c, timeframe, fetch);
    ContentAppend(a, b, timeframe, fetch);
    ContentSingle(a[0], timeframe, fetch);
    ContentSingle(b[0], timeframe, fetch);
    ContentSingle(c[0], timeframe, fetch);
  }

  lemma PostHeadIndent(p: Post, i: nat)
    ensures IndentWithin(PostHead(p, i), 0)
  {
    NoIndent(PostHeader(p, i));
    NoIndent("**Score:** " + IntToString(p.score));
    NoIndent("**Body:** " + p.selftext);
  }

  lemma {:induction false} PostsIndent(ps: seq<Post>, n: nat)
    requires n <= |ps|
    ensures IndentWithin(PostsLines(ps, n), 2 * MaxDepth)
    decreases n
  {
    if n > 0 {
      PostsIndent(ps, n - 1);
      var p := ps[n - 1];
      PostHeadIndent(p, n);
      CommentBlockIndent(p.comments, CommentCap, MaxDepth);
      IndentConcat(PostHead(p, n), CommentBlock(p.comments, CommentCap, MaxDepth), 2 * MaxDepth);
      IndentConcat(PostsLines(ps, n - 1), PostLines(p, n), 2 * MaxDepth);
    }
  }

  /** No text passed to `write_line` starts with more than 2·10 blanks:
      only comment replies are given an indent, and the traversal stops
      below depth 10. A body, title or selftext holding a newline can still
      start a line of `content` with more blanks. */
  lemma SubredditIndent(subreddit: string, timeframe: string, r: ListingResponse)
    ensures IndentWithin(SubredditLines(subreddit, timeframe, r), 2 * MaxDepth)
  {
    NoIndent(SectionHeader(subreddit, timeframe));
    NoIndent("---");
    var mid := if r.status == 200 then PostsLines(r.posts, |r.posts|) else [ListingError(subreddit, r)];
    if r.status == 200 {
      PostsIndent(r.posts, |r.posts|);
    } else {
      NoIndent(ListingError(subreddit, r));
    }
    IndentConcat([SectionHeader(subreddit, timeframe), ""], mid, 2 * MaxDepth);
    IndentConcat([SectionHeader(subreddit, timeframe), ""] + mid, ["---", ""], 2 * MaxDepth);
  }

  lemma {:induction false} ContentIndent(subs: seq<string>, timeframe: string, fetch: string -> ListingResponse)
    ensures IndentWithin(ContentLines(subs, timeframe, fetch), 2 * MaxDepth)
    decreases |subs|
  {
    if subs != [] {
      var last := subs[|subs| - 1];
      ContentIndent(subs[..|subs| - 1], timeframe, fetch);
      SubredditIndent(last, timeframe, fetch(last));
      IndentConcat(ContentLines(subs[..|subs| - 1], timeframe, fetch), SubredditLines(last, timeframe, fetch(last)), 2 * MaxDepth);
    }
  }

  // ---------------------------------------------------------------------
  // The script

  /** The lines of one post up to its comments. */
  method WritePostHead(doc: Document, p: Post, i: nat)
    requires doc.Valid()
    modifies doc
    ensures doc.Valid() && doc.written == old(doc.written) + PostHead(p, i)
  {
    doc.WriteLine(PostHeader(p, i));
    ghost var head := [PostHeader(p, i)];
    AppendAssoc(old(doc.written), head, [""]);
    doc.WriteLine("");
    head := head + [""];
    AppendAssoc(old(doc.written), head, ["**Score:** " + IntToString(p.score)]);
    doc.WriteLine("**Score:** " + IntToString(p.score));
    head := head + ["**Score:** " + IntToString(p.score)];
    if p.selftext != "" {
      AppendAssoc(old(doc.written), head, ["**Body:** " + p.selftext]);
      doc.WriteLine("**Body:** " + p.selftext);
      head := head + ["**Body:** " + p.selftext];
    }
    AppendAssoc(old(doc.written), head, [""]);
    doc.WriteLine("");
    head := head + [""];
    assert head == PostHead(p, i);
  }

  /** One iteration of `for i, post in enumerate(posts, 1)`. */
  method WritePost(doc: Document, p: Post, i: nat)
    requires doc.Valid()
    modifies doc
    ensures doc.Valid() && doc.written == old(doc.written) + PostLines(p, i)
  {
    WritePostHead(doc, p, i);
    AppendAssoc(old(doc.written), PostHead(p, i), CommentBlock(p.comments, CommentCap, MaxDepth));
    doc.WriteCommentBlock(p.comments, CommentCap, MaxDepth);
  }

  /** `for i, post in enumerate(posts, 1)`. */
  method WritePosts(doc: Document, posts: seq<Post>)
    requires doc.Valid()
    modifies doc
    ensures doc.Valid() && doc.written == old(doc.written) + PostsLines(posts, |posts|)
  {
    for i := 0 to |posts|
      invariant doc.Valid() && doc.written == old(doc.written) + PostsLines(posts, i)
    {
      AppendAssoc(old(doc.written), PostsLines(posts, i), PostLines(posts[i], i + 1));
      WritePost(doc, posts[i], i + 1);
    }
  }

  /** One iteration of `for subreddit in subreddits`. */
  method WriteSubreddit(doc: Document, subreddit: string, timeframe: string, r: ListingResponse)
    requires doc.Valid()
    modifies doc
    ensures doc.Valid() && doc.written == old(doc.written) + SubredditLines(subreddit, timeframe, r)
  {
    ghost var opening, closing := [SectionHeader(subreddit, timeframe), ""], ["---", ""];
    AppendPair(old(doc.written), SectionHeader(subreddit, timeframe), "");
    doc.WriteLine(SectionHeader(subreddit, timeframe));
    doc.WriteLine("");
    ghost var mid: seq<string>;
    if r.status == 200 {
      WritePosts(doc, r.posts);
      mid := PostsLines(r.posts, |r.posts|);
    } else {
      doc.WriteLine(ListingError(subreddit, r));
      mid := [ListingError(subreddit, r)];
    }
    AppendAssoc(old(doc.written), opening, mid);
    AppendPair(doc.written, "---", "");
    AppendAssoc(old(doc.written), opening + mid, closing);
    doc.WriteLine("---");
    doc.WriteLine("");
  }

  /** `fetch_content(timeframe)` given the responses its requests received:
      the returned `content` is the rendering of the sections of
      `subreddits`, in order. */
  method FetchContent(timeframe: string, fetch: string -> ListingResponse) returns (content: string)
    ensures content == Render(ContentLines(Subreddits, timeframe, fetch))
  {
    var doc := new Document();
    var subs := Subreddits;
    for k := 0 to |subs|
      invariant doc.Valid() && doc.written == ContentLines(subs[..k], timeframe, fetch)
    {
      var subreddit := subs[k];
      WriteSubreddit(doc, subreddit, timeframe, fetch(subreddit));
      assert subs[..k + 1][..k] == subs[..k];
    }
    assert subs[..|subs|] == subs;
    content := doc.content;
  }
}
