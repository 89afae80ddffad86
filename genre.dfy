/** genre.py's `fetch_genre_posts`: the Markdown digest of one Reddit-wide
    search, with every post's header lines and its comment tree. The HTTP
    responses are inputs: the search response carries its posts, and each
    post carries the response of its comments request. */
module Genre {
  import opened Wrappers
  import opened Text
  import opened Thread

  /** `max_depth=25` of the nested `write_comment`. */
  const MaxDepth: nat := 25

  /** `comments[:20]`. */
  const CommentCap: nat := 20

  /** One search hit's `data` record; `selftext` is "" when absent or empty
      (the only values the truthiness test rejects), `comments` is the
      response of its comments request. */
  datatype Post = Post(title: string, subreddit: string, score: int, url: string, selftext: string,
                       comments: CommentsResponse)

  /** The search response: its status, its text (used only in the error
      line) and, on status 200, the posts of `data['data']['children']`. */
  datatype SearchResponse = SearchResponse(status: int, text: string, posts: seq<Post>)

  function PostHeader(p: Post, i: nat): string {
    "## " + NatToString(i) + ". " + p.title + " (from r/" + p.subreddit + ")"
  }

  function SearchError(r: SearchResponse): string {
    "**Error in search:** " + IntToString(r.status) + " - " + r.text
  }

  /** The lines written for the `i`-th post before its comments: header,
      blank, score, URL, the body only when `selftext` is non-empty, blank. */
  function PostHead(p: Post, i: nat): seq<string> {
    [PostHeader(p, i), "", "**Score:** " + IntToString(p.score), "**URL:** " + p.url]
    + (if p.selftext != "" then ["**Body:** " + p.selftext] else [])
    + [""]
  }

  /** The lines written for the `i`-th post: its head, then its comment
      block, whatever that request returned. */
  function PostLines(p: Post, i: nat): seq<string> {
    PostHead(p, i) + CommentBlock(p.comments, CommentCap, MaxDepth)
  }

  /** The lines of the first `n` posts, numbered from 1 in listing order. */
  function PostsLines(ps: seq<Post>, n: nat): seq<string>
    requires n <= |ps|
  {
    Enumerated(ps, n, PostLines)
  }

  /** Every line `fetch_genre_posts` writes: the posts and a closing "---"
      and blank on status 200, the search error line alone otherwise. */
  function SearchLines(r: SearchResponse): seq<string> {
    if r.status == 200 then PostsLines(r.posts, |r.posts|) + ["---", ""]
    else [SearchError(r)]
  }

  // ---------------------------------------------------------------------
  // Properties of the digest

  /** A post's lines: the fixed header lines, the body line exactly when
      `selftext` is non-empty, a blank, then its comment block, whatever
      that request returned. */
  lemma PostLinesShape(p: Post, i: nat)
    ensures var h := if p.selftext != "" then 6 else 5;
      |PostLines(p, i)| == h + |CommentBlock(p.comments, CommentCap, MaxDepth)|
      && PostLines(p, i)[0] == PostHeader(p, i)
      && PostLines(p, i)[1] == ""
      && PostLines(p, i)[2] == "**Score:** " + IntToString(p.score)
      && PostLines(p, i)[3] == "**URL:** " + p.url
      && (p.selftext != "" ==> PostLines(p, i)[4] == "**Body:** " + p.selftext)
      && PostLines(p, i)[h - 1] == ""
      && PostLines(p, i)[h..] == CommentBlock(p.comments, CommentCap, MaxDepth)
  {
  }

  /** Post `i` (0-based) is written, numbered `i + 1`, right after the lines
      of the posts before it, and what follows never revises them: a later
      post, even one whose comments request failed, only appends. */
  lemma PostsAt(ps: seq<Post>, i: nat)
    requires i < |ps|
    ensures PostsLines(ps, i) + PostLines(ps[i], i + 1) <= PostsLines(ps, |ps|)
  {
    EnumeratedPrefix(ps, i + 1, |ps|, PostLines);
  }

  /** A successful search ends with "---" and a blank line; a failed one is
      the error line and nothing else (no separator). */
  lemma SearchEnding(r: SearchResponse)
    ensures r.status == 200 ==> EndsWith(Render(SearchLines(r)), "---\n\n")
    ensures r.status != 200 ==> Render(SearchLines(r)) == SearchError(r) + "\n"
  {
    if r.status == 200 {
      var ps := PostsLines(r.posts, |r.posts|);
      RenderAppend(ps, ["---", ""]);
      RenderAppend(["---"], [""]);
      assert Render(["---"]) == "---\n" by { assert ["---"][..0] == []; }
      assert Render([""]) == "\n" by { assert [""][..0] == []; }
      assert Render(SearchLines(r)) == Render(ps) + "---\n\n";
    } else {
      assert [SearchError(r)][..0] == [];
    }
  }

  lemma PostHeadIndent(p: Post, i: nat)
    ensures IndentWithin(PostHead(p, i), 0)
  {
    NoIndent(PostHeader(p, i));
    NoIndent("**Score:** " + IntToString(p.score));
    NoIndent("**URL:** " + p.url);
    NoIndent("**Body:** " + p.selftext);
  }

  /** No text passed to `write_line` starts with more than 2·25 blanks:
      only comment replies are given an indent, and the traversal stops
      below depth 25. A body, title or selftext holding a newline can still
      start a line of `content` with more blanks. */
  lemma {:induction false} PostsIndent(ps: seq<Post>, n: nat)
    requires n <= |ps|
    ensures IndentWithin(PostsLines(ps, n), 2 * MaxDepth)
    decreases n
  {
    if n > 0 {
      PostsIndent(ps, n - 1);
      var p := ps[n - 1];
      PostHeadIndent(p, n);
      CommentBlockIndent(p.comments, CommentCap, MaxDepth);
      IndentConcat(PostHead(p, n), CommentBlock(p.comments, CommentCap, MaxDepth), 2 * MaxDepth);
      IndentConcat(PostsLines(ps, n - 1), PostLines(p, n), 2 * MaxDepth);
    }
  }

  lemma SearchIndent(r: SearchResponse)
    ensures IndentWithin(SearchLines(r), 2 * MaxDepth)
  {
    if r.status == 200 {
      PostsIndent(r.posts, |r.posts|);
      NoIndent("---");
      IndentConcat(PostsLines(r.posts, |r.posts|), ["---", ""], 2 * MaxDepth);
    } else {
      NoIndent(SearchError(r));
    }
  }

  /** The header counts the comments numbered, not those rendered: a post
      with at least 20 top-level comments whose first 20 are all deleted
      gets the header "Top 20" and no comment line at all. */
  lemma HeaderCountsSkipped(r: CommentsResponse)
    requires r.status == 200 && |r.listings| > 1 && |r.listings[1]| >= 20
    requires forall k | 0 <= k < 20 :: IsDeleted(r.listings[1][k])
    ensures CommentBlock(r, CommentCap, MaxDepth)
      == ["### Top " + "20" + " comments and their replies (up to depth " + "25" + ")", "", ""]
  {
    var cs := TopLevel(r);
    assert Min(CommentCap, |cs|) == 20;
    SectionEmpty(cs, 20, MaxDepth);
    assert NatToString(20) == "20" by {
      assert NatToString(2) == "2";
    }
    assert NatToString(25) == "25" by {
      assert NatToString(2) == "2";
    }
    assert TopComments(cs, CommentCap, MaxDepth) == [];
    assert CommentBlock(r, CommentCap, MaxDepth) == [CommentsHeader(20, 25), ""] + [] + [""];
  }

  // ---------------------------------------------------------------------
  // The script

  /** The lines of one post up to its comments. */
  method WritePostHead(doc: Document, p: Post, i: nat)
    requires doc.Valid()
    modifies doc
    ensures doc.Valid() && doc.written == old(doc.written) + PostHead(p, i)
  {
    doc.WriteLine(PostHeader(p, i));
    ghost var head := [PostHeader(p, i)];
    AppendAssoc(old(doc.written), head, [""]);
    doc.WriteLine("");
    head := head + [""];
    AppendAssoc(old(doc.written), head, ["**Score:** " + IntToString(p.score)]);
    doc.WriteLine("**Score:** " + IntToString(p.score));
    head := head + ["**Score:** " + IntToString(p.score)];
    AppendAssoc(old(doc.written), head, ["**URL:** " + p.url]);
    doc.WriteLine("**URL:** " + p.url);
    head := head + ["**URL:** " + p.url];
    if p.selftext != "" {
      AppendAssoc(old(doc.written), head, ["**Body:** " + p.selftext]);
      doc.WriteLine("**Body:** " + p.selftext);
      head := head + ["**Body:** " + p.selftext];
    }
    AppendAssoc(old(doc.written), head, [""]);
    doc.WriteLine("");
    head := head + [""];
    assert head == PostHead(p, i);
  }

  /** One iteration of `for i, post in enumerate(posts, 1)`. */
  method WritePost(doc: Document, p: Post, i: nat)
    requires doc.Valid()
    modifies doc
    ensures doc.Valid() && doc.written == old(doc.written) + PostLines(p, i)
  {
    WritePostHead(doc, p, i);
    AppendAssoc(old(doc.written), PostHead(p, i), CommentBlock(p.comments, CommentCap, MaxDepth));
    doc.WriteCommentBlock(p.comments, CommentCap, MaxDepth);
  }

  /** `fetch_genre_posts(query)` given the responses its requests received:
      the returned `content` is the rendering of `SearchLines`. */
  method FetchGenrePosts(r: SearchResponse) returns (content: string)
    ensures content == Render(SearchLines(r))
  {
    var doc := new Document();
    if r.status == 200 {
      var posts := r.posts;
      for i := 0 to |posts|
        invariant doc.Valid() && doc.written == PostsLines(posts, i)
      {
        WritePost(doc, posts[i], i + 1);
      }
      doc.WriteLine("---");
      doc.WriteLine("");
    } else {
      doc.WriteLine(SearchError(r));
    }
    content := doc.content;
  }
}
