/** What genre.py and rec.py share: the Reddit comment tree as decoded from
    the comments endpoint, the depth-first flattening done by their nested
    `write_comment`, the line format it writes, and the `content` string
    that their nested `write_line` appends to. The two scripts contain the
    same `write_comment` text and differ only in the depth bound and the
    number of top-level comments; here those are parameters. */
module Thread {
  import opened Wrappers
  import opened Text

  /** The value `dict.get` falls back to when a comment has no `author` or
      no `body`; a comment whose author or body equals it is skipped. */
  const Deleted := "[Deleted]"

  /** A comment's `data` record: `author` and `body` are absent (None) when
      the key is missing. */
  datatype Comment = Comment(author: Option<string>, body: Option<string>, replies: Replies)

  /** `replies` is followed only when it is present, truthy and a dict
      (Reddit sends "" for a comment without replies); its
      `['data']['children']` list is `children`. */
  datatype Replies = NoReplies | Listing(children: seq<Comment>)

  function AuthorOf(c: Comment): string {
    c.author.GetOr(Deleted)
  }

  function BodyOf(c: Comment): string {
    c.body.GetOr(Deleted)
  }

  predicate IsDeleted(c: Comment) {
    AuthorOf(c) == Deleted || BodyOf(c) == Deleted
  }

  /** One written comment line before formatting: the depth it was visited
      at and the comment body. */
  datatype Line = Line(depth: nat, body: string)

  // ---------------------------------------------------------------------
  // The traversal

  /** The lines `write_comment(c, depth, maxDepth)` writes, in order: none
      when `c` lies below the bound or is deleted (its replies are not
      visited either), otherwise its own line followed by the lines of its
      replies, each one level deeper, in listed order. */
  function Flatten(c: Comment, depth: nat, maxDepth: nat): seq<Line>
    decreases c, 1
  {
    if depth > maxDepth then []
    else if IsDeleted(c) then []
    else
      [Line(depth, BodyOf(c))] + match c.replies
        case NoReplies => []
        case Listing(rs) => FlattenAll(rs, depth, maxDepth)
  }

  /** The lines written for the reply list `rs` of a comment visited at
      `parentDepth`: each reply's lines, in listed order. */
  function FlattenAll(rs: seq<Comment>, parentDepth: nat, maxDepth: nat): seq<Line>
    decreases rs, 0
  {
    if rs == [] then []
    else FlattenAll(rs[..|rs| - 1], parentDepth, maxDepth) + Flatten(rs[|rs| - 1], parentDepth + 1, maxDepth)
  }

  /** What `write_comment` promises about the lines of one comment: none
      when the comment lies below the bound or is deleted; otherwise its own
      line first, at its depth, and after it only deeper lines; no line
      deeper than the bound and none carrying the deleted sentinel. */
  lemma {:induction false} FlattenShape(c: Comment, depth: nat, maxDepth: nat)
    ensures Flatten(c, depth, maxDepth) != [] <==> depth <= maxDepth && !IsDeleted(c)
    ensures Flatten(c, depth, maxDepth) != [] ==> Flatten(c, depth, maxDepth)[0] == Line(depth, BodyOf(c))
    ensures forall k | 0 <= k < |Flatten(c, depth, maxDepth)| ::
      depth <= Flatten(c, depth, maxDepth)[k].depth <= maxDepth && Flatten(c, depth, maxDepth)[k].body != Deleted
    ensures forall k | 0 < k < |Flatten(c, depth, maxDepth)| :: Flatten(c, depth, maxDepth)[k].depth > depth
    decreases c, 1
  {
    if depth <= maxDepth && !IsDeleted(c) {
      var ls := Flatten(c, depth, maxDepth);
      match c.replies {
        case NoReplies =>
          assert ls == [Line(depth, BodyOf(c))];
        case Listing(rs) =>
          var tail := FlattenAll(rs, depth, maxDepth);
          FlattenAllShape(rs, depth, maxDepth);
          assert ls == [Line(depth, BodyOf(c))] + tail;
          assert forall k | 0 < k < |ls| :: ls[k] == tail[k - 1];
      }
    }
  }

  /** The lines written for a reply list all lie strictly below the parent
      and within the bound, and none carries the deleted sentinel. */
  lemma {:induction false} FlattenAllShape(rs: seq<Comment>, parentDepth: nat, maxDepth: nat)
    ensures forall k | 0 <= k < |FlattenAll(rs, parentDepth, maxDepth)| ::
      parentDepth < FlattenAll(rs, parentDepth, maxDepth)[k].depth <= maxDepth
      && FlattenAll(rs, parentDepth, maxDepth)[k].body != Deleted
    decreases rs, 0
  {
    if rs != [] {
      var a := FlattenAll(rs[..|rs| - 1], parentDepth, maxDepth);
      var b := Flatten(rs[|rs| - 1], parentDepth + 1, maxDepth);
      FlattenAllShape(rs[..|rs| - 1], parentDepth, maxDepth);
      FlattenShape(rs[|rs| - 1], parentDepth + 1, maxDepth);
      var ls := a + b;
      assert ls == FlattenAll(rs, parentDepth, maxDepth);
      assert forall k | 0 <= k < |a| :: ls[k] == a[k];
      assert forall k | |a| <= k < |ls| :: ls[k] == b[k - |a|];
    }
  }

  lemma {:induction false} FlattenAllAppend(a: seq<Comment>, b: seq<Comment>, d: nat, maxDepth: nat)
    ensures FlattenAll(a + b, d, maxDepth) == FlattenAll(a, d, maxDepth) + FlattenAll(b, d, maxDepth)
    decreases |b|
  {
    if b == [] {
      assert a + b == a;
    } else {
      var b', last := b[..|b| - 1], b[|b| - 1];
      assert (a + b)[..|a + b| - 1] == a + b' && (a + b)[|a + b| - 1] == last;
      FlattenAllAppend(a, b', d, maxDepth);
      AppendAssoc(FlattenAll(a, d, maxDepth), FlattenAll(b', d, maxDepth), Flatten(last, d + 1, maxDepth));
    }
  }

  /** Siblings keep their order: the lines of reply `i` sit between those
      of the replies before it and those of the replies after it. */
  lemma FlattenAllSplit(rs: seq<Comment>, i: nat, d: nat, maxDepth: nat)
    requires i < |rs|
    ensures FlattenAll(rs, d, maxDepth)
      == FlattenAll(rs[..i], d, maxDepth) + Flatten(rs[i], d + 1, maxDepth) + FlattenAll(rs[i + 1..], d, maxDepth)
  {
    assert rs == rs[..i] + [rs[i]] + rs[i + 1..];
    FlattenAllAppend(rs[..i] + [rs[i]], rs[i + 1..], d, maxDepth);
    FlattenAllAppend(rs[..i], [rs[i]], d, maxDepth);
    assert FlattenAll([rs[i]], d, maxDepth) == Flatten(rs[i], d + 1, maxDepth) by {
      assert [rs[i]][..0] == [];
    }
  }

  /** A deleted reply contributes no line, for itself or its subtree, while
      every sibling is rendered exactly as without it. */
  lemma DeletedReplyPruned(rs: seq<Comment>, i: nat, d: nat, maxDepth: nat)
    requires i < |rs| && IsDeleted(rs[i])
    ensures FlattenAll(rs, d, maxDepth) == FlattenAll(rs[..i], d, maxDepth) + FlattenAll(rs[i + 1..], d, maxDepth)
  {
    FlattenAllSplit(rs, i, d, maxDepth);
  }

  /** The sentinel is compared exactly: a comment whose author is Reddit's
      lower-case "[deleted]" is written like any other. */
  lemma LowercaseSentinelKept(maxDepth: nat)
    ensures var c := Comment(Some("[deleted]"), Some("x"), NoReplies);
      !IsDeleted(c) && Flatten(c, 0, maxDepth) == [Line(0, "x")]
  {
    assert "[deleted]"[1] != Deleted[1];
    assert "x" != Deleted;
  }

  // ---------------------------------------------------------------------
  // The line format

  /** Python's `"  " * depth`. */
  function Indent(depth: nat): (s: string)
    ensures |s| == 2 * depth
    ensures forall k | 0 <= k < |s| :: s[k] == ' '
  {
    if depth == 0 then "" else "  " + Indent(depth - 1)
  }

  /** The text handed to `write_line` for a line: `"{j}. {body}"` at depth
      0, `"{indent}- {body}"` below it. */
  function Format(l: Line, j: nat): string {
    if l.depth == 0 then NatToString(j) + ". " + l.body
    else Indent(l.depth) + "- " + l.body
  }

  /** The format can be read back: a reply line carries exactly 2·depth
      leading blanks, then "- ", then the body; a top-level line carries
      none, and the digits before its first ". " are the number `j`. */
  lemma FormatReadsBack(l: Line, j: nat)
    ensures LeadingSpaces(Format(l, j)) == 2 * l.depth
    ensures l.depth > 0 ==>
      var s, n := Format(l, j), 2 * l.depth;
      s[n..n + 2] == "- " && s[n + 2..] == l.body
    ensures l.depth == 0 ==>
      var s, p := Format(l, j), Find(Format(l, j), ". ", 0);
      p >= 0 && ParseDigits(s[..p]) == j && s[p + 2..] == l.body
  {
    var s := Format(l, j);
    if l.depth == 0 {
      var digits := NatToString(j);
      assert s[..|digits|] == digits;
      LeadingSpacesExactly(s, 0);
      assert OccursAt(s, ". ", |digits|);
      forall i | 0 <= i < |digits|
        ensures !OccursAt(s, ". ", i)
      {
        assert s[i] == digits[i] && IsDigit(s[i]);
        OccurrenceHasChar(s, ". ", i, 0);
      }
      FindIsFirst(s, ". ", |digits|);
      var p := Find(s, ". ", 0);
      assert s[..p] == digits;
      NatToStringRoundTrip(j);
    } else {
      LeadingSpacesExactly(s, 2 * l.depth);
    }
  }

  /** The texts written for `ls`, in order. */
  function FormatAll(ls: seq<Line>, j: nat): (r: seq<string>)
    ensures |r| == |ls|
    decreases |ls|
  {
    if ls == [] then [] else FormatAll(ls[..|ls| - 1], j) + [Format(ls[|ls| - 1], j)]
  }

  lemma {:induction false} FormatAllAt(ls: seq<Line>, j: nat, k: nat)
    requires k < |ls|
    ensures FormatAll(ls, j)[k] == Format(ls[k], j)
    decreases |ls|
  {
    if k < |ls| - 1 {
      FormatAllAt(ls[..|ls| - 1], j, k);
    }
  }

  lemma {:induction false} FormatAllAppend(a: seq<Line>, b: seq<Line>, j: nat)
    ensures FormatAll(a + b, j) == FormatAll(a, j) + FormatAll(b, j)
    decreases |b|
  {
    if b == [] {
      assert a + b == a;
    } else {
      var b' := b[..|b| - 1];
      assert (a + b)[..|a + b| - 1] == a + b';
      FormatAllAppend(a, b', j);
    }
  }

  // ---------------------------------------------------------------------
  // The accumulated document

  /** The `content` string after `write_line(t)` for each `t` in `lines`:
      every line followed by "\n". */
  function Render(lines: seq<string>): string
    decreases |lines|
  {
    if lines == [] then "" else Render(lines[..|lines| - 1]) + lines[|lines| - 1] + "\n"
  }

  lemma {:induction false} RenderAppend(a: seq<string>, b: seq<string>)
    ensures Render(a + b) == Render(a) + Render(b)
    decreases |b|
  {
    if b == [] {
      assert a + b == a;
    } else {
      var b' := b[..|b| - 1];
      assert (a + b)[..|a + b| - 1] == a + b';
      RenderAppend(a, b');
    }
  }

  lemma HeadThenReplies(head: Line, rest: seq<Line>, j: nat)
    ensures FormatAll([head] + rest, j) == [Format(head, j)] + FormatAll(rest, j)
  {
    FormatAllAppend([head], rest, j);
    assert FormatAll([head], j) == [Format(head, j)] by {
      assert [head][..0] == [];
    }
  }

  /** The lines of the replies of `c`, visited at `depth`. */
  function ReplyLines(c: Comment, depth: nat, maxDepth: nat): seq<Line> {
    match c.replies
    case NoReplies => []
    case Listing(rs) => FlattenAll(rs, depth, maxDepth)
  }

  /** A visited comment writes its own line, then the lines of its replies. */
  lemma VisitedLines(c: Comment, depth: nat, maxDepth: nat, j: nat)
    requires depth <= maxDepth && !IsDeleted(c)
    ensures FormatAll(Flatten(c, depth, maxDepth), j)
      == [Format(Line(depth, BodyOf(c)), j)] + FormatAll(ReplyLines(c, depth, maxDepth), j)
  {
    HeadThenReplies(Line(depth, BodyOf(c)), ReplyLines(c, depth, maxDepth), j);
  }

  lemma ReplyStep(rs: seq<Comment>, k: nat, depth: nat, maxDepth: nat, j: nat)
    requires k < |rs|
    ensures FormatAll(FlattenAll(rs[..k + 1], depth, maxDepth), j)
      == FormatAll(FlattenAll(rs[..k], depth, maxDepth), j) + FormatAll(Flatten(rs[k], depth + 1, maxDepth), j)
  {
    assert rs[..k + 1][..k] == rs[..k];
    FormatAllAppend(FlattenAll(rs[..k], depth, maxDepth), Flatten(rs[k], depth + 1, maxDepth), j);
  }

  // ---------------------------------------------------------------------
  // The top-level loop

  /** The lines `for j, comment in enumerate(comments[:n], 1)` writes: the
      `j`-th comment is flattened from depth 0 and numbered `j`, whether or
      not an earlier comment was skipped. */
  function Section(cs: seq<Comment>, n: nat, maxDepth: nat): seq<string>
    requires n <= |cs|
  {
    if n == 0 then [] else Section(cs, n - 1, maxDepth) + FormatAll(Flatten(cs[n - 1], 0, maxDepth), n)
  }

  /** The section for `comments[:cap]`. */
  function TopComments(cs: seq<Comment>, cap: nat, maxDepth: nat): seq<string> {
    Section(cs, Min(cap, |cs|), maxDepth)
  }

  /** What was written for the first `k` comments is never revised by later ones. */
  lemma {:induction false} SectionPrefix(cs: seq<Comment>, k: nat, n: nat, maxDepth: nat)
    requires k <= n <= |cs|
    ensures Section(cs, k, maxDepth) <= Section(cs, n, maxDepth)
    decreases n
  {
    if k < n {
      SectionPrefix(cs, k, n - 1, maxDepth);
      var a, b := Section(cs, n - 1, maxDepth), FormatAll(Flatten(cs[n - 1], 0, maxDepth), n);
      assert Section(cs, n, maxDepth) == a + b;
      assert a <= a + b;
    }
  }

  /** The `(k+1)`-th top-level comment, when it is not deleted, is written as
      `"{k+1}. {body}"` right after the lines of the comments before it. */
  lemma SectionNumbering(cs: seq<Comment>, k: nat, n: nat, maxDepth: nat)
    requires k < n <= |cs| && !IsDeleted(cs[k])
    ensures |Section(cs, k, maxDepth)| < |Section(cs, n, maxDepth)|
    ensures Section(cs, n, maxDepth)[|Section(cs, k, maxDepth)|] == NatToString(k + 1) + ". " + BodyOf(cs[k])
  {
    var before := Section(cs, k, maxDepth);
    var ls := Flatten(cs[k], 0, maxDepth);
    FlattenShape(cs[k], 0, maxDepth);
    assert Section(cs, k + 1, maxDepth) == before + FormatAll(ls, k + 1);
    SectionPrefix(cs, k + 1, n, maxDepth);
    FormatAllAt(ls, k + 1, 0);
    assert Section(cs, n, maxDepth)[|before|] == FormatAll(ls, k + 1)[0];
  }

  /** The section reads only the comments it numbers. */
  lemma {:induction false} SectionReadsPrefix(cs: seq<Comment>, other: seq<Comment>, n: nat, maxDepth: nat)
    requires n <= |cs| && n <= |other| && cs[..n] == other[..n]
    ensures Section(cs, n, maxDepth) == Section(other, n, maxDepth)
    decreases n
  {
    if n > 0 {
      assert cs[n - 1] == cs[..n][n - 1] == other[n - 1];
      assert cs[..n - 1] == cs[..n][..n - 1];
      assert other[..n - 1] == other[..n][..n - 1];
      SectionReadsPrefix(cs, other, n - 1, maxDepth);
    }
  }

  /** Comments past the cap are never visited: appending to the list after
      position `cap` leaves the section unchanged. */
  lemma TopCommentsCapped(cs: seq<Comment>, extra: seq<Comment>, cap: nat, maxDepth: nat)
    requires cap <= |cs|
    ensures TopComments(cs + extra, cap, maxDepth) == TopComments(cs, cap, maxDepth)
  {
    assert (cs + extra)[..cap] == cs[..cap];
    SectionReadsPrefix(cs + extra, cs, cap, maxDepth);
  }

  /** No text of the section starts with more than two blanks per level
      of the depth bound. */
  lemma {:induction false} SectionIndentBound(cs: seq<Comment>, n: nat, maxDepth: nat)
    requires n <= |cs|
    ensures forall t | t in Section(cs, n, maxDepth) :: LeadingSpaces(t) <= 2 * maxDepth
    decreases n
  {
    if n > 0 {
      SectionIndentBound(cs, n - 1, maxDepth);
      var ls := Flatten(cs[n - 1], 0, maxDepth);
      FlattenShape(cs[n - 1], 0, maxDepth);
      forall k | 0 <= k < |ls|
        ensures LeadingSpaces(FormatAll(ls, n)[k]) <= 2 * maxDepth
      {
        FormatAllAt(ls, n, k);
        FormatReadsBack(ls[k], n);
      }
    }
  }

  /** Every top-level line is missing exactly when every numbered comment is
      deleted: a section can come out empty although its header counts the
      comments it skipped. */
  lemma {:induction false} SectionEmpty(cs: seq<Comment>, n: nat, maxDepth: nat)
    requires n <= |cs|
    ensures Section(cs, n, maxDepth) == [] <==> forall k | 0 <= k < n :: IsDeleted(cs[k])
    decreases n
  {
    if n > 0 {
      SectionEmpty(cs, n - 1, maxDepth);
      FlattenShape(cs[n - 1], 0, maxDepth);
      var a, b := Section(cs, n - 1, maxDepth), FormatAll(Flatten(cs[n - 1], 0, maxDepth), n);
      assert Section(cs, n, maxDepth) == a + b;
      assert |a + b| == |a| + |Flatten(cs[n - 1], 0, maxDepth)|;
    }
  }

  // ---------------------------------------------------------------------
  // The comment block of one post

  /** The outcome of the comments request: the HTTP status and, when the
      body decodes, its top-level JSON array, each element given by its
      `['data']['children']` list. */
  datatype CommentsResponse = CommentsResponse(status: int, listings: seq<seq<Comment>>)

  /** `comments_data[1]['data']['children'] if len(comments_data) > 1 else []`. */
  function TopLevel(r: CommentsResponse): seq<Comment> {
    if |r.listings| > 1 then r.listings[1] else []
  }

  function CommentsHeader(count: nat, maxDepth: nat): string {
    "### Top " + NatToString(count) + " comments and their replies (up to depth " + NatToString(maxDepth) + ")"
  }

  function CommentsError(status: int): string {
    "**Error fetching comments:** " + IntToString(status)
  }

  /** The lines written for one post's comments: on status 200 a header
      counting `min(cap, len(comments))`, a blank, the section and a blank;
      otherwise the error line and a blank. */
  function CommentBlock(r: CommentsResponse, cap: nat, maxDepth: nat): seq<string> {
    if r.status == 200 then
      [CommentsHeader(Min(cap, |TopLevel(r)|), maxDepth), ""] + TopComments(TopLevel(r), cap, maxDepth) + [""]
    else
      [CommentsError(r.status), ""]
  }

  /** A failed request writes just the error line and a blank; a successful
      one opens with the header and a blank, closes with a blank line, and
      between them holds exactly the capped comment section. */
  lemma CommentBlockShape(r: CommentsResponse, cap: nat, maxDepth: nat)
    ensures r.status != 200 ==> CommentBlock(r, cap, maxDepth) == [CommentsError(r.status), ""]
    ensures r.status == 200 ==>
      |CommentBlock(r, cap, maxDepth)| >= 3
      && CommentBlock(r, cap, maxDepth)[0] == CommentsHeader(Min(cap, |TopLevel(r)|), maxDepth)
      && CommentBlock(r, cap, maxDepth)[1] == ""
      && CommentBlock(r, cap, maxDepth)[|CommentBlock(r, cap, maxDepth)| - 1] == ""
      && CommentBlock(r, cap, maxDepth)[2..|CommentBlock(r, cap, maxDepth)| - 1] == TopComments(TopLevel(r), cap, maxDepth)
  {
    if r.status == 200 {
      var b := CommentBlock(r, cap, maxDepth);
      var t := TopComments(TopLevel(r), cap, maxDepth);
      assert b[2..|b| - 1] == t;
    }
  }

  /** The error line keeps the status readable: the text after the fixed
      prefix is `str(status)`. */
  lemma CommentsErrorReadsBack(status: int)
    ensures StartsWith(CommentsError(status), "**Error fetching comments:** ")
    ensures ParseInt(CommentsError(status)[29..]) == status
  {
    assert CommentsError(status)[29..] == IntToString(status);
    IntToStringRoundTrip(status);
  }

  /** A line that starts with something other than a blank has no leading
      blanks. */
  lemma NoIndent(s: string)
    requires s != [] && s[0] != ' '
    ensures LeadingSpaces(s) == 0
  {
  }

  /** Every text in `ls` starts with at most `bound` blanks. */
  predicate IndentWithin(ls: seq<string>, bound: nat) {
    forall k | 0 <= k < |ls| :: LeadingSpaces(ls[k]) <= bound
  }

  lemma IndentConcat(a: seq<string>, b: seq<string>, bound: nat)
    requires IndentWithin(a, bound) && IndentWithin(b, bound)
    ensures IndentWithin(a + b, bound)
  {
    assert forall k | |a| <= k < |a + b| :: (a + b)[k] == b[k - |a|];
  }

  lemma CommentBlockIndent(r: CommentsResponse, cap: nat, maxDepth: nat)
    ensures IndentWithin(CommentBlock(r, cap, maxDepth), 2 * maxDepth)
  {
    if r.status == 200 {
      var cs := TopLevel(r);
      SectionIndentBound(cs, Min(cap, |cs|), maxDepth);
      NoIndent(CommentsHeader(Min(cap, |cs|), maxDepth));
    } else {
      NoIndent(CommentsError(r.status));
    }
  }

  // ---------------------------------------------------------------------
  // Numbered loops

  /** The lines of `for i, x in enumerate(xs[:n], 1)` when item `x`
      numbered `i` writes `lines(x, i)`. */
  function Enumerated<T>(xs: seq<T>, n: nat, lines: (T, nat) -> seq<string>): seq<string>
    requires n <= |xs|
  {
    if n == 0 then [] else Enumerated(xs, n - 1, lines) + lines(xs[n - 1], n)
  }

  /** Later items only append: the lines of the first `k` items are a prefix
      of those of the first `n`. */
  lemma {:induction false} EnumeratedPrefix<T>(xs: seq<T>, k: nat, n: nat, lines: (T, nat) -> seq<string>)
    requires k <= n <= |xs|
    ensures Enumerated(xs, k, lines) <= Enumerated(xs, n, lines)
    decreases n
  {
    if k < n {
      EnumeratedPrefix(xs, k, n - 1, lines);
      PrefixOfAppend(Enumerated(xs, k, lines), Enumerated(xs, n - 1, lines), lines(xs[n - 1], n));
    }
  }

  // ---------------------------------------------------------------------
  // The accumulator, as the nested write_line / write_comment closures

  /** The `content` string that `write_line` extends through `nonlocal`;
      `written` is the list of texts passed to `write_line` so far. Valid()
      is stated for every `u` equal to `written` so that the prover unfolds
      Render only where a proof names it (in WriteLine), not in every caller. */
  class Document {
    var content: string
    ghost var written: seq<string>

    ghost predicate Valid()
      reads this
    {
      forall u | u == written :: content == Render(u)
    }

    constructor ()
      ensures Valid() && written == [] && content == ""
    {
      content := "";
      written := [];
    }

    /** `content += text + '\n'`. */
    method WriteLine(text: string)
      requires Valid()
      modifies this
      ensures Valid() && written == old(written) + [text]
      ensures content == old(content) + text + "\n"
    {
      content := content + text + "\n";
      written := written + [text];
      assert written[..|written| - 1] == old(written);
    }

    /** `write_comment(c, depth, maxDepth)` inside the loop whose counter is `j`. */
    method WriteComment(c: Comment, depth: nat, maxDepth: nat, j: nat)
      requires Valid()
      modifies this
      ensures Valid() && written == old(written) + FormatAll(Flatten(c, depth, maxDepth), j)
      decreases c, 1
    {
      if depth > maxDepth {
        assert written == old(written) + [];
        return;
      }
      var body := c.body.GetOr(Deleted);
      var author := c.author.GetOr(Deleted);
      if author == Deleted || body == Deleted {
        assert written == old(written) + [];
        return;
      }
      if depth == 0 {
        WriteLine(NatToString(j) + ". " + body);
      } else {
        WriteLine(Indent(depth) + "- " + body);
      }
      ghost var first := [Format(Line(depth, body), j)];
      assert written == old(written) + first;
      match c.replies {
        case NoReplies =>
        case Listing(rs) =>
          WriteReplies(rs, depth, maxDepth, j);
      }
      AppendAssoc(old(written), first, FormatAll(ReplyLines(c, depth, maxDepth), j));
      VisitedLines(c, depth, maxDepth, j);
    }

    /** `for reply in replies: write_comment(reply, depth + 1, max_depth)`. */
    method WriteReplies(rs: seq<Comment>, depth: nat, maxDepth: nat, j: nat)
      requires Valid()
      modifies this
      ensures Valid() && written == old(written) + FormatAll(FlattenAll(rs, depth, maxDepth), j)
      decreases rs, 0
    {
      for k := 0 to |rs|
        invariant Valid() && written == old(written) + FormatAll(FlattenAll(rs[..k], depth, maxDepth), j)
      {
        ReplyStep(rs, k, depth, maxDepth, j);
        WriteComment(rs[k], depth + 1, maxDepth, j);
      }
      assert rs[..|rs|] == rs;
    }

    /** `for j, comment in enumerate(comments[:cap], 1): write_comment(comment, 0)`. */
    method WriteTopComments(cs: seq<Comment>, cap: nat, maxDepth: nat)
      requires Valid()
      modifies this
      ensures Valid() && written == old(written) + TopComments(cs, cap, maxDepth)
    {
      var n := Min(cap, |cs|);
      for i := 0 to n
        invariant Valid() && written == old(written) + Section(cs, i, maxDepth)
      {
        var j := i + 1;
        WriteComment(cs[i], 0, maxDepth, j);
      }
    }

    /** The `if comments_response.status_code == 200: … else: …` block of one post. */
    method WriteCommentBlock(r: CommentsResponse, cap: nat, maxDepth: nat)
      requires Valid()
      modifies this
      ensures Valid() && written == old(written) + CommentBlock(r, cap, maxDepth)
    {
      if r.status == 200 {
        var comments := TopLevel(r);
        WriteLine(CommentsHeader(Min(cap, |comments|), maxDepth));
        WriteLine("");
        WriteTopComments(comments, cap, maxDepth);
        WriteLine("");
      } else {
        WriteLine(CommentsError(r.status));
        WriteLine("");
      }
    }
  }
}
