/** The part of ranking.py's `process_file` that decides what happens with
    the model's reply: which substring of the reply is handed to the JSON
    parser (the block after the first "```json" up to the next "```",
    stripped, or else the whole reply), and whether a ranking is saved.
    The JSON parser is a parameter: it returns None where `json.loads`
    raises `JSONDecodeError`. */
module Ranking {
  import opened Wrappers
  import opened Text

  const Marker := "```json"
  const Fence := "```"

  /** The text `json.loads` receives for the reply `content`. */
  function JsonText(content: string): string {
    var s := Find(content, Marker, 0);
    if s == -1 then content
    else
      var start := s + |Marker|;
      var e := Find(content, Fence, start);
      if e == -1 then content else Strip(content[start..e])
  }

  /** `content[:500]`. */
  function Preview(content: string): (p: string)
    ensures |p| == Min(|content|, 500) && p <= content
  {
    if |content| <= 500 then content else content[..500]
  }

  /** The decoded `/chat/completions` response: its status and the
      `message.content` of each element of `choices` (an empty list when
      the key is missing or its value is empty). */
  datatype ApiResponse = ApiResponse(status: int, choices: seq<string>)

  /** What became of one response: the ranking written to the output file,
      or one of the three outcomes that write nothing. */
  datatype Outcome<J> = Saved(ranking: J) | ParseFailed(preview: string) | NoChoices | RequestFailed(status: int)

  function Process<J>(r: ApiResponse, parse: string -> Option<J>): (o: Outcome<J>)
    ensures o.Saved? <==> r.status == 200 && r.choices != [] && parse(JsonText(r.choices[0])).Some?
    ensures o.Saved? ==> o.ranking == parse(JsonText(r.choices[0])).value
    ensures o.ParseFailed? ==> r.choices != [] && o.preview == Preview(r.choices[0])
    ensures o.NoChoices? <==> r.status == 200 && r.choices == []
    ensures o.RequestFailed? <==> r.status != 200
    ensures o.RequestFailed? ==> o.status == r.status
  {
    if r.status != 200 then RequestFailed(r.status)
    else if r.choices == [] then NoChoices
    else
      var content := r.choices[0];
      match parse(JsonText(content))
      case Some(ranking) => Saved(ranking)
      case None => ParseFailed(Preview(content))
  }

  // ---------------------------------------------------------------------
  // Which text is parsed

  /** With the first marker at `s` and the first fence at or after `s + 7`
      at `e`, the parser gets the stripped text between them. */
  lemma FencedBlockChosen(content: string, s: nat, e: nat)
    requires OccursAt(content, Marker, s) && forall k | 0 <= k < s :: !OccursAt(content, Marker, k)
    requires s + |Marker| <= e && OccursAt(content, Fence, e)
    requires forall k | s + |Marker| <= k < e :: !OccursAt(content, Fence, k)
    ensures JsonText(content) == Strip(content[s + |Marker|..e])
  {
    var s' := Find(content, Marker, 0);
    assert s' == s;
    var e' := Find(content, Fence, s + |Marker|);
    assert e' == e;
  }

  /** The parsed text of a fenced reply lies strictly after the marker: the
      closing fence is searched for only past the seven characters of
      "```json", so the marker's own backticks never close the block. */
  lemma FencedTextAfterMarker(content: string)
    requires Find(content, Marker, 0) >= 0
    requires Find(content, Fence, Find(content, Marker, 0) + |Marker|) >= 0
    ensures var s := Find(content, Marker, 0);
      var e := Find(content, Fence, s + |Marker|);
      s + |Marker| <= e
      && content[s..s + |Marker|] == Marker
      && content[e..e + |Fence|] == Fence
      && JsonText(content) == Strip(content[s + |Marker|..e])
  {
  }

  /** A marker without a closing fence after it: the whole reply is parsed,
      marker included, not the text after the marker. */
  lemma UnclosedMarkerWhole(content: string)
    requires Find(content, Marker, 0) >= 0
    requires forall k | Find(content, Marker, 0) + |Marker| <= k :: !OccursAt(content, Fence, k)
    ensures JsonText(content) == content
  {
  }

  /** No marker at all: the whole reply is parsed. */
  lemma NoMarkerWhole(content: string)
    requires forall k | 0 <= k :: !OccursAt(content, Marker, k)
    ensures JsonText(content) == content
  {
  }

  /** Only the first fenced block counts: for a reply made of backtick-free
      text, a "```json" block and anything after it (another block
      included), the parser gets the stripped inside of the first block. */
  lemma OnlyFirstBlock(before: string, inner: string, rest: string)
    requires forall k | 0 <= k < |before| :: before[k] != '`'
    requires forall k | 0 <= k < |inner| :: inner[k] != '`'
    ensures JsonText(before + Marker + inner + Fence + rest) == Strip(inner)
  {
    var c := before + Marker + inner + Fence + rest;
    var s := |before|;
    var e := s + |Marker| + |inner|;
    assert c[s..s + |Marker|] == Marker;
    forall k | 0 <= k < s
      ensures !OccursAt(c, Marker, k)
    {
      assert c[k] == before[k];
    }
    assert c[e..e + |Fence|] == Fence;
    forall k | s + |Marker| <= k < e
      ensures !OccursAt(c, Fence, k)
    {
      assert c[k] == inner[k - s - |Marker|];
    }
    assert c[s + |Marker|..e] == inner;
    FencedBlockChosen(c, s, e);
  }

  /** The reply "```json```": the closing fence is looked for from index 7,
      so it is found there and not at the marker's own backticks at index 0,
      and the parser gets the empty text rather than the whole reply. */
  lemma EmptyBlock()
    ensures JsonText(Marker + Fence) == ""
  {
    OnlyFirstBlock("", "", "");
    assert "" + Marker + "" + Fence + "" == Marker + Fence;
  }

  // ---------------------------------------------------------------------
  // Persisting

  /** "Save to file" happens only for a 200 response with a non-empty
      `choices` whose text parses, and what is saved is the parser's value,
      unchecked; a parse failure saves nothing and keeps at most 500
      characters of the reply for the diagnostic. */
  lemma SavedOnlyOnSuccess<J>(r: ApiResponse, parse: string -> Option<J>)
    ensures Process(r, parse).Saved? ==>
      r.status == 200 && |r.choices| > 0 && parse(JsonText(r.choices[0])) == Some(Process(r, parse).ranking)
    ensures Process(r, parse).ParseFailed? ==>
      |Process(r, parse).preview| <= 500 && Process(r, parse).preview <= r.choices[0]
      && parse(JsonText(r.choices[0])) == None
  {
  }
}
