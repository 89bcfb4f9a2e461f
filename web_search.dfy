/**
 * Web search post-processing: projecting the search service's results, turning a fetched
 * HTML page into plain text (script and style blocks removed, tags replaced by a space,
 * whitespace runs collapsed, trimmed, cut to 5000 characters), and crawling the top three
 * results with every failure recorded in place. The search service, the proxy and the
 * configuration are foreign: their answers are inputs.
 */
module WebSearch {
  import opened Wrappers
  import opened JsString

  // ---------------------------------------------------------------- search results

  /** A result as the search service sends it; fields beyond the four shown are `extra`. */
  datatype RawResult = RawResult(title: Option<string>, link: Option<string>, snippet: Option<string>,
                                 position: Option<int>, extra: map<string, string>)

  /** A result as the client keeps it. */
  datatype SearchResult = SearchResult(title: Option<string>, link: Option<string>, snippet: Option<string>,
                                       position: Option<int>)

  /** The body of a successful search: `organic_results` and `search_information.total_results`, each possibly missing. */
  datatype SearchData = SearchData(organicResults: Option<seq<RawResult>>, totalResults: Option<int>)

  /** The search request's answer: a body, or an error with the service's own message (if any) and the HTTP client's message. */
  datatype SearchReply = Answered(data: SearchData) | Rejected(apiError: Option<string>, message: string)

  /** What `searchWeb` resolves to. */
  datatype SearchOutcome = SearchOutcome(query: string, results: seq<SearchResult>, totalResults: int)

  const KeyMissing: string := "SerpAPI key not configured. Please add VITE_SERPAPI_KEY to your .env file."
  const SearchFailed: string := "Web search failed: "

  /** A result reduced to title, link, snippet and position. */
  function Project(raw: RawResult): SearchResult {
    SearchResult(raw.title, raw.link, raw.snippet, raw.position)
  }

  /** `organic_results || []`. */
  function OrganicResults(data: SearchData): seq<RawResult> {
    if data.organicResults.Some? then data.organicResults.value else []
  }

  /**
   * `searchWeb`: without a configured key it fails before any request, whatever the service
   * would have answered; a rejected request fails with the service's error, or else the
   * client's message; an answer is projected.
   */
  function SearchWeb(query: string, apiKey: Option<string>, reply: SearchReply): (r: Result<SearchOutcome>)
    ensures !Truthy(apiKey) ==> r == Failure(KeyMissing)
    ensures Truthy(apiKey) && reply.Rejected? ==> r.Failure? && StartsWith(r.error, SearchFailed)
    ensures Truthy(apiKey) && reply.Rejected? && Truthy(reply.apiError) ==> r.error == SearchFailed + reply.apiError.value
    ensures Truthy(apiKey) && reply.Rejected? && !Truthy(reply.apiError) ==> r.error == SearchFailed + reply.message
    ensures Truthy(apiKey) && reply.Answered? ==> r.Success? && r.value.query == query
  {
    if !Truthy(apiKey) then Failure(KeyMissing)
    else match reply
      case Rejected(apiError, message) =>
        Failure(SearchFailed + (if Truthy(apiError) then apiError.value else message))
      case Answered(data) =>
        var raw := OrganicResults(data);
        Success(SearchOutcome(query, seq(|raw|, k requires 0 <= k < |raw| => Project(raw[k])),
                              if data.totalResults.Some? then data.totalResults.value else 0))
  }

  /**
   * Each result keeps exactly its title, link, snippet and position, in the service's order;
   * missing results give none, and a missing (or zero) total gives 0.
   */
  lemma SearchProjection(query: string, apiKey: Option<string>, data: SearchData)
    requires Truthy(apiKey)
    ensures var out := SearchWeb(query, apiKey, Answered(data)).value;
      && |out.results| == |OrganicResults(data)|
      && (data.organicResults.None? ==> out.results == [])
      && (forall k :: 0 <= k < |out.results| ==>
            var raw := OrganicResults(data)[k];
            out.results[k] == SearchResult(raw.title, raw.link, raw.snippet, raw.position))
      && out.totalResults == (if data.totalResults.Some? then data.totalResults.value else 0)
  {
  }

  // ---------------------------------------------------------------- HTML to text

  /** The result text is cut to this many characters. */
  const MaxChars: nat := 5000
  const Unextractable: string := "Unable to extract content from this page."
  const ScriptOpen: string := "<script"
  const ScriptClose: string := "</script>"
  const StyleOpen: string := "<style"
  const StyleClose: string := "</style>"

  /**
   * Where a block such as `<script …>…</script>` that starts at the beginning of `s` ends,
   * letters compared without regard to case: the opening tag runs to the first `>`, and the
   * block to the first closing tag after it. `None` when either is missing.
   */
  function BlockEnd(s: string, open: string, close: string): (r: Option<nat>)
    requires open != [] && close != []
    ensures r.Some? ==> |open| < r.value <= |s|
  {
    if !MatchesAt(s, 0, open) then None
    else match IndexOfChar(s, '>', |open|)
      case None => None
      case Some(j) =>
        match IndexOfIgnoreCase(s, close, j + 1)
        case None => None
        case Some(k) => Some(k + |close|)
  }

  /** One left-to-right pass of the global, case-insensitive replacement of such blocks by nothing. */
  function RemoveBlocks(s: string, open: string, close: string): (r: string)
    requires open != [] && close != []
    ensures |r| <= |s|
    decreases |s|
  {
    if s == [] then []
    else match BlockEnd(s, open, close)
      case Some(e) => RemoveBlocks(s[e..], open, close)
      case None => [s[0]] + RemoveBlocks(s[1..], open, close)
  }

  /** Text before the first `<` passes through the removal of blocks untouched. */
  lemma {:induction false} RemoveBlocksKeepsPlain(x: string, y: string, open: string, close: string)
    requires open != [] && close != [] && open[0] == '<'
    requires forall k :: 0 <= k < |x| ==> x[k] != '<'
    ensures RemoveBlocks(x + y, open, close) == x + RemoveBlocks(y, open, close)
    decreases |x|
  {
    if x != [] {
      var s := x + y;
      assert !MatchesAt(s, 0, open) by {
        if |open| <= |s| {
          assert s[0 + 0] == x[0];
          assert LowerChar(s[0 + 0]) != open[0];
        }
      }
      RemoveBlocksKeepsPlain(x[1..], y, open, close);
      assert s[1..] == x[1..] + y;
      calc {
        RemoveBlocks(s, open, close);
        [s[0]] + RemoveBlocks(s[1..], open, close);
        [x[0]] + (x[1..] + RemoveBlocks(y, open, close));
        ([x[0]] + x[1..]) + RemoveBlocks(y, open, close);
        { assert [x[0]] + x[1..] == x; }
        x + RemoveBlocks(y, open, close);
      }
    } else {
      assert x + y == y;
    }
  }

  /** The literal has no upper-case letters, so case-insensitive matching finds it as written. */
  predicate LowerLiteral(lit: string) {
    forall i :: 0 <= i < |lit| ==> LowerChar(lit[i]) == lit[i]
  }

  /**
   * `s` starts with a block: `open`, a `>`, `bodyLength` characters none of which is `<`, and
   * `close`.
   */
  predicate BlockAt(s: string, open: string, bodyLength: nat, close: string) {
    && |open| + 1 + bodyLength + |close| <= |s|
    && (forall i :: 0 <= i < |open| ==> s[i] == open[i])
    && s[|open|] == '>'
    && (forall i :: |open| + 1 <= i < |open| + 1 + bodyLength ==> s[i] != '<')
    && (forall i :: 0 <= i < |close| ==> s[|open| + 1 + bodyLength + i] == close[i])
  }

  /** A block built from its parts, followed by anything, is where `BlockAt` says it is. */
  lemma {:induction false} BlockLayout(block: string, open: string, body: string, close: string, after: string)
    requires block == open + ">" + body + close
    requires forall k :: 0 <= k < |body| ==> body[k] != '<'
    ensures |block| == |open| + 1 + |body| + |close|
    ensures BlockAt(block + after, open, |body|, close)
  {
    var s := block + after;
    forall i | |open| + 1 <= i < |open| + 1 + |body| ensures s[i] != '<' {
      assert s[i] == body[i - |open| - 1];
    }
  }

  /** Such a block ends right after `close`, letters compared without regard to case. */
  lemma {:induction false} BlockEndAt(s: string, open: string, bodyLength: nat, close: string, end: nat)
    requires end == |open| + 1 + bodyLength + |close|
    requires open != [] && close != [] && close[0] == '<'
    requires LowerLiteral(open) && LowerLiteral(close)
    requires BlockAt(s, open, bodyLength, close)
    ensures BlockEnd(s, open, close) == Some(end)
  {
    var j := |open|;
    var k := j + 1 + bodyLength;
    assert MatchesAt(s, 0, open);
    assert IndexOfChar(s, '>', j) == Some(j);
    IndexOfIgnoreCaseSkips(s, close, j + 1, k);
    assert MatchesAt(s, k, close);
    BlockEndFound(s, open, close, j, k);
  }

  /** The end `BlockEnd` reports once the opening tag, its `>` and the closing tag are located. */
  lemma BlockEndFound(s: string, open: string, close: string, j: nat, k: nat)
    requires open != [] && close != []
    requires MatchesAt(s, 0, open) && |open| <= |s|
    requires IndexOfChar(s, '>', |open|) == Some(j) && j + 1 <= |s|
    requires IndexOfIgnoreCase(s, close, j + 1) == Some(k)
    ensures BlockEnd(s, open, close) == Some(k + |close|)
  {
  }

  /** A block at the front, followed by text without `<`, leaves only that text. */
  lemma {:induction false} RemoveLeadingBlock(block: string, after: string, open: string, close: string)
    requires open != [] && close != [] && open[0] == '<'
    requires BlockEnd(block + after, open, close) == Some(|block|)
    requires forall k :: 0 <= k < |after| ==> after[k] != '<'
    ensures RemoveBlocks(block + after, open, close) == after
  {
    assert (block + after)[|block|..] == after;
    RemoveBlocksKeepsPlain(after, [], open, close);
    assert after + [] == after;
  }

  /** A block between two stretches of text without `<` is removed, and nothing else is. */
  lemma {:induction false} BlockRemoved(block: string, open: string, close: string, before: string, body: string, after: string)
    requires block == open + ">" + body + close
    requires open != [] && close != [] && open[0] == '<' && close[0] == '<'
    requires LowerLiteral(open) && LowerLiteral(close)
    requires forall k :: 0 <= k < |before| ==> before[k] != '<'
    requires forall k :: 0 <= k < |body| ==> body[k] != '<'
    requires forall k :: 0 <= k < |after| ==> after[k] != '<'
    ensures RemoveBlocks(before + block + after, open, close) == before + after
  {
    BlockLayout(block, open, body, close, after);
    BlockEndAt(block + after, open, |body|, close, |block|);
    RemoveLeadingBlock(block, after, open, close);
    RemoveBlocksKeepsPlain(before, block + after, open, close);
    Reassociate(before, block, after);
  }

  /** Text in which no opening tag starts passes through the removal of blocks untouched. */
  lemma {:induction false} RemoveBlocksSkips(x: string, y: string, open: string, close: string)
    requires open != [] && close != []
    requires forall p :: 0 <= p < |x| ==> !MatchesAt(x + y, p, open)
    ensures RemoveBlocks(x + y, open, close) == x + RemoveBlocks(y, open, close)
    decreases |x|
  {
    if x != [] {
      var s := x + y;
      assert !MatchesAt(s, 0, open);
      assert s[1..] == x[1..] + y;
      forall p | 0 <= p < |x[1..]| ensures !MatchesAt(x[1..] + y, p, open) {
        assert !MatchesAt(s, 1 + p, open);
        if p + |open| <= |s[1..]| {
          MatchesWithin(s, s[1..], 1, p, open);
        }
      }
      RemoveBlocksSkips(x[1..], y, open, close);
      calc {
        RemoveBlocks(s, open, close);
        [s[0]] + RemoveBlocks(s[1..], open, close);
        [x[0]] + (x[1..] + RemoveBlocks(y, open, close));
        ([x[0]] + x[1..]) + RemoveBlocks(y, open, close);
        { assert [x[0]] + x[1..] == x; }
        x + RemoveBlocks(y, open, close);
      }
    } else {
      assert x + y == y;
    }
  }

  /** The first `c` at or after `from` ends a stretch `attrs` that holds none. */
  lemma FirstCharAfter(s: string, attrs: string, from: nat, c: char)
    requires from + |attrs| < |s| && s[from..from + |attrs|] == attrs && s[from + |attrs|] == c
    requires forall k :: 0 <= k < |attrs| ==> attrs[k] != c
    ensures IndexOfChar(s, c, from) == Some(from + |attrs|)
  {
    forall i | from <= i < from + |attrs| ensures s[i] != c {
      assert s[i] == attrs[i - from];
    }
    IndexOfCharAt(s, c, from, from + |attrs|);
  }

  /** The first closing tag at or after `from` is `c`, when none starts in the `body` before it. */
  lemma FirstCloseAfter(s: string, body: string, c: string, from: nat, close: string)
    requires |c| == |close| && MatchesAt(c, 0, close)
    requires from + |body| + |c| <= |s| && s[from..from + |body| + |c|] == body + c
    requires forall p :: 0 <= p < |body| ==> !MatchesAt(body + c, p, close)
    ensures IndexOfIgnoreCase(s, close, from) == Some(from + |body|)
  {
    var tail := body + c;
    assert tail[|body|..] == c;
    MatchesWithin(tail, c, |body|, 0, close);
    MatchesWithin(s, tail, from, |body|, close);
    forall p | from <= p < from + |body| ensures !MatchesAt(s, p, close) {
      if p + |close| <= |s| {
        MatchesWithin(s, tail, from, p - from, close);
      }
    }
    IndexOfIgnoreCaseAt(s, close, from, from + |body|);
  }

  /** No opening tag starts in `before` within `before + rest` when none does in `before + o` and `rest` starts with `o`. */
  lemma NoOpenBefore(before: string, o: string, rest: string, open: string)
    requires |o| == |open| && |o| <= |rest| && rest[..|o|] == o
    requires forall p :: 0 <= p < |before| ==> !MatchesAt(before + o, p, open)
    ensures forall p :: 0 <= p < |before| ==> !MatchesAt(before + rest, p, open)
  {
    var t := before + o;
    assert (before + rest)[..|t|] == t;
    forall p | 0 <= p < |before| ensures !MatchesAt(before + rest, p, open) {
      MatchesWithin(before + rest, t, 0, p, open);
    }
  }

  /** At the front of `s` the opening tag `o` matches, and the first `>` after it ends the attributes. */
  lemma OpeningTagLocated(open: string, s: string, o: string, attrs: string)
    requires |o| == |open| && MatchesAt(o, 0, open)
    requires forall k :: 0 <= k < |attrs| ==> attrs[k] != '>'
    requires |o| + |attrs| + 1 <= |s|
    requires s[..|o|] == o && s[|o|..|o| + |attrs|] == attrs && s[|o| + |attrs|] == '>'
    ensures MatchesAt(s, 0, open)
    ensures IndexOfChar(s, '>', |open|) == Some(|o| + |attrs|)
  {
    MatchesWithin(s, o, 0, 0, open);
    FirstCharAfter(s, attrs, |o|, '>');
  }

  /** A block at the front of `s`, laid out as its parts say, ends right after its closing tag `c`. */
  lemma LeadingBlockEnd(open: string, close: string, s: string, o: string, attrs: string, body: string, c: string, j: nat)
    requires open != [] && close != []
    requires |o| == |open| && MatchesAt(o, 0, open) && |c| == |close| && MatchesAt(c, 0, close)
    requires forall k :: 0 <= k < |attrs| ==> attrs[k] != '>'
    requires forall p :: 0 <= p < |body| ==> !MatchesAt(body + c, p, close)
    requires j == |o| + |attrs| && j + 1 + |body| + |c| <= |s|
    requires s[..|o|] == o && s[|o|..j] == attrs && s[j] == '>'
    requires s[j + 1..j + 1 + |body| + |c|] == body + c
    ensures BlockEnd(s, open, close) == Some(j + 1 + |body| + |c|)
  {
    OpeningTagLocated(open, s, o, attrs);
    FirstCloseAfter(s, body, c, j + 1, close);
    BlockEndFound(s, open, close, j, j + 1 + |body|);
  }

  /** `Lower(t) == lit` says `t` is `lit` in some letter case. */
  lemma LowerMatches(t: string, lit: string)
    requires Lower(t) == lit
    ensures |t| == |lit| && MatchesAt(t, 0, lit)
  {
  }

  /** Where the parts of a block followed by more text lie. */
  lemma BlockPieces(o: string, attrs: string, body: string, c: string, after: string)
    ensures var s := o + attrs + ">" + body + c + after; var j := |o| + |attrs|;
      && |s| == j + 1 + |body| + |c| + |after|
      && s[..|o|] == o && s[|o|..j] == attrs && s[j] == '>'
      && s[j + 1..j + 1 + |body| + |c|] == body + c && s[j + 1 + |body| + |c|..] == after
  {
    var s := o + attrs + ">" + body + c + after;
    var j := |o| + |attrs|;
    assert s == (o + attrs) + (">" + (body + c) + after);
    assert s[j + 1..] == (body + c) + after;
  }

  /**
   * A block at the front — the opening tag `o`, attributes without `>`, `>`, a body in which no
   * closing tag starts, and the closing tag `c` — ends right after `c`: it is dropped, and the
   * pass goes on after it.
   */
  lemma LeadingBlockRemoved(open: string, close: string, o: string, attrs: string, body: string, c: string, after: string)
    requires open != [] && close != []
    requires |o| == |open| && MatchesAt(o, 0, open) && |c| == |close| && MatchesAt(c, 0, close)
    requires forall k :: 0 <= k < |attrs| ==> attrs[k] != '>'
    requires forall p :: 0 <= p < |body| ==> !MatchesAt(body + c, p, close)
    ensures RemoveBlocks(o + attrs + ">" + body + c + after, open, close) == RemoveBlocks(after, open, close)
  {
    var s := o + attrs + ">" + body + c + after;
    var j := |o| + |attrs|;
    BlockPieces(o, attrs, body, c, after);
    LeadingBlockEnd(open, close, s, o, attrs, body, c, j);
    RemoveAfterBlock(s, j + 1 + |body| + |c|, open, close);
  }

  /** The pass skips a block found at the front. */
  lemma RemoveAfterBlock(s: string, e: nat, open: string, close: string)
    requires open != [] && close != [] && BlockEnd(s, open, close) == Some(e)
    ensures RemoveBlocks(s, open, close) == RemoveBlocks(s[e..], open, close)
  {
  }

  /**
   * A block — the opening tag `o` in some letter case, attributes without `>`, `>`, a body in
   * which no closing tag starts, and the closing tag `c` — is removed whole when no opening tag
   * starts in the text before it; the text after it goes through the same pass.
   */
  lemma BlockRemovedAt(open: string, close: string, before: string, o: string, attrs: string,
                       body: string, c: string, after: string)
    requires open != [] && close != []
    requires |o| == |open| && MatchesAt(o, 0, open) && |c| == |close| && MatchesAt(c, 0, close)
    requires forall k :: 0 <= k < |attrs| ==> attrs[k] != '>'
    requires forall p :: 0 <= p < |body| ==> !MatchesAt(body + c, p, close)
    requires forall p :: 0 <= p < |before| ==> !MatchesAt(before + o, p, open)
    ensures RemoveBlocks(before + (o + attrs + ">" + body + c) + after, open, close)
      == before + RemoveBlocks(after, open, close)
  {
    var block := o + attrs + ">" + body + c;
    LeadingBlockRemoved(open, close, o, attrs, body, c, after);
    BlockPieces(o, attrs, body, c, after);
    NoOpenBefore(before, o, block + after, open);
    RemoveBlocksSkips(before, block + after, open, close);
    Reassociate(before, block, after);
  }

  /**
   * `<script …>…</script>` and `<style …>…</style>` blocks, the tags in any letter case and the
   * opening tag with any attributes, are removed whole, up to the first closing tag, when no
   * such block starts in the text before them; the text after them goes through the same pass.
   */
  lemma ScriptAndStyleBlocksRemoved(open: string, close: string, before: string, o: string, attrs: string,
                                    body: string, c: string, after: string)
    requires (open == ScriptOpen && close == ScriptClose) || (open == StyleOpen && close == StyleClose)
    requires Lower(o) == open && Lower(c) == close
    requires forall k :: 0 <= k < |attrs| ==> attrs[k] != '>'
    requires forall p :: 0 <= p < |body| ==> !MatchesAt(body + c, p, close)
    requires forall p :: 0 <= p < |before| ==> !MatchesAt(before + o, p, open)
    ensures RemoveBlocks(before + (o + attrs + ">" + body + c) + after, open, close)
      == before + RemoveBlocks(after, open, close)
  {
    LowerMatches(o, open);
    LowerMatches(c, close);
    BlockRemovedAt(open, close, before, o, attrs, body, c, after);
  }

  /** Where a tag `<…>` with at least one character inside, starting at the beginning of `s`, ends: after the first `>`. */
  function TagEnd(s: string): (r: Option<nat>)
    ensures r.Some? ==> 2 < r.value <= |s|
  {
    if |s| < 2 || s[0] != '<' || s[1] == '>' then None
    else match IndexOfChar(s, '>', 1)
      case None => None
      case Some(j) => Some(j + 1)
  }

  /** One left-to-right pass of the global replacement of every tag by a single space. */
  function StripTags(s: string): (r: string)
    ensures |r| <= |s|
    decreases |s|
  {
    if s == [] then []
    else match TagEnd(s)
      case Some(e) => " " + StripTags(s[e..])
      case None => [s[0]] + StripTags(s[1..])
  }

  /** No `<` starts a tag: each is directly followed by `>` or by no `>` at all. */
  predicate TagFree(t: string) {
    forall i :: 0 <= i < |t| && t[i] == '<' ==> TagEnd(t[i..]).None?
  }

  /** No character of `t` is a `>`. */
  predicate NoCloser(t: string) {
    forall k :: 0 <= k < |t| ==> t[k] != '>'
  }

  /** The tag pass introduces no `>` of its own. */
  lemma {:induction false} StripTagsAddsNoCloser(s: string)
    requires NoCloser(s)
    ensures NoCloser(StripTags(s))
    decreases |s|
  {
    if s != [] {
      StripTagsAddsNoCloser(s[1..]);
    }
  }

  /** A `<` that opens no tag in `s` opens none in the output either. */
  lemma StripTagsKeepsLoneOpener(s: string)
    requires s != [] && s[0] == '<' && TagEnd(s).None?
    ensures TagEnd(StripTags(s)).None?
  {
    var t := StripTags(s);
    assert t == [s[0]] + StripTags(s[1..]);
    if |s| >= 2 && s[1] != '>' {
      IndexOfCharFirst(s, '>', 1);
      assert NoCloser(s[1..]) by {
        forall k | 0 <= k < |s[1..]| ensures s[1..][k] != '>' {
          assert s[1..][k] == s[k + 1];
        }
      }
      StripTagsAddsNoCloser(s[1..]);
      assert forall k :: 1 <= k < |t| ==> t[k] != '>' by {
        forall k | 1 <= k < |t| ensures t[k] != '>' {
          assert t[k] == StripTags(s[1..])[k - 1];
        }
      }
    } else if |s| >= 2 {
      assert TagEnd(s[1..]).None?;
      assert t[1] == '>';
    }
  }

  /** After the tag pass no tag is left. */
  lemma {:induction false} StripTagsLeavesNoTag(s: string)
    ensures TagFree(StripTags(s))
    decreases |s|
  {
    if s != [] {
      var t := StripTags(s);
      match TagEnd(s)
      case Some(e) =>
        StripTagsLeavesNoTag(s[e..]);
        forall i | 0 <= i < |t| && t[i] == '<' ensures TagEnd(t[i..]).None? {
          assert t[i..] == StripTags(s[e..])[i - 1..];
        }
      case None =>
        StripTagsLeavesNoTag(s[1..]);
        forall i | 0 <= i < |t| && t[i] == '<' ensures TagEnd(t[i..]).None? {
          if i == 0 {
            StripTagsKeepsLoneOpener(s);
          } else {
            assert t[i..] == StripTags(s[1..])[i - 1..];
          }
        }
    }
  }

  /** Text without `<` has no tag to replace. */
  lemma {:induction false} StripTagsKeepsPlain(s: string)
    requires forall k :: 0 <= k < |s| ==> s[k] != '<'
    ensures StripTags(s) == s
    decreases |s|
  {
    if s != [] {
      StripTagsKeepsPlain(s[1..]);
    }
  }

  /** Text before the first `<` passes through the tag pass untouched. */
  lemma {:induction false} StripTagsSkipsPlain(x: string, y: string)
    requires forall k :: 0 <= k < |x| ==> x[k] != '<'
    ensures StripTags(x + y) == x + StripTags(y)
    decreases |x|
  {
    if x != [] {
      var s := x + y;
      assert s[0] == x[0];
      assert s[1..] == x[1..] + y;
      StripTagsSkipsPlain(x[1..], y);
      calc {
        StripTags(s);
        [s[0]] + StripTags(s[1..]);
        [x[0]] + (x[1..] + StripTags(y));
        ([x[0]] + x[1..]) + StripTags(y);
        { assert [x[0]] + x[1..] == x; }
        x + StripTags(y);
      }
    } else {
      assert x + y == y;
    }
  }

  /** A tag at the front — `<`, at least one character other than `>`, `>` — becomes one space. */
  lemma LeadingTagReplaced(inner: string, y: string)
    requires inner != [] && forall k :: 0 <= k < |inner| ==> inner[k] != '>'
    ensures StripTags("<" + inner + ">" + y) == " " + StripTags(y)
  {
    var t := "<" + inner + ">" + y;
    var j := |inner| + 1;
    assert t[1] == inner[0];
    forall i | 1 <= i < j ensures t[i] != '>' {
      assert t[i] == inner[i - 1];
    }
    assert t[j] == '>';
    IndexOfCharAt(t, '>', 1, j);
    assert t[j + 1..] == y;
  }

  /**
   * A tag after text without `<` is replaced by one space, the text before it kept as it is and
   * the text after it going through the same pass.
   */
  lemma TagReplaced(x: string, inner: string, y: string)
    requires forall k :: 0 <= k < |x| ==> x[k] != '<'
    requires inner != [] && forall k :: 0 <= k < |inner| ==> inner[k] != '>'
    ensures StripTags(x + ("<" + inner + ">") + y) == x + " " + StripTags(y)
  {
    var tag := "<" + inner + ">";
    Reassociate(x, tag, y);
    StripTagsSkipsPlain(x, tag + y);
    LeadingTagReplaced(inner, y);
    Reassociate(x, " ", StripTags(y));
  }

  /** Only plain spaces, and never two in a row. */
  predicate SingleSpaced(t: string) {
    forall i :: 0 <= i < |t| && IsSpace(t[i]) ==> t[i] == ' ' && (i + 1 < |t| ==> !IsSpace(t[i + 1]))
  }

  /** The global replacement of every whitespace run by a single space. */
  function CollapseSpace(s: string): (r: string)
    ensures |r| <= |s|
    ensures r == [] <==> s == []
    ensures r != [] ==> (IsSpace(r[0]) <==> IsSpace(s[0]))
    ensures SingleSpaced(r)
    decreases |s|
  {
    if s == [] then []
    else if IsSpace(s[0]) then
      var rest := TrimStart(s[1..]);
      TrimStartSuffix(s[1..]);
      var tail := CollapseSpace(rest);
      assert tail != [] ==> !IsSpace(tail[0]);
      " " + tail
    else
      var tail := CollapseSpace(s[1..]);
      [s[0]] + tail
  }

  /** Text that is already single-spaced is left as it is. */
  lemma {:induction false} CollapseSpaceKeepsSingleSpaced(s: string)
    requires SingleSpaced(s)
    ensures CollapseSpace(s) == s
    decreases |s|
  {
    if s != [] {
      assert SingleSpaced(s[1..]) by {
        forall i | 0 <= i < |s[1..]| && IsSpace(s[1..][i])
          ensures s[1..][i] == ' ' && (i + 1 < |s[1..]| ==> !IsSpace(s[1..][i + 1]))
        {
          assert s[1..][i] == s[i + 1];
        }
      }
      CollapseSpaceKeepsSingleSpaced(s[1..]);
      if IsSpace(s[0]) {
        assert s[1..] == [] || !IsSpace(s[1..][0]);
        CollapseSpaceRun([s[0]], s[1..]);
      } else {
        CollapseSpaceWordStep(s);
      }
      assert [s[0]] + s[1..] == s;
    }
  }

  /** A word — text without whitespace — is kept as it is. */
  lemma {:induction false} CollapseSpaceKeepsWord(w: string, rest: string)
    requires forall k :: 0 <= k < |w| ==> !IsSpace(w[k])
    ensures CollapseSpace(w + rest) == w + CollapseSpace(rest)
    decreases |w|
  {
    if w != [] {
      HeadTail(w, rest);
      CollapseSpaceWordStep(w + rest);
      CollapseSpaceKeepsWord(w[1..], rest);
      HeadTail(w, CollapseSpace(rest));
    } else {
      assert w + rest == rest;
    }
  }

  /** A character other than whitespace is copied, and the pass goes on after it. */
  lemma CollapseSpaceWordStep(s: string)
    requires s != [] && !IsSpace(s[0])
    ensures CollapseSpace(s) == [s[0]] + CollapseSpace(s[1..])
  {
  }

  /** A whole run of whitespace, however long and of whatever kind, becomes one plain space. */
  lemma CollapseSpaceRun(ws: string, rest: string)
    requires ws != [] && AllSpace(ws)
    requires rest == [] || !IsSpace(rest[0])
    ensures CollapseSpace(ws + rest) == " " + CollapseSpace(rest)
  {
    var s := ws + rest;
    assert s[0] == ws[0];
    assert s[1..] == ws[1..] + rest;
    assert AllSpace(ws[1..]) by {
      forall k | 0 <= k < |ws[1..]| ensures IsSpace(ws[1..][k]) {
        assert ws[1..][k] == ws[k + 1];
      }
    }
    TrimStartSpace(ws[1..], rest);
  }

  /** A slice of single-spaced text is single-spaced. */
  lemma SingleSpacedSlice(t: string, a: nat, b: nat)
    requires SingleSpaced(t) && a <= b <= |t|
    ensures SingleSpaced(t[a..b])
  {
    var u := t[a..b];
    forall i | 0 <= i < |u| && IsSpace(u[i]) ensures u[i] == ' ' && (i + 1 < |u| ==> !IsSpace(u[i + 1])) {
      assert u[i] == t[a + i];
      if i + 1 < |u| {
        assert u[i + 1] == t[a + i + 1];
      }
    }
  }

  /** The text extracted from a page, before the fallback. */
  function ExtractText(html: string): string {
    var noScripts := RemoveBlocks(html, ScriptOpen, ScriptClose);
    var noStyles := RemoveBlocks(noScripts, StyleOpen, StyleClose);
    Prefix(Trim(CollapseSpace(StripTags(noStyles))), MaxChars)
  }

  /** `text || 'Unable to extract content from this page.'`. */
  function PageText(html: string): string {
    var text := ExtractText(html);
    if text == [] then Unextractable else text
  }

  /** The extracted text is at most 5000 characters, single-spaced, and does not start with a space. */
  lemma ExtractTextShape(html: string)
    ensures var t := ExtractText(html);
      |t| <= MaxChars && SingleSpaced(t) && (t != [] ==> !IsSpace(t[0]))
  {
    var noScripts := RemoveBlocks(html, ScriptOpen, ScriptClose);
    var noStyles := RemoveBlocks(noScripts, StyleOpen, StyleClose);
    var collapsed := CollapseSpace(StripTags(noStyles));
    var trimmed := Trim(collapsed);
    var lead := TrimSlice(collapsed);
    SingleSpacedSlice(collapsed, lead, lead + |trimmed|);
    SingleSpacedSlice(trimmed, 0, |Prefix(trimmed, MaxChars)|);
    assert Prefix(trimmed, MaxChars) == trimmed[..|Prefix(trimmed, MaxChars)|];
  }

  /** The fallback text is itself single-spaced. */
  lemma UnextractableSingleSpaced(fallback: string)
    requires fallback == Unextractable
    ensures SingleSpaced(fallback) && |fallback| <= MaxChars && !IsSpace(fallback[0])
  {
    forall i | 0 <= i < |fallback| && IsSpace(fallback[i])
      ensures fallback[i] == ' ' && (i + 1 < |fallback| ==> !IsSpace(fallback[i + 1]))
    {
    }
  }

  /** What a crawl yields is never empty, at most 5000 characters, single-spaced, and does not start with a space. */
  lemma PageTextShape(html: string)
    ensures var t := PageText(html);
      t != [] && |t| <= MaxChars && SingleSpaced(t) && !IsSpace(t[0])
  {
    ExtractTextShape(html);
    UnextractableSingleSpaced(Unextractable);
  }

  /** Clean text — no `<`, single-spaced, no space at either end, at most 5000 characters — comes through unchanged. */
  lemma CleanTextKept(text: string)
    requires forall k :: 0 <= k < |text| ==> text[k] != '<'
    requires SingleSpaced(text) && |text| <= MaxChars
    requires text == [] || (!IsSpace(text[0]) && !IsSpace(text[|text| - 1]))
    ensures ExtractText(text) == text
  {
    RemoveBlocksKeepsPlain(text, [], ScriptOpen, ScriptClose);
    RemoveBlocksKeepsPlain(text, [], StyleOpen, StyleClose);
    assert text + [] == text;
    StripTagsKeepsPlain(text);
    CollapseSpaceKeepsSingleSpaced(text);
    TrimNoEdges(text);
  }

  // ---------------------------------------------------------------- crawling

  /**
   * The proxy's answer: a JSON body (whose `contents` may be missing), a plain text body, or a
   * failed request (network, status, or the 10-second timeout) with the client's message.
   */
  datatype ProxyReply = JsonBody(contents: Option<string>) | TextBody(text: string) | FetchFailed(message: string)

  /** The message of the `TypeError` raised when the body is an object without usable `contents`. */
  const NotAString: string := "html.replace is not a function"

  /** The page's HTML: `response.data.contents || response.data`, which must be a string. */
  function Html(reply: ProxyReply): (r: Result<string>)
    ensures reply.JsonBody? && Truthy(reply.contents) ==> r == Success(reply.contents.value)
    ensures reply.JsonBody? && !Truthy(reply.contents) ==> r == Failure(NotAString)
    ensures reply.TextBody? ==> r == Success(reply.text)
    ensures reply.FetchFailed? ==> r == Failure(reply.message)
  {
    match reply
    case JsonBody(contents) => if Truthy(contents) then Success(contents.value) else Failure(NotAString)
    case TextBody(text) => Success(text)
    case FetchFailed(message) => Failure(message)
  }

  /** `crawlWebPage`: the page's text, or an error naming the URL and the cause. */
  function CrawlWebPage(url: string, reply: ProxyReply): (r: Result<string>)
    ensures r.Success? <==> Html(reply).Success?
    ensures r.Success? ==> r.value == PageText(Html(reply).value)
    ensures r.Failure? ==> r.error == "Failed to crawl " + url + ": " + Html(reply).error
  {
    match Html(reply)
    case Success(html) => Success(PageText(html))
    case Failure(message) => Failure("Failed to crawl " + url + ": " + message)
  }

  /** A search result together with what crawling its link gave. */
  datatype CrawledResult = CrawledResult(result: SearchResult, crawledContent: string)

  /** `searchAndCrawl`'s answer: the search outcome, with `crawledResults` when crawling happened. */
  datatype Combined = Combined(search: SearchOutcome, crawledResults: Option<seq<CrawledResult>>)

  /** At most this many results are crawled. */
  const CrawlCount: nat := 3
  const CrawlError: string := "Error crawling: "

  /** The link as a template literal shows it: a missing link reads `undefined`. */
  function LinkText(link: Option<string>): string {
    if link.Some? then link.value else "undefined"
  }

  /** Crawling one result; a failure is recorded as its content, not raised. */
  function CrawlEntry(result: SearchResult, pages: string -> ProxyReply): (c: CrawledResult)
    ensures c.result == result
  {
    var url := LinkText(result.link);
    match CrawlWebPage(url, pages(url))
    case Success(content) => CrawledResult(result, content)
    case Failure(message) => CrawledResult(result, CrawlError + message)
  }

  /** The number of results crawled: three, or all of fewer. */
  function CrawlTotal(results: seq<SearchResult>): nat {
    if |results| < CrawlCount then |results| else CrawlCount
  }

  /** The crawl entries for the first `n` results, in result order. */
  function CrawledPrefix(results: seq<SearchResult>, pages: string -> ProxyReply, n: nat): seq<CrawledResult>
    requires n <= |results|
  {
    seq(n, k requires 0 <= k < n => CrawlEntry(results[k], pages))
  }

  /**
   * The crawled list has one entry per crawled result, in result order, each the result itself
   * with either its page text or the recorded error; one failure does not affect another entry.
   */
  lemma CrawledEntries(results: seq<SearchResult>, pages: string -> ProxyReply)
    ensures var c := CrawledPrefix(results, pages, CrawlTotal(results));
      && |c| == CrawlTotal(results) && |c| <= CrawlCount
      && (forall k :: 0 <= k < |c| ==> c[k].result == results[k])
      && (forall k :: 0 <= k < |c| ==>
            var url := LinkText(results[k].link);
            || (Html(pages(url)).Success? && c[k].crawledContent == PageText(Html(pages(url)).value))
            || (Html(pages(url)).Failure? && c[k].crawledContent == CrawlError + "Failed to crawl " + url + ": " + Html(pages(url)).error))
  {
  }

  /**
   * `searchAndCrawl`: the search's failure is passed on; without the crawl flag, or with no
   * results, the search outcome comes back unchanged; otherwise the top results are crawled
   * one after the other, each failure recorded in its own entry.
   */
  method SearchAndCrawl(query: string, crawlResults: bool, apiKey: Option<string>, reply: SearchReply,
                        pages: string -> ProxyReply)
    returns (r: Result<Combined>)
    ensures SearchWeb(query, apiKey, reply).Failure? ==> r == Failure(SearchWeb(query, apiKey, reply).error)
    ensures SearchWeb(query, apiKey, reply).Success? ==>
      var found := SearchWeb(query, apiKey, reply).value;
      && r.Success? && r.value.search == found
      && (!crawlResults || found.results == [] ==> r.value.crawledResults.None?)
      && (crawlResults && found.results != [] ==>
            r.value.crawledResults == Some(CrawledPrefix(found.results, pages, CrawlTotal(found.results))))
  {
    var searched := SearchWeb(query, apiKey, reply);
    if searched.Failure? {
      return Failure(searched.error);
    }
    var found := searched.value;
    if crawlResults && |found.results| > 0 {
      var crawled: seq<CrawledResult> := [];
      var total := CrawlTotal(found.results);
      var i := 0;
      while i < total
        invariant 0 <= i <= total
        invariant crawled == CrawledPrefix(found.results, pages, i)
      {
        crawled := crawled + [CrawlEntry(found.results[i], pages)];
        i := i + 1;
      }
      return Success(Combined(found, Some(crawled)));
    }
    return Success(Combined(found, None));
  }
}
