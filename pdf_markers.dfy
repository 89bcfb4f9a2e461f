/**
 * Recognition and removal of the markers by which a chat reply embeds a PDF body:
 * `[PDF_START]` or `[PDF_START:<filename hint>]` ... `[PDF_END]`, letters in any case.
 */
module PdfMarkers {
  import opened Wrappers
  import opened JsString

  /** A start marker found at the head of a string: its length and its filename hint, if it has one. */
  datatype StartMatch = StartMatch(length: nat, hint: Option<string>)

  /** A start marker located in a string. */
  datatype Located = Located(index: nat, marker: StartMatch)

  /** What `parsePDFRequest` returns when a reply holds a PDF body. */
  datatype PdfRequest = PdfRequest(content: string, filename: string, title: string, hasPdf: bool)

  /** The fixed part of the start marker, lower-cased. */
  const StartTag := "[pdf_start"
  /** The end marker, lower-cased. */
  const EndTag := "[pdf_end]"
  /** The title used when the body's first line is empty. */
  const DefaultTitle := "Document"
  /** Longest title, in characters. */
  const TitleLength := 50

  /**
   * The match of `/\[PDF_START(?::([^\]]+))?\]/i` at index `i` of `s`: the tag, then either `]`
   * at once, or `:`, a non-empty run of characters other than `]` (the hint) and the `]` that ends it.
   */
  function StartMarkerAt(s: string, i: nat): (m: Option<StartMatch>)
    requires i <= |s|
    ensures m.Some? ==> 11 <= m.value.length && i + m.value.length <= |s|
  {
    if i == |s| || s[i] != '[' || !MatchesAt(s, i, StartTag) || i + 10 == |s| then None
    else if s[i + 10] == ']' then Some(StartMatch(11, None))
    else if s[i + 10] == ':' then
      match IndexOfChar(s, ']', i + 11)
      case Some(k) =>
        if k > i + 11 then Some(StartMatch(k + 1 - i, Some(s[i + 11..k]))) else None
      case None => None
    else None
  }

  /**
   * What a start marker is made of: the tag, then `]` at once, or `:`, a hint of at least one
   * character none of which is `]`, and the `]` that ends it.
   */
  lemma StartMarkerShape(s: string, i: nat)
    requires i <= |s| && StartMarkerAt(s, i).Some?
    ensures var m := StartMarkerAt(s, i).value;
      && MatchesAt(s, i, StartTag) && s[i + m.length - 1] == ']'
      && (m.hint.None? ==> m.length == 11 && s[i + 10] == ']')
      && (m.hint.Some? ==>
        && s[i + 10] == ':'
        && m.length > 12
        && m.hint.value == s[i + 11..i + m.length - 1]
        && forall k :: i + 11 <= k < i + m.length - 1 ==> s[k] != ']')
  {
    if s[i + 10] == ':' {
      IndexOfCharFirst(s, ']', i + 11);
    }
  }

  /** Index `i` of `s` starts the end marker `[PDF_END]`, in any case. */
  predicate EndMarkerAt(s: string, i: nat) {
    i < |s| && s[i] == '[' && MatchesAt(s, i, EndTag)
  }

  /** Some position of `s` starts a start marker. */
  ghost predicate HasStartMarker(s: string) {
    exists k :: 0 <= k <= |s| && StartMarkerAt(s, k).Some?
  }

  /** Some position of `s` starts an end marker. */
  ghost predicate HasEndMarker(s: string) {
    exists k :: 0 <= k <= |s| && EndMarkerAt(s, k)
  }

  /** The leftmost start marker of `s` at or after `from`, as `String.prototype.match` finds it. */
  function FindStart(s: string, from: nat): (r: Option<Located>)
    requires from <= |s|
    ensures r.Some? ==> from <= r.value.index <= |s| && StartMarkerAt(s, r.value.index) == Some(r.value.marker)
    ensures r.Some? ==> forall k :: from <= k < r.value.index ==> StartMarkerAt(s, k).None?
    ensures r.None? ==> forall k :: from <= k <= |s| ==> StartMarkerAt(s, k).None?
    decreases |s| - from
  {
    match StartMarkerAt(s, from)
    case Some(m) => Some(Located(from, m))
    case None => if from == |s| then None else FindStart(s, from + 1)
  }

  /** The leftmost end marker of `s` at or after `from`. */
  function FindEnd(s: string, from: nat): (r: Option<nat>)
    requires from <= |s|
    ensures r.Some? ==> from <= r.value < |s| && EndMarkerAt(s, r.value)
    ensures r.Some? ==> forall k :: from <= k < r.value ==> !EndMarkerAt(s, k)
    ensures r.None? ==> forall k :: from <= k <= |s| ==> !EndMarkerAt(s, k)
    decreases |s| - from
  {
    if EndMarkerAt(s, from) then Some(from)
    else if from == |s| then None
    else FindEnd(s, from + 1)
  }

  /**
   * The title `parsePDFRequest` gives a body: its first line cut to 50 characters,
   * or `Document` when that line is empty.
   */
  function TitleOf(content: string): (title: string)
    ensures title != [] && |title| <= TitleLength
  {
    var head := Prefix(FirstPiece(content, '\n'), TitleLength);
    if head == [] then DefaultTitle else head
  }

  /**
   * The title is one line: `Document` when the body's first line is empty, and otherwise the
   * body's first line, or its first 50 characters when it is longer.
   */
  lemma TitleIsFirstLine(content: string)
    ensures '\n' !in TitleOf(content)
    ensures Split(content, '\n')[0] == [] ==> TitleOf(content) == DefaultTitle
    ensures Split(content, '\n')[0] != [] ==> StartsWith(content, TitleOf(content))
    ensures Split(content, '\n')[0] != [] ==>
      |TitleOf(content)| == if |Split(content, '\n')[0]| < TitleLength then |Split(content, '\n')[0]| else TitleLength
  {
    var line := FirstPiece(content, '\n');
    FirstPieceOfSplit(content, '\n');
    var head := Prefix(line, TitleLength);
    assert head == line[..|head|];
    assert '\n' !in head by {
      forall k | 0 <= k < |head| ensures head[k] != '\n' {
        assert head[k] == line[k];
      }
    }
    assert line != [] ==> content[..|head|] == head by {
      if line != [] {
        assert content[..|line|] == line;
        assert content[..|head|] == content[..|line|][..|head|];
      }
    }
  }

  /** The file name: the trimmed hint plus `.pdf`, or `document_<yyyy-mm-dd>.pdf` from the date. */
  function FilenameOf(hint: Option<string>, isoDate: string): (filename: string)
    ensures EndsWith(filename, ".pdf")
    ensures hint.None? ==> StartsWith(filename, "document_")
  {
    if hint.Some? then Trim(hint.value) + ".pdf"
    else "document_" + Prefix(isoDate, 10) + ".pdf"
  }

  /**
   * `parsePDFRequest`: `None` unless the reply holds both a start and an end marker; otherwise the
   * trimmed text between the end of the first start marker and the beginning of the first end
   * marker (JavaScript's `substring` swaps the two indices when the end marker comes first),
   * a file name from the hint or from the date, and a title from the body's first line.
   */
  function ParsePdfRequest(response: string, isoDate: string): (r: Option<PdfRequest>)
    ensures r.Some? ==> r.value.hasPdf && r.value.title == TitleOf(r.value.content)
  {
    match FindStart(response, 0)
    case None => None
    case Some(start) =>
      match FindEnd(response, 0)
      case None => None
      case Some(endIndex) => Some(RequestBetween(response, start, endIndex, isoDate))
  }

  /** The request made of the trimmed text between the start marker `start` and index `endIndex`. */
  function RequestBetween(response: string, start: Located, endIndex: nat, isoDate: string): (r: PdfRequest)
    ensures r.hasPdf && r.title == TitleOf(r.content)
  {
    var content := Trim(Substring(response, start.index + start.marker.length, endIndex));
    PdfRequest(content, FilenameOf(start.marker.hint, isoDate), TitleOf(content), true)
  }

  /** `parsePDFRequest` gives `None` exactly when the start marker or the end marker is missing. */
  lemma ParseNoneIffMarkerMissing(response: string, isoDate: string)
    ensures ParsePdfRequest(response, isoDate).None? <==> !HasStartMarker(response) || !HasEndMarker(response)
  {
    var start := FindStart(response, 0);
    var end := FindEnd(response, 0);
    if start.Some? {
      assert StartMarkerAt(response, start.value.index).Some?;
    }
    if end.Some? {
      assert EndMarkerAt(response, end.value);
    }
  }

  /** The suffix of `s` from index `i` with every start marker removed. */
  function RemoveStartFrom(s: string, i: nat): (r: string)
    requires i <= |s|
    ensures |r| <= |s| - i
    decreases |s| - i
  {
    if i == |s| then []
    else match StartMarkerAt(s, i)
      case Some(m) => RemoveStartFrom(s, i + m.length)
      case None => [s[i]] + RemoveStartFrom(s, i + 1)
  }

  /** Every start marker of `s` removed, as `replace(/\[PDF_START(?::[^\]]+)?\]/gi, '')` does. */
  function RemoveStartMarkers(s: string): (r: string)
    ensures |r| <= |s|
  {
    RemoveStartFrom(s, 0)
  }

  /** The suffix of `s` from index `i` with every end marker removed. */
  function RemoveEndFrom(s: string, i: nat): (r: string)
    requires i <= |s|
    ensures |r| <= |s| - i
    decreases |s| - i
  {
    if i == |s| then []
    else if EndMarkerAt(s, i) then RemoveEndFrom(s, i + |EndTag|)
    else [s[i]] + RemoveEndFrom(s, i + 1)
  }

  /** Every end marker of `s` removed, as `replace(/\[PDF_END\]/gi, '')` does. */
  function RemoveEndMarkers(s: string): (r: string)
    ensures |r| <= |s|
  {
    RemoveEndFrom(s, 0)
  }

  /** `cleanPDFMarkers`: start markers removed, then end markers, then the result trimmed. */
  function CleanPdfMarkers(response: string): (r: string)
    ensures |r| <= |response|
    ensures r != [] ==> !IsSpace(r[0]) && !IsSpace(r[|r| - 1])
  {
    Trim(RemoveEndMarkers(RemoveStartMarkers(response)))
  }

  /** Only a `[` can begin a marker. */
  lemma NoBracketNoMarker(s: string, i: nat)
    requires i < |s| && s[i] != '['
    ensures StartMarkerAt(s, i).None? && !EndMarkerAt(s, i)
  {
    assert LowerChar(s[i + 0]) != '[';
    assert StartTag[0] == '[' && EndTag[0] == '[';
  }

  /** `s[i..j]` holds no `[`. */
  predicate BracketFree(s: string, i: nat, j: nat)
    requires i <= j <= |s|
  {
    forall k :: i <= k < j ==> s[k] != '['
  }

  /** A stretch of `s` that spells a string without `[` is bracket-free. */
  lemma BracketFreeSlice(s: string, i: nat, j: nat, x: string)
    requires i <= j <= |s| && s[i..j] == x && '[' !in x
    ensures BracketFree(s, i, j)
  {
    forall k | i <= k < j ensures s[k] != '[' {
      assert s[k] == x[k - i];
    }
  }

  /** Removing start markers copies a bracket-free stretch unchanged. */
  lemma {:induction false} RemoveStartSkips(s: string, i: nat, j: nat)
    requires i <= j <= |s| && BracketFree(s, i, j)
    ensures RemoveStartFrom(s, i) == s[i..j] + RemoveStartFrom(s, j)
    decreases j - i
  {
    if i < j {
      NoBracketNoMarker(s, i);
      RemoveStartSkips(s, i + 1, j);
      var rest := RemoveStartFrom(s, j);
      calc {
        RemoveStartFrom(s, i);
        [s[i]] + RemoveStartFrom(s, i + 1);
        [s[i]] + (s[i + 1..j] + rest);
        { assert [s[i]] + (s[i + 1..j] + rest) == ([s[i]] + s[i + 1..j]) + rest; }
        ([s[i]] + s[i + 1..j]) + rest;
        { assert s[i..j] == [s[i]] + s[i + 1..j]; }
        s[i..j] + rest;
      }
    } else {
      assert s[i..j] + RemoveStartFrom(s, j) == RemoveStartFrom(s, j);
    }
  }

  /** Removing end markers copies a bracket-free stretch unchanged. */
  lemma {:induction false} RemoveEndSkips(s: string, i: nat, j: nat)
    requires i <= j <= |s| && BracketFree(s, i, j)
    ensures RemoveEndFrom(s, i) == s[i..j] + RemoveEndFrom(s, j)
    decreases j - i
  {
    if i < j {
      NoBracketNoMarker(s, i);
      RemoveEndSkips(s, i + 1, j);
      var rest := RemoveEndFrom(s, j);
      calc {
        RemoveEndFrom(s, i);
        [s[i]] + RemoveEndFrom(s, i + 1);
        [s[i]] + (s[i + 1..j] + rest);
        { assert [s[i]] + (s[i + 1..j] + rest) == ([s[i]] + s[i + 1..j]) + rest; }
        ([s[i]] + s[i + 1..j]) + rest;
        { assert s[i..j] == [s[i]] + s[i + 1..j]; }
        s[i..j] + rest;
      }
    } else {
      assert s[i..j] + RemoveEndFrom(s, j) == RemoveEndFrom(s, j);
    }
  }

  /** A suffix in which no position starts a start marker loses nothing to their removal. */
  lemma {:induction false} RemoveStartNone(s: string, i: nat)
    requires i <= |s|
    requires forall k :: i <= k <= |s| ==> StartMarkerAt(s, k).None?
    ensures RemoveStartFrom(s, i) == s[i..]
    decreases |s| - i
  {
    if i < |s| {
      RemoveStartNone(s, i + 1);
      assert s[i..] == [s[i]] + s[i + 1..];
    }
  }

  /** A suffix in which no position starts an end marker loses nothing to their removal. */
  lemma {:induction false} RemoveEndNone(s: string, i: nat)
    requires i <= |s|
    requires forall k :: i <= k <= |s| ==> !EndMarkerAt(s, k)
    ensures RemoveEndFrom(s, i) == s[i..]
    decreases |s| - i
  {
    if i < |s| {
      RemoveEndNone(s, i + 1);
      assert s[i..] == [s[i]] + s[i + 1..];
    }
  }

  /** On text without markers, `cleanPDFMarkers` is `trim`. */
  lemma CleanWithoutMarkers(s: string)
    requires !HasStartMarker(s) && !HasEndMarker(s)
    ensures CleanPdfMarkers(s) == Trim(s)
  {
    RemoveStartNone(s, 0);
    assert s[0..] == s;
    RemoveEndNone(s, 0);
  }

  /** A word that begins with the literal `[PDF_START` matches the tag. */
  lemma StartTagMatches(s: string, i: nat, w: string)
    requires i + |w| <= |s| && s[i..i + |w|] == w
    requires |w| >= 10 && w[..10] == "[PDF_START"
    ensures MatchesAt(s, i, StartTag)
  {
    forall k | 0 <= k < 10 ensures LowerChar(s[i + k]) == StartTag[k] {
      assert s[i + k] == s[i..i + |w|][k] == w[..10][k];
    }
  }

  /** The literal `[PDF_END]` matches the end marker. */
  lemma EndTagMatches(s: string, i: nat)
    requires i + 9 <= |s| && s[i..i + 9] == "[PDF_END]"
    ensures EndMarkerAt(s, i)
  {
    forall k | 0 <= k < 9 ensures LowerChar(s[i + k]) == EndTag[k] {
      assert s[i + k] == s[i..i + 9][k];
    }
  }

  /** The start marker `[PDF_START:hint]`, followed by anything. */
  lemma HintedStartMarker(s: string, i: nat, hint: string)
    requires hint != [] && ']' !in hint
    requires i + 12 + |hint| <= |s|
    requires s[i..i + 11] == "[PDF_START:" && s[i + 11..i + 11 + |hint|] == hint
    requires s[i + 11 + |hint|..i + 12 + |hint|] == "]"
    ensures StartMarkerAt(s, i) == Some(StartMatch(12 + |hint|, Some(hint)))
  {
    StartTagMatches(s, i, "[PDF_START:");
    assert s[i + 10] == s[i..i + 11][10];
    assert s[i + 11 + |hint|] == s[i + 11 + |hint|..i + 12 + |hint|][0];
    forall k | i + 11 <= k < i + 11 + |hint| ensures s[k] != ']' {
      assert s[k] == hint[k - i - 11];
    }
    IndexOfCharFirst(s, ']', i + 11);
    assert IndexOfChar(s, ']', i + 11) == Some(i + 11 + |hint|);
  }

  /** The start marker `[PDF_START]`, followed by anything. */
  lemma PlainStartMarker(s: string, i: nat)
    requires i + 11 <= |s| && s[i..i + 11] == "[PDF_START]"
    ensures StartMarkerAt(s, i) == Some(StartMatch(11, None))
  {
    StartTagMatches(s, i, "[PDF_START]");
    assert s[i + 10] == s[i..i + 11][10];
  }

  /** A start marker is never an end marker. */
  lemma StartTagIsNotEnd(s: string, i: nat)
    requires MatchesAt(s, i, StartTag)
    ensures !EndMarkerAt(s, i)
  {
    assert StartTag[5] == 's' && EndTag[5] == 'e';
  }

  /** An end marker is never a start marker. */
  lemma EndIsNotStart(s: string, i: nat)
    requires EndMarkerAt(s, i)
    ensures StartMarkerAt(s, i).None?
  {
    assert StartTag[5] == 's' && EndTag[5] == 'e';
  }

  /** The leftmost start marker of `s` is the one at `at` when no `[` comes before it. */
  lemma FirstStartAt(s: string, at: nat, m: StartMatch)
    requires at <= |s| && BracketFree(s, 0, at)
    requires StartMarkerAt(s, at) == Some(m)
    ensures FindStart(s, 0) == Some(Located(at, m))
  {
    forall k | 0 <= k < at ensures StartMarkerAt(s, k).None? {
      NoBracketNoMarker(s, k);
    }
  }

  /** The leftmost end marker of `s` is the one at `endAt` when the only `[` before it opens a start marker. */
  lemma FirstEndAt(s: string, at: nat, endAt: nat)
    requires at < endAt <= |s|
    requires BracketFree(s, 0, at) && BracketFree(s, at + 1, endAt)
    requires MatchesAt(s, at, StartTag) && EndMarkerAt(s, endAt)
    ensures FindEnd(s, 0) == Some(endAt)
  {
    forall k | 0 <= k < endAt ensures !EndMarkerAt(s, k) {
      if k == at {
        StartTagIsNotEnd(s, k);
      } else {
        NoBracketNoMarker(s, k);
      }
    }
  }

  /** A reply with one hinted marker pair: text, `[PDF_START:hint]`, the body, `[PDF_END]`, more text. */
  function HintedReply(pre: string, hint: string, body: string, post: string): (s: string)
    ensures |s| == |pre| + |hint| + |body| + |post| + 21
  {
    pre + "[PDF_START:" + hint + "]" + body + "[PDF_END]" + post
  }

  /**
   * The positions in a reply with one hinted marker pair: no `[` before the start marker at `at`
   * nor between the marker's `[` and the end marker at `endAt`; the body lies between them.
   */
  predicate Shaped(s: string, at: nat, hint: string, endAt: nat)
  {
    && at + 12 + |hint| <= endAt && endAt + 9 <= |s|
    && BracketFree(s, 0, at) && BracketFree(s, at + 1, endAt)
    && StartMarkerAt(s, at) == Some(StartMatch(12 + |hint|, Some(hint)))
    && EndMarkerAt(s, endAt)
  }

  /** Where the markers of a `HintedReply` lie. */
  lemma HintedReplyShaped(pre: string, hint: string, body: string, post: string)
    requires '[' !in pre && '[' !in hint && '[' !in body
    requires hint != [] && ']' !in hint
    ensures var s := HintedReply(pre, hint, body, post);
      var at := |pre|; var endAt := at + 12 + |hint| + |body|;
      && Shaped(s, at, hint, endAt)
      && s[..at] == pre && s[at + 12 + |hint|..endAt] == body && s[endAt + 9..] == post
  {
    var s := HintedReply(pre, hint, body, post);
    Pieces(s, pre, "[PDF_START:", hint, "]", body, "[PDF_END]", post);
    ShapedFromPieces(s, pre, hint, body);
  }

  /** The stretches of a reply that make it shaped: bracket-free text around the two markers. */
  lemma ShapedFromPieces(s: string, pre: string, hint: string, body: string)
    requires '[' !in pre && '[' !in hint && '[' !in body
    requires hint != [] && ']' !in hint
    requires |pre| + 21 + |hint| + |body| <= |s|
    requires var at := |pre|; var bodyAt := at + 12 + |hint|; var endAt := bodyAt + |body|;
      && s[..at] == pre && s[at..at + 11] == "[PDF_START:" && s[at + 11..at + 11 + |hint|] == hint
      && s[at + 11 + |hint|..bodyAt] == "]" && s[bodyAt..endAt] == body && s[endAt..endAt + 9] == "[PDF_END]"
    ensures Shaped(s, |pre|, hint, |pre| + 12 + |hint| + |body|)
  {
    var at := |pre|;
    var bodyAt := at + 12 + |hint|;
    var endAt := bodyAt + |body|;
    assert s[0..at] == pre;
    BracketFreeSlice(s, 0, at, pre);
    HintedStartMarker(s, at, hint);
    assert s[at + 1..at + 11] == "PDF_START:" by {
      assert s[at + 1..at + 11] == s[at..at + 11][1..];
    }
    BracketFreeSlice(s, at + 1, at + 11, "PDF_START:");
    BracketFreeSlice(s, at + 11, at + 11 + |hint|, hint);
    BracketFreeSlice(s, at + 11 + |hint|, bodyAt, "]");
    BracketFreeSlice(s, bodyAt, endAt, body);
    EndTagMatches(s, endAt);
  }

  /** The tail of a `HintedReply` after the start marker, and after the `[` of the end marker. */
  lemma HintedReplyTail(pre: string, hint: string, body: string, post: string)
    ensures var s := HintedReply(pre, hint, body, post);
      var bodyAt := |pre| + 12 + |hint|; var endAt := bodyAt + |body|;
      && s[bodyAt..] == body + "[PDF_END]" + post
      && s[endAt + 1..] == "PDF_END]" + post
  {
    var s := HintedReply(pre, hint, body, post);
    var bodyAt := |pre| + 12 + |hint|;
    var endAt := bodyAt + |body|;
    assert s == (pre + "[PDF_START:" + hint + "]") + (body + "[PDF_END]" + post);
    assert s[bodyAt..] == body + "[PDF_END]" + post;
    assert s[bodyAt..][|body| + 1..] == "PDF_END]" + post;
  }



  /** `parsePDFRequest` once both markers are located: the trimmed text between them, the file name and the title. */
  lemma ParseFound(s: string, start: Located, endAt: nat, body: string, isoDate: string)
    requires FindStart(s, 0) == Some(start) && FindEnd(s, 0) == Some(endAt)
    requires start.index + start.marker.length <= endAt
    requires s[start.index + start.marker.length..endAt] == body
    ensures ParsePdfRequest(s, isoDate)
      == Some(PdfRequest(Trim(body), FilenameOf(start.marker.hint, isoDate), TitleOf(Trim(body)), true))
  {
    ParseLocated(s, start, endAt, isoDate);
    RequestAround(s, start, endAt, body, isoDate);
  }

  /** With both markers located, `parsePDFRequest` builds the request between them. */
  lemma ParseLocated(s: string, start: Located, endAt: nat, isoDate: string)
    requires FindStart(s, 0) == Some(start) && FindEnd(s, 0) == Some(endAt)
    ensures ParsePdfRequest(s, isoDate) == Some(RequestBetween(s, start, endAt, isoDate))
  {
  }

  /** The request between a start marker and an index is built from the trimmed text between them. */
  lemma RequestAround(s: string, start: Located, endAt: nat, body: string, isoDate: string)
    requires start.index + start.marker.length <= endAt <= |s|
    requires s[start.index + start.marker.length..endAt] == body
    ensures RequestBetween(s, start, endAt, isoDate)
      == PdfRequest(Trim(body), FilenameOf(start.marker.hint, isoDate), TitleOf(Trim(body)), true)
  {
  }

  /** In a shaped reply, `match` finds the start marker at `at` and the end marker at `endAt`. */
  lemma FindShaped(s: string, at: nat, hint: string, endAt: nat)
    requires Shaped(s, at, hint, endAt)
    ensures FindStart(s, 0) == Some(Located(at, StartMatch(12 + |hint|, Some(hint))))
    ensures FindEnd(s, 0) == Some(endAt)
  {
    FirstStartAt(s, at, StartMatch(12 + |hint|, Some(hint)));
    StartMarkerShape(s, at);
    FirstEndAt(s, at, endAt);
  }

  /**
   * A reply with one hinted marker pair and no other `[`. The PDF body is the trimmed text between the
   * markers, the file name the trimmed hint plus `.pdf`, and the title comes from the body's first line.
   */
  lemma ParseHintedReply(pre: string, hint: string, body: string, post: string, isoDate: string)
    requires '[' !in pre && '[' !in hint && '[' !in body
    requires hint != [] && ']' !in hint
    ensures ParsePdfRequest(HintedReply(pre, hint, body, post), isoDate)
      == Some(PdfRequest(Trim(body), Trim(hint) + ".pdf", TitleOf(Trim(body)), true))
  {
    var s := HintedReply(pre, hint, body, post);
    var at := |pre|;
    FoundInHintedReply(pre, hint, body, post);
    ParseFound(s, Located(at, StartMatch(12 + |hint|, Some(hint))), at + 12 + |hint| + |body|, body, isoDate);
  }

  /** Where `parsePDFRequest` finds the markers of a `HintedReply`. */
  lemma FoundInHintedReply(pre: string, hint: string, body: string, post: string)
    requires '[' !in pre && '[' !in hint && '[' !in body
    requires hint != [] && ']' !in hint
    ensures var s := HintedReply(pre, hint, body, post);
      var at := |pre|; var endAt := at + 12 + |hint| + |body|;
      && FindStart(s, 0) == Some(Located(at, StartMatch(12 + |hint|, Some(hint))))
      && FindEnd(s, 0) == Some(endAt)
      && s[at + 12 + |hint|..endAt] == body
  {
    HintedReplyShaped(pre, hint, body, post);
    FindShaped(HintedReply(pre, hint, body, post), |pre|, hint, |pre| + 12 + |hint| + |body|);
  }

  /** Removing start markers from a shaped reply whose tail holds no `[`: only the start marker goes. */
  lemma RemoveStartShaped(s: string, at: nat, hint: string, endAt: nat)
    requires Shaped(s, at, hint, endAt) && BracketFree(s, endAt + 1, |s|)
    ensures RemoveStartMarkers(s) == s[..at] + s[at + 12 + |hint|..]
  {
    var bodyAt := at + 12 + |hint|;
    RemoveStartBody(s, bodyAt, endAt);
    RemoveStartMarkerAt(s, at, StartMatch(12 + |hint|, Some(hint)));
    RemoveStartHead(s, at);
  }

  /** From a body without `[` on, through the end marker and a tail without `[`, nothing is removed. */
  lemma RemoveStartBody(s: string, bodyAt: nat, endAt: nat)
    requires bodyAt <= endAt < |s| && BracketFree(s, bodyAt, endAt)
    requires EndMarkerAt(s, endAt) && BracketFree(s, endAt + 1, |s|)
    ensures RemoveStartFrom(s, bodyAt) == s[bodyAt..]
  {
    RemoveStartTail(s, endAt);
    RemoveStartSkips(s, bodyAt, endAt);
    assert s[bodyAt..endAt] + s[endAt..] == s[bodyAt..];
  }

  /** A start marker at `i` is skipped whole. */
  lemma RemoveStartMarkerAt(s: string, i: nat, m: StartMatch)
    requires i <= |s| && StartMarkerAt(s, i) == Some(m)
    ensures RemoveStartFrom(s, i) == RemoveStartFrom(s, i + m.length)
  {
  }

  /** Before the first `[`, nothing is removed. */
  lemma RemoveStartHead(s: string, at: nat)
    requires at <= |s| && BracketFree(s, 0, at)
    ensures RemoveStartMarkers(s) == s[..at] + RemoveStartFrom(s, at)
  {
    RemoveStartSkips(s, 0, at);
    assert s[0..at] == s[..at];
  }

  /** An end marker followed by text without `[` loses nothing to the removal of start markers. */
  lemma RemoveStartTail(s: string, endAt: nat)
    requires endAt < |s| && EndMarkerAt(s, endAt) && BracketFree(s, endAt + 1, |s|)
    ensures RemoveStartFrom(s, endAt) == s[endAt..]
  {
    EndIsNotStart(s, endAt);
    RemoveStartSkips(s, endAt + 1, |s|);
    assert s[endAt + 1..|s|] + [] == s[endAt + 1..];
    assert [s[endAt]] + s[endAt + 1..] == s[endAt..];
  }


  /** Removing end markers from text whose only `[` opens the end marker at `e`: the marker goes. */
  lemma RemoveEndOne(t: string, e: nat)
    requires e + 9 <= |t| && EndMarkerAt(t, e)
    requires BracketFree(t, 0, e) && BracketFree(t, e + 9, |t|)
    ensures RemoveEndMarkers(t) == t[..e] + t[e + 9..]
  {
    RemoveEndSkips(t, 0, e);
    RemoveEndSkips(t, e + 9, |t|);
    assert t[0..e] == t[..e];
    assert t[e + 9..|t|] + [] == t[e + 9..];
  }

  /**
   * `cleanPDFMarkers` on a reply with one hinted marker pair and no other `[`: the two markers go, the text
   * between them stays, and the whole is trimmed.
   */
  lemma CleanHintedReply(pre: string, hint: string, body: string, post: string)
    requires '[' !in pre && '[' !in hint && '[' !in body && '[' !in post
    requires hint != [] && ']' !in hint
    ensures CleanPdfMarkers(HintedReply(pre, hint, body, post)) == Trim(pre + body + post)
  {
    RemoveStartHinted(pre, hint, body, post);
    RemoveEndPlain(pre, body, post);
  }

  /** The start marker is the only thing the first replacement takes out of a shaped reply. */
  lemma RemoveStartHinted(pre: string, hint: string, body: string, post: string)
    requires '[' !in pre && '[' !in hint && '[' !in body && '[' !in post
    requires hint != [] && ']' !in hint
    ensures RemoveStartMarkers(HintedReply(pre, hint, body, post)) == pre + body + "[PDF_END]" + post
  {
    var s := HintedReply(pre, hint, body, post);
    var at := |pre|;
    var endAt := at + 12 + |hint| + |body|;
    HintedReplyShaped(pre, hint, body, post);
    HintedReplyTail(pre, hint, body, post);
    BracketFreeSlice(s, endAt + 1, |s|, "PDF_END]" + post);
    RemoveStartShaped(s, at, hint, endAt);
    assert pre + (body + "[PDF_END]" + post) == pre + body + "[PDF_END]" + post;
  }

  /** The end marker is the only thing the second replacement takes out of text with one `[`. */
  lemma RemoveEndPlain(pre: string, body: string, post: string)
    requires '[' !in pre && '[' !in body && '[' !in post
    ensures RemoveEndMarkers(pre + body + "[PDF_END]" + post) == pre + body + post
  {
    var t := pre + body + "[PDF_END]" + post;
    var e := |pre| + |body|;
    Pieces(t, pre, body, "[PDF_END]", post, [], [], []);
    BracketFreeSlice(t, 0, e, pre + body);
    EndTagMatches(t, e);
    BracketFreeSlice(t, e + 9, |t|, post);
    RemoveEndOne(t, e);
  }

  /**
   * A worked example of the marker format: the text left in the chat keeps the body, as only the
   * markers are removed.
   */
  lemma CleanExample(reply: string)
    requires reply == "a [PDF_START:cv] b [PDF_END] c"
    ensures CleanPdfMarkers(reply) == "a  b  c"
  {
    var pre, hint, body, post := "a ", "cv", " b ", " c";
    var kept := "a  b  c";
    assert reply == HintedReply(pre, hint, body, post) by {
      ExampleReply(reply);
    }
    assert CleanPdfMarkers(reply) == Trim(pre + body + post) by {
      assert '[' !in pre && '[' !in hint && '[' !in body && '[' !in post;
      assert ']' !in hint;
      CleanHintedReply(pre, hint, body, post);
    }
    assert pre + body + post == kept;
    assert Trim(kept) == kept by {
      assert !IsSpace(kept[0]) && !IsSpace(kept[|kept| - 1]);
      TrimNoEdges(kept);
    }
  }

  /** The worked example is a shaped reply. */
  lemma ExampleReply(reply: string)
    requires reply == "a [PDF_START:cv] b [PDF_END] c"
    ensures reply == HintedReply("a ", "cv", " b ", " c")
  {
    assert "a " + "[PDF_START:" + "cv" == "a [PDF_START:cv";
    assert "a [PDF_START:cv" + "]" + " b " == "a [PDF_START:cv] b ";
    assert "a [PDF_START:cv] b " + "[PDF_END]" + " c" == reply;
  }

}
