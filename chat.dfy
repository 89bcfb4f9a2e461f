/**
 * Chat messages as the client keeps them, and the rule that names a conversation after the text
 * of its first message. The rule is written out twice in the client, once where a new
 * conversation is stored and once where the sidebar lists it; both use the definitions here.
 */
module Chat {
  import opened Wrappers
  import opened JsString

  /** Who wrote a message. */
  datatype Role = System | User | Assistant

  /** One item of a structured message content: its `type` and its `text`, when it has one. */
  datatype Part = Part(kind: string, text: Option<string>)

  /**
   * A message's `content`: a string, an array of parts, `null`/`undefined`, or any other value
   * (a number or an object that is not an array), which has no `find` method.
   */
  datatype Content = Text(value: string) | Parts(items: seq<Part>) | NoContent | OtherValue

  /** A message as the client keeps it: a timestamp id, the author, the content and the tool's name. */
  datatype Message = Message(id: int, role: Role, content: Content, tool: string)

  /** The title given to a conversation that has no messages, or whose title cannot be derived. */
  const NewConversation: string := "New Conversation"
  /** How many characters of the first message a derived title keeps. */
  const TitleLength: nat := 50
  /** What a cut title ends with. */
  const Ellipsis: string := "..."

  /** The index of the first part whose `type` is `"text"`, as `find` looks for it. */
  function FirstTextPart(items: seq<Part>): (r: Option<nat>)
    ensures r.Some? ==> r.value < |items| && items[r.value].kind == "text"
    ensures r.Some? ==> forall k :: 0 <= k < r.value ==> items[k].kind != "text"
    ensures r.None? ==> forall k :: 0 <= k < |items| ==> items[k].kind != "text"
  {
    if items == [] then None
    else if items[0].kind == "text" then Some(0)
    else match FirstTextPart(items[1..])
      case None => None
      case Some(k) => Some(k + 1)
  }

  /**
   * The text a title is derived from: a string content itself; otherwise the `text` of the first
   * part of type `"text"` (the one no other part of that type precedes), or `""` when there is
   * none, it has no text, or the content is missing.
   * Any other content throws, because it has no `find` method.
   */
  function TitleSource(content: Content): (r: Result<string>)
    ensures r.Failure? <==> content.OtherValue?
    ensures content.Text? ==> r == Success(content.value)
    ensures content.Parts? && r.value != "" ==>
      exists k :: 0 <= k < |content.items| && content.items[k].kind == "text" && content.items[k].text == Some(r.value)
    ensures content.Parts? && (forall k :: 0 <= k < |content.items| ==> content.items[k].kind != "text") ==> r == Success("")
    ensures content.NoContent? ==> r == Success("")
    ensures content.Parts? ==> forall k ::
      0 <= k < |content.items| && content.items[k].kind == "text" && (forall j :: 0 <= j < k ==> content.items[j].kind != "text") ==>
        r == Success(if Truthy(content.items[k].text) then content.items[k].text.value else "")
  {
    match content
    case Text(s) => Success(s)
    case Parts(items) =>
      (match FirstTextPart(items)
       case Some(k) => if Truthy(items[k].text) then Success(items[k].text.value) else Success("")
       case None => Success(""))
    case NoContent => Success("")
    case OtherValue => Failure("content.find is not a function")
  }

  /** `text.substring(0, 50) + (text.length > 50 ? '...' : '')`. */
  function TitleFromText(text: string): string {
    Prefix(text, TitleLength) + (if |text| > TitleLength then Ellipsis else "")
  }

  /**
   * A derived title is the text itself when the text has at most 50 characters; otherwise it is
   * the first 50 characters followed by `...`. Either way it has at most 53 characters and the
   * text begins with everything before the ellipsis.
   */
  lemma TitleFromTextShape(text: string)
    ensures var title := TitleFromText(text);
      && |title| <= TitleLength + |Ellipsis|
      && (|text| <= TitleLength ==> title == text)
      && (|text| > TitleLength <==> |title| == TitleLength + |Ellipsis| && EndsWith(title, Ellipsis))
      && (|text| > TitleLength ==> title[..TitleLength] == text[..TitleLength])
  {
    var title := TitleFromText(text);
    if |text| > TitleLength {
      assert title[TitleLength..] == Ellipsis;
    }
  }

  /** The title derived from the first message of a non-empty list, or the failure of deriving it. */
  function FirstMessageTitle(messages: seq<Message>): (r: Result<string>)
    requires messages != []
    ensures r.Failure? <==> messages[0].content.OtherValue?
    ensures r.Success? ==> r.value == TitleFromText(TitleSource(messages[0].content).value)
  {
    match TitleSource(messages[0].content)
    case Success(text) => Success(TitleFromText(text))
    case Failure(e) => Failure(e)
  }
}
