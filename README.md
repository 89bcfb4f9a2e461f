# KoopsGPT client core, modelled in Dafny

KoopsGPT is a browser chat client. It has eight built-in assistant "tools", each with its own
system prompt. Users can create custom tools from a prompt and training files. Conversations are
stored in a hosted database and listed in a sidebar. Replies can carry a PDF document between
`[PDF_START:name]` and `[PDF_END]` markers. A small library searches the web and crawls result
pages.

This project models the client's core as Dafny values, functions, classes and methods, and
proves properties of them:

- `wrappers.dfy`: `Option`, `Result` and JavaScript truthiness of an optional string.
- `js_string.dfy`: the JavaScript string built-ins the client relies on (`trim`, `split`,
  `join`, `substring`, ASCII `toLowerCase`, `startsWith`/`endsWith`), with their round trips.
- `ordering.dfy`: newest-first ordering, `.limit(n)` and `filter`.
- `chat.dfy`: chat messages and the rule that names a conversation after its first message.
- `pdf_markers.dfy`: `parsePDFRequest` and `cleanPDFMarkers`, with the two marker regular
  expressions written out as matchers.
- `pdf_layout.dfy`: the page layout loop of `generatePDF`, as a method proved against a
  left-fold specification.
- `database.js` as `database.dfy`: the three tables, saving and loading conversations,
  activity tracking, and loading and saving custom tools, each with its error policy.
- `sidebar.dfy`: the sidebar's list query, its title rule, and creating and deleting
  conversations, as a class.
- `add_tool.dfy`: file classification and reading, PDF text extraction, the training-file list
  and saving a tool, as a class.
- `app.dfy`: the tool list, the tool selector and `handleSend`, as a class.
- `web_search.dfy`: `searchWeb`, the HTML-to-text pipeline of `crawlWebPage`, and
  `searchAndCrawl` as a loop.

Foreign services become inputs:

- the completion service's reply;
- the search service's answer;
- the CORS proxy's reply per URL;
- what pdf.js, mammoth and the `FileReader` deliver for a file;
- the current time;
- an optional outage of the hosted database.

`cleanPDFMarkers` removes only the two markers and keeps the text between them. A reply
`a [PDF_START:cv] b [PDF_END] c` therefore leaves `a  b  c` in the chat (`CleanExample`), which is what the function's doc comment
(src/lib/pdfGenerator.js:106-110) describes: it speaks of the markers only.

## Model

| member | source | states |
|---|---|---|
| JsString.Trim | src/lib/pdfGenerator.js:88 | `trim` leaves no whitespace at either end and never lengthens the string |
| JsString.TrimSlice | src/lib/pdfGenerator.js:88 | `trim` keeps a slice of the input, and everything cut before and after it is whitespace |
| JsString.TrimEmpty | src/App.jsx:37 | `!s.trim()` holds exactly when every character is whitespace |
| JsString.TrimIdempotent | src/lib/database.js:112-113 | trimming twice is trimming once |
| JsString.Substring | src/lib/pdfGenerator.js:88 | `substring` is the slice between the indices, swapped when they are out of order |
| JsString.JoinSplit | src/lib/pdfGenerator.js:33 | joining the pieces of `split('\n')` with the separator gives the content back |
| JsString.SplitJoin | src/lib/pdfGenerator.js:33 | splitting a join of separator-free pieces gives the pieces back |
| JsString.FirstPieceOfSplit | src/lib/pdfGenerator.js:96 | `split('\n')[0]` is the prefix before the first line feed, and it holds none |
| Ordering.InsertNewestFirst | src/lib/database.js:97 | inserting into a newest-first list keeps it newest first and adds exactly that row |
| Ordering.SortNewestFirst | src/lib/database.js:97 | `.order(..., { ascending: false })` gives a newest-first permutation of the rows |
| Ordering.SortKeepsMembers | src/lib/database.js:97 | ordering neither adds nor drops a row |
| Ordering.Limit | src/components/Sidebar.jsx:23 | `.limit(n)` keeps the first `n` rows in order, or all rows of a shorter list; its length is exactly the smaller of `n` and the input's, and no row occurs more often than in the input |
| Ordering.LimitNewestFirst | src/components/Sidebar.jsx:22-23 | a limited newest-first list is still newest first |
| Ordering.LimitKeepsNewest | src/components/Sidebar.jsx:22-23 | a row that `.limit(n)` drops from a newest-first list is no newer than any row it keeps |
| Ordering.Filter | src/App.jsx:58-59 | `filter` keeps exactly the rows that pass, each no more often than stored |
| Ordering.FilterCounts | src/App.jsx:58-59 | `filter` keeps each passing row exactly as often as it occurs and no failing row |
| Ordering.FilterKeeps | src/App.jsx:58-59 | a passing row appended to the input is appended to the output, after the rows kept before it |
| Ordering.FilterSkips | src/App.jsx:58-59 | a failing row appended to the input leaves the output unchanged |
| Chat.FirstTextPart | src/lib/database.js:34 | `find` returns the first part of type `text`, and none precedes it |
| Chat.TitleSource | src/lib/database.js:32-34 | a string content is used as is; an array gives the text of its first part of type `text` (no earlier part has that type), or `""` when that part has no text or there is none; a missing content gives `""`; any other content throws |
| Chat.TitleFromText | src/lib/database.js:35 | the title rule on a text: its first 50 characters, plus `...` when it is longer (the shape is stated by `TitleFromTextShape`) |
| Chat.TitleFromTextShape | src/lib/database.js:35 | a derived title is the text when it has at most 50 characters, else its first 50 characters and `...`; at most 53 characters |
| Chat.FirstMessageTitle | src/lib/database.js:30-35 | deriving a title from the first message throws exactly when its content has no `find`; otherwise the title is the title rule applied to that content's title source |
| PdfMarkers.StartMarkerAt | src/lib/pdfGenerator.js:74 | the start-marker regular expression tried at one index: a match is at least 11 characters long and ends inside the text |
| PdfMarkers.StartMarkerShape | src/lib/pdfGenerator.js:74 | a start marker is the tag, then `]`, or `:` with a non-empty hint without `]` and a closing `]` |
| PdfMarkers.FindStart | src/lib/pdfGenerator.js:77 | `match` finds the leftmost start marker, or reports none anywhere |
| PdfMarkers.FindEnd | src/lib/pdfGenerator.js:78 | `match` finds the leftmost end marker, or reports none anywhere |
| PdfMarkers.TitleOf | src/lib/pdfGenerator.js:96 | the PDF title is never empty and has at most 50 characters |
| PdfMarkers.TitleIsFirstLine | src/lib/pdfGenerator.js:96 | the title is one line: `Document` for an empty first line, else that line cut to 50 characters, a prefix of the body |
| PdfMarkers.FilenameOf | src/lib/pdfGenerator.js:91-93 | the file name ends in `.pdf`; without a hint it starts with `document_` |
| PdfMarkers.ParsePdfRequest | src/lib/pdfGenerator.js:72-104 | a parsed request always has `hasPDF` set and the title its body gives |
| PdfMarkers.ParseNoneIffMarkerMissing | src/lib/pdfGenerator.js:77-82 | `parsePDFRequest` returns null exactly when the start or the end marker is missing |
| PdfMarkers.ParseFound | src/lib/pdfGenerator.js:84-103 | with both markers found, the body is the trimmed text between them, with the file name and title built from them |
| PdfMarkers.FirstStartAt | src/lib/pdfGenerator.js:77 | a start marker with no `[` before it is the one `match` finds |
| PdfMarkers.FirstEndAt | src/lib/pdfGenerator.js:78 | an end marker whose only earlier `[` opens a start marker is the one `match` finds |
| PdfMarkers.HintedStartMarker | src/lib/pdfGenerator.js:74 | `[PDF_START:hint]` matches, with its hint |
| PdfMarkers.PlainStartMarker | src/lib/pdfGenerator.js:74 | `[PDF_START]` matches, without a hint |
| PdfMarkers.StartTagIsNotEnd | src/lib/pdfGenerator.js:74-75 | no position starts both kinds of marker |
| PdfMarkers.EndIsNotStart | src/lib/pdfGenerator.js:74-75 | an end marker is never a start marker |
| PdfMarkers.NoBracketNoMarker | src/lib/pdfGenerator.js:74-75 | only a `[` can start a marker |
| PdfMarkers.ParseHintedReply | src/lib/pdfGenerator.js:72-104 | for a reply with one hinted marker pair and no other `[`, the body is the trimmed text between the markers and the file name the trimmed hint plus `.pdf` |
| PdfMarkers.FoundInHintedReply | src/lib/pdfGenerator.js:77-78 | in such a reply `match` finds the start marker after the leading text and the end marker after the body |
| PdfMarkers.RemoveStartFrom | src/lib/pdfGenerator.js:113 | the global replacement of start markers by nothing, from an index on; the output is never longer than that suffix |
| PdfMarkers.RemoveStartMarkers | src/lib/pdfGenerator.js:113 | the first replacement of `cleanPDFMarkers`, never lengthening the reply |
| PdfMarkers.RemoveEndFrom | src/lib/pdfGenerator.js:114 | the global replacement of end markers by nothing, from an index on; the output is never longer than that suffix |
| PdfMarkers.RemoveEndMarkers | src/lib/pdfGenerator.js:114 | the second replacement of `cleanPDFMarkers`, never lengthening the reply |
| PdfMarkers.CleanPdfMarkers | src/lib/pdfGenerator.js:111-116 | the cleaned reply is never longer and has no whitespace at either end |
| PdfMarkers.CleanWithoutMarkers | src/lib/pdfGenerator.js:111-116 | on a reply without markers, cleaning is `trim` |
| PdfMarkers.RemoveStartSkips | src/lib/pdfGenerator.js:113 | the start-marker pass copies text without `[` unchanged |
| PdfMarkers.RemoveEndSkips | src/lib/pdfGenerator.js:114 | the end-marker pass copies text without `[` unchanged |
| PdfMarkers.RemoveStartNone | src/lib/pdfGenerator.js:113 | text in which no start marker occurs passes the first replacement unchanged |
| PdfMarkers.RemoveEndNone | src/lib/pdfGenerator.js:114 | text in which no end marker occurs passes the second replacement unchanged |
| PdfMarkers.RemoveStartMarkerAt | src/lib/pdfGenerator.js:113 | a matched start marker is removed whole, hint included |
| PdfMarkers.RemoveStartShaped | src/lib/pdfGenerator.js:113 | in a shaped reply, the first replacement removes only the start marker |
| PdfMarkers.RemoveEndOne | src/lib/pdfGenerator.js:114 | the second replacement removes the end marker and nothing else |
| PdfMarkers.RemoveStartHinted | src/lib/pdfGenerator.js:113 | the start marker is the only thing the first replacement takes out of a shaped reply |
| PdfMarkers.RemoveEndPlain | src/lib/pdfGenerator.js:114 | the end marker is the only thing the second replacement takes out |
| PdfMarkers.CleanHintedReply | src/lib/pdfGenerator.js:111-116 | cleaning a shaped reply removes both markers, keeps the text between them and trims the whole |
| PdfMarkers.CleanExample | src/lib/pdfGenerator.js:111-116 | `a [PDF_START:cv] b [PDF_END] c` cleans to `a  b  c` |
| PdfLayout.StartPen | src/lib/pdfGenerator.js:17-30 | before the body: with a truthy title, the title at y 20 and the empty spacer at y 30 on the first page and the cursor at 35; without one, nothing drawn and the cursor at 20 (`FirstLineAtStart` states the consequence) |
| PdfLayout.PlaceLine | src/lib/pdfGenerator.js:45-52 | one line: past `pageHeight - 14` a new page and the line at the top margin, else the line at the cursor; the cursor moves 7 (`PlaceLinesFirst`, `PlaceLinesUnbroken`) |
| PdfLayout.PlaceLines | src/lib/pdfGenerator.js:44-53 | the wrapped lines of a paragraph in order, as a left fold of `PlaceLine` (`PlaceLinesInBounds`, `PlaceLinesTexts`) |
| PdfLayout.PlaceParagraph | src/lib/pdfGenerator.js:36-56 | a whitespace-only paragraph moves the cursor 7 and draws nothing; any other draws its wrapped lines, then a gap of 2 (`ParagraphAdvance`) |
| PdfLayout.PlaceParagraphs | src/lib/pdfGenerator.js:35-57 | the paragraphs in order, as a left fold of `PlaceParagraph` (`PlaceParagraphsAppend`, `PlaceParagraphsTexts`) |
| PdfLayout.Layout | src/lib/pdfGenerator.js:17-57 | the whole layout: the content split at line feeds, laid out after the title (`LayoutInBounds`, `LayoutTexts`; `GeneratePdf` computes it) |
| PdfLayout.GeneratePdf | src/lib/pdfGenerator.js:10-64 | the cursor loop over paragraphs and wrapped lines draws exactly what the layout fold gives, and ends on its page and cursor |
| PdfLayout.PlaceLinesInBounds | src/lib/pdfGenerator.js:44-53 | drawing lines keeps earlier output and puts each new line inside the margins |
| PdfLayout.PlaceParagraphsInBounds | src/lib/pdfGenerator.js:35-57 | laying out paragraphs keeps earlier output and puts each new line inside the margins |
| PdfLayout.LayoutInBounds | src/lib/pdfGenerator.js:17-57 | the title comes first, and every body line is below the top margin and, unless alone at a page's top, above the bottom margin |
| PdfLayout.LayoutAboveBottom | src/lib/pdfGenerator.js:44-53 | on a page at least twice the margin tall, every body line lies between the two margins |
| PdfLayout.PlaceLinesUnbroken | src/lib/pdfGenerator.js:44-53 | lines that fit are drawn one line height apart on the current page |
| PdfLayout.ParagraphAdvance | src/lib/pdfGenerator.js:35-57 | a blank paragraph moves the cursor one line; another moves it one line per wrapped line plus the gap of 2 |
| PdfLayout.PlaceLinesTexts | src/lib/pdfGenerator.js:44-53 | drawing lines appends exactly those lines, in order |
| PdfLayout.PlaceParagraphsTexts | src/lib/pdfGenerator.js:35-57 | laying out paragraphs draws exactly the wrapped lines of the non-blank ones, in order |
| PdfLayout.LayoutTexts | src/lib/pdfGenerator.js:17-57 | the document shows the title and its spacer (if any), then the wrapped lines of the non-blank paragraphs, and nothing else |
| PdfLayout.PlaceParagraphsAppend | src/lib/pdfGenerator.js:35-57 | laying out `a + b` is laying out `a`, then `b` from where `a` left the cursor |
| PdfLayout.FirstLineAtStart | src/lib/pdfGenerator.js:17-30 | the first body line goes on the first page at y 35 below a title, 20 without one |
| PdfLayout.PlaceLinesFirst | src/lib/pdfGenerator.js:44-51 | the first line placed from a cursor above the bottom margin goes at the cursor |
| Database.CreateTitle | src/lib/database.js:27-39 | a create uses a truthy title, else `New Conversation` without messages, else the first message's derived title |
| Database.BuildConversationData | src/lib/database.js:5-40 | the record sent always has owner, messages, tool and the first clock reading as update time; only a create has a creation time, the second clock reading; an update carries only a truthy title and never derives one |
| Database.BuildFailsOnlyOnOddContent | src/lib/database.js:27-35 | building the record throws exactly for a create without a title whose first message's content has no `find` |
| Database.FindConversation | src/lib/database.js:18-19 | `.eq('id').eq('user_id')` finds the first row with that id and owner, or reports none |
| Database.SaveConversation | src/lib/database.js:3-55 | a failed save changes no table; a save touches only conversations; a saved row has the owner, messages, tool and time given |
| Database.LoadConversation | src/lib/database.js:57-72 | a loaded row has the id and owner asked for; without an outage it fails only when there is no such row |
| Database.Updated | src/lib/database.js:14-19 | `.update(data)` on one row: owner, messages, tool and update time replaced by the sent ones, a sent title replacing the stored one, the creation time kept (`UpdateTouchesOnlyOwnRow`, `UpdateRecord`) |
| Database.UpdateRecord | src/lib/database.js:12-24 | without an outage an update succeeds exactly when the caller owns a conversation with that id; it then returns that row with the new messages, tool and update time and a truthy title sent, or else the stored title, and writes it back in place; with no such row it throws and changes nothing |
| Database.UpdateTouchesOnlyOwnRow | src/lib/database.js:12-24 | an update changes only the caller's row with that id, keeps its creation time, and keeps the title unless a truthy one is sent |
| Database.SaveKeepsIdsUnique | src/lib/database.js:3-55 | saving keeps conversation and tool ids unique |
| Database.SaveThenLoad | src/lib/database.js:3-72 | a saved conversation loads back, for its owner, as the row the save returned |
| Database.CreateRecord | src/lib/database.js:25-49 | a create appends one row with the new id, the second clock reading as creation time and the first as update time, and the title rule |
| Database.TrackUserActivity | src/lib/database.js:74-90 | tracking appends one activity row, or on an outage swallows the error and changes nothing |
| Database.LoadCustomTools | src/lib/database.js:92-105 | the custom tools come newest first, all of them; an outage gives the empty list |
| Database.InsertCustomTool | src/lib/database.js:109-121 | an insert succeeds exactly without an outage and with a fresh id, and then appends exactly the returned row |
| Database.SaveCustomTool | src/lib/database.js:107-126 | a saved tool's name and prompt are the trimmed inputs; a failure changes nothing |
| Database.SavedToolTrimmed | src/lib/database.js:112-113 | a stored name has no edge whitespace, and saving the stored values again stores the same |
| Sidebar.RecentConversations | src/components/Sidebar.jsx:18-23 | the list holds only the user's conversations, newest update first, exactly 50 of them or all when fewer, none more often than it is stored; a conversation of the user's left out is no newer than any listed |
| Sidebar.RecentListsAllOfFewConversations | src/components/Sidebar.jsx:18-23 | a user with at most 50 conversations sees every one of them |
| Sidebar.ConversationTitle | src/components/Sidebar.jsx:60-76 | a truthy stored title is shown; without messages, or when deriving throws, `New Conversation` |
| Sidebar.TitlesAgree | src/components/Sidebar.jsx:60-76 | without a stored title, the sidebar shows the title a create would have derived from the same messages |
| Sidebar.CreatedConversationShowsStoredTitle | src/components/Sidebar.jsx:60-61 | a conversation created by the data layer shows the title it was stored with |
| Sidebar.DeleteConversationRows | src/components/Sidebar.jsx:43-47 | the delete removes every row with that id and owner, and only those |
| Sidebar.SidebarView.constructor | src/components/Sidebar.jsx:6-7 | a new sidebar has an empty list and is loading |
| Sidebar.SidebarView.LoadConversations | src/components/Sidebar.jsx:15-32 | success shows the recent list; failure keeps the old one; loading ends either way |
| Sidebar.SidebarView.CreateNewConversation | src/components/Sidebar.jsx:34-36 | starting a new conversation deselects, and changes nothing else |
| Sidebar.SidebarView.DeleteConversation | src/components/Sidebar.jsx:38-58 | nothing without confirmation; a failed delete alerts and changes nothing; a successful one reloads and deselects only the deleted selection |
| AddTool.KindOf | src/components/AddTool.jsx:47-79 | files are read as image, then PDF, then DOCX, then text, else as a data URL, each exactly when the earlier tests fail |
| AddTool.UpperCasePdfName | src/components/AddTool.jsx:57 | a `.PDF` name is read as a PDF unless the type is an image |
| AddTool.JsonNameIsText | src/components/AddTool.jsx:71-74 | a `.json` name is read as text when the earlier tests fail |
| AddTool.ExtractTextFromPdf | src/components/AddTool.jsx:18-31 | the page loop returns the trimmed running text |
| AddTool.PageText | src/components/AddTool.jsx:27 | a page's text is its items joined by single spaces |
| AddTool.PagesText | src/components/AddTool.jsx:24-29 | the running text: each page's text followed by a blank line, page after page (`PagesTextIsJoin` gives it as a join) |
| AddTool.PagesTextIsJoin | src/components/AddTool.jsx:24-29 | the running text is the page texts joined by blank lines, plus a final blank line |
| AddTool.PdfTextIsTrimmedJoin | src/components/AddTool.jsx:24-31 | the extracted text is the trimmed join of the page texts |
| AddTool.ReaderContent | src/components/AddTool.jsx:49-54 | a file reader resolves exactly when it loads |
| AddTool.FileContent | src/components/AddTool.jsx:47-79 | each kind of file gives the text or data URL of its reader, or the prefixed PDF or DOCX extraction error |
| AddTool.ReadFileContent | src/components/AddTool.jsx:47-79 | the method computes what `FileContent` specifies |
| AddTool.DescriptorOf | src/components/AddTool.jsx:88-119 | the descriptor built from what reading gave: name, type, size and content with the four flags, or on a failure the prefixed error message, both text and image flags false and the error flag set (`Describe`, `DescriptorFlags`) |
| AddTool.Describe | src/components/AddTool.jsx:86-120 | a descriptor keeps name, type and size; it is an error exactly when reading fails, with the error message as content |
| AddTool.DescriptorFlags | src/components/AddTool.jsx:89-107 | readable PDF and DOCX files are marked as text; images exactly are marked as images |
| AddTool.ReaderErrorDescriptor | src/components/AddTool.jsx:109-119 | a reader failure is described as `Error reading file: undefined` |
| AddTool.Descriptors | src/components/AddTool.jsx:85-122 | one descriptor per file, in selection order |
| AddTool.FilterOutIndexKeeps | src/components/AddTool.jsx:132 | filtering a stretch without the index keeps it whole |
| AddTool.FilterOutIndexDrops | src/components/AddTool.jsx:132 | filtering a stretch holding the index drops exactly that entry |
| AddTool.RemoveAt | src/components/AddTool.jsx:131-133 | `filter((_, i) => i !== index)` over the training files (`RemoveAtSlices` states the result) |
| AddTool.RemoveAtSlices | src/components/AddTool.jsx:131-133 | removal takes out exactly the entry at an index in range; any other index changes nothing |
| AddTool.TrainingDocs | src/components/AddTool.jsx:150-156 | each training document keeps name, type, content and the two flags of its file, in order |
| AddTool.AddToolForm.constructor | src/components/AddTool.jsx:11-15 | an empty form, not saving, without error |
| AddTool.AddToolForm.HandleFileSelect | src/components/AddTool.jsx:81-129 | the descriptors of the selection are appended after the existing entries |
| AddTool.AddToolForm.RemoveFile | src/components/AddTool.jsx:131-133 | the list loses the entry at the index |
| AddTool.AddToolForm.HandleSave | src/components/AddTool.jsx:135-184 | a blank name, then a blank prompt, is an error and saves nothing; otherwise the trimmed tool is inserted, success clears the form, failure shows the message or the fallback; saving ends |
| App.FindToolIn | src/App.jsx:119 | `find` returns a tool with the id asked for, or none has it |
| App.FindToolIds | src/App.jsx:10-19 | exactly the ids 1 to 8 name a built-in tool, which has that id |
| App.Outbound | src/App.jsx:53-68 | the request context: the system prompt, the same tool's earlier messages reduced to role and content, then the input (`OutboundShape`, `OutboundOfNoHistory`, `OutboundAppendsSameTool`, `OutboundIgnoresOtherTools`) |
| App.OutboundShape | src/App.jsx:53-68 | the request is the system prompt, then role and content of each earlier message of the same tool and no other, then the input |
| App.OutboundIgnoresOtherTools | src/App.jsx:58-59 | messages of another tool never reach the request |
| App.OutboundOfNoHistory | src/App.jsx:53-68 | without earlier messages the request is the system prompt and the input |
| App.OutboundAppendsSameTool | src/App.jsx:53-68 | an earlier message of the same tool goes, reduced to role and content, after all earlier ones and before the input; with the two lemmas above this fixes the order and the count of the request |
| App.AssistantMessage | src/App.jsx:77-93 | the reply text, `Sorry, I could not generate a response.` for an empty one, `Error: ` with a truthy error message, else `Error: ` with the fixed fallback text |
| App.ChatSession.constructor | src/App.jsx:22-25 | the first tool, no messages, no input, not loading |
| App.ChatSession.SetInput | src/App.jsx:177 | typing replaces the input and nothing else |
| App.ChatSession.SelectTool | src/App.jsx:118-121 | selecting an id selects the tool with that id and keeps the conversation |
| App.ChatSession.HandleSend | src/App.jsx:36-97 | nothing happens for blank input or while loading; otherwise the user message and one assistant message are appended, the input cleared, the request built, loading over |
| WebSearch.SearchWeb | src/lib/webSearch.js:9-42 | no key fails before any request; a rejection fails with the service's error or else the message; an answer keeps the query |
| WebSearch.Project | src/lib/webSearch.js:30-35 | a raw result reduced to title, link, snippet and position (`SearchProjection`) |
| WebSearch.SearchProjection | src/lib/webSearch.js:26-36 | each result keeps exactly title, link, snippet and position, in order; missing results give none; a missing total gives 0 |
| WebSearch.BlockEnd | src/lib/webSearch.js:62-63 | a block match ends past its opening tag, inside the text |
| WebSearch.RemoveBlocks | src/lib/webSearch.js:62-63 | one left-to-right pass of the global, case-insensitive, lazy block replacement by nothing; never lengthens the text |
| WebSearch.RemoveBlocksKeepsPlain | src/lib/webSearch.js:62-63 | text before the first `<` passes the block removal untouched |
| WebSearch.BlockEndAt | src/lib/webSearch.js:62-63 | a block ends right after its closing tag, letters compared without regard to case |
| WebSearch.BlockRemoved | src/lib/webSearch.js:62-63 | a block between text without `<` is removed, and nothing else is |
| WebSearch.RemoveBlocksSkips | src/lib/webSearch.js:62-63 | text in which no opening tag starts passes the block removal untouched |
| WebSearch.LeadingBlockRemoved | src/lib/webSearch.js:62-63 | a block at the front, the opening tag in any letter case, with attributes without `>`, ends at the first closing tag after them; it is dropped and the pass goes on after it |
| WebSearch.BlockRemovedAt | src/lib/webSearch.js:62-63 | such a block, with no opening tag starting in the text before it, is removed whole; the text before it is kept and the text after it goes through the same pass |
| WebSearch.ScriptAndStyleBlocksRemoved | src/lib/webSearch.js:62-63 | `<script …>…</script>` and `<style …>…</style>` blocks, tags in any letter case and the opening tag with any attributes, are removed whole up to the first closing tag when no such block starts before them; the text before is kept and the text after goes through the same pass |
| WebSearch.StripTags | src/lib/webSearch.js:64 | one left-to-right pass of the global replacement of `<[^>]+>` by a space; never lengthens the text |
| WebSearch.TagEnd | src/lib/webSearch.js:64 | a tag has at least one character between `<` and `>` |
| WebSearch.StripTagsAddsNoCloser | src/lib/webSearch.js:64 | replacing tags by spaces introduces no `>` |
| WebSearch.StripTagsKeepsLoneOpener | src/lib/webSearch.js:64 | a `<` that opens no tag opens none afterwards |
| WebSearch.StripTagsLeavesNoTag | src/lib/webSearch.js:64 | after the tag pass no tag is left |
| WebSearch.StripTagsKeepsPlain | src/lib/webSearch.js:64 | text without `<` has no tag to replace |
| WebSearch.StripTagsSkipsPlain | src/lib/webSearch.js:64 | text before the first `<` passes the tag pass untouched |
| WebSearch.LeadingTagReplaced | src/lib/webSearch.js:64 | a tag at the front with at least one character other than `>` inside becomes one space |
| WebSearch.TagReplaced | src/lib/webSearch.js:64 | a tag after text without `<` becomes one space, the text before it kept and the text after it going through the same pass |
| WebSearch.CollapseSpace | src/lib/webSearch.js:65 | every whitespace run becomes one space: the result is single-spaced, empty exactly when the input is, and starts with a space exactly when the input starts with whitespace; `CollapseSpaceKeepsWord` and `CollapseSpaceRun` fix the result word by word and run by run |
| WebSearch.CollapseSpaceKeepsWord | src/lib/webSearch.js:65 | a word, text without whitespace, is kept as it is and the rest goes through the same pass |
| WebSearch.CollapseSpaceRun | src/lib/webSearch.js:65 | a whole run of whitespace, of any length and kind, becomes one plain space |
| WebSearch.CollapseSpaceKeepsSingleSpaced | src/lib/webSearch.js:65 | single-spaced text is left as it is |
| WebSearch.SingleSpacedSlice | src/lib/webSearch.js:65-67 | a slice of single-spaced text is single-spaced |
| WebSearch.ExtractText | src/lib/webSearch.js:61-67 | script blocks removed, then style blocks, tags replaced by spaces, whitespace runs collapsed, trimmed and cut to 5000 characters (`ExtractTextShape`, `CleanTextKept`) |
| WebSearch.PageText | src/lib/webSearch.js:69 | the extracted text, or the fixed fallback when it is empty (`PageTextShape`) |
| WebSearch.ExtractTextShape | src/lib/webSearch.js:61-67 | the extracted text is at most 5000 characters, single-spaced, without a leading space |
| WebSearch.UnextractableSingleSpaced | src/lib/webSearch.js:69 | the fallback text has the same shape |
| WebSearch.PageTextShape | src/lib/webSearch.js:61-69 | a crawl yields non-empty, single-spaced text of at most 5000 characters without a leading space |
| WebSearch.CleanTextKept | src/lib/webSearch.js:61-67 | clean text comes through the pipeline unchanged |
| WebSearch.Html | src/lib/webSearch.js:60 | `contents` when truthy, a plain-text body as is, else the type error or the fetch error |
| WebSearch.CrawlWebPage | src/lib/webSearch.js:50-74 | a crawl succeeds exactly when the HTML is a string, giving its text; a failure names the URL and the cause |
| WebSearch.CrawlEntry | src/lib/webSearch.js:91-101 | each entry carries its own search result |
| WebSearch.CrawlTotal | src/lib/webSearch.js:90 | `Math.min(3, results.length)` |
| WebSearch.CrawledEntries | src/lib/webSearch.js:86-103 | at most three entries, one per top result in order, each with its page text or its own recorded error |
| WebSearch.SearchAndCrawl | src/lib/webSearch.js:83-112 | a search failure is passed on; without the flag or results the search comes back as is; else the crawl loop gives the crawled prefix |

## Left out

- Strings are sequences of characters, not UTF-16 code units. Letter case is folded for ASCII
  only, which is all the marker and tag regular expressions compare.
- I/O, clocks and the network are parameters. This covers the completion service, the search
  service, the CORS proxy, the hosted database, pdf.js, mammoth and `FileReader`. The request
  parameters of `searchWeb` (`engine`, `q`, `api_key`, `num`) and the proxy URL are not modelled.
- The `timeout` of the crawl request and `encodeURIComponent` of the URL are not modelled; the
  proxy's reply per URL is an input.
- `generatePDF`: page height is an integer, and font selection and sizes are not modelled.
  `splitTextToSize` is the caller's `wrap` function. `doc.save` and the returned Blob are not
  modelled; the drawn strings are the result.
- Asynchronous code runs in program order. Promise interleavings, React's batched state updates
  and re-renders are not modelled. `Promise.all` in `handleFileSelect` is a map in selection order.
- `isText` in `handleFileSelect` is a match array or `null` in the source; it is a boolean here.
- DOCX text is what mammoth would deliver, given with the file.
- `data || []` after a successful query is not modelled, both for the conversation list
  (src/components/Sidebar.jsx:26) and for `loadCustomTools` (src/lib/database.js:100): a successful
  query always answers rows.
- `results.map` on an `organic_results` value that is not an array is not modelled.
- App.ChatSession.SelectTool: requires an id of a built-in tool, since the selector offers only
  those. An unknown id would select `undefined` in the source.
- Chat.TitleFromTextShape: states that the title is the text only for texts of at most 50
  characters, not the converse. A 53-character text ending in `...` also gives itself back.
- The rendering, scrolling, keyboard handling, confirmation dialog and alerts are not
  modelled. The user's answer to `confirm` is an input; whether an alert shows is an output.
- `Auth.jsx` and the database client setup are not part of this model.
