# Verified model of parts of the libgda user interface library

A Dafny model of four components of `libgda-ui` that hold logic of their own under their GTK calls,
and proofs of what they do.

* **The rich-text editor** (`libgda-ui/gdaui-rt-editor.c`) reads and writes a subset of txt2tags.
  The text buffer is a sequence of items - characters, bullets, pictures - each with a set of tags.
  The tokenizer looks at the innermost open markup, at the line and at what precedes it on the line.
  The parser is a stack machine that edits the buffer as it goes and scans again after each match.
  The serializer keeps a stack of open tags and closes and opens them at run boundaries and newlines.
* **The server operation form** (`libgda-ui/gdaui-server-operation.c`) keeps a tree of widget
  descriptions and one grid for each sequence in step with the operation's sequences.
* **The data store** (`libgda-ui/gdaui-data-store.c`) turns row events of a proxy into row signals and
  hands out iterators with a stamp.
* **The cloud** (`libgda-ui/gdaui-cloud.c`) is a selection with four modes over tags whose size
  follows a weight.

Code that works step by step is modelled by classes and loops (`Editor`, `TextBuffers`,
`SerializeText`, `Base64`, `WidgetTree`, `SequenceGrids`, `ServerOperationForms`, `DataStores`,
`Clouds`, `CloudRuns`), each proved against a functional specification (`Tokens`, `Parser`, `Serializer`,
`Streams`, ...). The properties are lemmas about the specifications.

## Files

| file | contents |
|---|---|
| `RichText.dfy` | items, tags, line structure |
| `Tokens.dfy`, `Parser.dfy`, `ParserRuns.dfy` | tokens; the parser as a state machine; its moves |
| `TokenRules.dfy`, `LineStarts.dfy` | the tokens said on the characters of the text; what is read at the start of a line |
| `TextBuffer.dfy`, `Editor.dfy` | the mutable buffer with marks; the editor's callbacks and contents |
| `Accounting.dfy`, `TagAccount.dfy` | what a parse removes, adds and keeps, and the tags it leaves |
| `Nesting.dfy`, `Crossing.dfy`, `CrossingList.dfy` | when the pairs of one parse nest, and texts where they cross |
| `Base64.dfy` | wrapping of picture data |
| `Streams.dfy`, `Serializer.dfy`, `SerializeText.dfy` | marks and characters as a stream; what is written for a document; the serializer's loops |
| `SerializeLoops.dfy` | the same loops turn by turn, when they end, and what it is to come back |
| `WrittenItems.dfy` | which items are written |
| `BalancedLines.dfy` | when each line is balanced, and the tags open around each character |
| `Reading.dfy`, `Frames.dfy`, `ReadBack.dfy` | a one-pass reader of streams, and the simulation of the parser by it |
| `PortableDocs.dfy`, `RoundTrip.dfy`, `Families.dfy` | the documents that survive being written and parsed |
| `TitleLines.dfy` | titles that cover their newline |
| `Leftovers.dfy`, `Barriers.dfy`, `Hyphens.dfy`, `Misreading.dfy` | why the others do not |
| `ExactRoundTrip.dfy`, `SeenItems.dfy` | the exact condition for styled text, on what is written and on the items |
| `Stability.dfy` | parsing a second time |
| `WidgetTree.dfy`, `WidgetPaths.dfy` | paths and lookup; what it answers for any path |
| `SequenceGrid.dfy`, `GridInsertion.dfy`, `ServerOperationForm.dfy` | the grid; an item that comes anywhere; the form |
| `DataStore.dfy` | the store |
| `Cloud.dfy`, `CloudRuns.dfy` | the cloud; what any run of actions does to it |

## What turned out

* The round trip of styled text is not unconditional. It fails exactly when an italic mark comes right
  after a colon (so that `http://` is not read as italic), when a strike mark comes first on a line
  (the list test eats its first hyphen), as it does wherever struck text runs over a newline, or when a
  carriage return or a paragraph separator is inside marks (GTK starts a new line there, but the
  serializer only closes tags at a newline). `ExactRoundTrip.RoundTripExactly` states this on what is
  written, `SeenItems.StyledRoundTrip` on the items of the document; `SeenItems.ColonLost`, `StruckLost`,
  `StruckLinesLost` and `TaggedBreakLost` give a family of texts for each case, and `ColonText`, `StruckText`,
  `StruckLinesText` and `BoldReturnText` one text of each.
* An item made of U+FFFC that stands for no image keeps the serializer going for ever: in its inner loop,
  or, where a tag starts or stops at that item, in its outer loop, which comes to the item again and again
  (`SerializeLoops.LoopsEndIff`). So such documents come back under no condition, and each equivalence about
  coming back says so.
* The pairs matched in one parse need not nest. After a match the scan goes back to the innermost pending
  markup, and may now see a token that the removed marks kept from view: in `= __ =__` the end of the title
  is not at the end of its line until the underline mark is gone (`Crossing.PairsCross`); a list mark comes
  to light in the same way (`CrossingList.ItemCrossesPair`). Where no rescan
  finds a token before the place of the match the pairs nest or are apart, as in every text the reader
  accepts (`Nesting.PairsNest`, `StreamPairsNest`, `PortablePairsNest`).
* A parse is not idempotent (`Stability.NotIdempotent`): removing a pair can bring two halves of a mark
  together where the scan has already been. A second parse changes nothing exactly when it matches no pair
  (`Stability.IdempotentExactly`), as after reading any stream the reader accepts
  (`Stability.ReadableIdempotent`).
* A line of the written text need not be balanced. A newline before an image of its run is written without
  closing the tags that are open, a picture with more than 100 characters of data breaks its line inside
  the marks around it, and nothing is closed at a carriage return or a paragraph separator.
  `BalancedLines.LinesBalancedExactly` says exactly when all lines are balanced, and `PictureDocument`,
  `NewlineDocument` and `ReturnDocument` give a document of each kind that has an unbalanced one.
* A title that covers the newline after it is written again on the next line, with nothing in it. That is
  read where that line is empty or holds the same title (such documents are portable), and it stays as text
  before a plain character (`TitleLines.CoveredLineLost`).
* A path segment that is a number of 4294967296 is taken for item 0, since the index is kept in 32 bits
  (`WidgetPaths.SmallNumber`), and an empty one is, too.
* The server operation form keeps the new row of a widget in 16 bits. With 65535 items and a row to add
  more, one more addition sends that row to the top of the grid
  (`SequenceGrids.AddRowWraps`, `AddedLaidOutExactly`, `ServerOperationForms.RunInStep`).
* `data_store_get_iter` and `data_store_iter_nth_child` accept negative numbers, and a reset from no
  rows to no rows does not change the stamp.
* In the cloud, row -1 stands for the tag of section titles, which can be selected like a row; after a
  reset that tag may stay highlighted, so the statement about highlights is about the tags of rows.
* The weight range of the cloud starts from the smallest positive double, so that the heaviest row
  reaches the greatest scale only if it weighs that much (`Clouds.HeaviestRow`).
* A comment in the cloud says that one element is always selected in browse mode. Clicks, and selections of
  rows that have a tag, see to it; changing to browse mode with none selected, unselecting the only selected
  row and a change of the model leave none (`CloudRuns.NoneSelected`). `CloudRuns.OneExactly` and
  `AlwaysOneExactly` say exactly which actions and runs keep it true.

## Assumptions

Image encoding and decoding are a parameter `Codec`; the round trip of a document with pictures assumes
that decoding undoes encoding for its pictures and that the encoded text holds no bracket and no newline.
Marks have left gravity, as all marks of the editor do. The operation adds items at the end of a
sequence, as the tree does. Each stamp of the data store is new. A cloud has one tag for each row and
moving its iterator to a row of the model succeeds. Weights and scales are real numbers.

## Model

| member | source | states |
|---|---|---|
| Editor.RtEditor.SpacesSinceStartOfLine | libgda-ui/gdaui-rt-editor.c:1241-1260 | The loop answers the number of spaces between the start of the line and the position, or -1 when anything else is there. |
| RichText.IndentMeaning | libgda-ui/gdaui-rt-editor.c:1233-1260 | A non-negative answer means that exactly that many items before the position are spaces and that a line starts before them. |
| TokenRules.IndentExactly | libgda-ui/gdaui-rt-editor.c:1241-1260 | And the other way round, with the white space characters written out, tabs and the wide spaces among them, and the three line delimiters: from the start of the line through white space the answer is the number of characters, and -1 if and only if anything else is there. |
| Editor.RtEditor.GetMarkupToken | libgda-ui/gdaui-rt-editor.c:1273-1468 | The chain of character tests, which moves its iterator as it goes, answers the same token and end as `TokenAt`, for every buffer, position and innermost open markup. |
| Editor.RtEditor.GetToken | libgda-ui/gdaui-rt-editor.c:1203-1230 | Answers the token at the position, or the longest stretch from it that holds no token. |
| Tokens.TokenBounds | libgda-ui/gdaui-rt-editor.c:1283-1289 | No token runs past the text; only the end of a list item and the end of the text are empty. |
| Tokens.OpeningShape | libgda-ui/gdaui-rt-editor.c:1350-1467 | A token that can open a markup starts with no space, stays on one line, and is a list mark only at the start of a line. |
| Tokens.EndsMatch | libgda-ui/gdaui-rt-editor.c:1343-1345 | A title end, picture end or list end is only ever seen when it closes the innermost markup: these tokens are never pushed. |
| TokenRules.LineMarksExactly | libgda-ui/gdaui-rt-editor.c:1350-1372 | Outside pictures and verbatim text a title or list mark is answered if and only if "= ", "== " or "- " stands with only white space before it on its line. |
| TokenRules.DelimitersExactly | libgda-ui/gdaui-rt-editor.c:1350-1467 | There each of the seven delimiters, by its characters, is answered if and only if it stands at the position, or, at the start of a line, after one or two equals signs or a hyphen, which then belong to the token; two slashes after a colon are none. |
| TokenRules.TitleEndsExactly | libgda-ui/gdaui-rt-editor.c:1431-1457 | A title ends if and only if " =" or " ==", as it began, stands at the end of the line on which it began. |
| TokenRules.BlocksExactly | libgda-ui/gdaui-rt-editor.c:1303-1341 | In a picture only "]]]" is seen, in a pending verbatim text only three quotes, and nothing where the verbatim tag is. |
| TokenRules.ItemEndsExactly | libgda-ui/gdaui-rt-editor.c:1343-1348 | An innermost list item ends if and only if its line does; otherwise the end of the text is answered there. |
| TokenRules.StretchExactly | libgda-ui/gdaui-rt-editor.c:1203-1230 | Where no token stands the answer is the whole stretch without tokens, up to the next one or the end of the text. |
| LineStarts.EqualsBeforeBold | libgda-ui/gdaui-rt-editor.c:1354-1380 | Parsing `=**x**` or `==**x**`, for any plain text x, leaves x in bold and no equals sign. |
| LineStarts.IndentedItemNests | libgda-ui/gdaui-rt-editor.c:1366-1372 | Whatever was read before, up to the start of a line: any white space on the line, a hyphen and a space make the plain text after them a list item of the second level. |
| Parser.StepKeepsInv | libgda-ui/gdaui-rt-editor.c:1121-1186 | On any buffer each turn of the parse loop keeps the pending markups disjoint, in order, left of the scan and spelled out in the buffer, although the buffer is edited and the scan goes back. |
| Parser.StepProgress | libgda-ui/gdaui-rt-editor.c:1121-1186 | Termination measure of the parse loop: a turn shortens the buffer, or leaves it alone and moves the scan on. |
| Editor.RtEditor.TextBufferChanged | libgda-ui/gdaui-rt-editor.c:1101-1201 | The loop over the mutable buffer, its marks and its queue of pending markups leaves exactly `Parsed` of the old buffer, leaves no mark behind, and does nothing while markup is shown. |
| Editor.RtEditor.ApplyMarkup | libgda-ui/gdaui-rt-editor.c:961-1099 | Editing the buffer through marks gives the buffer in which the pair is closed; marks before it do not move and the end mark is where the scan has to go on. |
| Editor.RtEditor.ApplyStyle | libgda-ui/gdaui-rt-editor.c:973-1015 | A style or title tag covers what was between the two tokens, and the tokens are gone. |
| Editor.RtEditor.ApplyList | libgda-ui/gdaui-rt-editor.c:1016-1062 | The indentation and the mark go, the bullet of the right level comes in, and it and the line break before it keep the list tag only. |
| Editor.RtEditor.ApplyPicture | libgda-ui/gdaui-rt-editor.c:1063-1085 | Data that decodes is replaced by the picture, put after the closing token; other data stays as text. |
| Editor.RtEditor.RemoveOtherTags | libgda-ui/gdaui-rt-editor.c:1049-1059 | The loop over the tag table leaves each item of the range with at most the one tag. |
| Editor.RtEditor.RemoveMarkupText | libgda-ui/gdaui-rt-editor.c:1090-1098 | Both tokens are deleted and every other mark moves with its text. |
| Accounting.ParsingAccountsForEverything | libgda-ui/gdaui-rt-editor.c:961-1099 | On any buffer: the parsed buffer together with the two marks of each matched pair, each spelled as its markup asks, the indentation of list items and the data of decoded pictures is the whole original, each position once; data goes only where it decodes to the picture that comes in, a bullet is of the second level exactly when spaces went; nothing is reordered and every character that stays is unchanged. |
| TagAccount.ParsingAccountsForTags | libgda-ui/gdaui-rt-editor.c:961-1099 | And its tags: on any buffer each item that stays has the tags it had, with those of the matched styles and titles it was between, in the order they were matched, but where a list item follows it, of which it keeps the list tag only; a decoded picture is put in with the tags that the end of its mark and the item after it share. |
| Accounting.PendingBefore | libgda-ui/gdaui-rt-editor.c:1133-1173 | At the moment a pair is matched all other pending markups lie before it, one after the other; unless it is a picture or a verbatim text no line starts between its marks. |
| Nesting.PairsNest | libgda-ui/gdaui-rt-editor.c:1121-1186 | In a parse in which no rescan finds a token before the place of the match that set it off, any two matched pairs nest or are apart in the original text: the later one follows the earlier one or lies around it. |
| Nesting.StreamPairsNest | libgda-ui/gdaui-rt-editor.c:1121-1186 | So do the pairs matched in the text of any stream of marks, characters and pictures that the one-pass reader accepts. |
| Nesting.PortablePairsNest | libgda-ui/gdaui-rt-editor.c:1121-1186 | And those matched in what is written for a portable document. |
| Crossing.PairsCross | libgda-ui/gdaui-rt-editor.c:1146-1173 | Without that condition they need not: in `= __ =__` one parse matches the underlined pair and then, once it is gone, a title that starts before it and ends inside it. |
| CrossingList.ItemCrossesPair | libgda-ui/gdaui-rt-editor.c:1146-1173 | Nor where a list mark comes to light: in a pending `**`, and `__- __` on the next line, the underlined pair is matched and then the list item, whose mark was inside it and which runs to the end of the line. |
| Accounting.UnmatchedMarksStay | libgda-ui/gdaui-rt-editor.c:1188-1194 | Pending markups that never found a partner are still spelled out in the final text, disjoint and in order. |
| Stability.InertStays | libgda-ui/gdaui-rt-editor.c:1101-1201 | Text whose marks are all inside verbatim stretches is left alone by a parse. |
| Stability.PortableStays | libgda-ui/gdaui-rt-editor.c:1101-1201 | A document that was read back is a fixed point of the parse, so the parses set off by later signals do not change it. |
| Stability.StaysExactly | libgda-ui/gdaui-rt-editor.c:1121-1186 | A buffer is a fixed point of the parse if and only if the parse matches no pair in it. |
| Stability.IdempotentExactly | libgda-ui/gdaui-rt-editor.c:1121-1186 | A second parse changes nothing if and only if it matches no pair in what the first one left. |
| Stability.ReadableIdempotent | libgda-ui/gdaui-rt-editor.c:1101-1201 | A condition on the first text: what is read from the text of a stream the reader accepts is not changed by a second parse. |
| Stability.NotIdempotent | libgda-ui/gdaui-rt-editor.c:1146-1173 | In general a second parse does change the result: a concrete text in which removing a pair brings the halves of a bold mark together. |
| Base64.AddNewlines | libgda-ui/gdaui-rt-editor.c:1650-1667 | The loop computes `Wrapped`. |
| Base64.RemoveNewlines | libgda-ui/gdaui-rt-editor.c:1669-1684 | The loop computes `Unwrapped`. |
| Base64.WrappedLines | libgda-ui/gdaui-rt-editor.c:1660-1664 | Every line but the last has exactly 100 characters and the last one at most 100, and it is empty only for the empty text. |
| Base64.UnwrapWrapped | libgda-ui/gdaui-rt-editor.c:1653-1684 | Removing the newlines of a wrapped text without newlines gives it back. |
| SerializeText.Serialize | libgda-ui/gdaui-rt-editor.c:1686-1856 | The run-by-run loop with its stack of open tags writes the same text as the item-by-item specification `Serialized`, for every document without a bare U+FFFC character. |
| SerializeLoops.LoopsEndIff | libgda-ui/gdaui-rt-editor.c:1696-1856 | The outer and the inner loop, turn by turn with position, start of the slice, open tags and output: some number of turns ends them if and only if no item is a U+FFFC character that stands for no image, and then the whole document is written; otherwise no number of turns gets past such an item. |
| SerializeLoops.ComesBackExactly | libgda-ui/gdaui-rt-editor.c:1686-1856 | A document comes back - the loops end, and parsing the text they wrote gives it again - if and only if it holds no such item and parsing its specified text gives it again. |
| SerializeText.CloseTags | libgda-ui/gdaui-rt-editor.c:1702-1724 | Closes the open tags down to the outermost one that is no longer wanted, innermost first. |
| SerializeText.OpenTags | libgda-ui/gdaui-rt-editor.c:1793-1805 | Opens the missing tags in creation order and puts them on the stack. |
| SerializeText.WriteNewline | libgda-ui/gdaui-rt-editor.c:1810-1822 | A newline is written with every tag closed, and the tags are opened again in the order they were opened. |
| SerializeText.WriteRun | libgda-ui/gdaui-rt-editor.c:1696-1844 | One turn of the outer loop writes the marks, text and images of one run, as the specification does item by item. |
| Serializer.MarksNest | libgda-ui/gdaui-rt-editor.c:1702-1853 | For any document: each close mark answers the last open one, no tag is opened twice, everything is closed at the end, and erasing the marks leaves the characters and pictures in order, without bullets and text hidden by a list tag. |
| WrittenItems.WrittenExactly | libgda-ui/gdaui-rt-editor.c:1734-1826 | Of any document exactly the pictures and those characters are written, in order, that have no list tag or that an image follows with only items of the same tags up to it. |
| WrittenItems.ImageRunWritten | libgda-ui/gdaui-rt-editor.c:1726-1776 | Where all items have the same tags and the last one is an image, all of it is written without a mark, and then the tags are opened and closed. |
| WrittenItems.HiddenRunWritten | libgda-ui/gdaui-rt-editor.c:1779-1843 | Where all items are characters with the same tags, a list tag among them, only the marks of the tags are written, opened and closed. |
| BalancedLines.LinesBalancedExactly | libgda-ui/gdaui-rt-editor.c:1734-1853 | For any document and codec: the marks that are written nest and are all closed wherever a line ends in the written text - at a newline, a carriage return, a paragraph separator, or inside the data of a picture - if and only if no character or picture is written with such a break in its text while tags are open around it. |
| BalancedLines.PictureBreaks | libgda-ui/gdaui-rt-editor.c:1653-1667 | The text of a picture holds a line break if and only if its encoding is longer than 100 characters or holds one itself. |
| BalancedLines.LinesBalanced | libgda-ui/gdaui-rt-editor.c:1734-1853 | So every line is balanced where the only tagged items that break a line are newlines that no image follows in their run and hidden text. |
| BalancedLines.ImageFreeBalanced | libgda-ui/gdaui-rt-editor.c:1810-1822 | In a document without images every line is balanced if and only if no carriage return and no paragraph separator that is written carries a tag. |
| BalancedLines.LaidBalanced | libgda-ui/gdaui-rt-editor.c:1734-1853 | As it is in a document as the editor lays it out whose carriage returns and paragraph separators carry no tag, whatever its pictures. |
| BalancedLines.PictureUnbalanced | libgda-ui/gdaui-rt-editor.c:1734-1757 | Not so with a picture of long data after a tagged character, inside its tags. |
| BalancedLines.NewlineUnbalanced | libgda-ui/gdaui-rt-editor.c:1734-1757 | Nor with a newline after a tagged character, inside its tags, that an image follows in its run. |
| BalancedLines.ReturnUnbalanced | libgda-ui/gdaui-rt-editor.c:1810-1822 | Nor with a tagged carriage return or paragraph separator. |
| BalancedLines.PictureDocument | libgda-ui/gdaui-rt-editor.c:1734-1757 | A bold letter and a bold italic picture with more than 100 characters of data: the first line stays open. |
| BalancedLines.NewlineDocument | libgda-ui/gdaui-rt-editor.c:1734-1757 | A bold letter, and a bold italic newline and picture: the first line stays open. |
| BalancedLines.ReturnDocument | libgda-ui/gdaui-rt-editor.c:1810-1822 | A bold carriage return: the first line stays open. |
| BalancedLines.CharactersTagged | libgda-ui/gdaui-rt-editor.c:1783-1853 | If text before an image of its run carries no tag: around each written character exactly its own tags are open, none around a newline, and exactly the characters that no list tag hides are written. |
| BalancedLines.ImageFreeTame | libgda-ui/gdaui-rt-editor.c:1783-1853 | That holds of every document without images. |
| Serializer.WrittenMeansDocument | libgda-ui/gdaui-rt-editor.c:1783-1853 | For a document whose list tags are on its bullets alone, each bullet with just its own, none right after another, and whose pictures carry no tag: what is written stands for the document itself, a list mark for each bullet, and everything is closed at each newline character. |
| Serializer.AddedOk | libgda-ui/gdaui-rt-editor.c:1796-1803 | After the missing tags are opened the open tags are exactly those of the run. |
| Serializer.PoppedFacts | libgda-ui/gdaui-rt-editor.c:1705-1709 | What stays open is wanted, and the last tag that is closed is not. |
| PortableDocs.MissingFacts | libgda-ui/gdaui-rt-editor.c:345-389 | The tags opened together are the missing ones, by order of creation. |
| ReadBack.ParsedReadable | libgda-ui/gdaui-rt-editor.c:1101-1201 | Simulation of the parser on written text: whenever a one-pass reader accepts a stream of marks, characters and pictures, parsing its text gives the document it stands for. |
| ReadBack.ReadStream | libgda-ui/gdaui-rt-editor.c:1121-1186 | The same from the middle of any line, with marks pending. |
| RoundTrip.PortableReadable | libgda-ui/gdaui-rt-editor.c:1686-1856 | Everything written for a portable document is recognised: faces, strike, titles, list items, verbatim text and pictures together. |
| RoundTrip.RoundTrip | libgda-ui/gdaui-rt-editor.c:1101-1201 | Parsing what is written for a portable document gives back its characters, bullets and pictures with their tags, newlines untagged; so it comes back if and only if it holds no bare U+FFFC, on which the serializer does not end. |
| Editor.RtEditor.GetContents | libgda-ui/gdaui-rt-editor.c:1560-1580 | The marked-up text, or the shown text while markup is shown. |
| Editor.RtEditor.SetContents | libgda-ui/gdaui-rt-editor.c:1905-1913 | The buffer holds the parsed text, or the text itself while markup is shown. |
| Editor.RtEditor.SetShowMarkup | libgda-ui/gdaui-rt-editor.c:1943-1964 | Switching to markup shows the written text; switching back parses what is shown; no change when there is nothing to switch. |
| Editor.RtEditor.ShowThenHide | libgda-ui/gdaui-rt-editor.c:1943-1964 | Showing the markup of a portable document and hiding it again restores the document. |
| TitleLines.CoveredLineLost | libgda-ui/gdaui-rt-editor.c:1810-1822 | A character of a title, a newline that the title covers and a plain character do not come back, whatever the two characters: the empty title written before the second one stays as text. |
| Families.FacesRoundTrip | libgda-ui/gdaui-rt-editor.c:1686-1856 | Text without delimiters and colons, each character with any subset of italic, bold, monospace and underline, comes back if and only if no carriage return or paragraph separator carries a tag and no bare U+FFFC stands in it. |
| Families.LinesRoundTrip | libgda-ui/gdaui-rt-editor.c:1016-1062 | Documents with untagged newlines and lines of faced text, bullets of either level or whole-line titles come back, tags of newlines included, if and only if they hold no bare U+FFFC. |
| Families.VerbatimRoundTrip | libgda-ui/gdaui-rt-editor.c:1320-1341 | Verbatim text is inert: whatever characters but quotes it holds, line breaks included, it comes back with every tag outside newlines, if and only if it holds no bare U+FFFC. |
| ExactRoundTrip.RoundTripExactly | libgda-ui/gdaui-rt-editor.c:1368-1409 | Any text in italic, bold, monospace, underline and strike, colons and styled newlines included: parsing what is written gives it back if and only if no italic mark is written right after a colon, no strike mark first on a line outside other marks, and no line break but newlines inside marks; it comes back if moreover it holds no bare U+FFFC. |
| SeenItems.SeenOnItems | libgda-ui/gdaui-rt-editor.c:1705-1709 | The condition on what is written is equivalent to one on the items of the document, by the order in which their styles were opened. |
| SeenItems.StyledRoundTrip | libgda-ui/gdaui-rt-editor.c:1368-1409 | The exact condition on the items: after a colon no italic starts, stops or is interrupted; no strike is alone on a character of a blank line nor outermost at a newline; no other line break is tagged. |
| SeenItems.ColonLost | libgda-ui/gdaui-rt-editor.c:1387-1391 | No styled text comes back in which italic starts right after a colon. |
| SeenItems.StruckLost | libgda-ui/gdaui-rt-editor.c:1368-1374 | Nor one in which a line starts with text that is only struck. |
| SeenItems.StruckLinesLost | libgda-ui/gdaui-rt-editor.c:1810-1822 | Nor one in which struck text runs over a newline. |
| SeenItems.TaggedBreakLost | libgda-ui/gdaui-rt-editor.c:1810-1822 | Nor one in which a carriage return or a paragraph separator carries a tag. |
| SeenItems.ColonText | libgda-ui/gdaui-rt-editor.c:1387-1391 | So a colon and an italic letter do not come back. |
| SeenItems.StruckText | libgda-ui/gdaui-rt-editor.c:1368-1374 | So a struck letter does not come back. |
| SeenItems.StruckLinesText | libgda-ui/gdaui-rt-editor.c:1810-1822 | So a letter and struck letters on two lines do not come back. |
| SeenItems.BoldReturnText | libgda-ui/gdaui-rt-editor.c:1810-1822 | So a bold carriage return does not come back. |
| ExactRoundTrip.ReadableExactly | libgda-ui/gdaui-rt-editor.c:1384-1411 | The one-pass reader accepts the stream exactly when it holds none of these. |
| Misreading.MisreadLeavesMark | libgda-ui/gdaui-rt-editor.c:1384-1411 | When the reader refuses the stream a mark character is left in the parsed text for good. |
| Leftovers.StuckStays | libgda-ui/gdaui-rt-editor.c:1387-1391 | A slash right after a colon is never taken for an italic mark, whatever is removed around it. |
| Leftovers.PassedStays | libgda-ui/gdaui-rt-editor.c:1121-1186 | A character that the scan has passed with nothing pending before it is never removed. |
| Misreading.HyphenTaken | libgda-ui/gdaui-rt-editor.c:1368-1374 | At the start of a line the list test eats the first hyphen of a strike mark. |
| Hyphens.HyphenStays | libgda-ui/gdaui-rt-editor.c:1368-1409 | Of the four hyphens of a strike that is reopened and closed at once at the start of a line the parser takes three for a mark; the fourth one stays, whether or not that mark is matched later. |
| Barriers.BarredStays | libgda-ui/gdaui-rt-editor.c:1495-1530 | A style mark that is followed by a line break while pending stays pending to the end of the parse. |
| WidgetTree.WidgetDataFind | libgda-ui/gdaui-server-operation.c:96-147 | The lookup, with its loops over siblings and path segments, finds the node `Find` finds. |
| WidgetTree.IndexRoundTrip | libgda-ui/gdaui-server-operation.c:127-129 | Reading an index with strtol undoes writing it with printf, up to the greatest int. |
| WidgetTree.SplitJoin | libgda-ui/gdaui-server-operation.c:107-111 | Splitting a path at its slashes gives back the segments it was built from. |
| WidgetTree.FindExactly | libgda-ui/gdaui-server-operation.c:96-147 | The lookup of a node by its path finds that node if and only if its root is the first of its name and each node on the way is told from its siblings by name or index. |
| WidgetPaths.FindMeans | libgda-ui/gdaui-server-operation.c:96-147 | For any path and address: the lookup answers that address if and only if there is one place for each segment after the first slash, the first one is the first node of that name, and at each further level the segment stands for the child: by its place where the first child has no name and the segment is a number, otherwise by being the first of its name. So it answers nothing if and only if there is no such address. |
| WidgetPaths.FindSound | libgda-ui/gdaui-server-operation.c:96-147 | An address that is answered is valid, has a place for each segment, and each segment is the name of its node or its place. |
| WidgetPaths.NoSuchItem | libgda-ui/gdaui-server-operation.c:138-139 | The path of an item behind the last one of its sequence is answered by nothing. |
| WidgetPaths.NoSuchName | libgda-ui/gdaui-server-operation.c:113-119 | So is a path whose first segment is the name of no node at the top. |
| WidgetPaths.NoSuchChild | libgda-ui/gdaui-server-operation.c:140-147 | And one whose second segment is the name of no child, and no number where the first child has no name. |
| WidgetPaths.NumberRead | libgda-ui/gdaui-server-operation.c:130-132 | A segment of white space, a sign and digits is read as the number it spells, clamped to 64 bits and truncated to 32. |
| WidgetPaths.NoNumber | libgda-ui/gdaui-server-operation.c:130-132 | Any other segment but the empty one is no number. |
| WidgetPaths.SmallNumber | libgda-ui/gdaui-server-operation.c:130-132 | Numbers up to 2147483647 are read as they are; 4294967296 is read as 0. |
| WidgetPaths.DecimalExactly | libgda-ui/gdaui-server-operation.c:986-988 | An index is written in decimal digits that spell it, without zeros in front. |
| WidgetTree.FindItem | libgda-ui/gdaui-server-operation.c:983-991 | In a tree of sequences the path of a sequence leads to it and the path of item j to its j-th child. |
| WidgetTree.FindAfterRemoval | libgda-ui/gdaui-server-operation.c:983-991 | Once item k is gone, the path of item j leads to the old item j for j < k and to the old item j+1 otherwise. |
| SequenceGrids.Grid.Attach | libgda-ui/gdaui-server-operation.c:369-394 | A row gets the widget and a remove button with the index of the row plus one, insensitive at the minimum size. |
| SequenceGrids.Grid.MoveDown | libgda-ui/gdaui-server-operation.c:905-952 | The two loops set the sensitivities and move everything from the row on down by one, indexes included; the new row is kept in 16 bits. |
| SequenceGrids.Grid.MoveUp | libgda-ui/gdaui-server-operation.c:1014-1058 | The two loops set the sensitivities and move everything after the row up by one, indexes included; the new row is kept in 16 bits. |
| SequenceGrids.Grid.DestroyRow | libgda-ui/gdaui-server-operation.c:993-1012 | The loop that starts over after each destroyed widget leaves exactly the widgets of the other rows. |
| SequenceGrids.AddedLaidOut | libgda-ui/gdaui-server-operation.c:888-960 | Adding an item at the end keeps the grid laid out, if the row to add items still fits 16 bits: rows, buttons, indexes, that row, and every sensitivity for the new size. |
| SequenceGrids.AddedLaidOutExactly | libgda-ui/gdaui-server-operation.c:882-885 | It does so if and only if there is no row to add items or its new row is below 65536. |
| SequenceGrids.AddRowWraps | libgda-ui/gdaui-server-operation.c:882-885 | With 65535 items and a row to add more, one addition sends that row to row 0, where the first item is. |
| SequenceGrids.RemovedLaidOut | libgda-ui/gdaui-server-operation.c:966-1059 | Removing any item keeps the grid laid out, if the rows that move fit 16 bits, with every sensitivity for the new size, although the handler still sees the old one. |
| SequenceGrids.RemovedLaidOutExactly | libgda-ui/gdaui-server-operation.c:882-885 | It does so if and only if no row moves or the last one ends up below 65536. |
| GridInsertions.InsertedLaidOut | libgda-ui/gdaui-server-operation.c:888-960 | Wherever an item comes, the handler leaves the grid laid out for the widgets with the new one in its place: the rows after it, the numbers in their buttons and the row to add items go down by one, and every sensitivity is that of the new size, while rows fit 16 bits. |
| SequenceGrids.InStepOnlyAtEnd | libgda-ui/gdaui-server-operation.c:72-73 | Had an item been added anywhere but at the end, grid and tree would be out of step, since the tree appends. |
| SequenceGrids.ButtonsNameItems | libgda-ui/gdaui-server-operation.c:866-877 | In a laid out grid the button on row k names item k and can be pressed when there are more items than the minimum; the row to add items is the last one. |
| SequenceGrids.PlacesFilledOnce | libgda-ui/gdaui-server-operation.c:369-394 | In a laid out grid both places of every item row, and of the row to add items, are filled exactly once, and no other place is. |
| ServerOperationForms.ServerOperationForm.FillSequence | libgda-ui/gdaui-server-operation.c:533-615 | Filling in a sequence lays out its rows, with a row to add items exactly when there is room. |
| ServerOperationForms.ServerOperationForm.SequenceItemAdded | libgda-ui/gdaui-server-operation.c:888-960 | The handler appends a node for the new item and updates the grid of its sequence only. |
| ServerOperationForms.ServerOperationForm.SequenceItemRemove | libgda-ui/gdaui-server-operation.c:966-1059 | The handler drops the node and the row of the item and updates the grid of its sequence only. |
| ServerOperationForms.ServerOperationForm.AddItem | libgda-ui/gdaui-server-operation.c:850-857 | After an item is added operation, tree and grid of every sequence are in step if and only if the row to add items fits 16 bits. |
| ServerOperationForms.ServerOperationForm.DelItem | libgda-ui/gdaui-server-operation.c:862-877 | After an item is removed operation, tree and grid of every sequence are in step if and only if the rows that move fit 16 bits. |
| ServerOperationForms.ServerOperationForm.SeqDelItem | libgda-ui/gdaui-server-operation.c:862-877 | Pressing the button on row k removes item k of that sequence, and nothing else. |
| ServerOperationForms.RunInStep | libgda-ui/gdaui-server-operation.c:888-1059 | Over every run of additions at the end and removals anywhere, in several sequences: operation, tree and grid are in step all along if and only if the rows that move fit 16 bits all along. |
| ServerOperationForms.RunAccurate | libgda-ui/gdaui-server-operation.c:905-1028 | While no sequence is over its maximum each add button is sensitive exactly when there is room, over every run. |
| ServerOperationForms.SmallFits | libgda-ui/gdaui-server-operation.c:882-885 | In a sequence of fewer than 65535 items every change fits. |
| ServerOperationForms.RemovalAccurate | libgda-ui/gdaui-server-operation.c:1022-1028 | A removal keeps the add button accurate if and only if there is none or the sequence was not over its maximum. |
| DataStores.DataStore.RowInsertedCb | libgda-ui/gdaui-data-store.c:160-173 | Counts the row, takes a new stamp and emits the row. |
| DataStores.DataStore.RowRemovedCb | libgda-ui/gdaui-data-store.c:190-201 | Counts the row out, takes a new stamp and emits the deletion. |
| DataStores.DataStore.RowUpdatedCb | libgda-ui/gdaui-data-store.c:175-188 | Takes a new stamp and emits the change. |
| DataStores.DataStore.ProxyResetCb | libgda-ui/gdaui-data-store.c:203-219 | The two loops emit a deletion for each old row, last first, and an insertion for each new one; the stamp changes exactly when there was or is a row. |
| DataStores.ResetSignals | libgda-ui/gdaui-data-store.c:203-219 | The signals of a reset are a deletion for each old row, of row n-1-k as the k-th one, and then an insertion for each new row, of row k as the k-th one. |
| DataStores.EventMirrored | libgda-ui/gdaui-data-store.c:160-219 | A view that held the rows before an event and replays the signals emitted for it holds the rows after it. |
| DataStores.TraceMirrored | libgda-ui/gdaui-data-store.c:160-219 | The same for every trace of inserts, updates, removals and resets; and the rows counted are those of the proxy. |
| DataStores.DataStore.HappenAll | libgda-ui/gdaui-data-store.c:160-219 | After any trace the store counts the rows of the proxy, the signals it emitted rebuild them, and an iterator from before a row event is stale. |
| DataStores.DataStore.GetIter | libgda-ui/gdaui-data-store.c:688-712 | Succeeds exactly for indexes below the row count; a negative index is not refused. |
| DataStores.DataStore.GetPath | libgda-ui/gdaui-data-store.c:714-731 | Undoes `GetIter`; refuses an iterator of another stamp, so any stale one. |
| DataStores.DataStore.IterNext | libgda-ui/gdaui-data-store.c:818-838 | Moves to the next row if there is one; refuses an iterator of another stamp and leaves it alone. |
| DataStores.DataStore.IterChildren | libgda-ui/gdaui-data-store.c:840-859 | Goes to row 0 of a store that has rows; rows have no children. |
| DataStores.DataStore.IterNthChild | libgda-ui/gdaui-data-store.c:883-901 | Succeeds exactly at the top level for numbers below the row count. |
| DataStores.DataStore.Append | libgda-ui/gdaui-data-store.c:492-528 | Refused while resetting, the iterator left alone; otherwise the new row is the last one, was signalled, and the iterator is on it with the stamp of after the signal. |
| DataStores.DataStore.Walk | libgda-ui/gdaui-data-store.c:818-859 | From the first row on, iterating visits each row once, in order, and stops. |
| Clouds.Cloud.SyncIterWithSelection | libgda-ui/gdaui-cloud.c:191-218 | The loop puts the iterator on the one selected row, or on -1. |
| Clouds.UniqueRowExactly | libgda-ui/gdaui-cloud.c:200-211 | The iterator is on the row of a selected tag if and only if no other selected tag has a row. |
| Clouds.NoUniqueRow | libgda-ui/gdaui-cloud.c:200-218 | It is on -1 when no selected tag has a row and when several have. |
| Clouds.Cloud.RowClicked | libgda-ui/gdaui-cloud.c:606-674 | Keeps the selection, the highlights and the iterator consistent, and changes the selection as `Clicked` says; with no selection allowed it only activates the row. |
| Clouds.ClickedMeaning | libgda-ui/gdaui-cloud.c:616-669 | A click toggles its tag among the others in multiple mode, leaves it alone selected in browse mode, and selects or gives it up in single mode; never two tags outside multiple mode, never one twice. |
| Clouds.Cloud.SetSelectionMode | libgda-ui/gdaui-cloud.c:552-604 | Clears the selection, or cuts it down to the tag selected last, as the new mode asks, and tells so exactly when something changed. |
| CloudRuns.NewestOfAllKept | libgda-ui/gdaui-cloud.c:580-592 | After any run of clicks, selections and unselections where several rows may be selected, choosing single or browse mode leaves exactly the row that, of those still selected, came into the selection last; and there is one if any is selected. |
| CloudRuns.NewestKept | libgda-ui/gdaui-cloud.c:580-592 | So a row that is clicked or selected and then a mode for one row is chosen is the one that stays. |
| CloudRuns.ModeKeeps | libgda-ui/gdaui-cloud.c:552-604 | Choosing multiple mode leaves the selection as it was, as does a mode for one row while at most one is selected; choosing no selection empties it. |
| Clouds.Cloud.SelectRow | libgda-ui/gdaui-cloud.c:1173-1210 | Succeeds if and only if selecting is allowed and there is a tag for the row, and then the row is selected; otherwise nothing changes. |
| Clouds.Cloud.UnselectRow | libgda-ui/gdaui-cloud.c:1212-1239 | The row is the only one that is no longer selected; the others keep their order. |
| CloudRuns.PerformAll | libgda-ui/gdaui-cloud.c:552-674 | Over every run of clicks, selections, changes of mode and changes of the model the selected rows are those that `ActedAll` says, and selection, highlights and iterator stay consistent. |
| CloudRuns.RunProper | libgda-ui/gdaui-cloud.c:616-669 | After every run no row is selected twice, only rows of the table are, and no more than the mode of the moment allows. |
| CloudRuns.ClicksToggle | libgda-ui/gdaui-cloud.c:616-640 | In multiple mode, after any run of clicks, a row has changed sides if and only if it was clicked an odd number of times. |
| CloudRuns.OneExactly | libgda-ui/gdaui-cloud.c:660-671 | After an action one row is selected if the mode is browse - if and only if the action is no click or selection of a row without a tag with none selected, takes no selected row away, does not choose browse mode with none selected, and is no change of the model in browse mode. |
| CloudRuns.OneLeftExactly | libgda-ui/gdaui-cloud.c:660-671 | From browse mode one row is selected after the action, whatever the mode is then, if and only if moreover it does not turn the selection off. |
| CloudRuns.AlwaysOneExactly | libgda-ui/gdaui-cloud.c:660-671 | Over every run one element is always selected in browse mode, as the comment in the code says, if and only if it is so at the start and each action satisfies that condition when it comes. |
| CloudRuns.NoneSelected | libgda-ui/gdaui-cloud.c:552-604 | Inputs for which it is not: choosing browse mode in a cloud with none selected; unselecting the only selected row; a change of the model. |
| CloudRuns.BrowseKeepsOne | libgda-ui/gdaui-cloud.c:641-669 | In browse mode one row stays selected over every run of clicks and selections. |
| Clouds.Cloud.UpdateDisplay | libgda-ui/gdaui-cloud.c:220-323 | The selection is empty, the change signalled if there was one, and there is one unhighlighted tag for each row with a text: drawn at scale 1 without a weight, and otherwise as far between the two scales as its weight is between the least and the greatest one, or at the lesser scale when these do not differ; the tag of section titles is as highlighted as it was. |
| Clouds.Cloud.WeightRange | libgda-ui/gdaui-cloud.c:255-277 | The loop finds the least and the greatest weight, from the values it starts with. |
| Clouds.LimitsExactly | libgda-ui/gdaui-cloud.c:255-277 | These are the bounds of the weights that are attained, the greatest double and the least positive one taken along. |
| Clouds.RowDrawn | libgda-ui/gdaui-cloud.c:279-322 | The scale of a row: 1 without a weight, and otherwise `(scale - min) * (hi - lo) == (max - min) * (weight - lo)`, or the lesser scale when `hi <= lo`. |
| Clouds.WeightedRows | libgda-ui/gdaui-cloud.c:279-322 | With min_scale <= max_scale every weighted row is drawn within that range, and one row is drawn larger than another if and only if it weighs more and the two limits differ. |
| Clouds.DoubleLimits | libgda-ui/gdaui-cloud.c:256 | The two values the search for the weights starts from are the least positive normal double, 1 when doubled 1022 times, and the greatest double, 2 to the 1024th less 2 to the 971st. |
| Clouds.HeaviestRow | libgda-ui/gdaui-cloud.c:256-282 | A heaviest row is drawn at max_scale if and only if it weighs at least the smallest positive double, from which the search starts, and some row weighs less. |

## Left out

- GTK, GObject and GLib plumbing: type registration, properties, menus, dialogs, style sheets, focus, tooltips, clipboard and file choosers; signals are kept only where a view or a handler acts on them.
- The editor's toolbar actions, insert-text handlers, help mode and zoom, which are user-interaction glue.
- Image encoding and decoding (gdk-pixbuf, base64 proper); only the wrapping of the encoded text is modelled.
- Characters of code 0 in a text buffer, which GTK does not allow.
- The library libgda itself (`GdaServerOperation`, `GdaDataProxy`, `GdaDataModelIter`, `GdaSet`) is not part of this model; sequences, rows and events stand for it.
- Nested sequences in the server operation form: their grid is registered before the item that holds them, at the top level of the tree.
- Fields of a server operation that are not sequences: their widgets are made by other components.
- Listeners that call back into the data store while it emits a signal, and equal random stamps.
- Stale tags that the cloud leaves in its tag table after a model reset, keyboard navigation, and floating-point rounding.
- RoundTrip.RoundTrip: the condition on documents with titles, list items, pictures and verbatim text under other tags is sufficient; it is exact for styled text (ExactRoundTrip.RoundTripExactly, SeenItems.StyledRoundTrip) and for faced text (Families.FacesRoundTrip).
- Nesting.PairsNest: the condition, that no rescan finds a token before the place of the match, is sufficient; the reader's acceptance of the stream (Nesting.StreamPairsNest) implies it.
- SerializeText.Serialize: takes the document as a value, since the serializer only reads the buffer; it asks for documents without a bare U+FFFC character, for which alone the loops end (SerializeLoops.LoopsEndIff).
- DataStores.DataStore.Walk: a client of the iterator interface, not a function of the source.
- The control center, the report library, login, form, grid and selector wrappers, plugin loading and generated files, which are user interface, process spawning or forwarding.
