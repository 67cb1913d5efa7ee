# Markdown transformer of shiva, modelled in Dafny

shiva converts documents between formats through one in-memory `Document`
made of `Element`s: headers, paragraphs, text runs, lists of items, links,
images and tables. This project models the Markdown side of it
(`lib/src/markdown.rs`), which has two halves.

- **Parsing** (`parse_with_loader`) reads the flat stream of events a
  Markdown tokenizer produces and assembles `Element`s from it. Its state is
  the sealed top-level elements, one open top-level scope, a list-depth
  counter and a separate table slot. Each new element is inserted by
  `process_element_creation`. With nothing open it becomes the open scope.
  With a list open, the builder walks `list_depth - 1` levels down through
  the last item of each level and pushes the element there as a new item.
  A link or header first replaces a `Text` placeholder item left by an item
  start. Any other open scope ignores the new element. Text is routed into
  the open scope by its kind. Independently, text goes into the table slot,
  where a body row is complete once it has as many cells as there are
  headers. Images are resolved through an image loader.
- **Generation** (`generate_with_saver` with `element_to_ast_node`) lowers
  page header, body and page footer, in order, into an output syntax tree.
  One image counter is threaded through the whole pass. Every image is
  handed to an image saver under the name `image{k}{extension}`, and a
  saver failure aborts.

Modules and files:

- `elements.dfy`: the document model.
- `events.dfy`: the tokenizer's events.
- `output_ast.dfy`: the output tree.
- `list_descent.dfy`: the walk down nested lists. It is specified by
  `Descend` (which level is reached) and `SameOffPath` (nothing else
  changes).
- `tree_builder.dfy`: the builder. `Step`, `RunFrom` and `Parse` are the
  specification. The method `Build` is the event loop, updating its four
  state variables in place, and is proved to compute `Parse`.
- `builder_properties.dfy` and `builder_examples.dfy`: what the builder
  promises, and the repository's parsing tests as lemmas.
- `tree_lowering.dfy`: the lowering as structural recursion. The method
  `GenerateWithSaver` is the loop over page header, body and footer, proved
  to compute `Generate`.
- `lowering_images.dfy`: image counter, names and save failures.
- `lowering_shapes.dfy`: order, and the shape of tables and lists.
- `lowering_texts.dfy`: no text is lost or reordered.

Behaviours of the code a reader may not expect:

- A list end without a matching list start is not reported as an error.
  The depth counter just goes negative (`UnbalancedListEnd`).
- A scope or table still open when the stream ends is dropped from the
  document.
- A sub-list of an item that has its own text becomes a separate sibling
  item after that text item. It is not the element of that item
  (`ParseNestedList`).
- A link or header pushed into a list level replaces a trailing `Text`
  item, even when that item already holds text. That text is lost
  (`LinkReplacesFilledTextItem`).
- Text that reaches a list item whose element is a link replaces the
  link's title, so later text in the item overwrites it
  (`ItemTextOverwritesLinkTitle`).
- A link inside a top-level paragraph is not an element of its own. Its
  text joins the paragraph, and its end seals the paragraph. Text after the
  link then reaches no element and is lost (`ParseLinkInParagraph`).
- Table body rows are cut by counting texts, not by the rows of the
  Markdown table. A row is complete once it holds as many cells as there are
  headers. The last row is therefore short whenever the number of body
  texts is not a multiple of the number of headers (`RowCountOfTexts`).
- An empty body cell sends no text, so the cells after it shift left into
  its place. Under two headers, a row `x | (empty)` followed by a row
  `y | z` gives the rows `x | y` and `z` (`SkippedCellShiftsLeft`).

Text arriving while a top-level link is the open scope is dropped: line 244
assigns the link's alternative text to itself (`TextOutsideList`).

The Rust panics are modelled as the error `StructuralInvariantViolation`:

- walking down an empty level;
- walking through a last item that is not a list;
- routing text into an empty level.

## Model

| member | source | states |
|---|---|---|
| ListDescent.LevelsCountsRange | lib/src/markdown.rs:38 | the descent takes one step per value the range `1..list_depth` yields, which are exactly the integers from 1 below `list_depth` (so none when the depth is 1 or less) |
| ListDescent.RangeValuesCount | lib/src/markdown.rs:38 | a range `lo..hi` yields `hi - lo` values when `lo < hi` and none otherwise, each integer from `lo` up to but excluding `hi` |
| ListDescent.ModifyLevel | lib/src/markdown.rs:35-49 | with no descent the rewrite applies to the open list itself; with a descent an empty level fails, and success keeps the number of items and every item but the last |
| ListDescent.ModifyLevelSpec | lib/src/markdown.rs:35-49 | rewriting the level reached by the descent succeeds exactly when the descent reaches a level and the rewrite accepts it; the reached level becomes the rewrite's result and every item off the path is unchanged |
| TreeBuilder.PushItem | lib/src/markdown.rs:51-64 | the new element ends up as the last item; only a `Text` placeholder, and only for a link or header, is removed; the length grows by one otherwise |
| TreeBuilder.Insert | lib/src/markdown.rs:28-72 | with no open scope the element becomes the open scope; a non-list open scope ignores it; the only failure is the structural violation |
| TreeBuilder.AppendToLastItem | lib/src/markdown.rs:218-235 | text for a list item fails exactly on an empty level; otherwise only the last item changes: a text run is extended, a link's title or a header's text is replaced, any other element is left as it is |
| TreeBuilder.StartTag | lib/src/markdown.rs:93-189 | a start tag never seals anything and only a list start raises the depth; an image start fails exactly when the loader fails on its reference, with that reference; any other failure is the structural violation and needs an open list |
| TreeBuilder.SealScope | lib/src/markdown.rs:301-311 | a non-list open scope is appended to the sealed elements and the scope closed; an open list or no scope leaves the state as it is; depth and table slot never change |
| TreeBuilder.EndTag | lib/src/markdown.rs:300-333 | an end tag seals at most one element, after the sealed ones; only a list end changes the depth, lowering it by one |
| TreeBuilder.TextEvent | lib/src/markdown.rs:190-298 | a text event keeps the sealed elements, the depth and whether a table is open; its only failure is the structural violation |
| TreeBuilder.Step | lib/src/markdown.rs:91-336 | one event seals at most one element, keeps the sealed ones as a prefix, seals nothing on a start tag, and fails only with a structural violation or a load error for a reference the loader rejects |
| TreeBuilder.RunFrom | lib/src/markdown.rs:91-337 | a run keeps the sealed elements as a prefix, seals at most one per event, and fails only with a structural violation or a load error for a reference the loader rejects |
| TreeBuilder.Parse | lib/src/markdown.rs:87-339 | a parsed document has no page header or footer, the default page geometry and at most one body element per event; the failures are those of `RunFrom` |
| TreeBuilder.Build | lib/src/markdown.rs:87-339 | the event loop, updating sealed elements, open scope, list depth and table slot in place, returns exactly the document `Parse` specifies, or the same error |
| BuilderProperties.InsertIntoOpenList | lib/src/markdown.rs:33-65 | with a list open, insertion succeeds exactly when the descent reaches a level; then the list keeps its `numbered` flag, the reached level gets exactly `PushItem` of it, and nothing off the path changes |
| BuilderProperties.InsertAtTopLevelOfList | lib/src/markdown.rs:38-64 | at depth 1 or less the item is pushed onto the open list itself |
| BuilderProperties.StartScopeOutsideList | lib/src/markdown.rs:95-183 | a paragraph, heading, item or link start with nothing open makes its empty placeholder the open scope; under a non-list open scope the state is unchanged |
| BuilderProperties.StartListRaisesDepth | lib/src/markdown.rs:120-130 | a list start inserts an empty list, ordered exactly when a start number is given, and raises the depth by one, leaving sealed elements and table alone |
| BuilderProperties.StartImage | lib/src/markdown.rs:152-168 | an image start fails with a load error when the loader fails; otherwise it discards the open scope and opens the image, with its title as title and alternative text and its reference as type |
| BuilderProperties.EndScope | lib/src/markdown.rs:301-311 | closing a paragraph, heading, link or image seals a non-list open scope into the body and leaves an open list (or nothing) alone |
| BuilderProperties.EndList | lib/src/markdown.rs:312-321 | a list end lowers the depth by one and seals the open scope exactly when the depth reaches zero with a scope open |
| BuilderProperties.UnbalancedListEnd | lib/src/markdown.rs:312-321 | a stray list end is accepted: the depth becomes -1 and the document is empty |
| BuilderProperties.TextOutsideList | lib/src/markdown.rs:190-248 | text extends an open header, adds exactly one text run to a paragraph, becomes an image's alternative text, and changes nothing else in the open scope; sealed elements and depth stay; the table slot gets the same text |
| BuilderProperties.RouteTextKeepsKind | lib/src/markdown.rs:190-248 | text never changes the kind of the open scope and fails only for a list whose descent fails; a paragraph gains exactly one text run at its end; a heading keeps its level and its text grows by exactly the new text; a list keeps its flag and its number of items; at depth 1 or less a list fails exactly when it has no items |
| BuilderProperties.TextInOpenList | lib/src/markdown.rs:202-236 | with a list open, text succeeds exactly when the descent reaches a non-empty level; that level becomes `AppendToLastItem` of it and nothing off the path changes |
| BuilderProperties.TableLifecycle | lib/src/markdown.rs:139-151 | a table start opens an empty body-mode table, replacing any open one; header start and end toggle header mode; the table end seals the table and empties the slot; nothing happens without an open table |
| BuilderProperties.TableTextInHeader | lib/src/markdown.rs:252-259 | in header mode each text adds exactly one header cell and leaves the rows alone |
| BuilderProperties.TableTextPlacesCell | lib/src/markdown.rs:249-298 | every text lands in the table: in header mode as one more header with the rows untouched; in body mode as the last cell of the last row, with headers and all earlier rows untouched and at most one new row |
| BuilderProperties.TableTextKeepsRowsShaped | lib/src/markdown.rs:260-294 | in body mode each text appends exactly one cell in reading order, headers stay fixed, every row has between one and header-count cells, and all rows but the last are complete |
| BuilderProperties.TableTextAddsCell | lib/src/markdown.rs:260-294 | in body mode a text becomes the next cell in reading order, whatever the shape of the rows |
| BuilderProperties.FeedTextsKeepsRowsShaped | lib/src/markdown.rs:260-294 | any number of body texts keep the headers fixed and the rows shaped: none too long, all but the last complete |
| BuilderProperties.FeedTextsAddsCells | lib/src/markdown.rs:260-294 | any number of body texts become the next cells in reading order: none is lost or reordered |
| BuilderProperties.ShapedCellCount | lib/src/markdown.rs:260-294 | shaped rows hold header-count cells per row but the last, plus the last row's cells |
| BuilderProperties.RowCountOfTexts | lib/src/markdown.rs:260-294 | k body texts under h headers make the fewest rows that hold them, `(rows - 1) * h < k <= rows * h`, the last row holding the remainder |
| BuilderProperties.SkippedCellShiftsLeft | lib/src/markdown.rs:260-294 | under two headers, the three texts of a row with an empty second cell and a full row come out as a full row of the first two and a short row of the third |
| BuilderProperties.RunFromAppend | lib/src/markdown.rs:91-337 | feeding two streams one after the other is feeding their concatenation, and an error stops the run |
| BuilderProperties.ImageLoadFailureAborts | lib/src/markdown.rs:156 | an image the loader cannot resolve makes the whole parse fail with that reference; no partial document is returned |
| BuilderProperties.RunTracksListDepth | lib/src/markdown.rs:120-321 | after a run the depth counter is the starting depth plus list starts minus list ends |
| BuilderExamples.ParseThreeHeaders | lib/src/markdown.rs:671-708 | three headings of levels 1, 2 and 3 parse to exactly those three headers, in order |
| BuilderExamples.ParseTwoByTwo | lib/src/markdown.rs:249-298 | a two-column table with a header row and two body rows parses to one table with two headers and two complete rows, the texts in reading order |
| BuilderExamples.ParseTwoByTwoTable | lib/src/markdown.rs:711-786 | the repository's table test document parses to the expected table |
| BuilderExamples.ParseNestedList | lib/src/markdown.rs:28-72 | the tokenizer's stream for an item with text `a` whose sub-list holds an item `b` (the item stays open while the sub-list runs) parses to the text item followed by the sub-list as a sibling item holding `b` |
| BuilderExamples.LinkReplacesFilledTextItem | lib/src/markdown.rs:51-64 | a link pushed into a level ending in a `Text` item replaces that item, whatever text it holds |
| BuilderExamples.ItemTextOverwritesLinkTitle | lib/src/markdown.rs:218-235 | text reaching a list item that is a link becomes the link's title, discarding the previous title; url, alt and size are kept |
| BuilderExamples.ParseLinkInParagraph | lib/src/markdown.rs:91-337 | paragraph text `x`, a link with text `y`, then text `z`: the document holds one paragraph of `x` and `y`; the link end sealed the paragraph and `z` is dropped |
| TreeLowering.NatToStringValue | lib/src/markdown.rs:490 | the counter is written as a non-empty string of decimal digits that denotes exactly the counter |
| TreeLowering.ImageFileNameParts | lib/src/markdown.rs:488-490 | a file name is `image`, then the digits of the counter, then the extension |
| TreeLowering.DigitSplitUnique | lib/src/markdown.rs:490 | a string splits in at most one way into a digit run and a suffix that does not start with a digit |
| TreeLowering.ImageFileNameInjective | lib/src/markdown.rs:488-490 | different counter values give different file names, and the extension is recovered, when no extension starts with a digit |
| TreeLowering.Lower | lib/src/markdown.rs:386-593 | lowering an element fails only with an image save failure and never moves the counter back |
| TreeLowering.WrapItemChild | lib/src/markdown.rs:463-479 | a lowered item child ends up a list or a paragraph; it is kept as it is exactly when it already is one, else wrapped in a paragraph |
| TreeLowering.LowerSeq | lib/src/markdown.rs:425-429 | one output node per element; failures are save failures only; the counter never moves back |
| TreeLowering.LowerItems | lib/src/markdown.rs:454-482 | one item node per list item, each with exactly one child; failures are save failures only; the counter never moves back |
| TreeLowering.LowerHeaders | lib/src/markdown.rs:551-560 | one cell node per header, each with exactly one child; failures are save failures only; the counter never moves back |
| TreeLowering.LowerRows | lib/src/markdown.rs:564-580 | one non-header row node per body row, with as many children as the row has cells; failures are save failures only; the counter never moves back |
| TreeLowering.LowerCells | lib/src/markdown.rs:569-578 | one cell node per cell, each with exactly one child; failures are save failures only; the counter never moves back |
| TreeLowering.Generate | lib/src/markdown.rs:357-373 | a generated tree is a document root with one child per page-header, body and page-footer element; the only failure is a save failure |
| TreeLowering.GenerateWithSaver | lib/src/markdown.rs:342-373 | the loop over page header, body and footer, sharing one counter, returns exactly `Generate` of the document, or its error |
| LoweringImages.LowerAgrees | lib/src/markdown.rs:487-509 | lowering an element fails exactly when saving one of its images fails, with the first such file name; otherwise the counter advances by its number of images and the output references them by their file names, in order |
| LoweringImages.LowerSeqAgrees | lib/src/markdown.rs:425-429 | the same for a paragraph's elements, in order, on one counter |
| LoweringImages.LowerItemsAgrees | lib/src/markdown.rs:454-482 | the same for list items; the item and paragraph wrappers add no image |
| LoweringImages.LowerTableAgrees | lib/src/markdown.rs:530-583 | the same for a table: header cells first, then the body rows |
| LoweringImages.LowerHeadersAgrees | lib/src/markdown.rs:551-560 | the same for header cells |
| LoweringImages.LowerRowsAgrees | lib/src/markdown.rs:564-580 | the same for body rows |
| LoweringImages.LowerCellsAgrees | lib/src/markdown.rs:569-578 | the same for the cells of one row |
| LoweringImages.ImageNamesAt | lib/src/markdown.rs:488-490 | the i-th image after n earlier ones is named `image{n+i+1}` with its type's extension |
| LoweringImages.ImageNamesDistinct | lib/src/markdown.rs:488-490 | the images of one pass get pairwise different file names when no extension starts with a digit |
| LoweringImages.GenerateDistinctNames | lib/src/markdown.rs:357-373 | a generated document never references two images by the same file name when no extension starts with a digit |
| LoweringImages.GenerateImages | lib/src/markdown.rs:357-373 | generating fails exactly when an image save fails, naming the first; otherwise the i-th image of page header, body and footer is referenced as `image{i+1}`, the counter restarting at every document |
| LoweringShapes.LowerSeqAppend | lib/src/markdown.rs:370-373 | lowering a concatenation lowers the first part, then the second from where the counter stopped, and concatenates the nodes |
| LoweringShapes.GenerateOrder | lib/src/markdown.rs:363-373 | the root's children are the lowered page header, then the body, then the page footer, on one counter starting at 0 |
| LoweringShapes.LowerSeqPointwise | lib/src/markdown.rs:425-429 | each child node is what its element lowers to |
| LoweringShapes.LowerItemsPointwise | lib/src/markdown.rs:454-482 | each item node holds its element's lowering, wrapped as `WrapItemChild` says |
| LoweringShapes.LowerHeadersPointwise | lib/src/markdown.rs:551-560 | each header cell holds its header's lowering |
| LoweringShapes.LowerCellsPointwise | lib/src/markdown.rs:569-578 | each cell holds its cell's lowering |
| LoweringShapes.LowerRowsPointwise | lib/src/markdown.rs:564-580 | each row node is a non-header row of its row's cells |
| LoweringShapes.LowerTableShape | lib/src/markdown.rs:530-583 | a table lowers to a table node with one `None` alignment per header, as many columns as headers, rows = body rows + 1 and no non-empty-cell count; the header row comes first with one cell per header, then each body row in order |
| LoweringShapes.LowerListShape | lib/src/markdown.rs:433-484 | a list lowers to a list node, ordered exactly when numbered and then starting at 1 (else 0), with one item per list item in order |
| LoweringShapes.LowerParagraphShape | lib/src/markdown.rs:420-431 | a paragraph lowers to a paragraph node of its elements' lowerings, in order |
| LoweringTexts.LowerKeepsTexts | lib/src/markdown.rs:395-583 | the text runs under a lowered element are exactly its texts, in order: text runs, header texts and link titles |
| LoweringTexts.LowerSeqKeepsTexts | lib/src/markdown.rs:425-429 | the same for a sequence of elements |
| LoweringTexts.LowerItemsKeepsTexts | lib/src/markdown.rs:454-482 | the same for list items |
| LoweringTexts.LowerTableKeepsTexts | lib/src/markdown.rs:530-583 | the same for a table: header texts, then the body rows' texts row by row |
| LoweringTexts.LowerHeadersKeepsTexts | lib/src/markdown.rs:551-560 | the same for header cells |
| LoweringTexts.LowerRowsKeepsTexts | lib/src/markdown.rs:564-580 | the same for body rows |
| LoweringTexts.LowerCellsKeepsTexts | lib/src/markdown.rs:569-578 | the same for the cells of one row |
| LoweringTexts.GenerateKeepsTexts | lib/src/markdown.rs:363-373 | a generated document's text runs are the texts of its page header, body and footer, in this order |

## Left out

- The tokenizer and its options (lines 77-85) are left out. The model starts
  from its event stream, reduced to the events and tags the builder reacts
  to. Every other event and tag is a single "other" case, which the builder
  ignores. Text merging by `TextMergeStream` is assumed done upstream.
- UTF-8 decoding of the input (line 74) is left out, and so is its error.
  The model starts from decoded events.
- Serialising the output tree to Markdown text with `format_commonmark`
  (lines 375-378) is left out. The model ends at the output tree.
- Node fields that never vary are left out: source positions, list
  delimiter, bullet character, tightness, padding and setext.
- The disk image loader and saver, `ImageData::new`, image dimensions and
  `ImageType::to_extension` are left out. `lib/src/core` is not part of
  this model. The loader is a function from a reference to optional bytes.
  The saver is a predicate on bytes and file name. The extension is a
  function of the image's type string.
- Table header widths are kept as the real number 30.0, not a float.
- The `i32` depth and image counter and the `u32` casts of table sizes are
  unbounded integers. None of them comes near its bound on realistic input.
- The lowering's fallback arm (lines 585-591) handles `Element` variants
  other than the seven the parser can produce. Those variants are not part
  of this model.
- Error messages are left out. Failures are the three cases of
  `ConversionError`.
- TreeBuilder.Build: a panic in the source is a returned structural error
  here. A caller observes an aborted parse in both cases.
