# notion-to-markdown, modelled in Dafny

This project models the renderer of `notion-to-markdown`. The renderer turns a sequence of Notion blocks into one Markdown document with embedded HTML.

- **Inline renderer** (`convert_rich_text`, module `Inline`). It wraps a text span's content in emphasis delimiters. The order is fixed: bold `**…**`, then italic `*…*`, then code `` `…` ``. Each wrap encloses the previous one. Spans that are not text render as nothing.
  - `Inline.Markdown` is the reference definition: the content placed between an opening run of delimiters and a closing run.
  - `Inline.ConvertRichText` is the step-by-step rewrite of a mutable string. It is proved equal to that definition.
- **Block renderer** (`convert_blocks`, module `Render`). It walks the blocks in order and maps each block to an optional fragment. It keeps the fragments that are present and joins them with a blank line (`"\n\n"`). A column list with children is handled differently:
  - it fetches its columns, then each column's children;
  - it renders each column's children recursively;
  - it wraps each column in a margin `<div>` and wraps the columns together in a flex `<div>`.

  The pure parts of each block's rendering are functions:
  - `Render.SpansText` is a block's text: its spans rendered and concatenated (the `map`/`collect` of src/lib.rs:43-46 and its copies in each arm).
  - `Render.LeafFragment` is the per-type `match` of src/lib.rs:39-219 for every type except the column list.
  - `Render.Join` is the final `join`.

  The method `Render.ConvertBlocks` keeps the source's two loops: one over the blocks, one over the columns. Both push into growing sequences. The method is proved equal to the ghost specification `Render.RenderBlocks`, which is built from `Fragments`, `RenderBlock` and `ColumnBodies`.

  Only an absent fragment vanishes. A fragment that is present but empty, such as that of a paragraph without spans, is still joined and leaves a blank line.
- **The server** is a total function `fetch` from a block id to the block's children. The model requires the server to be acyclic: a ghost `rank` puts every fetched child strictly below its parent (`Render.Acyclic`), and the recursion decreases a ghost bound on the ranks.

Module `RenderFacts` holds the properties, including the worked examples: two paragraphs, a lone divider, an external image and two columns.

The fetches call `.unwrap()` (src/lib.rs:177, 184, 187), and the `Error` type has no variants (src/lib.rs:5-6). So a render either returns a document or panics, and the model treats the fetch as total. The block types that render nothing are exactly the variants of the code's `match` (src/lib.rs:166-169, 208-218).

## Model

| member | source | states |
|---|---|---|
| `Inline.Markdown` | src/lib.rs:11-32 | a non-text span renders empty; an unannotated span renders as its content; the length is the content's plus 4 for bold, 2 for italic, 2 for code |
| `Inline.ConvertRichText` | src/lib.rs:11-32 | the three conditional rewraps (bold, then italic, then code, each around the previous result) give exactly the content between the opening and closing delimiter runs |
| `Inline.DelimitersBalanced` | src/lib.rs:16-26 | the closing delimiters have the length of the opening ones and read them back to front, so every wrap is balanced |
| `Inline.ContentRecoverable` | src/lib.rs:14-28 | the content stands unchanged right after the opening delimiters and can be cut back out |
| `Inline.AllAnnotations` | src/lib.rs:16-26 | with bold, italic and code all set, the span is "`***" + content + "***`" |
| `Inline.BoldAndCode` | src/lib.rs:16-26 | bold and code together give "`**" + content + "**`": the code ticks are outermost |
| `Render.ConvertBlocks` | src/lib.rs:34-227 | the loop over the blocks, with the nested loop over fetched columns and the recursive calls, returns exactly the specified document |
| `Render.FragmentsAppend` | src/lib.rs:36-38 | the kept fragments of a concatenation are the kept fragments of each part, in order, as the output vector accumulates them |
| `Render.ColumnBodiesAppend` | src/lib.rs:180-188 | pushing one more column's rendered children extends the column bodies by exactly that column |
| `RenderFacts.JoinAppend` | src/lib.rs:226 | joining two runs of fragments puts exactly one separator between them, and none when either run is empty |
| `RenderFacts.SpansTextAppend` | src/lib.rs:43-46 | a block's text is its spans' renderings concatenated in order with no separator, so splitting the spans splits the text |
| `RenderFacts.SpansTextSkipsOther` | src/lib.rs:30 | a non-text span inside a block contributes nothing to the block's text |
| `RenderFacts.RenderEmpty` | src/lib.rs:36-38 | an empty block sequence renders to the empty document |
| `RenderFacts.RenderBlocksAppend` | src/lib.rs:221-226 | the document of a concatenation is the two documents with exactly one blank line between them, or just one of them when the other side yields no fragment |
| `RenderFacts.SilentFragmentDropped` | src/lib.rs:221-223 | a block whose fragment is None adds nothing to the output vector |
| `RenderFacts.SilentBlockLeavesNoTrace` | src/lib.rs:221-226 | a block without a fragment, wherever it stands, leaves the document exactly as if it were absent: no blank-line artifact |
| `RenderFacts.DroppedExactlyWhenNeverRendered` | src/lib.rs:151-218 | a block other than a column list yields no fragment exactly when it is Unsupported, one of the long-tail types, or an image or video stored by the service |
| `RenderFacts.NeverRenderedLeavesNoTrace` | src/lib.rs:208-226 | blocks of the always-silent types never affect the output, whatever their position |
| `RenderFacts.HeadingShape` | src/lib.rs:40-55 | a heading of level k renders as k '#' characters, one space, then its text |
| `RenderFacts.PrefixedTextShape` | src/lib.rs:56-129 | a paragraph is its text; bulleted items, numbered items (always "1. ") and quotes are the paragraph fragment of the same text behind "* ", "1. " and "> " |
| `RenderFacts.ToDoShape` | src/lib.rs:100-117 | a to-do starts "[x] " exactly when checked is Some(true), otherwise "[ ] " (None counts as unchecked), then its text |
| `RenderFacts.CodeShape` | src/lib.rs:64-74 | a code block is "```" + language + newline, then the text, then newline + "```" |
| `RenderFacts.CalloutShape` | src/lib.rs:130-150 | a callout is the marker "> ", then the emoji if the icon is an emoji (otherwise nothing), then one space, then its text |
| `RenderFacts.ImageShape` | src/lib.rs:151-157 | an image yields a fragment exactly when it has an external URL, and that fragment is an img tag whose quoted src attribute is the URL, closing right after it |
| `RenderFacts.VideoShape` | src/lib.rs:158-164 | a video yields a fragment exactly when it has an external URL, and that fragment is a self-closing video tag whose quoted src attribute is the URL |
| `RenderFacts.FetchIrrelevant` | src/lib.rs:170-206 | a block sequence without a column list that has children renders the same under any server: no other block consults it |
| `RenderFacts.FragmentsIrrelevant` | src/lib.rs:38-223 | the kept fragments of such a sequence are the same under any server |
| `RenderFacts.ChildlessColumnListDropped` | src/lib.rs:203-205 | a column list without children yields no fragment, whatever the server holds |
| `RenderFacts.ColumnBodiesAt` | src/lib.rs:180-188 | there is one column body per fetched column, in fetch order, and each is the rendering of that column's fetched children |
| `RenderFacts.ColumnListShape` | src/lib.rs:170-202 | a column list with children renders as a flex div around one margin div per fetched column, in order, each holding that column's rendered children |
| `RenderFacts.PlainParagraph` | src/lib.rs:56-63 | a paragraph of one unstyled span renders as that span's content |
| `RenderFacts.SingleFragment` | src/lib.rs:221-226 | one block that renders is the whole document, with no separator |
| `RenderFacts.TwoFragments` | src/lib.rs:221-226 | two blocks that both render are separated by exactly one blank line |
| `RenderFacts.EmptyFragmentKept` | src/lib.rs:221-226 | a paragraph without spans still yields a fragment, the empty string, so it is joined and leaves a blank line before the next fragment |
| `RenderFacts.TwoParagraphs` | src/lib.rs:221-226 | paragraphs "A" and "B" render as "A\n\nB" |
| `RenderFacts.DividerAlone` | src/lib.rs:165 | a lone divider renders as exactly "---" |
| `RenderFacts.ExternalImage` | src/lib.rs:153 | an image at "http://x/y.png" renders as `<img style="margin: 0 auto" src="http://x/y.png">` |
| `RenderFacts.FlexRowXY` | src/lib.rs:190-201 | column bodies "X" and "Y" become a flex div holding two margin divs joined by a newline |
| `RenderFacts.TwoColumnBodies` | src/lib.rs:180-188 | in the two-column example each column renders its single paragraph, left before right |
| `RenderFacts.TwoColumns` | src/lib.rs:170-206 | a column list with two columns, holding "X" and "Y", renders as the flex div with "X" in the first margin div and "Y" in the second |

## Left out

- The async machinery and `#[async_recursion]`: the renderer is a plain recursive method, because the fetches are awaited one at a time and only their results matter.
- The Notion client's network calls: the server is a total, deterministic function from a block id to that block's children. Pagination of the child list is not modelled.
- Fetch failure and `.unwrap()`: a failed fetch panics in the source, and the model has no such path. The source's `Result` can only be `Ok` because `Error` has no variants, so `ConvertBlocks` returns the string directly.
- Termination: the model requires the whole server to be acyclic, stated through the ghost `rank`, which the source does not have. That is stronger than the source needs. The source recurses without end only when a column list reaches itself through its columns. It terminates on other cyclic servers, for example a column whose children include itself, since a column is never expanded. The model excludes those servers too.
- The code language comes from `serde_variant::to_variant_name`, a foreign serialisation call. It is modelled as an opaque string carried by the code block.
- The `println!` diagnostic for unsupported blocks is console output and never affects the returned document, so it is left out.
- Rich-text variants other than text (mentions, equations) are collapsed into one `Other` variant. Annotations other than bold, italic and code are not represented, because the renderer never reads them.
- The payloads of icons other than emoji, of files, and of block types that render nothing are reduced to the fields the renderer could read.
