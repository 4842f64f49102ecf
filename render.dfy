/**
 * The block renderer: each block of a sequence becomes an optional
 * fragment, the present fragments are joined with a blank line, and a
 * column list fetches its columns and their children and renders them
 * recursively into HTML `<div>`s.
 *
 * The Notion client (`notion::Client`) is replaced by a total function
 * `fetch` from a block identifier to that block's children. The model
 * requires the whole server to be acyclic, which is more than the renderer
 * needs (only column lists are expanded). This is stated with a ghost `rank`
 * that every fetched child has strictly below its parent, and a ghost `bound`
 * above the rank of every block of the sequence being rendered. The
 * recursion decreases `bound`.
 */
module Render {
  import opened Wrappers
  import opened Notion
  import Inline

  const BlankLine := "\n\n"

  /** The elements of `parts` with `sep` between neighbours (Rust's `join`). */
  function Join(parts: seq<string>, sep: string): string
  {
    if |parts| == 0 then ""
    else if |parts| == 1 then parts[0]
    else parts[0] + sep + Join(parts[1..], sep)
  }

  /** The text of a block: its spans rendered one by one and concatenated without separator. */
  function SpansText(spans: seq<RichText>): string
  {
    if spans == [] then "" else Inline.Markdown(spans[0]) + SpansText(spans[1..])
  }

  /** The Markdown heading marker of a heading block. */
  function HeadingMarker(t: BlockType): string
  {
    match t
    case Heading1(_) => "#"
    case Heading2(_) => "##"
    case _ => "###"
  }

  function HeadingLevel(t: BlockType): nat
  {
    match t
    case Heading1(_) => 1
    case Heading2(_) => 2
    case _ => 3
  }

  /** The emoji of a callout's icon, or nothing for other icons and for none. */
  function IconText(icon: Option<Icon>): string
  {
    match icon
    case Some(Emoji(e)) => e
    case _ => ""
  }

  function ImageTag(url: string): string
  {
    "<img style=\"margin: 0 auto\" src=\"" + url + "\">"
  }

  function VideoTag(url: string): string
  {
    "<video controls src=\"" + url + "\" />"
  }

  /**
   * The fragment of every block type except the column list, which alone
   * needs the server. `None` means the block contributes nothing.
   */
  function LeafFragment(t: BlockType): Option<string>
    requires !t.ColumnList?
  {
    match t
    case Heading1(_) | Heading2(_) | Heading3(_) =>
      Some(HeadingMarker(t) + " " + SpansText(t.text))
    case Paragraph(text) =>
      Some(SpansText(text))
    case Code(language, text) =>
      Some("```" + language + "\n" + SpansText(text) + "\n```")
    case BulletedListItem(text) =>
      Some("* " + SpansText(text))
    case NumberedListItem(text) =>
      Some("1. " + SpansText(text))
    case ToDo(text, checked) =>
      var mark := if checked.UnwrapOr(false) then "x" else " ";
      Some("[" + mark + "] " + SpansText(text))
    case Quote(text) =>
      Some("> " + SpansText(text))
    case Callout(text, icon) =>
      Some("> " + IconText(icon) + " " + SpansText(text))
    case Image(file) =>
      (match file
       case External(url) => Some(ImageTag(url))
       case Hosted(_) => None)
    case Video(file) =>
      (match file
       case External(url) => Some(VideoTag(url))
       case Hosted(_) => None)
    case Divider =>
      Some("---")
    case Unsupported(_) =>
      None
    case Column | Table | Bookmark | FileBlock(_) | Pdf(_) | TableOfContents
      | ChildPage(_) | ChildDatabase(_) | SyncedBlock | Template | Toggle =>
      None
  }

  const FlexOpen := "<div style=\"display: flex;\">"
  const ColumnOpen := "<div style=\"margin: 0 16px\">"
  const DivClose := "</div>"

  function ColumnDiv(body: string): string
  {
    ColumnOpen + body + DivClose
  }

  /** The rendered columns, each in its margin `<div>`, one per line, inside a flex row. */
  function FlexRow(bodies: seq<string>): string
  {
    FlexOpen + Join(seq(|bodies|, i requires 0 <= i < |bodies| => ColumnDiv(bodies[i])), "\n") + DivClose
  }

  /** Every block fetched as a child ranks strictly below its parent. */
  ghost predicate Acyclic(fetch: Id -> seq<Block>, rank: Id -> nat)
  {
    forall id, b :: b in fetch(id) ==> rank(b.id) < rank(id)
  }

  ghost predicate Below(rank: Id -> nat, blocks: seq<Block>, bound: nat)
  {
    forall b :: b in blocks ==> rank(b.id) < bound
  }

  function Present(o: Option<string>): seq<string>
  {
    if o.Some? then [o.value] else []
  }

  /** The document rendered from `blocks`: their present fragments, in order, joined by a blank line. */
  ghost function RenderBlocks(fetch: Id -> seq<Block>, rank: Id -> nat, blocks: seq<Block>, bound: nat): string
    requires Acyclic(fetch, rank) && Below(rank, blocks, bound)
    decreases bound, 2, |blocks|
  {
    Join(Fragments(fetch, rank, blocks, bound), BlankLine)
  }

  /** The fragments of the blocks that produce one, in input order. */
  ghost function Fragments(fetch: Id -> seq<Block>, rank: Id -> nat, blocks: seq<Block>, bound: nat): seq<string>
    requires Acyclic(fetch, rank) && Below(rank, blocks, bound)
    decreases bound, 1, |blocks|
  {
    if blocks == [] then []
    else Present(RenderBlock(fetch, rank, blocks[0], bound)) + Fragments(fetch, rank, blocks[1..], bound)
  }

  /** The fragment of one block; a column list with children renders its fetched columns. */
  ghost function RenderBlock(fetch: Id -> seq<Block>, rank: Id -> nat, b: Block, bound: nat): Option<string>
    requires Acyclic(fetch, rank) && rank(b.id) < bound
    decreases bound, 0
  {
    if b.value.ColumnList? then
      if b.hasChildren then Some(FlexRow(ColumnBodies(fetch, rank, fetch(b.id), rank(b.id)))) else None
    else
      LeafFragment(b.value)
  }

  /** Each column's children, fetched and rendered as a document of their own. */
  ghost function ColumnBodies(fetch: Id -> seq<Block>, rank: Id -> nat, columns: seq<Block>, bound: nat): seq<string>
    requires Acyclic(fetch, rank) && Below(rank, columns, bound)
    decreases bound, 3, |columns|
  {
    if columns == [] then []
    else
      [RenderBlocks(fetch, rank, fetch(columns[0].id), rank(columns[0].id))]
        + ColumnBodies(fetch, rank, columns[1..], bound)
  }

  lemma {:induction false} FragmentsAppend(fetch: Id -> seq<Block>, rank: Id -> nat, xs: seq<Block>, ys: seq<Block>, bound: nat)
    requires Acyclic(fetch, rank) && Below(rank, xs + ys, bound)
    ensures Below(rank, xs, bound) && Below(rank, ys, bound)
    ensures Fragments(fetch, rank, xs + ys, bound)
      == Fragments(fetch, rank, xs, bound) + Fragments(fetch, rank, ys, bound)
  {
    assert forall b | b in xs :: b in xs + ys;
    assert forall b | b in ys :: b in xs + ys;
    if xs != [] {
      assert (xs + ys)[1..] == xs[1..] + ys;
      FragmentsAppend(fetch, rank, xs[1..], ys, bound);
    } else {
      assert xs + ys == ys;
    }
  }

  lemma {:induction false} ColumnBodiesAppend(fetch: Id -> seq<Block>, rank: Id -> nat, xs: seq<Block>, c: Block, bound: nat)
    requires Acyclic(fetch, rank) && Below(rank, xs + [c], bound)
    ensures Below(rank, xs, bound) && rank(c.id) < bound
    ensures ColumnBodies(fetch, rank, xs + [c], bound)
      == ColumnBodies(fetch, rank, xs, bound) + [RenderBlocks(fetch, rank, fetch(c.id), rank(c.id))]
  {
    assert forall b | b in xs :: b in xs + [c];
    assert c in xs + [c];
    if xs != [] {
      assert (xs + [c])[1..] == xs[1..] + [c];
      ColumnBodiesAppend(fetch, rank, xs[1..], c, bound);
    } else {
      assert xs + [c] == [c];
    }
  }

  /**
   * Walks the blocks in order, keeping the fragment of each block that
   * produces one, and joins them with a blank line. A column list with
   * children fetches its columns, then each column's children, renders them
   * recursively and wraps them in `<div>`s.
   */
  method ConvertBlocks(fetch: Id -> seq<Block>, ghost rank: Id -> nat, blocks: seq<Block>, ghost bound: nat)
    returns (markdown: string)
    requires Acyclic(fetch, rank) && Below(rank, blocks, bound)
    ensures markdown == RenderBlocks(fetch, rank, blocks, bound)
    decreases bound
  {
    var output: seq<string> := [];
    for i := 0 to |blocks|
      invariant Below(rank, blocks[..i], bound)
      invariant output == Fragments(fetch, rank, blocks[..i], bound)
    {
      var block := blocks[i];
      var fragment: Option<string>;
      if block.value.ColumnList? {
        if block.hasChildren {
          var columns := fetch(block.id);
          var content: seq<string> := [];
          for j := 0 to |columns|
            invariant Below(rank, columns[..j], rank(block.id))
            invariant content == ColumnBodies(fetch, rank, columns[..j], rank(block.id))
          {
            var children := fetch(columns[j].id);
            var column := ConvertBlocks(fetch, rank, children, rank(columns[j].id));
            assert columns[..j + 1] == columns[..j] + [columns[j]];
            ColumnBodiesAppend(fetch, rank, columns[..j], columns[j], rank(block.id));
            content := content + [column];
          }
          assert columns[..|columns|] == columns;
          fragment := Some(FlexRow(content));
        } else {
          fragment := None;
        }
      } else {
        fragment := LeafFragment(block.value);
      }
      if fragment.Some? {
        output := output + [fragment.value];
      }
      assert blocks[..i + 1] == blocks[..i] + [block];
      FragmentsAppend(fetch, rank, blocks[..i], [block], bound);
      assert [block][1..] == [];
    }
    assert blocks[..|blocks|] == blocks;
    markdown := Join(output, BlankLine);
  }
}
