/**
 * Properties of the block renderer: how joining treats present and absent
 * fragments, the shape of each block type's fragment, the column-list
 * expansion, and worked examples.
 */
module RenderFacts {
  import opened Wrappers
  import opened Notion
  import Inline
  import opened Render

  /** Joining two runs of parts puts one separator between them, and none when either run is empty. */
  lemma {:induction false} JoinAppend(a: seq<string>, b: seq<string>, sep: string)
    ensures Join(a + b, sep) ==
      if a == [] then Join(b, sep)
      else if b == [] then Join(a, sep)
      else Join(a, sep) + sep + Join(b, sep)
  {
    if a == [] {
      assert a + b == b;
    } else if b == [] {
      assert a + b == a;
    } else if |a| == 1 {
      assert (a + b)[1..] == b;
    } else {
      assert (a + b)[1..] == a[1..] + b;
      JoinAppend(a[1..], b, sep);
    }
  }

  /** A block's text is the spans' renderings concatenated in order: splitting the spans splits the text. */
  lemma {:induction false} SpansTextAppend(xs: seq<RichText>, ys: seq<RichText>)
    ensures SpansText(xs + ys) == SpansText(xs) + SpansText(ys)
  {
    if xs == [] {
      assert xs + ys == ys;
    } else {
      assert (xs + ys)[1..] == xs[1..] + ys;
      SpansTextAppend(xs[1..], ys);
    }
  }

  /** Text spans of other kinds contribute nothing to a block's text. */
  lemma {:induction false} SpansTextSkipsOther(xs: seq<RichText>, p: string, ys: seq<RichText>)
    ensures SpansText(xs + [Other(p)] + ys) == SpansText(xs + ys)
  {
    SpansTextAppend(xs + [Other(p)], ys);
    SpansTextAppend(xs, [Other(p)]);
    SpansTextAppend(xs, ys);
  }

  /** The empty block sequence renders to the empty document. */
  lemma RenderEmpty(fetch: Id -> seq<Block>, rank: Id -> nat, bound: nat)
    requires Acyclic(fetch, rank)
    ensures RenderBlocks(fetch, rank, [], bound) == ""
  {
  }

  /**
   * Rendering a concatenation of block sequences puts exactly one blank
   * line between the two documents, and none when either side has no fragment.
   */
  lemma RenderBlocksAppend(fetch: Id -> seq<Block>, rank: Id -> nat, xs: seq<Block>, ys: seq<Block>, bound: nat)
    requires Acyclic(fetch, rank) && Below(rank, xs + ys, bound)
    ensures Below(rank, xs, bound) && Below(rank, ys, bound)
    ensures RenderBlocks(fetch, rank, xs + ys, bound) ==
      if Fragments(fetch, rank, xs, bound) == [] then RenderBlocks(fetch, rank, ys, bound)
      else if Fragments(fetch, rank, ys, bound) == [] then RenderBlocks(fetch, rank, xs, bound)
      else RenderBlocks(fetch, rank, xs, bound) + BlankLine + RenderBlocks(fetch, rank, ys, bound)
  {
    FragmentsAppend(fetch, rank, xs, ys, bound);
    JoinAppend(Fragments(fetch, rank, xs, bound), Fragments(fetch, rank, ys, bound), BlankLine);
  }

  /** A block without a fragment leaves no trace, not even a blank line, wherever it stands. */
  lemma SilentBlockLeavesNoTrace(fetch: Id -> seq<Block>, rank: Id -> nat, xs: seq<Block>, b: Block, ys: seq<Block>, bound: nat)
    requires Acyclic(fetch, rank) && Below(rank, xs + [b] + ys, bound)
    requires rank(b.id) < bound && RenderBlock(fetch, rank, b, bound) == None
    ensures Below(rank, xs + ys, bound)
    ensures RenderBlocks(fetch, rank, xs + [b] + ys, bound) == RenderBlocks(fetch, rank, xs + ys, bound)
  {
    assert Below(rank, xs + ys, bound) by {
      assert forall c | c in xs + ys :: c in xs + [b] + ys;
    }
    FragmentsAppend(fetch, rank, xs + [b], ys, bound);
    SilentFragmentDropped(fetch, rank, xs, b, bound);
    FragmentsAppend(fetch, rank, xs, ys, bound);
  }

  lemma SilentFragmentDropped(fetch: Id -> seq<Block>, rank: Id -> nat, xs: seq<Block>, b: Block, bound: nat)
    requires Acyclic(fetch, rank) && Below(rank, xs + [b], bound)
    requires rank(b.id) < bound && RenderBlock(fetch, rank, b, bound) == None
    ensures Below(rank, xs, bound)
    ensures Fragments(fetch, rank, xs + [b], bound) == Fragments(fetch, rank, xs, bound)
  {
    FragmentsAppend(fetch, rank, xs, [b], bound);
    assert [b][1..] == [];
    assert Fragments(fetch, rank, [b], bound) == [];
  }

  /** The block types that never produce a fragment, listed independently of the renderer. */
  predicate NeverRendered(t: BlockType)
  {
    t.Unsupported? || t.Column? || t.Table? || t.Bookmark? || t.FileBlock? || t.Pdf?
    || t.TableOfContents? || t.ChildPage? || t.ChildDatabase? || t.SyncedBlock?
    || t.Template? || t.Toggle?
    || ((t.Image? || t.Video?) && t.file.Hosted?)
  }

  /** A block other than a column list is dropped exactly when its type is never rendered. */
  lemma DroppedExactlyWhenNeverRendered(t: BlockType)
    requires !t.ColumnList?
    ensures LeafFragment(t).None? <==> NeverRendered(t)
  {
  }

  /** Dropped blocks never reach the output, whatever surrounds them. */
  lemma NeverRenderedLeavesNoTrace(fetch: Id -> seq<Block>, rank: Id -> nat, xs: seq<Block>, b: Block, ys: seq<Block>, bound: nat)
    requires Acyclic(fetch, rank) && Below(rank, xs + [b] + ys, bound)
    requires NeverRendered(b.value)
    ensures Below(rank, xs + ys, bound)
    ensures RenderBlocks(fetch, rank, xs + [b] + ys, bound) == RenderBlocks(fetch, rank, xs + ys, bound)
  {
    assert b in xs + [b] + ys;
    DroppedExactlyWhenNeverRendered(b.value);
    SilentBlockLeavesNoTrace(fetch, rank, xs, b, ys, bound);
  }

  /** A heading of level k renders as k '#' characters, a space, then its text. */
  lemma HeadingShape(t: BlockType)
    requires t.Heading1? || t.Heading2? || t.Heading3?
    ensures LeafFragment(t).Some?
    ensures var f, k := LeafFragment(t).value, HeadingLevel(t);
      |f| > k && (forall i | 0 <= i < k :: f[i] == '#') && f[k] == ' ' && f[k + 1..] == SpansText(t.text)
  {
    var f, k := LeafFragment(t).value, HeadingLevel(t);
    assert |HeadingMarker(t)| == k;
    assert f == HeadingMarker(t) + " " + SpansText(t.text);
    assert f[k + 1..] == SpansText(t.text);
  }

  /** A to-do is ticked exactly when its flag is present and true; absent counts as unticked. */
  lemma ToDoShape(text: seq<RichText>, checked: Option<bool>)
    ensures LeafFragment(ToDo(text, checked)).Some?
    ensures var f := LeafFragment(ToDo(text, checked)).value;
      |f| >= 4 && f[4..] == SpansText(text)
      && f[..4] == (if checked == Some(true) then "[x] " else "[ ] ")
      && (f[1] == 'x' <==> checked == Some(true))
  {
    var f := LeafFragment(ToDo(text, checked)).value;
    var mark := if checked == Some(true) then "x" else " ";
    assert f == "[" + mark + "] " + SpansText(text);
    assert f[4..] == SpansText(text);
    assert f[..4] == "[" + mark + "] ";
  }

  /**
   * A paragraph is its text alone; a bulleted item, a numbered item (always
   * numbered 1, with no running counter) and a quote are the same text with
   * a fixed marker in front.
   */
  lemma PrefixedTextShape(text: seq<RichText>)
    ensures LeafFragment(Paragraph(text)) == Some(SpansText(text))
    ensures var f := LeafFragment(BulletedListItem(text)).value;
      |f| >= 2 && f[..2] == "* " && f[2..] == LeafFragment(Paragraph(text)).value
    ensures var f := LeafFragment(NumberedListItem(text)).value;
      |f| >= 3 && f[..3] == "1. " && f[3..] == LeafFragment(Paragraph(text)).value
    ensures var f := LeafFragment(Quote(text)).value;
      |f| >= 2 && f[..2] == "> " && f[2..] == LeafFragment(Paragraph(text)).value
  {
    var t := SpansText(text);
    assert LeafFragment(BulletedListItem(text)) == Some("* " + t);
    PrefixSplits("* ", t);
    assert LeafFragment(NumberedListItem(text)) == Some("1. " + t);
    PrefixSplits("1. ", t);
    assert LeafFragment(Quote(text)) == Some("> " + t);
    PrefixSplits("> ", t);
  }

  lemma PrefixSplits(p: string, t: string)
    ensures (p + t)[..|p|] == p && (p + t)[|p|..] == t
  {
  }

  /** A code block is a fence carrying the language, the text on its own lines, and a closing fence. */
  lemma CodeShape(language: string, text: seq<RichText>)
    ensures LeafFragment(Code(language, text)).Some?
    ensures var f, n := LeafFragment(Code(language, text)).value, |language|;
      |f| == n + |SpansText(text)| + 8
      && f[..n + 4] == "```" + language + "\n"
      && f[n + 4..|f| - 4] == SpansText(text)
      && f[|f| - 4..] == "\n```"
  {
    var f, n, s := LeafFragment(Code(language, text)).value, |language|, SpansText(text);
    assert f == ("```" + language + "\n") + s + "\n```";
    assert f[..n + 4] == "```" + language + "\n";
    assert f[n + 4..|f| - 4] == s;
    assert f[|f| - 4..] == "\n```";
  }

  /**
   * An image renders exactly when it has an external URL: an `<img>` tag
   * whose quoted `src` attribute is that URL and which closes right after it.
   */
  lemma ImageShape(file: File)
    ensures LeafFragment(Image(file)).Some? <==> file.External?
    ensures file.External? ==>
      var f, open, n := LeafFragment(Image(file)).value, "<img style=\"margin: 0 auto\" src=\"", |file.url|;
      |f| == |open| + n + 2 && f[..|open|] == open && f[|open|..|open| + n] == file.url && f[|open| + n..] == "\">"
  {
    if file.External? {
      var open := "<img style=\"margin: 0 auto\" src=\"";
      var f := LeafFragment(Image(file)).value;
      assert f == open + file.url + "\">";
      assert f[..|open|] == open;
      assert f[|open|..|open| + |file.url|] == file.url;
      assert f[|open| + |file.url|..] == "\">";
    }
  }

  /**
   * A video renders exactly when it has an external URL: a self-closing
   * `<video controls>` tag whose quoted `src` attribute is that URL.
   */
  lemma VideoShape(file: File)
    ensures LeafFragment(Video(file)).Some? <==> file.External?
    ensures file.External? ==>
      var f, open, n := LeafFragment(Video(file)).value, "<video controls src=\"", |file.url|;
      |f| == |open| + n + 4 && f[..|open|] == open && f[|open|..|open| + n] == file.url && f[|open| + n..] == "\" />"
  {
    if file.External? {
      var open := "<video controls src=\"";
      var f := LeafFragment(Video(file)).value;
      assert f == open + file.url + "\" />";
      assert f[..|open|] == open;
      assert f[|open|..|open| + |file.url|] == file.url;
      assert f[|open| + |file.url|..] == "\" />";
    }
  }

  /**
   * A callout is the quote marker "> ", then the icon's emoji (nothing when
   * the icon is absent or not an emoji), then one space, then its text.
   */
  lemma CalloutShape(text: seq<RichText>, icon: Option<Icon>)
    ensures LeafFragment(Callout(text, icon)).Some?
    ensures var f, e := LeafFragment(Callout(text, icon)).value,
                        if icon.Some? && icon.value.Emoji? then icon.value.emoji else "";
      |f| == |e| + 3 + |SpansText(text)| && f[..2] == "> " && f[2..2 + |e|] == e
      && f[2 + |e|] == ' ' && f[3 + |e|..] == SpansText(text)
  {
    var e := if icon.Some? && icon.value.Emoji? then icon.value.emoji else "";
    var t := SpansText(text);
    var f := LeafFragment(Callout(text, icon)).value;
    assert IconText(icon) == e;
    assert f == "> " + e + " " + t;
    assert f[..2] == "> ";
    assert f[2..2 + |e|] == e;
    assert f[3 + |e|..] == t;
  }

  predicate Expands(b: Block)
  {
    b.value.ColumnList? && b.hasChildren
  }

  /**
   * Only a column list with children consults the server: a sequence without
   * one renders the same under any fetch function.
   */
  lemma {:induction false} FetchIrrelevant(
    fetch1: Id -> seq<Block>, rank1: Id -> nat, bound1: nat,
    fetch2: Id -> seq<Block>, rank2: Id -> nat, bound2: nat,
    blocks: seq<Block>)
    requires Acyclic(fetch1, rank1) && Below(rank1, blocks, bound1)
    requires Acyclic(fetch2, rank2) && Below(rank2, blocks, bound2)
    requires forall b | b in blocks :: !Expands(b)
    ensures RenderBlocks(fetch1, rank1, blocks, bound1) == RenderBlocks(fetch2, rank2, blocks, bound2)
  {
    FragmentsIrrelevant(fetch1, rank1, bound1, fetch2, rank2, bound2, blocks);
  }

  lemma {:induction false} FragmentsIrrelevant(
    fetch1: Id -> seq<Block>, rank1: Id -> nat, bound1: nat,
    fetch2: Id -> seq<Block>, rank2: Id -> nat, bound2: nat,
    blocks: seq<Block>)
    requires Acyclic(fetch1, rank1) && Below(rank1, blocks, bound1)
    requires Acyclic(fetch2, rank2) && Below(rank2, blocks, bound2)
    requires forall b | b in blocks :: !Expands(b)
    ensures Fragments(fetch1, rank1, blocks, bound1) == Fragments(fetch2, rank2, blocks, bound2)
  {
    if blocks != [] {
      assert blocks[0] in blocks;
      assert forall b | b in blocks[1..] :: b in blocks;
      FragmentsIrrelevant(fetch1, rank1, bound1, fetch2, rank2, bound2, blocks[1..]);
    }
  }

  /** A column list without children is dropped, whatever the server holds. */
  lemma ChildlessColumnListDropped(fetch: Id -> seq<Block>, rank: Id -> nat, id: Id, bound: nat)
    requires Acyclic(fetch, rank) && rank(id) < bound
    ensures RenderBlock(fetch, rank, Block(id, ColumnList, false), bound) == None
  {
  }

  /** The column bodies are the rendered children of each fetched column, one per column, in fetch order. */
  lemma {:induction false} ColumnBodiesAt(fetch: Id -> seq<Block>, rank: Id -> nat, columns: seq<Block>, bound: nat)
    requires Acyclic(fetch, rank) && Below(rank, columns, bound)
    ensures |ColumnBodies(fetch, rank, columns, bound)| == |columns|
    ensures forall j | 0 <= j < |columns| ::
      ColumnBodies(fetch, rank, columns, bound)[j] == RenderBlocks(fetch, rank, fetch(columns[j].id), rank(columns[j].id))
  {
    if columns != [] {
      assert forall b | b in columns[1..] :: b in columns;
      ColumnBodiesAt(fetch, rank, columns[1..], bound);
    }
  }

  /**
   * A column list with children renders as a flex row holding, for each
   * fetched column in order, a margin `<div>` around that column's rendered children.
   */
  lemma ColumnListShape(fetch: Id -> seq<Block>, rank: Id -> nat, b: Block, bound: nat)
    requires Acyclic(fetch, rank) && rank(b.id) < bound
    requires Expands(b)
    ensures exists bodies: seq<string> ::
      RenderBlock(fetch, rank, b, bound) == Some(FlexRow(bodies))
      && |bodies| == |fetch(b.id)|
      && forall j | 0 <= j < |bodies| ::
        bodies[j] == RenderBlocks(fetch, rank, fetch(fetch(b.id)[j].id), rank(fetch(b.id)[j].id))
  {
    var columns := fetch(b.id);
    ColumnBodiesAt(fetch, rank, columns, rank(b.id));
    var bodies := ColumnBodies(fetch, rank, columns, rank(b.id));
    assert RenderBlock(fetch, rank, b, bound) == Some(FlexRow(bodies));
  }

  const Plain := Annotations(false, false, false)

  function Para(id: Id, s: string): Block
  {
    Block(id, Paragraph([Text(s, Plain)]), false)
  }

  function NoChildren(id: Id): seq<Block> { [] }

  function Flat(id: Id): nat { 0 }

  /** A paragraph of one unstyled span renders as that span's content. */
  lemma PlainParagraph(fetch: Id -> seq<Block>, rank: Id -> nat, id: Id, s: string, bound: nat)
    requires Acyclic(fetch, rank) && rank(id) < bound
    ensures RenderBlock(fetch, rank, Para(id, s), bound) == Some(s)
  {
    assert SpansText([Text(s, Plain)]) == s by {
      assert SpansText([Text(s, Plain)][1..]) == "";
    }
  }

  /** Two blocks that both render are separated by exactly one blank line. */
  lemma TwoFragments(fetch: Id -> seq<Block>, rank: Id -> nat, a: Block, b: Block, bound: nat)
    requires Acyclic(fetch, rank) && rank(a.id) < bound && rank(b.id) < bound
    requires RenderBlock(fetch, rank, a, bound).Some? && RenderBlock(fetch, rank, b, bound).Some?
    ensures Below(rank, [a, b], bound)
    ensures RenderBlocks(fetch, rank, [a, b], bound)
      == RenderBlock(fetch, rank, a, bound).value + BlankLine + RenderBlock(fetch, rank, b, bound).value
  {
    var fa, fb := RenderBlock(fetch, rank, a, bound).value, RenderBlock(fetch, rank, b, bound).value;
    assert [a, b][1..] == [b];
    assert [b][1..] == [];
    assert Fragments(fetch, rank, [b], bound) == [fb];
    assert Fragments(fetch, rank, [a, b], bound) == [fa, fb];
    assert [fa, fb][1..] == [fb];
    assert Join([fa, fb], BlankLine) == fa + BlankLine + fb;
  }

  /**
   * Only an absent fragment vanishes: a block whose fragment is present but
   * empty, such as a paragraph without spans, is still joined and leaves a blank line.
   */
  lemma EmptyFragmentKept(fetch: Id -> seq<Block>, rank: Id -> nat, id: Id, b: Block, bound: nat)
    requires Acyclic(fetch, rank) && rank(id) < bound && rank(b.id) < bound
    requires RenderBlock(fetch, rank, b, bound).Some?
    ensures Below(rank, [Block(id, Paragraph([]), false), b], bound)
    ensures RenderBlocks(fetch, rank, [Block(id, Paragraph([]), false), b], bound)
      == BlankLine + RenderBlock(fetch, rank, b, bound).value
  {
    var empty := Block(id, Paragraph([]), false);
    assert RenderBlock(fetch, rank, empty, bound) == Some("");
    TwoFragments(fetch, rank, empty, b, bound);
  }

  /** Two paragraphs "A" and "B" are separated by one blank line. */
  lemma TwoParagraphs()
    ensures Acyclic(NoChildren, Flat)
    ensures RenderBlocks(NoChildren, Flat, [Para("p", "A"), Para("q", "B")], 1) == "A\n\nB"
  {
    assert Acyclic(NoChildren, Flat);
    PlainParagraph(NoChildren, Flat, "p", "A", 1);
    PlainParagraph(NoChildren, Flat, "q", "B", 1);
    TwoFragments(NoChildren, Flat, Para("p", "A"), Para("q", "B"), 1);
    BlankLineBetween("A", "B");
  }

  lemma BlankLineBetween(x: string, y: string)
    requires |x| == 1 && |y| == 1
    ensures x + BlankLine + y == [x[0], '\n', '\n', y[0]]
  {
  }

  /** A divider on its own renders as exactly "---". */
  lemma DividerAlone(fetch: Id -> seq<Block>, rank: Id -> nat, id: Id, bound: nat)
    requires Acyclic(fetch, rank) && rank(id) < bound
    ensures Below(rank, [Block(id, Divider, false)], bound)
    ensures RenderBlocks(fetch, rank, [Block(id, Divider, false)], bound) == "---"
  {
    var blocks := [Block(id, Divider, false)];
    assert Below(rank, blocks, bound);
    assert RenderBlock(fetch, rank, blocks[0], bound) == Some("---");
    assert Fragments(fetch, rank, blocks[1..], bound) == [];
    assert Fragments(fetch, rank, blocks, bound) == ["---"];
  }

  /** An image at an external address renders as an `<img>` tag. */
  lemma ExternalImage()
    ensures LeafFragment(Image(External("http://x/y.png")))
      == Some("<img style=\"margin: 0 auto\" src=\"http://x/y.png\">")
  {
    var tag, expected := ImageTag("http://x/y.png"), "<img style=\"margin: 0 auto\" src=\"http://x/y.png\">";
    assert |tag| == |expected|;
    assert forall i | 0 <= i < |expected| :: tag[i] == expected[i];
    assert tag == expected;
    assert LeafFragment(Image(External("http://x/y.png"))) == Some(tag);
  }

  /** A server holding one column list with two columns, each with one paragraph. */
  function TwoColumnServer(id: Id): seq<Block>
  {
    if id == "list" then [Block("left", Column, true), Block("right", Column, true)]
    else if id == "left" then [Para("x", "X")]
    else if id == "right" then [Para("y", "Y")]
    else []
  }

  function TwoColumnRank(id: Id): nat
  {
    if id == "list" then 2 else if id == "left" || id == "right" then 1 else 0
  }

  lemma TwoColumnServerAcyclic()
    ensures Acyclic(TwoColumnServer, TwoColumnRank)
  {
    forall id, b | b in TwoColumnServer(id) ensures TwoColumnRank(b.id) < TwoColumnRank(id) {
      if id == "list" {
      } else if id == "left" {
      } else if id == "right" {
      }
    }
  }

  /** A single block that renders forms the whole document, with no separator. */
  lemma SingleFragment(fetch: Id -> seq<Block>, rank: Id -> nat, a: Block, bound: nat)
    requires Acyclic(fetch, rank) && rank(a.id) < bound
    requires RenderBlock(fetch, rank, a, bound).Some?
    ensures Below(rank, [a], bound)
    ensures RenderBlocks(fetch, rank, [a], bound) == RenderBlock(fetch, rank, a, bound).value
  {
    assert [a][1..] == [];
    assert Fragments(fetch, rank, [a], bound) == [RenderBlock(fetch, rank, a, bound).value];
  }

  lemma FlexRowXY()
    ensures FlexRow(["X", "Y"])
      == FlexOpen + ColumnOpen + "X" + DivClose + "\n" + ColumnOpen + "Y" + DivClose + DivClose
  {
    var bodies := ["X", "Y"];
    var divs := seq(|bodies|, i requires 0 <= i < |bodies| => ColumnDiv(bodies[i]));
    assert divs == [ColumnDiv("X"), ColumnDiv("Y")];
    assert divs[1..] == [ColumnDiv("Y")];
    assert Join(divs, "\n") == ColumnDiv("X") + "\n" + ColumnDiv("Y");
  }

  /** Each of the two columns renders its single paragraph. */
  lemma TwoColumnBodies()
    ensures Acyclic(TwoColumnServer, TwoColumnRank)
    ensures Below(TwoColumnRank, TwoColumnServer("list"), 2)
    ensures ColumnBodies(TwoColumnServer, TwoColumnRank, TwoColumnServer("list"), 2) == ["X", "Y"]
  {
    TwoColumnServerAcyclic();
    var server, rank := TwoColumnServer, TwoColumnRank;
    assert "left" != "list" && "right" != "list" && "right" != "left";
    assert server("left") == [Para("x", "X")];
    assert server("right") == [Para("y", "Y")];
    PlainParagraph(server, rank, "x", "X", 1);
    SingleFragment(server, rank, Para("x", "X"), 1);
    PlainParagraph(server, rank, "y", "Y", 1);
    SingleFragment(server, rank, Para("y", "Y"), 1);
    ColumnBodiesAt(server, rank, server("list"), 2);
  }

  /** The two columns render side by side, "X" left of "Y". */
  lemma TwoColumns()
    ensures Acyclic(TwoColumnServer, TwoColumnRank)
    ensures RenderBlocks(TwoColumnServer, TwoColumnRank, [Block("list", ColumnList, true)], 3)
      == FlexOpen + ColumnOpen + "X" + DivClose + "\n" + ColumnOpen + "Y" + DivClose + DivClose
  {
    TwoColumnBodies();
    var list := Block("list", ColumnList, true);
    assert RenderBlock(TwoColumnServer, TwoColumnRank, list, 3) == Some(FlexRow(["X", "Y"]));
    SingleFragment(TwoColumnServer, TwoColumnRank, list, 3);
    FlexRowXY();
  }
}
