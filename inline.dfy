/**
 * The inline rich-text renderer: one span becomes its content wrapped in
 * Markdown emphasis delimiters, bold first, then italic, then code.
 */
module Inline {
  import opened Notion

  /** The delimiters that stand in front of the content, outermost first. */
  function Opening(a: Annotations): string
  {
    (if a.code then "`" else "") + (if a.italic then "*" else "") + (if a.bold then "**" else "")
  }

  /** The delimiters that stand behind the content, innermost first. */
  function Closing(a: Annotations): string
  {
    (if a.bold then "**" else "") + (if a.italic then "*" else "") + (if a.code then "`" else "")
  }

  /**
   * The Markdown text of one span, as a reference definition: the content
   * between its opening and closing delimiters. Non-text spans are dropped.
   */
  function Markdown(t: RichText): (r: string)
    ensures t.Other? ==> r == ""
    ensures t.Text? ==>
      |r| == |t.content| + (if t.annotations.bold then 4 else 0)
        + (if t.annotations.italic then 2 else 0) + (if t.annotations.code then 2 else 0)
    ensures t.Text? && !t.annotations.bold && !t.annotations.italic && !t.annotations.code ==>
      r == t.content
  {
    match t
    case Text(content, a) => Opening(a) + content + Closing(a)
    case Other(_) => ""
  }

  /**
   * Renders one span by wrapping step by step; each wrap encloses the
   * result of the previous one.
   */
  method ConvertRichText(t: RichText) returns (s: string)
    ensures s == Markdown(t)
  {
    match t
    case Text(content, a) =>
      s := content;
      if a.bold {
        s := "**" + s + "**";
      }
      if a.italic {
        s := "*" + s + "*";
      }
      if a.code {
        s := "`" + s + "`";
      }
    case Other(_) =>
      s := "";
  }

  /** The closing delimiters mirror the opening ones, so every wrap is balanced. */
  lemma DelimitersBalanced(a: Annotations)
    ensures |Closing(a)| == |Opening(a)|
    ensures forall i | 0 <= i < |Opening(a)| :: Closing(a)[i] == Opening(a)[|Opening(a)| - 1 - i]
  {
    if a.code {
      if a.italic {
        if a.bold { assert Opening(a) == "`***" && Closing(a) == "***`"; }
        else { assert Opening(a) == "`*" && Closing(a) == "*`"; }
      } else {
        if a.bold { assert Opening(a) == "`**" && Closing(a) == "**`"; }
        else { assert Opening(a) == "`" && Closing(a) == "`"; }
      }
    } else {
      if a.italic {
        if a.bold { assert Opening(a) == "***" && Closing(a) == "***"; }
        else { assert Opening(a) == "*" && Closing(a) == "*"; }
      } else {
        if a.bold { assert Opening(a) == "**" && Closing(a) == "**"; }
        else { assert Opening(a) == "" && Closing(a) == ""; }
      }
    }
  }

  /** The content sits unchanged between the delimiters and can be cut back out. */
  lemma ContentRecoverable(c: string, a: Annotations)
    ensures var r := Markdown(Text(c, a));
      |Opening(a)| + |c| <= |r| && r[|Opening(a)|..|Opening(a)| + |c|] == c
  {
    var r := Markdown(Text(c, a));
    assert r == Opening(a) + c + Closing(a);
    assert r[|Opening(a)|..|Opening(a)| + |c|] == c;
  }

  /** With every flag set the span reads "`***content***`". */
  lemma AllAnnotations(c: string)
    ensures Markdown(Text(c, Annotations(true, true, true))) == "`***" + c + "***`"
  {
  }

  /** Bold and code together nest the bold markers inside the code ticks. */
  lemma BoldAndCode(c: string)
    ensures Markdown(Text(c, Annotations(true, false, true))) == "`**" + c + "**`"
  {
  }
}
