/**
 * Turning one parsed markup element into text: its direct children are
 * visited in document order; links and bold/italic elements give their
 * stripped text, text nodes are taken verbatim, other elements give
 * nothing; the pieces are joined with no separator and the whole is
 * stripped. An absent element gives no text at all (`None`).
 */
module Extraction {
  import opened Wrappers
  import opened Text

  /** A direct child of a parsed element. */
  datatype Child =
    | Element(name: string, strings: seq<string>)  // an element child: its tag name and the text strings below it, in order
    | TextNode(text: string)                       // a string child (any text node), taken verbatim

  /** A present element, given by its children in document order. */
  type Node = seq<Child>

  /** The element names whose text is kept. */
  predicate KeepsText(name: string) {
    name == "a" || name == "strong" || name == "em"
  }

  /** The parser's `get_text(strip=True)`: every string below the element, stripped, joined with no separator. */
  function StrippedText(strings: seq<string>): string {
    if strings == [] then [] else StrippedText(strings[..|strings| - 1]) + Strip(strings[|strings| - 1])
  }

  /** What one child adds to the list of pieces: one piece, or none for an element that is not kept. */
  function PieceOf(c: Child): seq<string> {
    match c
    case Element(name, strings) => if KeepsText(name) then [StrippedText(strings)] else []
    case TextNode(t) => [t]
  }

  /** The pieces the children give, in document order. */
  function Pieces(cs: seq<Child>): seq<string> {
    if cs == [] then [] else Pieces(cs[..|cs| - 1]) + PieceOf(cs[|cs| - 1])
  }

  /**
   * The text of an element that may be absent: `None` exactly when it is
   * absent, and otherwise the stripped concatenation of its pieces, which
   * neither starts nor ends with whitespace.
   */
  function ExtractedText(node: Option<Node>): (r: Option<string>)
    ensures r.None? <==> node.None?
    ensures r.Some? ==> r.value == [] || (!IsSpace(r.value[0]) && !IsSpace(r.value[|r.value| - 1]))
  {
    match node
    case None => None
    case Some(cs) => Some(Strip(Concat(Pieces(cs))))
  }

  /** The loop over the children, appending one piece per kept child. */
  method ExtractText(node: Option<Node>) returns (r: Option<string>)
    ensures r == ExtractedText(node)
  {
    if node.None? {
      return None;
    }
    var children := node.value;
    var parts: seq<string> := [];
    for i := 0 to |children|
      invariant parts == Pieces(children[..i])
    {
      assert children[..i + 1][..i] == children[..i];
      match children[i]
      case Element(name, strings) =>
        if name == "a" {
          parts := parts + [StrippedText(strings)];
        } else if name == "strong" || name == "em" {
          parts := parts + [StrippedText(strings)];
        }
      case TextNode(t) =>
        parts := parts + [t];
    }
    assert children[..|children|] == children;
    r := Some(Strip(Concat(parts)));
  }

  lemma {:induction false} PiecesSplit(a: seq<Child>, b: seq<Child>)
    ensures Pieces(a + b) == Pieces(a) + Pieces(b)
  {
    if b == [] {
      assert a + b == a;
    } else {
      assert (a + b)[..|a + b| - 1] == a + b[..|b| - 1];
      PiecesSplit(a, b[..|b| - 1]);
    }
  }

  /** A single child gives exactly its own piece. */
  lemma PiecesSingle(c: Child)
    ensures Pieces([c]) == PieceOf(c)
  {
    assert [c][..0] == [];
  }

  /** A child element that is neither a link nor bold/italic makes no difference to the text, wherever it stands. */
  lemma IgnoresOtherElements(before: seq<Child>, name: string, strings: seq<string>, after: seq<Child>)
    requires !KeepsText(name)
    ensures ExtractedText(Some(before + [Element(name, strings)] + after)) == ExtractedText(Some(before + after))
  {
    var e := [Element(name, strings)];
    calc {
      Pieces(before + e + after);
    == { PiecesSplit(before + e, after); }
      Pieces(before + e) + Pieces(after);
    == { PiecesSplit(before, e); PiecesSingle(Element(name, strings)); }
      Pieces(before) + [] + Pieces(after);
    == { assert Pieces(before) + [] == Pieces(before); }
      Pieces(before) + Pieces(after);
    == { PiecesSplit(before, after); }
      Pieces(before + after);
    }
  }

  /** The text of an element with `c` among its children, in terms of what `c` contributes. */
  lemma {:induction false} ExtractedTextAround(before: seq<Child>, c: Child, after: seq<Child>)
    ensures ExtractedText(Some(before + [c] + after))
         == Some(Strip(Concat(Pieces(before)) + Concat(PieceOf(c)) + Concat(Pieces(after))))
  {
    assert Concat(Pieces(before + [c] + after)) == Concat(Pieces(before)) + Concat(PieceOf(c)) + Concat(Pieces(after)) by {
      PiecesSplit(before + [c], after);
      PiecesSplit(before, [c]);
      PiecesSingle(c);
      ConcatSplit(Pieces(before) + PieceOf(c), Pieces(after));
      ConcatSplit(Pieces(before), PieceOf(c));
    }
  }

  lemma ConcatSingle(t: string)
    ensures Concat([t]) == t
  {
    assert [t][..0] == [];
  }

  /** A text node is kept verbatim: only the final strip of the whole touches it. */
  lemma TextNodeVerbatim(before: seq<Child>, t: string, after: seq<Child>)
    ensures ExtractedText(Some(before + [TextNode(t)] + after))
         == Some(Strip(Concat(Pieces(before)) + t + Concat(Pieces(after))))
  {
    ExtractedTextAround(before, TextNode(t), after);
    ConcatSingle(t);
  }

  /** A link, bold or italic child contributes its own stripped text. */
  lemma KeptElementStripped(before: seq<Child>, name: string, strings: seq<string>, after: seq<Child>)
    requires KeepsText(name)
    ensures ExtractedText(Some(before + [Element(name, strings)] + after))
         == Some(Strip(Concat(Pieces(before)) + StrippedText(strings) + Concat(Pieces(after))))
  {
    ExtractedTextAround(before, Element(name, strings), after);
    ConcatSingle(StrippedText(strings));
  }

  /** One string below a link gives that string stripped. */
  lemma StrippedTextSingle(w: string)
    ensures StrippedText([w]) == Strip(w)
  {
    assert [w][..0] == [];
  }
}
