/**
 * The parsed XML document the flattener walks: elements with ordered
 * attributes and ordered child nodes, and the non-element nodes (character
 * data, comments, processing instructions) that can sit among the children.
 */
module XmlDom {
  import opened Wrappers

  datatype Attribute = Attribute(name: string, value: string)

  datatype Node =
    | Element(name: string, attributes: seq<Attribute>, children: seq<Node>)
    | Text(data: string)          // text, CDATA and whitespace nodes
    | Comment(data: string)
    | ProcessingInstruction(target: string, data: string)

  /** A loaded document: the nodes directly under the document node. */
  datatype Document = Document(nodes: seq<Node>)

  /** The document's root element: its first element child, or none. */
  function DocumentElement(doc: Document): (root: Option<Node>)
    ensures root.None? <==> forall k :: 0 <= k < |doc.nodes| ==> !doc.nodes[k].Element?
    ensures root.Some? ==> root.value.Element?
    ensures root.Some? ==>
      (exists k :: 0 <= k < |doc.nodes| && doc.nodes[k] == root.value &&
        forall j :: 0 <= j < k ==> !doc.nodes[j].Element?)
  {
    FirstElement(doc.nodes)
  }

  function FirstElement(nodes: seq<Node>): (first: Option<Node>)
    ensures first.None? <==> forall k :: 0 <= k < |nodes| ==> !nodes[k].Element?
    ensures first.Some? ==> first.value.Element?
    ensures first.Some? ==>
      (exists k :: 0 <= k < |nodes| && nodes[k] == first.value &&
        forall j :: 0 <= j < k ==> !nodes[j].Element?)
  {
    if |nodes| == 0 then None
    else if nodes[0].Element? then Some(nodes[0])
    else
      var rest := FirstElement(nodes[1..]);
      assert rest.Some? ==>
        (exists k :: 0 <= k < |nodes| && nodes[k] == rest.value &&
          forall j :: 0 <= j < k ==> !nodes[j].Element?) by {
        if rest.Some? {
          var k :| 0 <= k < |nodes[1..]| && nodes[1..][k] == rest.value &&
            forall j :: 0 <= j < k ==> !nodes[1..][j].Element?;
          assert nodes[k + 1] == rest.value;
          assert forall j :: 0 <= j < k + 1 ==> !nodes[j].Element? by {
            forall j | 0 <= j < k + 1 ensures !nodes[j].Element? {
              if j > 0 { assert nodes[j] == nodes[1..][j - 1]; }
            }
          }
        }
      }
      rest
  }

  /** The elements of the tree rooted at `n`, in document (pre-)order; a non-element has none. */
  function Elements(n: Node): (es: seq<Node>)
    ensures forall k :: 0 <= k < |es| ==> es[k].Element?
    ensures n.Element? ==> |es| >= 1 && es[0] == n
    ensures !n.Element? ==> es == []
  {
    match n
    case Element(_, _, children) => [n] + ElementsOf(children)
    case _ => []
  }

  /** The elements of the trees rooted at `nodes`, one tree after the other. */
  function ElementsOf(nodes: seq<Node>): (es: seq<Node>)
    ensures forall k :: 0 <= k < |es| ==> es[k].Element?
  {
    if |nodes| == 0 then []
    else ElementsOf(nodes[..|nodes| - 1]) + Elements(nodes[|nodes| - 1])
  }

  /**
   * The character data `n` contributes to an enclosing element's InnerText:
   * for an element, all of its descendant character data in document order;
   * comments and processing instructions contribute nothing.
   */
  function InnerText(n: Node): string
  {
    match n
    case Element(_, _, children) => InnerTextOf(children)
    case Text(data) => data
    case Comment(_) => ""
    case ProcessingInstruction(_, _) => ""
  }

  function InnerTextOf(nodes: seq<Node>): string
  {
    if |nodes| == 0 then ""
    else InnerTextOf(nodes[..|nodes| - 1]) + InnerText(nodes[|nodes| - 1])
  }

  /** The text of two runs of nodes is the text of the first followed by the text of the second. */
  lemma {:induction false} InnerTextOfAppend(xs: seq<Node>, ys: seq<Node>)
    ensures InnerTextOf(xs + ys) == InnerTextOf(xs) + InnerTextOf(ys)
  {
    if |ys| > 0 {
      var init := ys[..|ys| - 1];
      InnerTextOfAppend(xs, init);
      assert (xs + ys)[..|xs + ys| - 1] == xs + init;
      assert (xs + ys)[|xs + ys| - 1] == ys[|ys| - 1];
    } else {
      assert xs + ys == xs;
    }
  }

  /** Removing a comment or processing instruction from a run of nodes leaves its text unchanged. */
  lemma InnerTextSkipsMarkup(nodes: seq<Node>, k: nat)
    requires k < |nodes| && (nodes[k].Comment? || nodes[k].ProcessingInstruction?)
    ensures InnerTextOf(nodes) == InnerTextOf(nodes[..k] + nodes[k + 1..])
  {
    var before, x, after := nodes[..k], nodes[k], nodes[k + 1..];
    assert InnerTextOf(nodes) == InnerTextOf(before) + InnerTextOf([x] + after) by {
      assert nodes == before + ([x] + after);
      InnerTextOfAppend(before, [x] + after);
    }
    assert InnerTextOf([x] + after) == InnerTextOf(after) by {
      InnerTextOfAppend([x], after);
      assert [x][..0] == [];
    }
    InnerTextOfAppend(before, after);
  }

  /** The text of an element is the text of its children, one after the other, whatever lies between them. */
  lemma InnerTextOfElement(n: Node, i: nat)
    requires n.Element? && i <= |n.children|
    ensures InnerText(n) == InnerTextOf(n.children[..i]) + InnerTextOf(n.children[i..])
  {
    assert n.children == n.children[..i] + n.children[i..];
    InnerTextOfAppend(n.children[..i], n.children[i..]);
  }

  /** The characters String.Trim removes: those Char.IsWhiteSpace accepts. */
  predicate IsWhiteSpace(c: char)
  {
    ('\t' <= c <= '\r') || c == ' ' || c == '\U{0085}' || c == '\U{00A0}' || c == '\U{1680}' ||
    ('\U{2000}' <= c <= '\U{200A}') || c == '\U{2028}' || c == '\U{2029}' || c == '\U{202F}' ||
    c == '\U{205F}' || c == '\U{3000}'
  }

  /** How many white-space characters `s` starts with. */
  function LeadingWhiteSpace(s: string): (n: nat)
    ensures n <= |s|
  {
    if |s| == 0 || !IsWhiteSpace(s[0]) then 0 else 1 + LeadingWhiteSpace(s[1..])
  }

  /** How many white-space characters `s` ends with. */
  function TrailingWhiteSpace(s: string): (n: nat)
    ensures n <= |s|
  {
    if |s| == 0 || !IsWhiteSpace(s[|s| - 1]) then 0 else 1 + TrailingWhiteSpace(s[..|s| - 1])
  }

  /** String.Trim: `s` with its leading and trailing white space removed. */
  function Trim(s: string): string
  {
    var t := s[LeadingWhiteSpace(s)..];
    t[..|t| - TrailingWhiteSpace(t)]
  }

  /** LeadingWhiteSpace counts the longest white-space prefix. */
  lemma {:induction false} LeadingWhiteSpaceIsLongest(s: string)
    ensures forall k :: 0 <= k < LeadingWhiteSpace(s) ==> IsWhiteSpace(s[k])
    ensures LeadingWhiteSpace(s) < |s| ==> !IsWhiteSpace(s[LeadingWhiteSpace(s)])
  {
    if |s| > 0 && IsWhiteSpace(s[0]) {
      LeadingWhiteSpaceIsLongest(s[1..]);
      assert forall k :: 1 <= k < LeadingWhiteSpace(s) ==> s[k] == s[1..][k - 1];
    }
  }

  /** TrailingWhiteSpace counts the longest white-space suffix. */
  lemma {:induction false} TrailingWhiteSpaceIsLongest(s: string)
    ensures forall k :: |s| - TrailingWhiteSpace(s) <= k < |s| ==> IsWhiteSpace(s[k])
    ensures TrailingWhiteSpace(s) < |s| ==> !IsWhiteSpace(s[|s| - 1 - TrailingWhiteSpace(s)])
  {
    if |s| > 0 && IsWhiteSpace(s[|s| - 1]) {
      TrailingWhiteSpaceIsLongest(s[..|s| - 1]);
    }
  }

  /** Cutting the trailing white space leaves a text that does not end in white space. */
  lemma TrimEnd(t: string)
    ensures var r := t[..|t| - TrailingWhiteSpace(t)];
      && (|r| == 0 || !IsWhiteSpace(r[|r| - 1]))
      && (forall k :: |r| <= k < |t| ==> IsWhiteSpace(t[k]))
      && (|t| > 0 && !IsWhiteSpace(t[0]) ==> |r| > 0)
  {
    TrailingWhiteSpaceIsLongest(t);
  }

  /** The trimmed text neither starts nor ends with white space. */
  lemma TrimHasNoOuterWhiteSpace(s: string)
    ensures var r := Trim(s);
      |r| == 0 || (!IsWhiteSpace(r[0]) && !IsWhiteSpace(r[|r| - 1]))
  {
    var i := LeadingWhiteSpace(s);
    var t := s[i..];
    LeadingWhiteSpaceIsLongest(s);
    TrimEnd(t);
    var r := Trim(s);
    if |r| > 0 {
      assert r[0] == t[0] == s[i];
    }
  }

  /** Everything Trim cuts away, before and after the trimmed text, is white space. */
  lemma TrimCutsOnlyWhiteSpace(s: string)
    ensures var r, i := Trim(s), LeadingWhiteSpace(s);
      && (forall k :: 0 <= k < i ==> IsWhiteSpace(s[k]))
      && (forall k :: i + |r| <= k < |s| ==> IsWhiteSpace(s[k]))
  {
    var i := LeadingWhiteSpace(s);
    var t := s[i..];
    var r := Trim(s);
    LeadingWhiteSpaceIsLongest(s);
    TrimEnd(t);
    forall k | i + |r| <= k < |s| ensures IsWhiteSpace(s[k]) {
      assert s[k] == t[k - i];
    }
  }

  /**
   * The trimmed text neither starts nor ends with white space, and the
   * original is the trimmed text with nothing but white space around it.
   * This is the combined statement of TrimHasNoOuterWhiteSpace and
   * TrimCutsOnlyWhiteSpace, together with the position of the kept text.
   */
  lemma TrimSpec(s: string)
    ensures var r, i := Trim(s), LeadingWhiteSpace(s);
      && (|r| == 0 || (!IsWhiteSpace(r[0]) && !IsWhiteSpace(r[|r| - 1])))
      && i + |r| <= |s| && s[i..i + |r|] == r
      && (forall k :: 0 <= k < i ==> IsWhiteSpace(s[k]))
      && (forall k :: i + |r| <= k < |s| ==> IsWhiteSpace(s[k]))
  {
    TrimHasNoOuterWhiteSpace(s);
    TrimCutsOnlyWhiteSpace(s);
  }
}
