/** HTML nodes and their serialisation: a leaf holds a tag, a value and
    attributes; a parent holds a tag, an ordered list of children and
    attributes. Rendering either yields the whole HTML string or the error the
    first malformed node raises. */
module HtmlNodes {
  import opened Wrappers
  import opened TextNodes

  /** No key occurs twice. */
  predicate DistinctKeys(ps: seq<(string, string)>)
  {
    forall i, j :: 0 <= i < j < |ps| ==> ps[i].0 != ps[j].0
  }

  /** A dictionary of attributes: key/value pairs in insertion order. The
      order is observable in the output, so it is kept explicitly. */
  type Attributes = ps: seq<(string, string)> | DistinctKeys(ps)

  /** The three conditions under which rendering raises. */
  datatype HtmlError = MissingValue | MissingTag | MissingChildren

  /** The two node shapes. Every field may be absent, as in the source, and
      rendering decides what an absent field means. */
  datatype Node =
    | Leaf(tag: Option<string>, value: Option<string>, props: Option<Attributes>)
    | Parent(tag: Option<string>, children: ChildList, props: Option<Attributes>)

  /** A parent's children: absent, or a list (possibly empty) in order. */
  datatype ChildList = NoChildren | Children(nodes: seq<Node>)

  // ---------------------------------------------------------------------
  // Attributes as HTML
  // ---------------------------------------------------------------------

  /** One attribute: a leading space, the key, and the value in double
      quotes, emitted verbatim (no escaping). */
  function Attr(key: string, value: string): string
  {
    " " + key + "=\"" + value + "\""
  }

  /** The attributes, one after the other, in list order. */
  function AttrsHtml(ps: seq<(string, string)>): string
  {
    if ps == [] then "" else Attr(ps[0].0, ps[0].1) + AttrsHtml(ps[1..])
  }

  /** The attribute string of a node: nothing when there are no attributes. */
  function PropsHtml(props: Option<Attributes>): string
  {
    match props
    case None => ""
    case Some(ps) => AttrsHtml(ps)
  }

  lemma {:induction false} AttrsHtmlAppend(a: seq<(string, string)>, b: seq<(string, string)>)
    ensures AttrsHtml(a + b) == AttrsHtml(a) + AttrsHtml(b)
  {
    if a == [] {
      assert a + b == b;
    } else {
      assert (a + b)[1..] == a[1..] + b;
      AttrsHtmlAppend(a[1..], b);
    }
  }

  /** Extending the list by one pair appends that pair's attribute. */
  lemma AttrsHtmlSnoc(ps: seq<(string, string)>, i: nat)
    requires i < |ps|
    ensures AttrsHtml(ps[..i + 1]) == AttrsHtml(ps[..i]) + Attr(ps[i].0, ps[i].1)
  {
    assert ps[..i + 1] == ps[..i] + [ps[i]];
    AttrsHtmlAppend(ps[..i], [ps[i]]);
  }

  /** Insertion order is output order: the i-th pair's attribute sits between
      the attributes of the pairs before it and those after it. */
  lemma AttrsHtmlSplit(ps: seq<(string, string)>, i: nat)
    requires i < |ps|
    ensures AttrsHtml(ps) == AttrsHtml(ps[..i]) + Attr(ps[i].0, ps[i].1) + AttrsHtml(ps[i + 1..])
  {
    assert ps == ps[..i + 1] + ps[i + 1..];
    AttrsHtmlAppend(ps[..i + 1], ps[i + 1..]);
    AttrsHtmlSnoc(ps, i);
  }

  /** The attribute string is empty exactly when there are no attributes
      (absent or an empty dictionary); otherwise it starts with a space. */
  lemma PropsHtmlEmptyIff(props: Option<Attributes>)
    ensures PropsHtml(props) == "" <==> props.None? || props.value == []
    ensures PropsHtml(props) != "" ==> PropsHtml(props)[0] == ' '
  {
  }

  /** The attribute serialiser shared by both node shapes: it accumulates one
      attribute per pair, in insertion order. */
  method PropsToHtml(props: Option<Attributes>) returns (output: string)
    ensures output == PropsHtml(props)
  {
    output := "";
    if props.None? {
      return "";
    }
    var ps := props.value;
    for i := 0 to |ps|
      invariant output == AttrsHtml(ps[..i])
    {
      var (key, value) := ps[i];
      output := output + " " + key + "=\"" + value + "\"";
      AttrsHtmlSnoc(ps, i);
    }
    assert ps[..|ps|] == ps;
  }

  // ---------------------------------------------------------------------
  // Attributes in the node's debug representation
  // ---------------------------------------------------------------------

  /** The parts joined with the separator between consecutive parts. */
  function Join(sep: string, parts: seq<string>): string
  {
    if parts == [] then ""
    else if |parts| == 1 then parts[0]
    else parts[0] + sep + Join(sep, parts[1..])
  }

  /** `key=value` for every pair, in insertion order. */
  function ReprItems(ps: seq<(string, string)>): (items: seq<string>)
    ensures |items| == |ps|
  {
    if ps == [] then [] else [ps[0].0 + "=" + ps[0].1] + ReprItems(ps[1..])
  }

  /** The `props:` part of a node's representation: the pairs joined by
      single spaces, or nothing when there are no attributes. */
  function PropsRepr(props: Option<Attributes>): string
  {
    if props.None? || props.value == [] then "" else Join(" ", ReprItems(props.value))
  }

  /** Each pair preceded by a space: an independent description of the
      representation, for comparison with the joined form. */
  function SpacedItems(ps: seq<(string, string)>): string
  {
    if ps == [] then "" else " " + ps[0].0 + "=" + ps[0].1 + SpacedItems(ps[1..])
  }

  lemma {:induction false} JoinSpaced(ps: seq<(string, string)>)
    requires ps != []
    ensures " " + Join(" ", ReprItems(ps)) == SpacedItems(ps)
  {
    if |ps| > 1 {
      JoinSpaced(ps[1..]);
      assert ReprItems(ps)[1..] == ReprItems(ps[1..]);
    }
  }

  /** With attributes present, the representation is every `key=value` in
      insertion order, separated by single spaces and with no leading or
      trailing separator. */
  lemma PropsReprSpaced(ps: Attributes)
    requires ps != []
    ensures " " + PropsRepr(Some(ps)) == SpacedItems(ps)
  {
    JoinSpaced(ps);
  }

  /** The representation's attribute part: it collects `key=value` for each
      pair, then joins them with spaces. */
  method PropsToRepr(props: Option<Attributes>) returns (propsStr: string)
    ensures propsStr == PropsRepr(props)
  {
    propsStr := "";
    if props.Some? && props.value != [] {
      var ps := props.value;
      var propsList: seq<string> := [];
      for i := 0 to |ps|
        invariant propsList == ReprItems(ps[..i])
      {
        var (key, value) := ps[i];
        propsList := propsList + [key + "=" + value];
        ReprItemsSnoc(ps, i);
      }
      assert ps[..|ps|] == ps;
      propsStr := Join(" ", propsList);
    }
  }

  lemma {:induction false} ReprItemsAppend(a: seq<(string, string)>, b: seq<(string, string)>)
    ensures ReprItems(a + b) == ReprItems(a) + ReprItems(b)
  {
    if a == [] {
      assert a + b == b;
    } else {
      assert (a + b)[1..] == a[1..] + b;
      ReprItemsAppend(a[1..], b);
    }
  }

  lemma ReprItemsSnoc(ps: seq<(string, string)>, i: nat)
    requires i < |ps|
    ensures ReprItems(ps[..i + 1]) == ReprItems(ps[..i]) + [ps[i].0 + "=" + ps[i].1]
  {
    assert ps[..i + 1] == ps[..i] + [ps[i]];
    ReprItemsAppend(ps[..i], [ps[i]]);
  }

  // ---------------------------------------------------------------------
  // Rendering
  // ---------------------------------------------------------------------

  function OpenTag(tag: string, props: Option<Attributes>): string
  {
    "<" + tag + PropsHtml(props) + ">"
  }

  function CloseTag(tag: string): string
  {
    "</" + tag + ">"
  }

  /** Two renderings one after the other: the first error wins, otherwise
      the outputs are concatenated. */
  function Then(a: Result<string, HtmlError>, b: Result<string, HtmlError>): Result<string, HtmlError>
  {
    if a.Err? then a else if b.Err? then b else Ok(a.value + b.value)
  }

  /** What rendering a node yields. A parent renders each child in list
      order and joins the results. */
  function Render(n: Node): Result<string, HtmlError>
    decreases n
  {
    match n
    case Leaf(tag, value, props) =>
      if value.None? then Err(MissingValue)
      else if tag.None? then Ok(value.value)
      else Ok(OpenTag(tag.value, props) + value.value + CloseTag(tag.value))
    case Parent(None, _, _) => Err(MissingTag)
    case Parent(Some(_), NoChildren, _) => Err(MissingChildren)
    case Parent(Some(tag), Children(cs), props) =>
      match JoinResults(seq(|cs|, i requires 0 <= i < |cs| => Render(cs[i])))
      case Err(e) => Err(e)
      case Ok(inner) => Ok(OpenTag(tag, props) + inner + CloseTag(tag))
  }

  /** Renderings one after the other: the first error wins, otherwise the
      outputs are concatenated in order. */
  function JoinResults(rs: seq<Result<string, HtmlError>>): Result<string, HtmlError>
  {
    if rs == [] then Ok("") else Then(rs[0], JoinResults(rs[1..]))
  }

  /** Each child's rendering, in list order. */
  function Rendered(cs: seq<Node>): seq<Result<string, HtmlError>>
  {
    seq(|cs|, i requires 0 <= i < |cs| => Render(cs[i]))
  }

  /** The children rendered left to right and concatenated. */
  function RenderChildren(cs: seq<Node>): Result<string, HtmlError>
  {
    JoinResults(Rendered(cs))
  }

  lemma RenderParent(tag: string, cs: seq<Node>, props: Option<Attributes>)
    ensures Render(Parent(Some(tag), Children(cs), props)) ==
      match RenderChildren(cs)
      case Err(e) => Err(e)
      case Ok(inner) => Ok(OpenTag(tag, props) + inner + CloseTag(tag))
  {
  }

  lemma ThenAssociative(a: Result<string, HtmlError>, b: Result<string, HtmlError>, c: Result<string, HtmlError>)
    ensures Then(Then(a, b), c) == Then(a, Then(b, c))
  {
    if a.Ok? && b.Ok? && c.Ok? {
      assert (a.value + b.value) + c.value == a.value + (b.value + c.value);
    }
  }

  lemma {:induction false} JoinResultsAppend(a: seq<Result<string, HtmlError>>, b: seq<Result<string, HtmlError>>)
    ensures JoinResults(a + b) == Then(JoinResults(a), JoinResults(b))
  {
    if a == [] {
      assert a + b == b;
      assert JoinResults(b).Ok? ==> "" + JoinResults(b).value == JoinResults(b).value;
    } else {
      assert (a + b)[1..] == a[1..] + b;
      JoinResultsAppend(a[1..], b);
      ThenAssociative(a[0], JoinResults(a[1..]), JoinResults(b));
    }
  }

  /** Rendering a split list of children is rendering the two parts one after
      the other. */
  lemma RenderChildrenAppend(a: seq<Node>, b: seq<Node>)
    ensures RenderChildren(a + b) == Then(RenderChildren(a), RenderChildren(b))
  {
    assert Rendered(a + b) == Rendered(a) + Rendered(b);
    JoinResultsAppend(Rendered(a), Rendered(b));
  }

  lemma RenderChildrenSnoc(cs: seq<Node>, i: nat)
    requires i < |cs|
    ensures RenderChildren(cs[..i + 1]) == Then(RenderChildren(cs[..i]), Render(cs[i]))
  {
    assert cs[..i + 1] == cs[..i] + [cs[i]];
    RenderChildrenAppend(cs[..i], [cs[i]]);
    assert Rendered([cs[i]]) == [Render(cs[i])];
    assert JoinResults([Render(cs[i])]) == Then(Render(cs[i]), Ok(""));
    assert Render(cs[i]).Ok? ==> Render(cs[i]).value + "" == Render(cs[i]).value;
  }

  /** Once a prefix of the children fails, the rest cannot change the error. */
  lemma RenderChildrenPrefixError(cs: seq<Node>, k: nat)
    requires k <= |cs|
    requires RenderChildren(cs[..k]).Err?
    ensures RenderChildren(cs) == RenderChildren(cs[..k])
  {
    assert cs == cs[..k] + cs[k..];
    RenderChildrenAppend(cs[..k], cs[k..]);
  }

  /** The concatenation of strings, in order. */
  function Concat(parts: seq<string>): string
  {
    if parts == [] then "" else parts[0] + Concat(parts[1..])
  }

  /** When every child renders, the children render to their outputs
      concatenated in list order. */
  lemma {:induction false} RenderChildrenConcat(cs: seq<Node>, outs: seq<string>)
    requires |outs| == |cs|
    requires forall i :: 0 <= i < |cs| ==> Render(cs[i]) == Ok(outs[i])
    ensures RenderChildren(cs) == Ok(Concat(outs))
  {
    if cs != [] {
      RenderChildrenConcat(cs[1..], outs[1..]);
      assert cs == [cs[0]] + cs[1..];
      RenderChildrenAppend([cs[0]], cs[1..]);
      assert Rendered([cs[0]]) == [Render(cs[0])];
      assert JoinResults([Render(cs[0])]) == Then(Render(cs[0]), Ok(""));
      assert outs[0] + "" == outs[0];
    }
  }

  /** The children render exactly when every child renders. */
  lemma {:induction false} RenderChildrenOkIff(cs: seq<Node>)
    ensures RenderChildren(cs).Ok? <==> forall i :: 0 <= i < |cs| ==> Render(cs[i]).Ok?
  {
    if cs != [] {
      RenderChildrenOkIff(cs[1..]);
      assert cs == [cs[0]] + cs[1..];
      RenderChildrenAppend([cs[0]], cs[1..]);
      assert Rendered([cs[0]]) == [Render(cs[0])];
      assert JoinResults([Render(cs[0])]) == Then(Render(cs[0]), Ok(""));
      assert forall i :: 1 <= i < |cs| ==> cs[i] == cs[1..][i - 1];
    }
  }

  /** Children are rendered left to right: when child k is the first to fail,
      its error is the error of the whole list, whatever follows it. */
  lemma RenderChildrenFirstError(cs: seq<Node>, k: nat)
    requires k < |cs|
    requires forall i :: 0 <= i < k ==> Render(cs[i]).Ok?
    requires Render(cs[k]).Err?
    ensures RenderChildren(cs) == Err(Render(cs[k]).error)
  {
    RenderChildrenOkIff(cs[..k]);
    RenderChildrenSnoc(cs, k);
    RenderChildrenPrefixError(cs, k + 1);
  }

  // ---------------------------------------------------------------------
  // What rendering promises
  // ---------------------------------------------------------------------

  /** A leaf fails exactly when its value is absent, whatever its tag and
      attributes; without a tag it is its value verbatim, attributes
      ignored; with a tag the value is wrapped in that tag with the node's
      attribute string. */
  lemma RenderLeaf(tag: Option<string>, value: Option<string>, props: Option<Attributes>)
    ensures Render(Leaf(tag, value, props)).Err? <==> value.None?
    ensures value.None? ==> Render(Leaf(tag, value, props)) == Err(MissingValue)
    ensures value.Some? && tag.None? ==> Render(Leaf(tag, value, props)) == Ok(value.value)
    ensures value.Some? && tag.Some? ==>
      Render(Leaf(tag, value, props)) == Ok(OpenTag(tag.value, props) + value.value + CloseTag(tag.value))
  {
  }

  /** A tagged leaf renders exactly like a parent with the same tag and
      attributes whose one child is an untagged leaf holding the value. */
  lemma LeafAsParent(tag: string, value: string, props: Option<Attributes>)
    ensures Render(Leaf(Some(tag), Some(value), props)) ==
            Render(Parent(Some(tag), Children([Leaf(None, Some(value), None)]), props))
  {
    var child := Leaf(None, Some(value), None);
    RenderChildrenConcat([child], [value]);
    assert Concat([value]) == value + "" == value;
    RenderParent(tag, [child], props);
  }

  /** A parent without a tag fails with the missing-tag error whatever its
      children (the tag is checked first); with a tag but no children it
      fails with the missing-children error; an empty list of children gives
      the opening tag followed directly by the closing tag. */
  lemma RenderParentErrors(tag: Option<string>, children: ChildList, props: Option<Attributes>)
    ensures tag.None? ==> Render(Parent(tag, children, props)) == Err(MissingTag)
    ensures tag.Some? && children.NoChildren? ==> Render(Parent(tag, children, props)) == Err(MissingChildren)
    ensures tag.Some? && children == Children([]) ==>
      Render(Parent(tag, children, props)) == Ok(OpenTag(tag.value, props) + CloseTag(tag.value))
  {
    if tag.Some? && children == Children([]) {
      RenderParent(tag.value, [], props);
      assert OpenTag(tag.value, props) + "" == OpenTag(tag.value, props);
    }
  }

  /** A parent whose children all render yields its opening tag with its
      attribute string, each child's output in list order, and its closing
      tag. */
  lemma RenderParentConcat(tag: string, cs: seq<Node>, props: Option<Attributes>, outs: seq<string>)
    requires |outs| == |cs|
    requires forall i :: 0 <= i < |cs| ==> Render(cs[i]) == Ok(outs[i])
    ensures Render(Parent(Some(tag), Children(cs), props)) ==
            Ok(OpenTag(tag, props) + Concat(outs) + CloseTag(tag))
  {
    RenderChildrenConcat(cs, outs);
    RenderParent(tag, cs, props);
  }

  /** A parent whose child k is the first to fail yields that child's error. */
  lemma RenderParentFirstError(tag: string, cs: seq<Node>, props: Option<Attributes>, k: nat)
    requires k < |cs|
    requires forall i :: 0 <= i < k ==> Render(cs[i]).Ok?
    requires Render(cs[k]).Err?
    ensures Render(Parent(Some(tag), Children(cs), props)) == Err(Render(cs[k]).error)
  {
    RenderChildrenFirstError(cs, k);
    RenderParent(tag, cs, props);
  }

  /** Every leaf has a value and every parent a tag and a list of children,
      throughout the tree. */
  predicate WellFormed(n: Node)
    decreases n
  {
    match n
    case Leaf(_, value, _) => value.Some?
    case Parent(tag, NoChildren, _) => false
    case Parent(tag, Children(cs), _) => tag.Some? && forall i :: 0 <= i < |cs| ==> WellFormed(cs[i])
  }

  /** Rendering succeeds exactly on well-formed trees. */
  lemma {:induction false} RenderOkIffWellFormed(n: Node)
    ensures Render(n).Ok? <==> WellFormed(n)
    decreases n
  {
    match n
    case Leaf(_, _, _) =>
    case Parent(None, _, _) =>
    case Parent(Some(_), NoChildren, _) =>
    case Parent(Some(tag), Children(cs), props) =>
      forall i | 0 <= i < |cs|
        ensures Render(cs[i]).Ok? <==> WellFormed(cs[i])
      {
        RenderOkIffWellFormed(cs[i]);
      }
      RenderChildrenOkIff(cs);
      RenderParent(tag, cs, props);
  }

  // ---------------------------------------------------------------------
  // Rendering, step by step
  // ---------------------------------------------------------------------

  /** Serialises a node by dispatching on its shape. */
  method ToHtml(n: Node) returns (r: Result<string, HtmlError>)
    ensures r == Render(n)
    decreases n, 1
  {
    if n.Leaf? {
      r := LeafToHtml(n);
    } else {
      r := ParentToHtml(n);
    }
  }

  /** A leaf checks its value, then its tag, and wraps its value in the tag
      with the shared attribute serialiser. */
  method LeafToHtml(n: Node) returns (r: Result<string, HtmlError>)
    requires n.Leaf?
    ensures r == Render(n)
  {
    if n.value.None? {
      return Err(MissingValue);
    }
    if n.tag.None? {
      return Ok(n.value.value);
    }
    var propsHtml := PropsToHtml(n.props);
    return Ok("<" + n.tag.value + propsHtml + ">" + n.value.value + ("</" + n.tag.value + ">"));
  }

  /** A parent's opening tag: with its own attribute loop when it has
      attributes, bare otherwise. */
  method ParentOpenTag(t: string, props: Option<Attributes>) returns (html: string)
    ensures html == OpenTag(t, props)
  {
    if props.Some? && props.value != [] {
      var ps := props.value;
      var propsStr := "";
      for i := 0 to |ps|
        invariant propsStr == AttrsHtml(ps[..i])
      {
        var (prop, value) := ps[i];
        propsStr := propsStr + " " + prop + "=\"" + value + "\"";
        AttrsHtmlSnoc(ps, i);
      }
      assert ps[..|ps|] == ps;
      html := "<" + t + propsStr + ">";
    } else {
      html := "<" + t + ">";
    }
  }

  /** One more child rendered: appending its output to the output so far
      gives the output of one more child. */
  lemma ChildAppended(cs: seq<Node>, i: nat, open: string, html: string, out: string)
    requires i < |cs| && Render(cs[i]) == Ok(out)
    requires RenderChildren(cs[..i]).Ok? && html == open + RenderChildren(cs[..i]).value
    ensures RenderChildren(cs[..i + 1]) == Ok(RenderChildren(cs[..i]).value + out)
    ensures html + out == open + RenderChildren(cs[..i + 1]).value
  {
    var done := RenderChildren(cs[..i]).value;
    assert RenderChildren(cs[..i + 1]) == Ok(done + out) by {
      RenderChildrenSnoc(cs, i);
    }
    AppendAssociative(open, done, out);
  }

  lemma AppendAssociative(a: string, b: string, c: string)
    ensures (a + b) + c == a + (b + c)
  {
  }

  /** A parent checks its tag, then its children, writes its opening tag
      (`ParentOpenTag`), appends each child's output in order, and closes
      the tag. A failing child's error is passed on. */
  method ParentToHtml(n: Node) returns (r: Result<string, HtmlError>)
    requires n.Parent?
    ensures r == Render(n)
    decreases n, 0
  {
    if n.tag.None? {
      return Err(MissingTag);
    }
    if n.children.NoChildren? {
      return Err(MissingChildren);
    }
    var t, cs, props := n.tag.value, n.children.nodes, n.props;
    var html := ParentOpenTag(t, props);
    for i := 0 to |cs|
      invariant RenderChildren(cs[..i]).Ok?
      invariant html == OpenTag(t, props) + RenderChildren(cs[..i]).value
    {
      var child := ToHtml(cs[i]);
      if child.Err? {
        assert Render(n) == child by {
          RenderChildrenSnoc(cs, i);
          RenderChildrenPrefixError(cs, i + 1);
          RenderParent(t, cs, props);
        }
        return Err(child.error);
      }
      ChildAppended(cs, i, OpenTag(t, props), html, child.value);
      html := html + child.value;
    }
    assert Render(n) == Ok(html + CloseTag(t)) by {
      assert cs[..|cs|] == cs;
      RenderParent(t, cs, props);
    }
    html := html + ("</" + t + ">");
    return Ok(html);
  }

  // ---------------------------------------------------------------------
  // Text spans to leaves
  // ---------------------------------------------------------------------

  /** A destination as it reads once formatted into a string: the string
      itself, or `None` when it is absent. */
  function UrlText(url: Option<string>): string
  {
    match url
    case Some(u) => u
    case None => "None"
  }

  /** The leaf that stands for a span of text: raw text, a `b`, `i` or
      `code` element, a link whose `href` is the destination, or an image
      whose `src` is the destination and whose `alt` is the text. */
  function TextNodeToHtmlNode(tn: TextNode): (n: Node)
    ensures n.Leaf? && n.value.Some?
    ensures n.tag.None? <==> tn.textType == Text
    ensures n.props.Some? <==> tn.textType == Link || tn.textType == Image
    ensures n.value.value == if tn.textType == Image then "" else tn.text
    ensures Render(n).Ok?
    ensures tn.textType == Bold ==> n.tag == Some("b") && n.props == None
    ensures tn.textType == Italic ==> n.tag == Some("i") && n.props == None
    ensures tn.textType == Code ==> n.tag == Some("code") && n.props == None
    ensures tn.textType == Link ==> n.tag == Some("a") && n.props == Some([("href", UrlText(tn.url))])
    ensures tn.textType == Image ==>
      n.tag == Some("img") && n.props == Some([("src", UrlText(tn.url)), ("alt", tn.text)])
  {
    match tn.textType
    case Text => Leaf(None, Some(tn.text), None)
    case Bold => Leaf(Some("b"), Some(tn.text), None)
    case Italic => Leaf(Some("i"), Some(tn.text), None)
    case Code => Leaf(Some("code"), Some(tn.text), None)
    case Link => Leaf(Some("a"), Some(tn.text), Some([("href", UrlText(tn.url))]))
    case Image => Leaf(Some("img"), Some(""), Some([("src", UrlText(tn.url)), ("alt", tn.text)]))
  }

  /** The HTML each kind of span ends up as. */
  lemma RenderTextNode(tn: TextNode)
    ensures Render(TextNodeToHtmlNode(tn)) == Ok(
      match tn.textType
      case Text => tn.text
      case Bold => "<b>" + tn.text + "</b>"
      case Italic => "<i>" + tn.text + "</i>"
      case Code => "<code>" + tn.text + "</code>"
      case Link => "<a" + Attr("href", UrlText(tn.url)) + ">" + tn.text + "</a>"
      case Image => "<img" + Attr("src", UrlText(tn.url)) + Attr("alt", tn.text) + "></img>")
  {
    var t, u := tn.text, UrlText(tn.url);
    match tn.textType
    case Text =>
    case Bold =>
      PlainElementHtml("b", t);
      assert "<" + "b" + ">" == "<b>" && "</" + "b" + ">" == "</b>";
    case Italic =>
      PlainElementHtml("i", t);
      assert "<" + "i" + ">" == "<i>" && "</" + "i" + ">" == "</i>";
    case Code =>
      PlainElementHtml("code", t);
      assert "<" + "code" + ">" == "<code>" && "</" + "code" + ">" == "</code>";
    case Link => LinkHtml(t, u);
    case Image => ImageHtml(t, u);
  }

  lemma PlainElementHtml(tag: string, text: string)
    ensures Render(Leaf(Some(tag), Some(text), None)) == Ok(("<" + tag + ">") + text + ("</" + tag + ">"))
  {
    assert OpenTag(tag, None) == "<" + tag + ">";
  }

  lemma LinkHtml(text: string, url: string)
    ensures Render(Leaf(Some("a"), Some(text), Some([("href", url)]))) ==
            Ok("<a" + Attr("href", url) + ">" + text + "</a>")
  {
    var href := Attr("href", url);
    assert AttrsHtml([("href", url)]) == href + "" == href;
    assert "<" + "a" == "<a" && CloseTag("a") == "</a>";
    assert OpenTag("a", Some([("href", url)])) == "<a" + href + ">";
  }

  lemma ImageHtml(text: string, url: string)
    ensures Render(Leaf(Some("img"), Some(""), Some([("src", url), ("alt", text)]))) ==
            Ok("<img" + Attr("src", url) + Attr("alt", text) + "></img>")
  {
    var ps := [("src", url), ("alt", text)];
    var src, alt := Attr("src", url), Attr("alt", text);
    assert AttrsHtml(ps) == src + alt by {
      assert ps[1..] == [("alt", text)];
      assert AttrsHtml([("alt", text)]) == alt + "";
    }
    assert "<" + "img" == "<img" && CloseTag("img") == "</img>";
    calc {
      OpenTag("img", Some(ps)) + "" + CloseTag("img");
      ("<img" + (src + alt) + ">") + "</img>";
      { assert ">" + "</img>" == "></img>"; }
      "<img" + src + alt + "></img>";
    }
  }

  /** The destination matters only to links and images. */
  lemma UrlIgnoredUnlessLinkOrImage(tn: TextNode, url: Option<string>)
    requires tn.textType != Link && tn.textType != Image
    ensures TextNodeToHtmlNode(tn.(url := url)) == TextNodeToHtmlNode(tn)
  {
  }

  /** Raw text, a bold element and raw text inside a span render in order
      between the span's tags. */
  lemma MixedSpan(before: string, bold: string, after: string)
    ensures Render(Parent(Some("span"), Children([
        Leaf(None, Some(before), None),
        Leaf(Some("b"), Some(bold), None),
        Leaf(None, Some(after), None)]), None))
      == Ok("<span>" + before + ("<b>" + bold + "</b>") + after + "</span>")
  {
    var cs := [Leaf(None, Some(before), None), Leaf(Some("b"), Some(bold), None), Leaf(None, Some(after), None)];
    var b := "<b>" + bold + "</b>";
    assert Render(cs[1]) == Ok(b) by {
      PlainElementHtml("b", bold);
      assert "<" + "b" + ">" == "<b>" && "</" + "b" + ">" == "</b>";
    }
    var outs := [before, b, after];
    assert Concat(outs) == before + b + after by {
      assert outs[1..] == [b, after] && [b, after][1..] == [after];
      assert Concat([after]) == after + "";
    }
    var html := "<span>" + before + b + after + "</span>";
    assert html == ("<" + "span" + ">") + Concat(outs) + ("</" + "span" + ">") by {
      assert "<" + "span" + ">" == "<span>" && "</" + "span" + ">" == "</span>";
    }
    RenderBare("span", cs, outs, html);
  }

  /** Spans converted to leaves and wrapped in one parent render as the
      parent's tags around the spans' HTML in order. */
  lemma SpanOfTextNodes(before: string, bold: string, after: string)
    ensures Render(Parent(Some("span"), Children([
        TextNodeToHtmlNode(TextNode(before, Text)),
        TextNodeToHtmlNode(TextNode(bold, Bold)),
        TextNodeToHtmlNode(TextNode(after, Text))]), None))
      == Ok("<span>" + before + ("<b>" + bold + "</b>") + after + "</span>")
  {
    assert TextNodeToHtmlNode(TextNode(before, Text)) == Leaf(None, Some(before), None);
    assert TextNodeToHtmlNode(TextNode(bold, Bold)) == Leaf(Some("b"), Some(bold), None);
    assert TextNodeToHtmlNode(TextNode(after, Text)) == Leaf(None, Some(after), None);
    MixedSpan(before, bold, after);
  }

  /** A parent over children that all render, with no attributes, as a
      literal string. */
  lemma RenderBare(tag: string, cs: seq<Node>, outs: seq<string>, html: string)
    requires |outs| == |cs|
    requires forall i :: 0 <= i < |cs| ==> Render(cs[i]) == Ok(outs[i])
    requires html == ("<" + tag + ">") + Concat(outs) + ("</" + tag + ">")
    ensures Render(Parent(Some(tag), Children(cs), None)) == Ok(html)
  {
    RenderParentConcat(tag, cs, None, outs);
    assert OpenTag(tag, None) == "<" + tag + ">";
  }

  /** A parent with a single child and no attributes wraps the child's
      output in its tags. */
  lemma OnlyChild(tag: string, child: Node, inner: string)
    requires Render(child) == Ok(inner)
    ensures Render(Parent(Some(tag), Children([child]), None)) == Ok(("<" + tag + ">") + inner + ("</" + tag + ">"))
  {
    assert Concat([inner]) == inner + "";
    RenderBare(tag, [child], [inner], ("<" + tag + ">") + inner + ("</" + tag + ">"));
  }

  /** A list item holding a paragraph holding a span of mixed text: three
      parents deep, each level's tags around its children. */
  lemma NestedListItem(before: string, bold: string, after: string)
    ensures Render(
      Parent(Some("li"), Children([
        Parent(Some("p"), Children([
          Parent(Some("span"), Children([
            Leaf(None, Some(before), None),
            Leaf(Some("b"), Some(bold), None),
            Leaf(None, Some(after), None)]), None)]), None)]), None))
      == Ok("<li>" + ("<p>" + ("<span>" + before + ("<b>" + bold + "</b>") + after + "</span>") + "</p>") + "</li>")
  {
    var span := Parent(Some("span"), Children([
      Leaf(None, Some(before), None),
      Leaf(Some("b"), Some(bold), None),
      Leaf(None, Some(after), None)]), None);
    var spanH := "<span>" + before + ("<b>" + bold + "</b>") + after + "</span>";
    assert Render(span) == Ok(spanH) by {
      MixedSpan(before, bold, after);
    }
    var para := Parent(Some("p"), Children([span]), None);
    var paraH := "<p>" + spanH + "</p>";
    assert Render(para) == Ok(paraH) by {
      OnlyChild("p", span, spanH);
      assert "<" + "p" + ">" == "<p>" && "</" + "p" + ">" == "</p>";
    }
    OnlyChild("li", para, paraH);
    assert "<" + "li" + ">" == "<li>" && "</" + "li" + ">" == "</li>";
  }
}
