# HTML nodes of a static site generator, in Dafny

This project models the part of a small static site generator that turns a
tree of HTML nodes into an HTML string, and the inline text spans that feed
it.

- `textnode.dfy` (module `TextNodes`): the closed enumeration of formatting
  kinds (`TextType`: text, bold, italic, code, link, image) and the
  `TextNode` value (text, kind, optional destination url), with the
  field-by-field equality of the source.
- `htmlnode.dfy` (module `HtmlNodes`): the two node shapes as one datatype,
  `Leaf(tag, value, props)` and `Parent(tag, children, props)`. Every field
  may be absent, as in the source. Attributes are a list of key/value pairs
  with distinct keys (`Attributes`), because the dictionary's insertion
  order is visible in the output. A parent's children are `NoChildren` or
  `Children(list)`; an empty list is a valid, distinct case.
  - `Render` is the specification of serialisation. It yields
    `Ok(html)` or `Err(MissingValue | MissingTag | MissingChildren)`, one
    error per raise site of the source.
  - `ToHtml`, `LeafToHtml` and `ParentToHtml` are the step-by-step
    serialisers. They follow the source's loops: the parent runs its own
    attribute loop when it has attributes (`ParentOpenTag`) and appends
    each child's rendering in order. Each is proved equal to `Render`.
  - `PropsToHtml` and `PropsToRepr` are the attribute loops, proved equal to
    `PropsHtml` and `PropsRepr`.
  - `TextNodeToHtmlNode` is the conversion from a span to a leaf.
- `wrappers.dfy` (module `Wrappers`): `Option` and `Result`.

Rendering is a function of the tree alone, so rendering the same tree twice
gives the same string by construction.

Two behaviours of the code are kept as written:

- The code formats an absent url into the string `None` for links and
  images, so such a link renders as `href="None"` and such an image as
  `src="None"`. `UrlText` gives that rendering. The
  kind/url pairing is not enforced, as in the code.
- The code's defensive "invalid text type" branch cannot be reached once
  the kind is a closed datatype, so it has no counterpart here.

## Model

| member | source | states |
|---|---|---|
| `TextNodes.TextTypeExactlySix` | src/textnode.py:3-9 | the enumeration has exactly six members, pairwise distinct, and every kind is one of them |
| `TextNodes.TextTypeValueInjective` | src/textnode.py:4-9 | two members have the same declared value string exactly when they are the same member |
| `TextNodes.ConstructorStoresFields` | src/textnode.py:12-15 | a node built from a text and a kind stores both unchanged, and its url defaults to absent |
| `TextNodes.Equals` | src/textnode.py:18-21 | field-by-field equality holds exactly when the two nodes are the same value |
| `TextNodes.EqualsIsEquivalence` | src/textnode.py:18-21 | equality is reflexive, symmetric and transitive |
| `TextNodes.UrlDistinguishes` | src/textnode.py:21 | two nodes that differ only in url are unequal |
| `HtmlNodes.PropsToHtml` | src/htmlnode.py:16-22 | the attribute loop yields `PropsHtml`: nothing for absent attributes, else ` key="value"` for each pair in insertion order, values verbatim |
| `HtmlNodes.PropsHtmlEmptyIff` | src/htmlnode.py:16-22 | the attribute string is empty exactly for absent or empty attributes, and otherwise starts with a space |
| `HtmlNodes.AttrsHtmlAppend` | src/htmlnode.py:20-21 | the attribute string of two lists of pairs, one after the other, is their two strings concatenated |
| `HtmlNodes.AttrsHtmlSplit` | src/htmlnode.py:20-21 | the i-th pair's attribute sits after those of all earlier pairs and before those of all later pairs |
| `HtmlNodes.PropsToRepr` | src/htmlnode.py:25-30 | the representation loop yields `PropsRepr`: nothing without attributes, else the `key=value` items joined by single spaces |
| `HtmlNodes.PropsReprSpaced` | src/htmlnode.py:26-30 | with attributes present, a space followed by the representation equals ` key=value` for every pair in insertion order |
| `HtmlNodes.RenderLeaf` | src/htmlnode.py:38-45 | a leaf fails exactly when its value is absent (missing-value, whatever tag and attributes); without a tag it is its value and ignores attributes; with a tag it is the opening tag with the attribute string, the value, and the closing tag |
| `HtmlNodes.LeafAsParent` | src/htmlnode.py:41-45 | a tagged leaf renders exactly like a parent with the same tag and attributes over one untagged leaf holding the value |
| `HtmlNodes.RenderParentErrors` | src/htmlnode.py:55-58 | a parent without a tag fails with missing-tag even when its children are absent; with a tag but absent children it fails with missing-children; an empty child list gives opening tag then closing tag |
| `HtmlNodes.RenderParentConcat` | src/htmlnode.py:60-76 | when every child renders, a parent yields its opening tag with its attribute string, each child's output in list order, then its closing tag |
| `HtmlNodes.RenderParentFirstError` | src/htmlnode.py:70-71 | when child k is the first to fail, the parent fails with that child's error |
| `HtmlNodes.RenderChildrenAppend` | src/htmlnode.py:70-71 | rendering a list of children split in two is rendering the parts one after the other, the first error winning |
| `HtmlNodes.RenderChildrenConcat` | src/htmlnode.py:70-71 | children that all render yield their outputs concatenated in list order |
| `HtmlNodes.RenderChildrenOkIff` | src/htmlnode.py:70-71 | the children render exactly when each child renders |
| `HtmlNodes.RenderChildrenFirstError` | src/htmlnode.py:70-71 | the first failing child's error is the error of the whole list, whatever follows it |
| `HtmlNodes.RenderOkIffWellFormed` | src/htmlnode.py:38-58 | rendering succeeds exactly when every leaf in the tree has a value and every parent has a tag and a child list |
| `HtmlNodes.ToHtml` | src/htmlnode.py:38-76 | serialising any node, by its shape, yields exactly `Render` of it |
| `HtmlNodes.LeafToHtml` | src/htmlnode.py:38-45 | the leaf serialiser yields exactly `Render` of the leaf |
| `HtmlNodes.ParentOpenTag` | src/htmlnode.py:60-67 | the parent's own opening tag, with its separate attribute loop when attributes are present and non-empty and bare otherwise, is exactly `OpenTag`: the tag followed by the same attribute string as the shared serialiser |
| `HtmlNodes.ParentToHtml` | src/htmlnode.py:54-76 | the parent serialiser, with its own attribute loop for non-empty attributes and its loop over the children, yields exactly `Render` of the parent, including the first child's error |
| `HtmlNodes.TextNodeToHtmlNode` | src/htmlnode.py:81-94 | every span becomes a leaf with a value, so rendering it never fails; the tag is absent exactly for plain text; attributes exist exactly for links and images; the value is the text, except for an image where it is empty; the tag is `b`, `i`, `code`, `a` or `img` by kind; a link's only attribute is `href` with the url and an image's are `src` with the url then `alt` with the text |
| `HtmlNodes.RenderTextNode` | src/htmlnode.py:81-94 | the HTML of each kind: plain text as is, `<b>`, `<i>`, `<code>` around the text, `<a href="url">text</a>`, and `<img src="url" alt="text"></img>` with an empty value |
| `HtmlNodes.UrlIgnoredUnlessLinkOrImage` | src/htmlnode.py:83-90 | for the four kinds other than link and image the url has no effect on the leaf |
| `HtmlNodes.MixedSpan` | src/test_htmlnode.py:85-88 | a span over an untagged leaf, a `b` leaf and an untagged leaf renders as `<span>` + text + `<b>`bold`</b>` + text + `</span>`, for any three texts |
| `HtmlNodes.SpanOfTextNodes` | src/htmlnode.py:81-94 | a span over a plain, a bold and a plain text node, each converted to a leaf, renders as `<span>` + text + `<b>`bold`</b>` + text + `</span>` |
| `HtmlNodes.NestedListItem` | src/test_htmlnode.py:85-94 | a list item over a paragraph over a mixed span (three parents deep) renders each level's tags around its children |

## Left out

- The base node's `to_html`, which only raises "not implemented"; a parent
  whose child is such a bare base node is therefore not modelled either.
- `__repr__` of the leaf, the parent and the text node, and the tag, value
  and children parts of the base node's `__repr__`. They print Python lists,
  enumeration members and `None` in Python's own format. Only the
  attribute part is modelled.
- The catch-all "invalid text type" branch of the conversion, which a
  closed datatype makes unreachable.
- TextNodeToHtmlNode: an absent url is stored in the attribute already as
  the text `None`, whereas the code keeps Python's `None` in the
  dictionary and only formats it when serialising; the rendered HTML is the
  same, but a link without a url and a link whose url is the text `None`
  give the same leaf here.
- Exception classes and messages: only which of the three errors occurs is
  modelled.
- Equality of a text node with a value that is not a text node, which
  raises an attribute error in Python.
- Values of other types than strings in tags, values and attributes, which
  Python's dynamic typing would accept and format.
- Python's recursion depth limit on very deep trees.
- The page-sized nesting test at src/test_htmlnode.py:83-114 is covered by
  its deepest branch (`NestedListItem`) and by the general
  `RenderParentConcat`. The whole page is not proved as one instance.
