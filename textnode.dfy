/** Inline text spans: the closed enumeration of formatting kinds and the
    `TextNode` value that a parser produces for each span. */
module TextNodes {
  import opened Wrappers

  /** The six formatting kinds of a span. */
  datatype TextType = Text | Bold | Italic | Code | Link | Image

  /** Every member of the enumeration, in declaration order. */
  const AllTextTypes: seq<TextType> := [Text, Bold, Italic, Code, Link, Image]

  /** The value string each enumeration member is declared with. */
  function TextTypeValue(t: TextType): string
  {
    match t
    case Text => "text"
    case Bold => "bold"
    case Italic => "italic"
    case Code => "code"
    case Link => "link"
    case Image => "image"
  }

  /** The enumeration has exactly six members, all distinct, and every kind
      is one of them. */
  lemma TextTypeExactlySix()
    ensures |AllTextTypes| == 6
    ensures forall i, j :: 0 <= i < j < |AllTextTypes| ==> AllTextTypes[i] != AllTextTypes[j]
    ensures forall t: TextType :: t in AllTextTypes
  {
    forall t: TextType ensures t in AllTextTypes {
      match t
      case Text => assert AllTextTypes[0] == t;
      case Bold => assert AllTextTypes[1] == t;
      case Italic => assert AllTextTypes[2] == t;
      case Code => assert AllTextTypes[3] == t;
      case Link => assert AllTextTypes[4] == t;
      case Image => assert AllTextTypes[5] == t;
    }
  }

  /** Distinct members are declared with distinct values. */
  lemma TextTypeValueInjective(a: TextType, b: TextType)
    ensures TextTypeValue(a) == TextTypeValue(b) <==> a == b
  {
  }

  /** A span of text, its kind and an optional destination. The constructor
      only stores its arguments; the destination defaults to absent. */
  datatype TextNode = TextNode(text: string, textType: TextType, url: Option<string> := None)

  /** The source's equality: all three fields compared pairwise. */
  function Equals(a: TextNode, b: TextNode): (r: bool)
    ensures r <==> a == b
  {
    a.text == b.text && a.textType == b.textType && a.url == b.url
  }

  /** A node built without a destination stores exactly what it was given,
      with the destination absent. */
  lemma ConstructorStoresFields(text: string, t: TextType)
    ensures TextNode(text, t).text == text
    ensures TextNode(text, t).textType == t
    ensures TextNode(text, t).url == None
  {
  }

  /** Equality is reflexive, symmetric and transitive. */
  lemma EqualsIsEquivalence(a: TextNode, b: TextNode, c: TextNode)
    ensures Equals(a, a)
    ensures Equals(a, b) == Equals(b, a)
    ensures Equals(a, b) && Equals(b, c) ==> Equals(a, c)
  {
  }

  /** Two nodes that differ only in their destination are unequal. */
  lemma UrlDistinguishes(text: string, t: TextType, u1: Option<string>, u2: Option<string>)
    requires u1 != u2
    ensures !Equals(TextNode(text, t, u1), TextNode(text, t, u2))
  {
  }
}
