/** The parsed HTML document of `golang.org/x/net/html`, as a value: a node
    with its type, tag name (or text), attributes and children in document
    order. Parsing and rendering belong to that library and are oracles. */
module Html {
  import opened Base

  datatype NodeType = ErrorNode | TextNode | DocumentNode | ElementNode | CommentNode | DoctypeNode | RawNode

  /** `html.Attribute`. */
  datatype Attr = Attr(namespace: string, key: string, val: string)

  /** `html.Node`; `children` lists FirstChild, FirstChild.NextSibling, ... */
  datatype Node = Node(ntype: NodeType, data: string, attrs: seq<Attr>, children: seq<Node>)

  /** `html.Parse` on the file's bytes. */
  type Parser = seq<byte> -> Result<Node>

  /** `html.Render` into a buffer. */
  type Renderer = Node -> seq<byte>

  /** The elements whose references the deploy commands rewrite. */
  predicate IsLinkOrScript(n: Node) {
    n.ntype == ElementNode && (n.data == "link" || n.data == "script")
  }
}
