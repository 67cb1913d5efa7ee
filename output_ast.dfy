/**
 * The output-format tree the lowering produces and an external CommonMark
 * serializer consumes: every node is a value plus its ordered children.
 */
module OutputAst {

  datatype TableAlignment = None | Left | Center | Right

  datatype NodeValue =
    | Document
    | Heading(level: int)
    | Paragraph
    | Text(text: string)
    /** An ordered list starts at 1; a bullet list carries start 0. */
    | List(ordered: bool, start: nat)
    | Item
    | Image(url: string, title: string)
    | Link(url: string, title: string)
    | Table(alignments: seq<TableAlignment>, numColumns: nat, numRows: nat, numNonemptyCells: nat)
    | TableRow(header: bool)
    | TableCell

  datatype AstNode = Node(value: NodeValue, children: seq<AstNode>)

  /** A node without children. */
  function Leaf(value: NodeValue): AstNode
  {
    Node(value, [])
  }
}
