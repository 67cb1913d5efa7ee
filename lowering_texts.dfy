/**
 * No text is lost or reordered by the lowering: the text runs of the output
 * tree, in document order, are exactly the texts of the input elements —
 * text runs, header texts and link titles — in the same order.
 */
module LoweringTexts {
  import opened Wrappers
  import opened Elements
  import Ast = OutputAst
  import opened TreeLowering

  // ---------------------------------------------------------------------------
  // Texts of the input, in document order
  // ---------------------------------------------------------------------------

  function Texts(e: Element): seq<string>
    decreases e
  {
    match e
    case Text(t, _) => [t]
    case Header(_, t) => [t]
    case Hyperlink(title, _, _, _) => [title]
    case Image(_) => []
    case Paragraph(es) => TextsSeq(es)
    case List(items, _) => TextsItems(items)
    case Table(headers, rows) => TextsHeaders(headers) + TextsRows(rows)
  }

  function TextsSeq(es: seq<Element>): seq<string>
    decreases es
  {
    if |es| == 0 then [] else Texts(es[0]) + TextsSeq(es[1..])
  }

  function TextsItems(items: seq<ListItem>): seq<string>
    decreases items
  {
    if |items| == 0 then []
    else
      assert items[0].element < items[0];
      Texts(items[0].element) + TextsItems(items[1..])
  }

  function TextsHeaders(headers: seq<TableHeader>): seq<string>
    decreases headers
  {
    if |headers| == 0 then []
    else
      assert headers[0].element < headers[0];
      Texts(headers[0].element) + TextsHeaders(headers[1..])
  }

  function TextsRows(rows: seq<TableRow>): seq<string>
    decreases rows
  {
    if |rows| == 0 then [] else TextsCells(rows[0].cells) + TextsRows(rows[1..])
  }

  function TextsCells(cells: seq<TableCell>): seq<string>
    decreases cells
  {
    if |cells| == 0 then []
    else
      assert cells[0].element < cells[0];
      Texts(cells[0].element) + TextsCells(cells[1..])
  }

  // ---------------------------------------------------------------------------
  // Text runs of the output, in document order
  // ---------------------------------------------------------------------------

  function NodeTexts(node: Ast.AstNode): seq<string>
    decreases node
  {
    (if node.value.Text? then [node.value.text] else []) + ChildTexts(node.children)
  }

  function ChildTexts(nodes: seq<Ast.AstNode>): seq<string>
    decreases nodes
  {
    if |nodes| == 0 then [] else NodeTexts(nodes[0]) + ChildTexts(nodes[1..])
  }

  lemma {:induction false} ChildTextsCons(node: Ast.AstNode, rest: seq<Ast.AstNode>)
    ensures ChildTexts([node] + rest) == NodeTexts(node) + ChildTexts(rest)
  {
    assert ([node] + rest)[0] == node;
    assert ([node] + rest)[1..] == rest;
  }

  lemma ChildTextsSingle(node: Ast.AstNode)
    ensures ChildTexts([node]) == NodeTexts(node)
  {
    assert [node][1..] == [];
  }

  /** A node that is not a text run, around one child, has that child's texts. */
  lemma WrapperTexts(value: Ast.NodeValue, child: Ast.AstNode)
    requires !value.Text?
    ensures NodeTexts(Ast.Node(value, [child])) == NodeTexts(child)
  {
    ChildTextsSingle(child);
  }

  // ---------------------------------------------------------------------------
  // The lowering keeps the texts
  // ---------------------------------------------------------------------------

  /**
   * Lowering an entry then the rest: when the entry's node carries the texts
   * `a` (also once wrapped) and the rest carry `b`, the whole carries `a + b`.
   */
  lemma {:induction false} TextsCons(
    first: Result<Lowered, ConversionError>, rest: Result<LoweredSeq, ConversionError>,
    whole: Result<LoweredSeq, ConversionError>, wrap: Ast.AstNode -> Ast.AstNode,
    a: seq<string>, b: seq<string>)
    requires first.Ok? ==> NodeTexts(wrap(first.value.0)) == a
    requires first.Ok? && rest.Ok? ==> ChildTexts(rest.value.0) == b
    requires whole == match first
      case Err(err) => Err(err)
      case Ok((node, _)) =>
        match rest
        case Err(err) => Err(err)
        case Ok((nodes, m')) => Ok(([wrap(node)] + nodes, m'))
    ensures whole.Ok? ==> ChildTexts(whole.value.0) == a + b
  {
    if first.Ok? && rest.Ok? {
      ChildTextsCons(wrap(first.value.0), rest.value.0);
    }
  }

  lemma {:induction false} LowerKeepsTexts(e: Element, n: nat, save: Saver, ext: Extension)
    ensures Lower(e, n, save, ext).Ok? ==> NodeTexts(Lower(e, n, save, ext).value.0) == Texts(e)
    decreases e, 1
  {
    match e
    case Text(t, _) =>
      assert NodeTexts(Ast.Leaf(Ast.Text(t))) == [t] + [];
    case Header(level, t) =>
      WrapperTexts(Ast.Heading(level), Ast.Leaf(Ast.Text(t)));
      assert NodeTexts(Ast.Leaf(Ast.Text(t))) == [t] + [];
    case Hyperlink(title, url, alt, _) =>
      WrapperTexts(Ast.Link(url, alt), Ast.Leaf(Ast.Text(title)));
      assert NodeTexts(Ast.Leaf(Ast.Text(title))) == [title] + [];
    case Image(img) =>
      var name := ImageFileName(n + 1, ext(img.imageType));
      WrapperTexts(Ast.Paragraph, Ast.Leaf(Ast.Image(name, img.title)));
    case Paragraph(es) =>
      LowerSeqKeepsTexts(es, n, save, ext);
    case List(items, _) =>
      LowerItemsKeepsTexts(items, n, save, ext);
    case Table(headers, rows) =>
      LowerTableKeepsTexts(headers, rows, n, save, ext);
  }

  lemma {:induction false} LowerTableKeepsTexts(headers: seq<TableHeader>, rows: seq<TableRow>, n: nat, save: Saver, ext: Extension)
    ensures Lower(Table(headers, rows), n, save, ext).Ok? ==>
      NodeTexts(Lower(Table(headers, rows), n, save, ext).value.0) == TextsHeaders(headers) + TextsRows(rows)
    decreases Table(headers, rows), 0
  {
    LowerHeadersKeepsTexts(headers, n, save, ext);
    var first := LowerHeaders(headers, n, save, ext);
    var rest := if first.Ok? then LowerRows(rows, first.value.1, save, ext) else Ok(([], n));
    if first.Ok? {
      LowerRowsKeepsTexts(rows, first.value.1, save, ext);
    }
    TableTextsCons(first, rest, Lower(Table(headers, rows), n, save, ext),
      seq(|headers|, _ => Ast.TableAlignment.None), |headers|, |rows| + 1,
      TextsHeaders(headers), TextsRows(rows));
  }

  /** `TextsCons` for a table: the header row holds the lowered header cells, the body rows follow. */
  lemma {:induction false} TableTextsCons(
    first: Result<LoweredSeq, ConversionError>, rest: Result<LoweredSeq, ConversionError>,
    whole: Result<Lowered, ConversionError>,
    alignments: seq<Ast.TableAlignment>, numColumns: nat, numRows: nat,
    a: seq<string>, b: seq<string>)
    requires first.Ok? ==> ChildTexts(first.value.0) == a
    requires first.Ok? && rest.Ok? ==> ChildTexts(rest.value.0) == b
    requires whole == match first
      case Err(err) => Err(err)
      case Ok((cells, _)) =>
        match rest
        case Err(err) => Err(err)
        case Ok((nodes, m')) =>
          Ok((Ast.Node(Ast.Table(alignments, numColumns, numRows, 0), [Ast.Node(Ast.TableRow(true), cells)] + nodes), m'))
    ensures whole.Ok? ==> NodeTexts(whole.value.0) == a + b
  {
    if first.Ok? && rest.Ok? {
      ChildTextsCons(Ast.Node(Ast.TableRow(true), first.value.0), rest.value.0);
    }
  }

  lemma {:induction false} LowerSeqKeepsTexts(es: seq<Element>, n: nat, save: Saver, ext: Extension)
    ensures LowerSeq(es, n, save, ext).Ok? ==> ChildTexts(LowerSeq(es, n, save, ext).value.0) == TextsSeq(es)
    decreases es
  {
    if |es| > 0 {
      LowerKeepsTexts(es[0], n, save, ext);
      var first := Lower(es[0], n, save, ext);
      var m := if first.Ok? then first.value.1 else n;
      LowerSeqKeepsTexts(es[1..], m, save, ext);
      TextsCons(first, LowerSeq(es[1..], m, save, ext), LowerSeq(es, n, save, ext),
        node => node, Texts(es[0]), TextsSeq(es[1..]));
    }
  }

  lemma {:induction false} LowerItemsKeepsTexts(items: seq<ListItem>, n: nat, save: Saver, ext: Extension)
    ensures LowerItems(items, n, save, ext).Ok? ==> ChildTexts(LowerItems(items, n, save, ext).value.0) == TextsItems(items)
    decreases items
  {
    if |items| > 0 {
      assert items[0].element < items[0];
      LowerKeepsTexts(items[0].element, n, save, ext);
      var first := Lower(items[0].element, n, save, ext);
      var m := if first.Ok? then first.value.1 else n;
      LowerItemsKeepsTexts(items[1..], m, save, ext);
      if first.Ok? {
        var child := first.value.0;
        WrapperTexts(Ast.Item, WrapItemChild(child));
        if WrapItemChild(child) != child {
          WrapperTexts(Ast.Paragraph, child);
        }
      }
      TextsCons(first, LowerItems(items[1..], m, save, ext), LowerItems(items, n, save, ext),
        node => Ast.Node(Ast.Item, [WrapItemChild(node)]), Texts(items[0].element), TextsItems(items[1..]));
    }
  }

  lemma {:induction false} LowerHeadersKeepsTexts(headers: seq<TableHeader>, n: nat, save: Saver, ext: Extension)
    ensures LowerHeaders(headers, n, save, ext).Ok? ==> ChildTexts(LowerHeaders(headers, n, save, ext).value.0) == TextsHeaders(headers)
    decreases headers
  {
    if |headers| > 0 {
      assert headers[0].element < headers[0];
      LowerKeepsTexts(headers[0].element, n, save, ext);
      var first := Lower(headers[0].element, n, save, ext);
      var m := if first.Ok? then first.value.1 else n;
      LowerHeadersKeepsTexts(headers[1..], m, save, ext);
      if first.Ok? {
        WrapperTexts(Ast.TableCell, first.value.0);
      }
      TextsCons(first, LowerHeaders(headers[1..], m, save, ext), LowerHeaders(headers, n, save, ext),
        node => Ast.Node(Ast.TableCell, [node]), Texts(headers[0].element), TextsHeaders(headers[1..]));
    }
  }

  lemma {:induction false} LowerCellsKeepsTexts(cells: seq<TableCell>, n: nat, save: Saver, ext: Extension)
    ensures LowerCells(cells, n, save, ext).Ok? ==> ChildTexts(LowerCells(cells, n, save, ext).value.0) == TextsCells(cells)
    decreases cells
  {
    if |cells| > 0 {
      assert cells[0].element < cells[0];
      LowerKeepsTexts(cells[0].element, n, save, ext);
      var first := Lower(cells[0].element, n, save, ext);
      var m := if first.Ok? then first.value.1 else n;
      LowerCellsKeepsTexts(cells[1..], m, save, ext);
      if first.Ok? {
        WrapperTexts(Ast.TableCell, first.value.0);
      }
      TextsCons(first, LowerCells(cells[1..], m, save, ext), LowerCells(cells, n, save, ext),
        node => Ast.Node(Ast.TableCell, [node]), Texts(cells[0].element), TextsCells(cells[1..]));
    }
  }

  lemma {:induction false} LowerRowsKeepsTexts(rows: seq<TableRow>, n: nat, save: Saver, ext: Extension)
    ensures LowerRows(rows, n, save, ext).Ok? ==> ChildTexts(LowerRows(rows, n, save, ext).value.0) == TextsRows(rows)
    decreases rows
  {
    if |rows| > 0 && LowerRows(rows, n, save, ext).Ok? {
      var cellNodes := LowerCells(rows[0].cells, n, save, ext).value.0;
      var m := LowerCells(rows[0].cells, n, save, ext).value.1;
      var rest := LowerRows(rows[1..], m, save, ext).value.0;
      LowerCellsKeepsTexts(rows[0].cells, n, save, ext);
      LowerRowsKeepsTexts(rows[1..], m, save, ext);
      assert LowerRows(rows, n, save, ext).value.0 == [Ast.Node(Ast.TableRow(false), cellNodes)] + rest;
      ChildTextsCons(Ast.Node(Ast.TableRow(false), cellNodes), rest);
    }
  }

  /**
   * A generated document carries the texts of its page header, body and page
   * footer, in this order, as its text runs.
   */
  lemma GenerateKeepsTexts(doc: Document, save: Saver, ext: Extension)
    ensures Generate(doc, save, ext).Ok? ==>
      NodeTexts(Generate(doc, save, ext).value) == TextsSeq(AllElements(doc))
  {
    LowerSeqKeepsTexts(AllElements(doc), 0, save, ext);
  }
}
