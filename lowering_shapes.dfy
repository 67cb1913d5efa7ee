/**
 * The shape of the lowered tree: document order is kept, a table becomes a
 * table node with the header row first and one row per body row, a list
 * becomes a list node with one item per list item.
 */
module LoweringShapes {
  import opened Wrappers
  import opened Elements
  import Ast = OutputAst
  import opened TreeLowering

  /** Lowering a concatenation lowers the first part, then the second from where the counter stopped. */
  lemma {:induction false} LowerSeqAppend(a: seq<Element>, b: seq<Element>, n: nat, save: Saver, ext: Extension)
    ensures LowerSeq(a + b, n, save, ext) ==
      match LowerSeq(a, n, save, ext)
      case Err(err) => Err(err)
      case Ok((xs, m)) =>
        match LowerSeq(b, m, save, ext)
        case Err(err) => Err(err)
        case Ok((ys, m')) => Ok((xs + ys, m'))
    decreases |a|
  {
    if |a| == 0 {
      assert a + b == b;
      match LowerSeq(b, n, save, ext)
      case Err(_) =>
      case Ok((ys, _)) =>
        assert [] + ys == ys;
    } else {
      assert (a + b)[0] == a[0];
      assert (a + b)[1..] == a[1..] + b;
      match Lower(a[0], n, save, ext)
      case Err(_) =>
      case Ok((x, m)) =>
        LowerSeqAppend(a[1..], b, m, save, ext);
        match LowerSeq(a[1..], m, save, ext)
        case Err(_) =>
        case Ok((xs, k)) =>
          match LowerSeq(b, k, save, ext)
          case Err(_) =>
          case Ok((ys, _)) =>
            assert [x] + (xs + ys) == ([x] + xs) + ys;
    }
  }

  /** Lowering a document lowers page header, body and page footer in this order, on one counter from 0. */
  lemma GenerateOrder(doc: Document, save: Saver, ext: Extension)
    ensures Generate(doc, save, ext) ==
      match LowerSeq(doc.pageHeader, 0, save, ext)
      case Err(err) => Err(err)
      case Ok((hs, m1)) =>
        match LowerSeq(doc.elements, m1, save, ext)
        case Err(err) => Err(err)
        case Ok((bs, m2)) =>
          match LowerSeq(doc.pageFooter, m2, save, ext)
          case Err(err) => Err(err)
          case Ok((fs, _)) => Ok(Ast.Node(Ast.Document, hs + bs + fs))
  {
    LowerSeqAppend(doc.pageHeader + doc.elements, doc.pageFooter, 0, save, ext);
    LowerSeqAppend(doc.pageHeader, doc.elements, 0, save, ext);
  }

  // ---------------------------------------------------------------------------
  // Entry by entry
  // ---------------------------------------------------------------------------

  /** `node` is what `e` lowers to, for some value of the image counter. */
  ghost predicate LowersTo(e: Element, node: Ast.AstNode, save: Saver, ext: Extension)
  {
    exists m: nat :: Lower(e, m, save, ext).Ok? && Lower(e, m, save, ext).value.0 == node
  }

  /** `node` is a table cell holding what `e` lowers to. */
  ghost predicate CellLowersTo(e: Element, node: Ast.AstNode, save: Saver, ext: Extension)
  {
    node.value == Ast.TableCell && |node.children| == 1 && LowersTo(e, node.children[0], save, ext)
  }

  /** `node` is a list item holding what `e` lowers to, wrapped into a paragraph unless a list or paragraph. */
  ghost predicate ItemLowersTo(e: Element, node: Ast.AstNode, save: Saver, ext: Extension)
  {
    exists m: nat :: Lower(e, m, save, ext).Ok? &&
      node == Ast.Node(Ast.Item, [WrapItemChild(Lower(e, m, save, ext).value.0)])
  }

  /** `node` is a body row with one cell per cell of `row`, each holding what that cell's element lowers to. */
  ghost predicate RowLowersTo(row: TableRow, node: Ast.AstNode, save: Saver, ext: Extension)
  {
    node.value == Ast.TableRow(false) && |node.children| == |row.cells| &&
    forall j :: 0 <= j < |row.cells| ==> CellLowersTo(row.cells[j].element, node.children[j], save, ext)
  }

  lemma {:induction false} LowerSeqPointwise(es: seq<Element>, n: nat, save: Saver, ext: Extension)
    ensures LowerSeq(es, n, save, ext).Ok? ==>
      forall i :: 0 <= i < |es| ==> LowersTo(es[i], LowerSeq(es, n, save, ext).value.0[i], save, ext)
    decreases |es|
  {
    if |es| > 0 && LowerSeq(es, n, save, ext).Ok? {
      var nodes := LowerSeq(es, n, save, ext).value.0;
      var m := Lower(es[0], n, save, ext).value.1;
      LowerSeqPointwise(es[1..], m, save, ext);
      assert LowersTo(es[0], nodes[0], save, ext) by {
        assert Lower(es[0], n, save, ext).Ok? && Lower(es[0], n, save, ext).value.0 == nodes[0];
      }
      forall i | 1 <= i < |es|
        ensures LowersTo(es[i], nodes[i], save, ext)
      {
        assert es[i] == es[1..][i - 1];
        assert nodes[i] == LowerSeq(es[1..], m, save, ext).value.0[i - 1];
      }
    }
  }

  lemma {:induction false} LowerItemsPointwise(items: seq<ListItem>, n: nat, save: Saver, ext: Extension)
    ensures LowerItems(items, n, save, ext).Ok? ==>
      forall i :: 0 <= i < |items| ==> ItemLowersTo(items[i].element, LowerItems(items, n, save, ext).value.0[i], save, ext)
    decreases |items|
  {
    if |items| > 0 && LowerItems(items, n, save, ext).Ok? {
      var nodes := LowerItems(items, n, save, ext).value.0;
      var m := Lower(items[0].element, n, save, ext).value.1;
      LowerItemsPointwise(items[1..], m, save, ext);
      assert ItemLowersTo(items[0].element, nodes[0], save, ext) by {
        assert Lower(items[0].element, n, save, ext).Ok? &&
          nodes[0] == Ast.Node(Ast.Item, [WrapItemChild(Lower(items[0].element, n, save, ext).value.0)]);
      }
      forall i | 1 <= i < |items|
        ensures ItemLowersTo(items[i].element, nodes[i], save, ext)
      {
        assert items[i] == items[1..][i - 1];
        assert nodes[i] == LowerItems(items[1..], m, save, ext).value.0[i - 1];
      }
    }
  }

  lemma {:induction false} LowerHeadersPointwise(headers: seq<TableHeader>, n: nat, save: Saver, ext: Extension)
    ensures LowerHeaders(headers, n, save, ext).Ok? ==>
      forall j :: 0 <= j < |headers| ==> CellLowersTo(headers[j].element, LowerHeaders(headers, n, save, ext).value.0[j], save, ext)
    decreases |headers|
  {
    if |headers| > 0 && LowerHeaders(headers, n, save, ext).Ok? {
      var nodes := LowerHeaders(headers, n, save, ext).value.0;
      var m := Lower(headers[0].element, n, save, ext).value.1;
      LowerHeadersPointwise(headers[1..], m, save, ext);
      assert CellLowersTo(headers[0].element, nodes[0], save, ext) by {
        assert Lower(headers[0].element, n, save, ext).Ok? &&
          Lower(headers[0].element, n, save, ext).value.0 == nodes[0].children[0];
      }
      forall j | 1 <= j < |headers|
        ensures CellLowersTo(headers[j].element, nodes[j], save, ext)
      {
        assert headers[j] == headers[1..][j - 1];
        assert nodes[j] == LowerHeaders(headers[1..], m, save, ext).value.0[j - 1];
      }
    }
  }

  lemma {:induction false} LowerCellsPointwise(cells: seq<TableCell>, n: nat, save: Saver, ext: Extension)
    ensures LowerCells(cells, n, save, ext).Ok? ==>
      forall j :: 0 <= j < |cells| ==> CellLowersTo(cells[j].element, LowerCells(cells, n, save, ext).value.0[j], save, ext)
    decreases |cells|
  {
    if |cells| > 0 && LowerCells(cells, n, save, ext).Ok? {
      var nodes := LowerCells(cells, n, save, ext).value.0;
      var m := Lower(cells[0].element, n, save, ext).value.1;
      LowerCellsPointwise(cells[1..], m, save, ext);
      assert CellLowersTo(cells[0].element, nodes[0], save, ext) by {
        assert Lower(cells[0].element, n, save, ext).Ok? &&
          Lower(cells[0].element, n, save, ext).value.0 == nodes[0].children[0];
      }
      forall j | 1 <= j < |cells|
        ensures CellLowersTo(cells[j].element, nodes[j], save, ext)
      {
        assert cells[j] == cells[1..][j - 1];
        assert nodes[j] == LowerCells(cells[1..], m, save, ext).value.0[j - 1];
      }
    }
  }

  lemma {:induction false} LowerRowsPointwise(rows: seq<TableRow>, n: nat, save: Saver, ext: Extension)
    ensures LowerRows(rows, n, save, ext).Ok? ==>
      forall i :: 0 <= i < |rows| ==> RowLowersTo(rows[i], LowerRows(rows, n, save, ext).value.0[i], save, ext)
    decreases |rows|
  {
    if |rows| > 0 && LowerRows(rows, n, save, ext).Ok? {
      var nodes := LowerRows(rows, n, save, ext).value.0;
      var m := LowerCells(rows[0].cells, n, save, ext).value.1;
      LowerCellsPointwise(rows[0].cells, n, save, ext);
      LowerRowsPointwise(rows[1..], m, save, ext);
      forall i | 1 <= i < |rows|
        ensures RowLowersTo(rows[i], nodes[i], save, ext)
      {
        assert rows[i] == rows[1..][i - 1];
        assert nodes[i] == LowerRows(rows[1..], m, save, ext).value.0[i - 1];
      }
    }
  }

  // ---------------------------------------------------------------------------
  // Tables and lists
  // ---------------------------------------------------------------------------

  /**
   * A table lowers to a table node with no alignment per column, as many
   * columns as headers, one row more than body rows and no non-empty-cell
   * count; its first row is the header row with one cell per header, then
   * come the body rows in order.
   */
  lemma LowerTableShape(headers: seq<TableHeader>, rows: seq<TableRow>, n: nat, save: Saver, ext: Extension)
    ensures Lower(Table(headers, rows), n, save, ext).Ok? ==>
      var node := Lower(Table(headers, rows), n, save, ext).value.0;
      node.value == Ast.Table(seq(|headers|, _ => Ast.TableAlignment.None), |headers|, |rows| + 1, 0) &&
      |node.children| == |rows| + 1 &&
      node.children[0].value == Ast.TableRow(true) &&
      |node.children[0].children| == |headers| &&
      (forall j :: 0 <= j < |headers| ==> CellLowersTo(headers[j].element, node.children[0].children[j], save, ext)) &&
      (forall i :: 0 <= i < |rows| ==> RowLowersTo(rows[i], node.children[i + 1], save, ext))
  {
    if Lower(Table(headers, rows), n, save, ext).Ok? {
      var m := LowerHeaders(headers, n, save, ext).value.1;
      LowerHeadersPointwise(headers, n, save, ext);
      LowerRowsPointwise(rows, m, save, ext);
    }
  }

  /**
   * A list lowers to a list node, ordered exactly when the list is numbered
   * and then starting at 1, with one item per list item in order.
   */
  lemma LowerListShape(items: seq<ListItem>, numbered: bool, n: nat, save: Saver, ext: Extension)
    ensures Lower(List(items, numbered), n, save, ext).Ok? ==>
      var node := Lower(List(items, numbered), n, save, ext).value.0;
      node.value == Ast.List(numbered, if numbered then 1 else 0) &&
      |node.children| == |items| &&
      forall i :: 0 <= i < |items| ==> ItemLowersTo(items[i].element, node.children[i], save, ext)
  {
    LowerItemsPointwise(items, n, save, ext);
  }

  /** A paragraph lowers to a paragraph node with its elements lowered in order. */
  lemma LowerParagraphShape(es: seq<Element>, n: nat, save: Saver, ext: Extension)
    ensures Lower(Paragraph(es), n, save, ext).Ok? ==>
      var node := Lower(Paragraph(es), n, save, ext).value.0;
      node.value == Ast.Paragraph && |node.children| == |es| &&
      forall i :: 0 <= i < |es| ==> LowersTo(es[i], node.children[i], save, ext)
  {
    LowerSeqPointwise(es, n, save, ext);
  }
}
