/**
 * The image counter and the image saver across a lowering pass: images are
 * numbered in document order from the counter's value, a saver failure on any
 * of them aborts with that image's file name, and the output refers to each
 * image by the name it was saved under.
 */
module LoweringImages {
  import opened Wrappers
  import opened Elements
  import Ast = OutputAst
  import opened TreeLowering

  // ---------------------------------------------------------------------------
  // Images of the input, in document order
  // ---------------------------------------------------------------------------

  function Images(e: Element): seq<ImageData>
    decreases e
  {
    match e
    case Image(img) => [img]
    case Paragraph(es) => ImagesSeq(es)
    case List(items, _) => ImagesItems(items)
    case Table(headers, rows) => ImagesHeaders(headers) + ImagesRows(rows)
    case _ => []
  }

  function ImagesSeq(es: seq<Element>): seq<ImageData>
    decreases es
  {
    if |es| == 0 then [] else Images(es[0]) + ImagesSeq(es[1..])
  }

  function ImagesItems(items: seq<ListItem>): seq<ImageData>
    decreases items
  {
    if |items| == 0 then []
    else
      assert items[0].element < items[0];
      Images(items[0].element) + ImagesItems(items[1..])
  }

  function ImagesHeaders(headers: seq<TableHeader>): seq<ImageData>
    decreases headers
  {
    if |headers| == 0 then []
    else
      assert headers[0].element < headers[0];
      Images(headers[0].element) + ImagesHeaders(headers[1..])
  }

  function ImagesRows(rows: seq<TableRow>): seq<ImageData>
    decreases rows
  {
    if |rows| == 0 then [] else ImagesCells(rows[0].cells) + ImagesRows(rows[1..])
  }

  function ImagesCells(cells: seq<TableCell>): seq<ImageData>
    decreases cells
  {
    if |cells| == 0 then []
    else
      assert cells[0].element < cells[0];
      Images(cells[0].element) + ImagesCells(cells[1..])
  }

  // ---------------------------------------------------------------------------
  // Image references of the output, in document order
  // ---------------------------------------------------------------------------

  function NodeImageUrls(node: Ast.AstNode): seq<string>
    decreases node
  {
    (if node.value.Image? then [node.value.url] else []) + ChildImageUrls(node.children)
  }

  function ChildImageUrls(nodes: seq<Ast.AstNode>): seq<string>
    decreases nodes
  {
    if |nodes| == 0 then [] else NodeImageUrls(nodes[0]) + ChildImageUrls(nodes[1..])
  }

  lemma {:induction false} ChildImageUrlsCons(node: Ast.AstNode, rest: seq<Ast.AstNode>)
    ensures ChildImageUrls([node] + rest) == NodeImageUrls(node) + ChildImageUrls(rest)
  {
    assert ([node] + rest)[0] == node;
    assert ([node] + rest)[1..] == rest;
  }

  lemma ChildImageUrlsSingle(node: Ast.AstNode)
    ensures ChildImageUrls([node]) == NodeImageUrls(node)
  {
    assert [node][1..] == [];
  }

  // ---------------------------------------------------------------------------
  // Names and saves, from a counter value
  // ---------------------------------------------------------------------------

  /** The file names images get when `n` images were numbered before them. */
  function ImageNames(imgs: seq<ImageData>, n: nat, ext: Extension): seq<string>
    decreases |imgs|
  {
    if |imgs| == 0 then []
    else [ImageFileName(n + 1, ext(imgs[0].imageType))] + ImageNames(imgs[1..], n + 1, ext)
  }

  /** The name of the first of these images whose save fails, if any. */
  function SaveFailure(imgs: seq<ImageData>, n: nat, save: Saver, ext: Extension): Option<string>
    decreases |imgs|
  {
    if |imgs| == 0 then None
    else if !save(imgs[0].bytes, ImageFileName(n + 1, ext(imgs[0].imageType))) then
      Some(ImageFileName(n + 1, ext(imgs[0].imageType)))
    else SaveFailure(imgs[1..], n + 1, save, ext)
  }

  lemma {:induction false} ImageNamesAppend(a: seq<ImageData>, b: seq<ImageData>, n: nat, ext: Extension)
    ensures ImageNames(a + b, n, ext) == ImageNames(a, n, ext) + ImageNames(b, n + |a|, ext)
    decreases |a|
  {
    if |a| == 0 {
      assert a + b == b;
    } else {
      var name := ImageFileName(n + 1, ext(a[0].imageType));
      assert (a + b)[0] == a[0];
      assert (a + b)[1..] == a[1..] + b;
      ImageNamesAppend(a[1..], b, n + 1, ext);
      assert ImageNames(a + b, n, ext) == [name] + (ImageNames(a[1..], n + 1, ext) + ImageNames(b, n + |a|, ext));
      assert ImageNames(a, n, ext) == [name] + ImageNames(a[1..], n + 1, ext);
    }
  }

  lemma {:induction false} SaveFailureAppend(a: seq<ImageData>, b: seq<ImageData>, n: nat, save: Saver, ext: Extension)
    ensures SaveFailure(a + b, n, save, ext) ==
      if SaveFailure(a, n, save, ext).Some? then SaveFailure(a, n, save, ext)
      else SaveFailure(b, n + |a|, save, ext)
    decreases |a|
  {
    if |a| == 0 {
      assert a + b == b;
    } else {
      assert (a + b)[0] == a[0];
      assert (a + b)[1..] == a[1..] + b;
      SaveFailureAppend(a[1..], b, n + 1, save, ext);
    }
  }

  // ---------------------------------------------------------------------------
  // The lowering agrees with the images it visits
  // ---------------------------------------------------------------------------

  /**
   * A lowering result agrees with the images it visited from counter `n`:
   * it fails exactly when one of their saves fails, naming the first such
   * file; on success the counter has advanced by one per image and the
   * output refers to the images by their names, in order.
   */
  predicate Agrees(r: Result<Lowered, ConversionError>, imgs: seq<ImageData>, n: nat, save: Saver, ext: Extension)
  {
    match r
    case Err(err) => SaveFailure(imgs, n, save, ext).Some? && err == ImageSaveFailed(SaveFailure(imgs, n, save, ext).value)
    case Ok((node, m)) =>
      SaveFailure(imgs, n, save, ext).None? && m == n + |imgs| && NodeImageUrls(node) == ImageNames(imgs, n, ext)
  }

  /** `Agrees` for the lowering of a sequence. */
  predicate AgreesSeq(r: Result<LoweredSeq, ConversionError>, imgs: seq<ImageData>, n: nat, save: Saver, ext: Extension)
  {
    match r
    case Err(err) => SaveFailure(imgs, n, save, ext).Some? && err == ImageSaveFailed(SaveFailure(imgs, n, save, ext).value)
    case Ok((nodes, m)) =>
      SaveFailure(imgs, n, save, ext).None? && m == n + |imgs| && ChildImageUrls(nodes) == ImageNames(imgs, n, ext)
  }

  /**
   * Lowering `x` then the rest: if the first part agrees with `a` and the rest,
   * from the counter the first part reached, agrees with `b`, the whole agrees
   * with `a + b`.
   */
  lemma {:induction false} AgreesCons(
    first: Result<Lowered, ConversionError>, rest: Result<LoweredSeq, ConversionError>,
    whole: Result<LoweredSeq, ConversionError>, wrap: Ast.AstNode -> Ast.AstNode,
    a: seq<ImageData>, b: seq<ImageData>, n: nat, save: Saver, ext: Extension)
    requires Agrees(first, a, n, save, ext)
    requires first.Ok? ==> AgreesSeq(rest, b, first.value.1, save, ext)
    requires forall node :: NodeImageUrls(wrap(node)) == NodeImageUrls(node)
    requires whole == match first
      case Err(err) => Err(err)
      case Ok((node, _)) =>
        match rest
        case Err(err) => Err(err)
        case Ok((nodes, m')) => Ok(([wrap(node)] + nodes, m'))
    ensures AgreesSeq(whole, a + b, n, save, ext)
  {
    SaveFailureAppend(a, b, n, save, ext);
    ImageNamesAppend(a, b, n, ext);
    if first.Ok? && rest.Ok? {
      ChildImageUrlsCons(wrap(first.value.0), rest.value.0);
    }
  }

  lemma {:induction false} LowerAgrees(e: Element, n: nat, save: Saver, ext: Extension)
    ensures Agrees(Lower(e, n, save, ext), Images(e), n, save, ext)
    decreases e, 1
  {
    match e
    case Text(_, _) =>
    case Header(_, t) =>
      ChildImageUrlsSingle(Ast.Leaf(Ast.Text(t)));
    case Hyperlink(title, _, _, _) =>
      ChildImageUrlsSingle(Ast.Leaf(Ast.Text(title)));
    case Image(img) =>
      var name := ImageFileName(n + 1, ext(img.imageType));
      assert [img][1..] == [];
      if save(img.bytes, name) {
        var node := Ast.Node(Ast.Paragraph, [Ast.Leaf(Ast.Image(name, img.title))]);
        ChildImageUrlsSingle(Ast.Leaf(Ast.Image(name, img.title)));
      }
    case Paragraph(es) =>
      LowerSeqAgrees(es, n, save, ext);
    case List(items, _) =>
      LowerItemsAgrees(items, n, save, ext);
    case Table(headers, rows) =>
      LowerTableAgrees(headers, rows, n, save, ext);
  }

  lemma {:induction false} LowerTableAgrees(headers: seq<TableHeader>, rows: seq<TableRow>, n: nat, save: Saver, ext: Extension)
    ensures Agrees(Lower(Table(headers, rows), n, save, ext), ImagesHeaders(headers) + ImagesRows(rows), n, save, ext)
    decreases Table(headers, rows), 0
  {
    LowerHeadersAgrees(headers, n, save, ext);
    var first := LowerHeaders(headers, n, save, ext);
    var rest := if first.Ok? then LowerRows(rows, first.value.1, save, ext) else Ok(([], n));
    if first.Ok? {
      LowerRowsAgrees(rows, first.value.1, save, ext);
    }
    TableAgreesCons(first, rest, Lower(Table(headers, rows), n, save, ext),
      seq(|headers|, _ => Ast.TableAlignment.None), |headers|, |rows| + 1,
      ImagesHeaders(headers), ImagesRows(rows), n, save, ext);
  }

  /** `AgreesCons` for a table: the header row holds the lowered header cells, the body rows follow. */
  lemma {:induction false} TableAgreesCons(
    first: Result<LoweredSeq, ConversionError>, rest: Result<LoweredSeq, ConversionError>,
    whole: Result<Lowered, ConversionError>,
    alignments: seq<Ast.TableAlignment>, numColumns: nat, numRows: nat,
    a: seq<ImageData>, b: seq<ImageData>, n: nat, save: Saver, ext: Extension)
    requires AgreesSeq(first, a, n, save, ext)
    requires first.Ok? ==> AgreesSeq(rest, b, first.value.1, save, ext)
    requires whole == match first
      case Err(err) => Err(err)
      case Ok((cells, _)) =>
        match rest
        case Err(err) => Err(err)
        case Ok((nodes, m')) =>
          Ok((Ast.Node(Ast.Table(alignments, numColumns, numRows, 0), [Ast.Node(Ast.TableRow(true), cells)] + nodes), m'))
    ensures Agrees(whole, a + b, n, save, ext)
  {
    SaveFailureAppend(a, b, n, save, ext);
    if first.Ok? && rest.Ok? {
      ImageNamesAppend(a, b, n, ext);
      TableNodeUrls(Ast.Table(alignments, numColumns, numRows, 0), first.value.0, rest.value.0);
    }
  }

  /** A table node refers to the images of its header cells, then of its body rows. */
  lemma TableNodeUrls(value: Ast.NodeValue, cells: seq<Ast.AstNode>, rowNodes: seq<Ast.AstNode>)
    requires value.Table?
    ensures NodeImageUrls(Ast.Node(value, [Ast.Node(Ast.TableRow(true), cells)] + rowNodes))
         == ChildImageUrls(cells) + ChildImageUrls(rowNodes)
  {
    var head := Ast.Node(Ast.TableRow(true), cells);
    ChildImageUrlsCons(head, rowNodes);
    assert NodeImageUrls(head) == ChildImageUrls(cells);
  }

  lemma {:induction false} LowerSeqAgrees(es: seq<Element>, n: nat, save: Saver, ext: Extension)
    ensures AgreesSeq(LowerSeq(es, n, save, ext), ImagesSeq(es), n, save, ext)
    decreases es
  {
    if |es| > 0 {
      LowerAgrees(es[0], n, save, ext);
      var first := Lower(es[0], n, save, ext);
      if first.Ok? {
        LowerSeqAgrees(es[1..], first.value.1, save, ext);
        AgreesCons(first, LowerSeq(es[1..], first.value.1, save, ext), LowerSeq(es, n, save, ext),
          node => node, Images(es[0]), ImagesSeq(es[1..]), n, save, ext);
      } else {
        AgreesCons(first, Ok(([], n)), LowerSeq(es, n, save, ext),
          node => node, Images(es[0]), ImagesSeq(es[1..]), n, save, ext);
      }
    }
  }

  lemma {:induction false} LowerItemsAgrees(items: seq<ListItem>, n: nat, save: Saver, ext: Extension)
    ensures AgreesSeq(LowerItems(items, n, save, ext), ImagesItems(items), n, save, ext)
    decreases items
  {
    if |items| > 0 {
      assert items[0].element < items[0];
      LowerAgrees(items[0].element, n, save, ext);
      var first := Lower(items[0].element, n, save, ext);
      var wrap := (node: Ast.AstNode) => Ast.Node(Ast.Item, [WrapItemChild(node)]);
      forall node: Ast.AstNode ensures NodeImageUrls(wrap(node)) == NodeImageUrls(node) {
        ItemWrapKeepsUrls(node);
      }
      if first.Ok? {
        LowerItemsAgrees(items[1..], first.value.1, save, ext);
        AgreesCons(first, LowerItems(items[1..], first.value.1, save, ext), LowerItems(items, n, save, ext),
          wrap, Images(items[0].element), ImagesItems(items[1..]), n, save, ext);
      } else {
        AgreesCons(first, Ok(([], n)), LowerItems(items, n, save, ext),
          wrap, Images(items[0].element), ImagesItems(items[1..]), n, save, ext);
      }
    }
  }

  /** Wrapping a lowered child into an item (and maybe a paragraph) adds no image reference. */
  lemma ItemWrapKeepsUrls(node: Ast.AstNode)
    ensures NodeImageUrls(Ast.Node(Ast.Item, [WrapItemChild(node)])) == NodeImageUrls(node)
  {
    ChildImageUrlsSingle(WrapItemChild(node));
    ChildImageUrlsSingle(node);
  }

  /** Wrapping lowered content into a table cell adds no image reference. */
  lemma CellWrapKeepsUrls(node: Ast.AstNode)
    ensures NodeImageUrls(Ast.Node(Ast.TableCell, [node])) == NodeImageUrls(node)
  {
    ChildImageUrlsSingle(node);
  }

  lemma {:induction false} LowerHeadersAgrees(headers: seq<TableHeader>, n: nat, save: Saver, ext: Extension)
    ensures AgreesSeq(LowerHeaders(headers, n, save, ext), ImagesHeaders(headers), n, save, ext)
    decreases headers
  {
    if |headers| > 0 {
      assert headers[0].element < headers[0];
      LowerAgrees(headers[0].element, n, save, ext);
      var first := Lower(headers[0].element, n, save, ext);
      var wrap := (node: Ast.AstNode) => Ast.Node(Ast.TableCell, [node]);
      forall node: Ast.AstNode ensures NodeImageUrls(wrap(node)) == NodeImageUrls(node) {
        CellWrapKeepsUrls(node);
      }
      if first.Ok? {
        LowerHeadersAgrees(headers[1..], first.value.1, save, ext);
        AgreesCons(first, LowerHeaders(headers[1..], first.value.1, save, ext), LowerHeaders(headers, n, save, ext),
          wrap, Images(headers[0].element), ImagesHeaders(headers[1..]), n, save, ext);
      } else {
        AgreesCons(first, Ok(([], n)), LowerHeaders(headers, n, save, ext),
          wrap, Images(headers[0].element), ImagesHeaders(headers[1..]), n, save, ext);
      }
    }
  }

  lemma {:induction false} LowerCellsAgrees(cells: seq<TableCell>, n: nat, save: Saver, ext: Extension)
    ensures AgreesSeq(LowerCells(cells, n, save, ext), ImagesCells(cells), n, save, ext)
    decreases cells
  {
    if |cells| > 0 {
      assert cells[0].element < cells[0];
      LowerAgrees(cells[0].element, n, save, ext);
      var first := Lower(cells[0].element, n, save, ext);
      var wrap := (node: Ast.AstNode) => Ast.Node(Ast.TableCell, [node]);
      forall node: Ast.AstNode ensures NodeImageUrls(wrap(node)) == NodeImageUrls(node) {
        CellWrapKeepsUrls(node);
      }
      if first.Ok? {
        LowerCellsAgrees(cells[1..], first.value.1, save, ext);
        AgreesCons(first, LowerCells(cells[1..], first.value.1, save, ext), LowerCells(cells, n, save, ext),
          wrap, Images(cells[0].element), ImagesCells(cells[1..]), n, save, ext);
      } else {
        AgreesCons(first, Ok(([], n)), LowerCells(cells, n, save, ext),
          wrap, Images(cells[0].element), ImagesCells(cells[1..]), n, save, ext);
      }
    }
  }

  /** `AgreesCons` for a body row: the row node holds the lowered cells. */
  lemma {:induction false} RowAgreesCons(
    first: Result<LoweredSeq, ConversionError>, rest: Result<LoweredSeq, ConversionError>,
    whole: Result<LoweredSeq, ConversionError>,
    a: seq<ImageData>, b: seq<ImageData>, n: nat, save: Saver, ext: Extension)
    requires AgreesSeq(first, a, n, save, ext)
    requires first.Ok? ==> AgreesSeq(rest, b, first.value.1, save, ext)
    requires whole == match first
      case Err(err) => Err(err)
      case Ok((cells, _)) =>
        match rest
        case Err(err) => Err(err)
        case Ok((nodes, m')) => Ok(([Ast.Node(Ast.TableRow(false), cells)] + nodes, m'))
    ensures AgreesSeq(whole, a + b, n, save, ext)
  {
    SaveFailureAppend(a, b, n, save, ext);
    ImageNamesAppend(a, b, n, ext);
    if first.Ok? && rest.Ok? {
      ChildImageUrlsCons(Ast.Node(Ast.TableRow(false), first.value.0), rest.value.0);
    }
  }

  lemma {:induction false} LowerRowsAgrees(rows: seq<TableRow>, n: nat, save: Saver, ext: Extension)
    ensures AgreesSeq(LowerRows(rows, n, save, ext), ImagesRows(rows), n, save, ext)
    decreases rows
  {
    if |rows| > 0 {
      LowerCellsAgrees(rows[0].cells, n, save, ext);
      var first := LowerCells(rows[0].cells, n, save, ext);
      if first.Ok? {
        LowerRowsAgrees(rows[1..], first.value.1, save, ext);
        RowAgreesCons(first, LowerRows(rows[1..], first.value.1, save, ext), LowerRows(rows, n, save, ext),
          ImagesCells(rows[0].cells), ImagesRows(rows[1..]), n, save, ext);
      } else {
        RowAgreesCons(first, Ok(([], n)), LowerRows(rows, n, save, ext),
          ImagesCells(rows[0].cells), ImagesRows(rows[1..]), n, save, ext);
      }
    }
  }

  /** The `i`-th image gets the `(n + i + 1)`-th file name. */
  lemma {:induction false} ImageNamesAt(imgs: seq<ImageData>, n: nat, ext: Extension)
    ensures |ImageNames(imgs, n, ext)| == |imgs|
    ensures forall i :: 0 <= i < |imgs| ==>
      ImageNames(imgs, n, ext)[i] == ImageFileName(n + i + 1, ext(imgs[i].imageType))
    decreases |imgs|
  {
    if |imgs| > 0 {
      ImageNamesAt(imgs[1..], n + 1, ext);
    }
  }

  /**
   * The images of one pass get pairwise different file names, as long as no
   * extension starts with a digit.
   */
  lemma ImageNamesDistinct(imgs: seq<ImageData>, n: nat, ext: Extension)
    requires forall i :: 0 <= i < |imgs| ==> NoLeadingDigit(ext(imgs[i].imageType))
    ensures |ImageNames(imgs, n, ext)| == |imgs|
    ensures forall i, j :: 0 <= i < j < |imgs| ==> ImageNames(imgs, n, ext)[i] != ImageNames(imgs, n, ext)[j]
  {
    ImageNamesAt(imgs, n, ext);
    forall i, j | 0 <= i < j < |imgs|
      ensures ImageNames(imgs, n, ext)[i] != ImageNames(imgs, n, ext)[j]
    {
      if ImageNames(imgs, n, ext)[i] == ImageNames(imgs, n, ext)[j] {
        ImageFileNameInjective(n + i + 1, ext(imgs[i].imageType), n + j + 1, ext(imgs[j].imageType));
        assert false;
      }
    }
  }

  // ---------------------------------------------------------------------------
  // A whole document
  // ---------------------------------------------------------------------------

  /**
   * Generating a document: it fails exactly when saving one of its images
   * fails, with the name of the first such file; otherwise the output
   * refers to the `i`-th image of page header, body and page footer (in that
   * order) as `image{i+1}` with its type's extension, the counter starting
   * afresh for every document.
   */
  lemma GenerateImages(doc: Document, save: Saver, ext: Extension)
    ensures var imgs := ImagesSeq(AllElements(doc));
      match Generate(doc, save, ext)
      case Err(err) =>
        SaveFailure(imgs, 0, save, ext).Some? && err == ImageSaveFailed(SaveFailure(imgs, 0, save, ext).value)
      case Ok(root) =>
        SaveFailure(imgs, 0, save, ext).None? &&
        root.value == Ast.Document &&
        |NodeImageUrls(root)| == |imgs| &&
        forall i :: 0 <= i < |imgs| ==> NodeImageUrls(root)[i] == ImageFileName(i + 1, ext(imgs[i].imageType))
  {
    var imgs := ImagesSeq(AllElements(doc));
    LowerSeqAgrees(AllElements(doc), 0, save, ext);
    ImageNamesAt(imgs, 0, ext);
  }

  /**
   * A generated document never refers to two images by the same file name,
   * as long as no extension starts with a digit.
   */
  lemma GenerateDistinctNames(doc: Document, save: Saver, ext: Extension)
    requires forall t :: NoLeadingDigit(ext(t))
    ensures Generate(doc, save, ext).Ok? ==>
      var urls := NodeImageUrls(Generate(doc, save, ext).value);
      forall i, j :: 0 <= i < j < |urls| ==> urls[i] != urls[j]
  {
    var imgs := ImagesSeq(AllElements(doc));
    GenerateImages(doc, save, ext);
    LowerSeqAgrees(AllElements(doc), 0, save, ext);
    ImageNamesDistinct(imgs, 0, ext);
  }
}
