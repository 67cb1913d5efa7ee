/**
 * The tree lowering: structural recursion from `Element`s to the output
 * tree. One image counter is threaded through the whole pass, in document
 * order; each image is handed to the image saver under the next file name,
 * and a saver failure aborts the whole lowering.
 */
module TreeLowering {
  import opened Wrappers
  import opened Elements
  import Ast = OutputAst

  /** The image saver: persists bytes under a file name; `false` is a failure. */
  type Saver = (Bytes, string) -> bool

  /** The file extension (".png", ...) of an image type. */
  type Extension = string -> string

  /** What lowering one element yields: its node, and the image counter afterwards. */
  type Lowered = (Ast.AstNode, nat)

  /** What lowering a sequence yields: one node per entry, and the image counter afterwards. */
  type LoweredSeq = (seq<Ast.AstNode>, nat)

  predicate IsDigit(c: char)
  {
    '0' <= c <= '9'
  }

  function DigitChar(d: nat): (c: char)
    requires d < 10
    ensures IsDigit(c)
  {
    ('0' as int + d) as char
  }

  /** The number a string of decimal digits denotes. */
  function DigitsValue(s: string): nat
    requires forall i :: 0 <= i < |s| ==> IsDigit(s[i])
  {
    if |s| == 0 then 0
    else
      assert IsDigit(s[|s| - 1]);
      DigitsValue(s[..|s| - 1]) * 10 + (s[|s| - 1] as int - '0' as int)
  }

  /** Decimal notation of a natural number, without leading zeros. */
  function NatToString(n: nat): string
  {
    if n < 10 then [DigitChar(n)] else NatToString(n / 10) + [DigitChar(n % 10)]
  }

  /** The decimal notation is a non-empty digit string denoting the number it was written from. */
  lemma {:induction false} NatToStringValue(n: nat)
    ensures |NatToString(n)| > 0
    ensures forall i :: 0 <= i < |NatToString(n)| ==> IsDigit(NatToString(n)[i])
    ensures DigitsValue(NatToString(n)) == n
  {
    var s := NatToString(n);
    if n >= 10 {
      NatToStringValue(n / 10);
      assert s[..|s| - 1] == NatToString(n / 10);
      assert s[|s| - 1] == DigitChar(n % 10);
    } else {
      assert s[..|s| - 1] == [];
    }
  }

  /**
   * Whether a string does not begin with a decimal digit. The naming lemmas
   * take this as a hypothesis about every image extension.
   */
  predicate NoLeadingDigit(extension: string)
  {
    |extension| == 0 || !IsDigit(extension[0])
  }

  /** The file name of the `k`-th image of a lowering pass. */
  function ImageFileName(k: nat, extension: string): string
  {
    "image" + NatToString(k) + extension
  }

  /**
   * A file name is `image`, then the decimal digits of the counter, then the
   * extension.
   */
  lemma ImageFileNameParts(k: nat, extension: string)
    ensures var name := ImageFileName(k, extension);
      && |name| >= 5 + |extension| && name[..5] == "image" && name[|name| - |extension|..] == extension
      && (forall i :: 5 <= i < |name| - |extension| ==> IsDigit(name[i]))
      && DigitsValue(name[5..|name| - |extension|]) == k
  {
    var name := ImageFileName(k, extension);
    NatToStringValue(k);
    assert name[5..|name| - |extension|] == NatToString(k);
  }

  /** When one all-digit prefix is longer, the other split's suffix starts with a digit. */
  lemma LongerDigitsReachSuffix(d1: string, e1: string, d2: string, e2: string)
    requires forall i :: 0 <= i < |d2| ==> IsDigit(d2[i])
    requires d1 + e1 == d2 + e2
    requires |d1| < |d2|
    ensures |e1| > 0 && IsDigit(e1[0])
  {
    assert e1[0] == (d1 + e1)[|d1|] == (d2 + e2)[|d1|] == d2[|d1|];
  }

  /** A string splits in at most one way into a digit run and a suffix not starting with a digit. */
  lemma DigitSplitUnique(d1: string, e1: string, d2: string, e2: string)
    requires forall i :: 0 <= i < |d1| ==> IsDigit(d1[i])
    requires forall i :: 0 <= i < |d2| ==> IsDigit(d2[i])
    requires NoLeadingDigit(e1) && NoLeadingDigit(e2)
    requires d1 + e1 == d2 + e2
    ensures d1 == d2 && e1 == e2
  {
    if |d1| < |d2| {
      LongerDigitsReachSuffix(d1, e1, d2, e2);
      assert false;
    } else if |d2| < |d1| {
      LongerDigitsReachSuffix(d2, e2, d1, e1);
      assert false;
    } else {
      assert d1 == (d1 + e1)[..|d1|] && d2 == (d2 + e2)[..|d2|];
      assert e1 == (d1 + e1)[|d1|..] && e2 == (d2 + e2)[|d2|..];
    }
  }

  /**
   * Different counter values give different file names, as long as the
   * extensions do not start with a digit; the extension is recovered too.
   */
  lemma ImageFileNameInjective(k1: nat, ext1: string, k2: nat, ext2: string)
    requires NoLeadingDigit(ext1) && NoLeadingDigit(ext2)
    requires ImageFileName(k1, ext1) == ImageFileName(k2, ext2)
    ensures k1 == k2 && ext1 == ext2
  {
    var d1, d2 := NatToString(k1), NatToString(k2);
    NatToStringValue(k1);
    NatToStringValue(k2);
    var n := ImageFileName(k1, ext1);
    assert n == "image" + (d1 + ext1) && n == "image" + (d2 + ext2);
    assert d1 + ext1 == n[5..] == d2 + ext2;
    DigitSplitUnique(d1, ext1, d2, ext2);
  }

  /** The paragraph wrapper a list item gets unless its child is a list or already a paragraph. */
  function WrapItemChild(child: Ast.AstNode): (r: Ast.AstNode)
    ensures r.value.List? || r.value.Paragraph?
    ensures r == child || r == Ast.Node(Ast.Paragraph, [child])
    ensures r == child <==> child.value.List? || child.value.Paragraph?
  {
    if child.value.List? then child
    else if !child.value.Paragraph? then Ast.Node(Ast.Paragraph, [child])
    else child
  }

  /** Lowers one element, with `n` images already numbered. */
  function Lower(e: Element, n: nat, save: Saver, ext: Extension): (r: Result<Lowered, ConversionError>)
    ensures r.Ok? ==> r.value.1 >= n
    ensures r.Err? ==> r.error.ImageSaveFailed?
    decreases e
  {
    match e
    case Text(t, _) => Ok((Ast.Leaf(Ast.Text(t)), n))
    case Header(level, t) => Ok((Ast.Node(Ast.Heading(level), [Ast.Leaf(Ast.Text(t))]), n))
    case Paragraph(es) =>
      (match LowerSeq(es, n, save, ext)
       case Err(err) => Err(err)
       case Ok((children, m)) => Ok((Ast.Node(Ast.Paragraph, children), m)))
    case List(items, numbered) =>
      (match LowerItems(items, n, save, ext)
       case Err(err) => Err(err)
       case Ok((children, m)) =>
         Ok((Ast.Node(Ast.List(numbered, if numbered then 1 else 0), children), m)))
    case Image(img) =>
      var name := ImageFileName(n + 1, ext(img.imageType));
      if !save(img.bytes, name) then Err(ImageSaveFailed(name))
      else Ok((Ast.Node(Ast.Paragraph, [Ast.Leaf(Ast.Image(name, img.title))]), n + 1))
    case Hyperlink(title, url, alt, _) =>
      Ok((Ast.Node(Ast.Link(url, alt), [Ast.Leaf(Ast.Text(title))]), n))
    case Table(headers, rows) =>
      (match LowerHeaders(headers, n, save, ext)
       case Err(err) => Err(err)
       case Ok((headerCells, m)) =>
         match LowerRows(rows, m, save, ext)
         case Err(err) => Err(err)
         case Ok((rowNodes, m')) =>
           var alignments := seq(|headers|, _ => Ast.TableAlignment.None);
           Ok((Ast.Node(Ast.Table(alignments, |headers|, |rows| + 1, 0),
                        [Ast.Node(Ast.TableRow(true), headerCells)] + rowNodes), m')))
  }

  /** Lowers a sequence of elements in order; the first failure aborts. */
  function LowerSeq(es: seq<Element>, n: nat, save: Saver, ext: Extension): (r: Result<LoweredSeq, ConversionError>)
    ensures r.Ok? ==> r.value.1 >= n
    ensures r.Err? ==> r.error.ImageSaveFailed?
    ensures r.Ok? ==> |r.value.0| == |es|
    decreases es
  {
    if |es| == 0 then Ok(([], n))
    else
      match Lower(es[0], n, save, ext)
      case Err(err) => Err(err)
      case Ok((node, m)) =>
        match LowerSeq(es[1..], m, save, ext)
        case Err(err) => Err(err)
        case Ok((nodes, m')) => Ok(([node] + nodes, m'))
  }

  /** Lowers list items: one item node per item, holding the (wrapped) lowered element. */
  function LowerItems(items: seq<ListItem>, n: nat, save: Saver, ext: Extension): (r: Result<LoweredSeq, ConversionError>)
    ensures r.Ok? ==> r.value.1 >= n
    ensures r.Err? ==> r.error.ImageSaveFailed?
    ensures r.Ok? ==> |r.value.0| == |items|
    ensures r.Ok? ==> forall i :: 0 <= i < |items| ==>
      r.value.0[i].value == Ast.Item && |r.value.0[i].children| == 1
    decreases items
  {
    if |items| == 0 then Ok(([], n))
    else
      assert items[0].element < items[0];
      match Lower(items[0].element, n, save, ext)
      case Err(err) => Err(err)
      case Ok((child, m)) =>
        match LowerItems(items[1..], m, save, ext)
        case Err(err) => Err(err)
        case Ok((nodes, m')) => Ok(([Ast.Node(Ast.Item, [WrapItemChild(child)])] + nodes, m'))
  }

  /** Lowers header cells: one table cell node per header, holding the lowered element. */
  function LowerHeaders(headers: seq<TableHeader>, n: nat, save: Saver, ext: Extension): (r: Result<LoweredSeq, ConversionError>)
    ensures r.Ok? ==> r.value.1 >= n
    ensures r.Err? ==> r.error.ImageSaveFailed?
    ensures r.Ok? ==> |r.value.0| == |headers|
    ensures r.Ok? ==> forall j :: 0 <= j < |headers| ==>
      r.value.0[j].value == Ast.TableCell && |r.value.0[j].children| == 1
    decreases headers
  {
    if |headers| == 0 then Ok(([], n))
    else
      assert headers[0].element < headers[0];
      match Lower(headers[0].element, n, save, ext)
      case Err(err) => Err(err)
      case Ok((content, m)) =>
        match LowerHeaders(headers[1..], m, save, ext)
        case Err(err) => Err(err)
        case Ok((nodes, m')) => Ok(([Ast.Node(Ast.TableCell, [content])] + nodes, m'))
  }

  /** Lowers body rows: one non-header row node per row, with one cell node per cell. */
  function LowerRows(rows: seq<TableRow>, n: nat, save: Saver, ext: Extension): (r: Result<LoweredSeq, ConversionError>)
    ensures r.Ok? ==> r.value.1 >= n
    ensures r.Err? ==> r.error.ImageSaveFailed?
    ensures r.Ok? ==> |r.value.0| == |rows|
    ensures r.Ok? ==> forall i :: 0 <= i < |rows| ==>
      r.value.0[i].value == Ast.TableRow(false) && |r.value.0[i].children| == |rows[i].cells|
    decreases rows
  {
    if |rows| == 0 then Ok(([], n))
    else
      match LowerCells(rows[0].cells, n, save, ext)
      case Err(err) => Err(err)
      case Ok((cells, m)) =>
        match LowerRows(rows[1..], m, save, ext)
        case Err(err) => Err(err)
        case Ok((nodes, m')) => Ok(([Ast.Node(Ast.TableRow(false), cells)] + nodes, m'))
  }

  /**
   * Lowers the cells of one row: one table cell node per cell, holding the
   * lowered element. It computes what `LowerHeaders` computes for headers;
   * the two are kept apart because the header loop and the body-row loop
   * are separate loops.
   */
  function LowerCells(cells: seq<TableCell>, n: nat, save: Saver, ext: Extension): (r: Result<LoweredSeq, ConversionError>)
    ensures r.Ok? ==> r.value.1 >= n
    ensures r.Err? ==> r.error.ImageSaveFailed?
    ensures r.Ok? ==> |r.value.0| == |cells|
    ensures r.Ok? ==> forall j :: 0 <= j < |cells| ==>
      r.value.0[j].value == Ast.TableCell && |r.value.0[j].children| == 1
    decreases cells
  {
    if |cells| == 0 then Ok(([], n))
    else
      assert cells[0].element < cells[0];
      match Lower(cells[0].element, n, save, ext)
      case Err(err) => Err(err)
      case Ok((content, m)) =>
        match LowerCells(cells[1..], m, save, ext)
        case Err(err) => Err(err)
        case Ok((nodes, m')) => Ok(([Ast.Node(Ast.TableCell, [content])] + nodes, m'))
  }

  /** Every element the lowering of a document visits: page header, body, page footer. */
  function AllElements(doc: Document): seq<Element>
  {
    doc.pageHeader + doc.elements + doc.pageFooter
  }

  /** Lowers a whole document under a fresh image counter starting at 0. */
  function Generate(doc: Document, save: Saver, ext: Extension): (r: Result<Ast.AstNode, ConversionError>)
    ensures r.Ok? ==> r.value.value == Ast.Document && |r.value.children| == |AllElements(doc)|
    ensures r.Err? ==> r.error.ImageSaveFailed?
  {
    match LowerSeq(AllElements(doc), 0, save, ext)
    case Err(err) => Err(err)
    case Ok((children, _)) => Ok(Ast.Node(Ast.Document, children))
  }

  /**
   * The lowering loop: lowers page header, body and page footer elements one
   * after the other into the root node, sharing one image counter.
   */
  method GenerateWithSaver(doc: Document, save: Saver, ext: Extension) returns (r: Result<Ast.AstNode, ConversionError>)
    ensures r == Generate(doc, save, ext)
  {
    var all := AllElements(doc);
    var imageNum: nat := 0;
    var children: seq<Ast.AstNode> := [];
    var i := 0;
    assert all[0..] == all;
    assert forall rest: seq<Ast.AstNode> :: [] + rest == rest;
    while i < |all|
      invariant 0 <= i <= |all|
      invariant LowerSeq(all, 0, save, ext) ==
        match LowerSeq(all[i..], imageNum, save, ext)
        case Err(err) => Err(err)
        case Ok((rest, m)) => Ok((children + rest, m))
    {
      assert all[i..][1..] == all[i + 1..];
      var lowered := Lower(all[i], imageNum, save, ext);
      if lowered.Err? {
        return Err(lowered.error);
      }
      assert forall rest: seq<Ast.AstNode> :: children + ([lowered.value.0] + rest) == children + [lowered.value.0] + rest;
      children := children + [lowered.value.0];
      imageNum := lowered.value.1;
      i := i + 1;
    }
    assert all[i..] == [];
    assert children + [] == children;
    r := Ok(Ast.Node(Ast.Document, children));
  }
}
