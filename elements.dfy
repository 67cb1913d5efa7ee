/**
 * The format-agnostic document tree shared by the tree builder and the tree
 * lowering: a `Document` is three ordered sequences of `Element`s, and every
 * `Element` owns its children (lists nest through `ListItem.element`).
 */
module Elements {

  newtype byte = x: int | 0 <= x < 256

  /** Raw resource bytes of an embedded image. */
  type Bytes = seq<byte>

  /** Heading levels H1 to H6. */
  type HeadingLevel = l: int | 1 <= l <= 6 witness 1

  /** The font size the builder gives to every text run and hyperlink it creates. */
  const TEXT_SIZE: int := 14

  /** The width the builder gives to every table header cell. */
  const HEADER_WIDTH: real := 30.0

  /** What the builder records of an image: its bytes, title, alternative text and type. */
  datatype ImageData = ImageData(bytes: Bytes, title: string, alt: string, imageType: string)

  datatype Element =
    | Header(level: HeadingLevel, text: string)
    | Paragraph(elements: seq<Element>)
    | Text(text: string, size: int)
    | List(items: seq<ListItem>, numbered: bool)
    | Hyperlink(title: string, url: string, alt: string, size: int)
    | Image(image: ImageData)
    | Table(headers: seq<TableHeader>, rows: seq<TableRow>)

  datatype ListItem = ListItem(element: Element)

  datatype TableHeader = TableHeader(element: Element, width: real)

  datatype TableRow = TableRow(cells: seq<TableCell>)

  datatype TableCell = TableCell(element: Element)

  /** Page geometry: passed through, never manipulated by the builder or the lowering. */
  datatype PageGeometry = PageGeometry(
    width: real, height: real,
    leftIndent: real, rightIndent: real, topIndent: real, bottomIndent: real)

  const DEFAULT_GEOMETRY := PageGeometry(210.0, 297.0, 10.0, 10.0, 10.0, 10.0)

  datatype Document = Document(
    elements: seq<Element>,
    pageHeader: seq<Element>,
    pageFooter: seq<Element>,
    geometry: PageGeometry)

  /** A document whose body is `elements`, with no page header or footer and default geometry. */
  function NewDocument(elements: seq<Element>): Document
  {
    Document(elements, [], [], DEFAULT_GEOMETRY)
  }

  /** The failures either direction can report. */
  datatype ConversionError =
    | StructuralInvariantViolation
    | ImageLoadFailed(reference: string)
    | ImageSaveFailed(filename: string)
}
