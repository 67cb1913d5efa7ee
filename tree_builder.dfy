/**
 * The tree builder: one pass over a flat event stream that assembles a
 * `Document`. Its state is the sealed top-level elements, the one open
 * top-level scope, a list-depth counter and a separate table slot.
 *
 * `Step` and `Parse` are the specification; `Build` is the event loop that
 * updates the four pieces of state in place and is proved to compute `Parse`.
 */
module TreeBuilder {
  import opened Wrappers
  import opened Elements
  import opened ListDescent
  import Events

  /** The table being assembled, and whether text currently goes to its header row. */
  datatype TableSlot = TableSlot(inHeader: bool, headers: seq<TableHeader>, rows: seq<TableRow>)

  datatype BuilderState = BuilderState(
    elements: seq<Element>,
    current: Option<Element>,
    listDepth: int,
    table: Option<TableSlot>)

  const INITIAL := BuilderState([], None, 0, None)

  /** The image loader: resolves an image reference to its bytes, or fails. */
  type Loader = string -> Option<Bytes>

  // ---------------------------------------------------------------------------
  // Inserting a new element (process_element_creation)
  // ---------------------------------------------------------------------------

  /** Whether pushing `el` onto `level` first discards a trailing `Text` placeholder item. */
  predicate DropsPlaceholder(level: seq<ListItem>, el: Element)
  {
    (el.Hyperlink? || el.Header?) && |level| > 0 && LastElement(level).Text?
  }

  /**
   * Appends `el` as a new item of `level`. A link or header replaces a `Text`
   * placeholder item that was created for it just before; nothing else is removed.
   */
  function PushItem(level: seq<ListItem>, el: Element): (r: seq<ListItem>)
    ensures |r| > 0 && r[|r| - 1] == ListItem(el)
    ensures r[..|r| - 1] <= level
    ensures |r| == if DropsPlaceholder(level, el) then |level| else |level| + 1
  {
    var kept := if DropsPlaceholder(level, el) then level[..|level| - 1] else level;
    kept + [ListItem(el)]
  }

  /** `PushItem` as a level rewrite for `ModifyLevel`. */
  function PushInto(el: Element): seq<ListItem> -> Option<seq<ListItem>>
  {
    level => Some(PushItem(level, el))
  }

  /**
   * Inserts a newly opened element. With no open scope the element becomes
   * the open scope; inside an open list it becomes a new item of the level
   * `Levels(listDepth)` steps down; any other open scope ignores it.
   */
  function Insert(current: Option<Element>, el: Element, listDepth: int)
    : (r: Result<Option<Element>, ConversionError>)
    ensures current.None? ==> r == Ok(Some(el))
    ensures current.Some? && !current.value.List? ==> r == Ok(current)
    ensures r.Err? ==> r.error == StructuralInvariantViolation
  {
    match current
    case None => Ok(Some(el))
    case Some(List(items, numbered)) =>
      (match ModifyLevel(items, Levels(listDepth), PushInto(el))
       case None => Err(StructuralInvariantViolation)
       case Some(items') => Ok(Some(List(items', numbered))))
    case Some(_) => Ok(current)
  }

  // ---------------------------------------------------------------------------
  // Routing a text event
  // ---------------------------------------------------------------------------

  /**
   * Text arriving for a list item lands in the last item of the target level:
   * appended to a `Text`, replacing a link's title or a header's text, and
   * ignored by any other element. An empty level fails (the source unwraps).
   */
  function AppendToLastItem(level: seq<ListItem>, t: string): (r: Option<seq<ListItem>>)
    ensures r.Some? <==> |level| > 0
    ensures r.Some? ==> |r.value| == |level| && r.value[..|level| - 1] == level[..|level| - 1]
    ensures r.Some? && LastElement(level).Text? ==>
      LastElement(r.value) == Text(LastElement(level).text + t, LastElement(level).size)
    ensures r.Some? && LastElement(level).Hyperlink? ==>
      var link := LastElement(level);
      LastElement(r.value) == Hyperlink(t, link.url, link.alt, link.size)
    ensures r.Some? && LastElement(level).Header? ==>
      LastElement(r.value) == Header(LastElement(level).level, t)
    ensures r.Some? && !(LastElement(level).Text? || LastElement(level).Hyperlink? || LastElement(level).Header?) ==>
      r.value == level
  {
    if |level| == 0 then None
    else
      var updated := match LastElement(level)
        case Text(s, size) => Text(s + t, size)
        case Hyperlink(_, url, alt, size) => Hyperlink(t, url, alt, size)
        case Header(lv, _) => Header(lv, t)
        case other => other;
      Some(level[..|level| - 1] + [ListItem(updated)])
  }

  /** `AppendToLastItem` as a level rewrite for `ModifyLevel`. */
  function AppendInto(t: string): seq<ListItem> -> Option<seq<ListItem>>
  {
    level => AppendToLastItem(level, t)
  }

  /** Routes text into the open scope, by what that scope is. */
  function RouteText(current: Option<Element>, t: string, listDepth: int)
    : Result<Option<Element>, ConversionError>
  {
    match current
    case None => Ok(None)
    case Some(Paragraph(es)) => Ok(Some(Paragraph(es + [Text(t, TEXT_SIZE)])))
    case Some(Header(level, s)) => Ok(Some(Header(level, s + t)))
    case Some(List(items, numbered)) =>
      (match ModifyLevel(items, Levels(listDepth), AppendInto(t))
       case None => Err(StructuralInvariantViolation)
       case Some(items') => Ok(Some(List(items', numbered))))
    case Some(Image(img)) => Ok(Some(Image(img.(alt := t))))
    // A top-level link reassigns its alt text to itself: no change.
    case Some(Hyperlink(_, _, _, _)) => Ok(current)
    case Some(_) => Ok(current)
  }

  /** One table cell or header cell holding a text run. */
  function CellText(t: string): Element
  {
    Text(t, TEXT_SIZE)
  }

  /**
   * Text inside a table: a new header cell in header mode; otherwise a new
   * cell of the last row while that row has fewer cells than there are
   * headers, else the first cell of a new row.
   */
  function TableText(slot: TableSlot, t: string): TableSlot
  {
    if slot.inHeader then
      slot.(headers := slot.headers + [TableHeader(CellText(t), HEADER_WIDTH)])
    else if |slot.rows| > 0 && |slot.rows[|slot.rows| - 1].cells| != |slot.headers| then
      var last := slot.rows[|slot.rows| - 1];
      slot.(rows := slot.rows[..|slot.rows| - 1] + [TableRow(last.cells + [TableCell(CellText(t))])])
    else
      slot.(rows := slot.rows + [TableRow([TableCell(CellText(t))])])
  }

  // ---------------------------------------------------------------------------
  // One event
  // ---------------------------------------------------------------------------

  /** The empty element a paragraph, heading, item or link start tag opens. */
  function Placeholder(tag: Events.Tag): Element
    requires tag.Paragraph? || tag.Heading? || tag.Item? || tag.Link?
  {
    match tag
    case Paragraph => Paragraph([])
    case Heading(level) => Header(level, "")
    case Item => Text("", TEXT_SIZE)
    case Link(destUrl, title) => Hyperlink(title, destUrl, "alt", TEXT_SIZE)
  }

  /** The failures the builder can report: a broken list descent, or an image the loader cannot load. */
  predicate BuildError(e: ConversionError, loader: Loader)
  {
    e == StructuralInvariantViolation || (e.ImageLoadFailed? && loader(e.reference).None?)
  }

  /**
   * A start tag never seals anything; only a list start raises the depth.
   * It fails on an image the loader cannot load, or on a broken list descent.
   */
  function StartTag(s: BuilderState, tag: Events.Tag, loader: Loader): (r: Result<BuilderState, ConversionError>)
    ensures r.Ok? ==> r.value.elements == s.elements
    ensures r.Ok? ==> r.value.listDepth == if tag.List? then s.listDepth + 1 else s.listDepth
    ensures r.Err? && tag.Image? ==> r.error == ImageLoadFailed(tag.destUrl) && loader(tag.destUrl).None?
    ensures r.Err? && !tag.Image? ==>
      r.error == StructuralInvariantViolation && s.current.Some? && s.current.value.List?
    ensures tag.Image? ==> (r.Ok? <==> loader(tag.destUrl).Some?)
  {
    match tag
    case List(start) =>
      (match Insert(s.current, List([], start.Some?), s.listDepth)
       case Err(e) => Err(e)
       case Ok(c) => Ok(s.(current := c, listDepth := s.listDepth + 1)))
    case Table =>
      Ok(s.(table := Some(TableSlot(false, [], []))))
    case TableHead =>
      Ok(s.(table := if s.table.Some? then Some(s.table.value.(inHeader := true)) else None))
    case Image(destUrl, title) =>
      (match loader(destUrl)
       case None => Err(ImageLoadFailed(destUrl))
       case Some(bytes) =>
         // The open scope (the paragraph around the image) is discarded first.
         match Insert(None, Image(ImageData(bytes, title, title, destUrl)), s.listDepth)
         case Err(e) => Err(e)
         case Ok(c) => Ok(s.(current := c)))
    case OtherTag => Ok(s)
    case _ =>
      (match Insert(s.current, Placeholder(tag), s.listDepth)
       case Err(e) => Err(e)
       case Ok(c) => Ok(s.(current := c)))
  }

  /** Closing a paragraph, heading, link or image: seals the open scope unless it is a list. */
  function SealScope(s: BuilderState): (r: BuilderState)
    ensures r.listDepth == s.listDepth && r.table == s.table
    ensures s.current.Some? && !s.current.value.List? ==>
      r.elements == s.elements + [s.current.value] && r.current.None?
    ensures s.current.None? || s.current.value.List? ==> r == s
  {
    match s.current
    case None => s
    case Some(List(_, _)) => s
    case Some(e) => s.(elements := s.elements + [e], current := None)
  }

  /**
   * An end tag seals at most one element, appended after the sealed ones;
   * only a list end lowers the depth.
   */
  function EndTag(s: BuilderState, tag: Events.TagEnd): (r: BuilderState)
    ensures s.elements <= r.elements && |r.elements| <= |s.elements| + 1
    ensures r.listDepth == if tag.List? then s.listDepth - 1 else s.listDepth
  {
    match tag
    case Paragraph => SealScope(s)
    case Heading => SealScope(s)
    case Link => SealScope(s)
    case Image => SealScope(s)
    case List =>
      if s.listDepth - 1 == 0 && s.current.Some? then
        s.(listDepth := 0, elements := s.elements + [s.current.value], current := None)
      else
        s.(listDepth := s.listDepth - 1)
    case TableHead =>
      s.(table := if s.table.Some? then Some(s.table.value.(inHeader := false)) else None)
    case Table =>
      if s.table.Some? then
        s.(elements := s.elements + [Table(s.table.value.headers, s.table.value.rows)], table := None)
      else s
    case OtherEnd => s
  }

  /** Text goes both to the open scope and, independently, to an open table. */
  function TextEvent(s: BuilderState, t: string): (r: Result<BuilderState, ConversionError>)
    ensures r.Ok? ==> r.value.elements == s.elements && r.value.listDepth == s.listDepth
    ensures r.Ok? ==> r.value.table.Some? == s.table.Some?
    ensures r.Err? ==> r.error == StructuralInvariantViolation
  {
    match RouteText(s.current, t, s.listDepth)
    case Err(e) => Err(e)
    case Ok(c) =>
      Ok(s.(current := c, table := if s.table.Some? then Some(TableText(s.table.value, t)) else None))
  }

  /** One event seals at most one element and reports only builder failures. */
  function Step(s: BuilderState, ev: Events.Event, loader: Loader): (r: Result<BuilderState, ConversionError>)
    ensures r.Ok? ==> s.elements <= r.value.elements && |r.value.elements| <= |s.elements| + 1
    ensures r.Err? ==> BuildError(r.error, loader)
    ensures ev.Start? ==> r.Ok? ==> r.value.elements == s.elements
  {
    match ev
    case Start(tag) => StartTag(s, tag, loader)
    case Text(t) => TextEvent(s, t)
    case End(tag) => Ok(EndTag(s, tag))
    case OtherEvent => Ok(s)
  }

  /** Feeds `events` to the builder from state `s`; the first failure aborts. */
  function RunFrom(s: BuilderState, events: seq<Events.Event>, loader: Loader): (r: Result<BuilderState, ConversionError>)
    ensures r.Ok? ==> s.elements <= r.value.elements && |r.value.elements| <= |s.elements| + |events|
    ensures r.Err? ==> BuildError(r.error, loader)
    decreases |events|
  {
    if |events| == 0 then Ok(s)
    else
      match Step(s, events[0], loader)
      case Err(e) => Err(e)
      case Ok(s') => RunFrom(s', events[1..], loader)
  }

  /**
   * The document built from an event stream. Only the sealed elements make
   * it into the document: a scope or table still open at the end is dropped.
   */
  function Parse(events: seq<Events.Event>, loader: Loader): (r: Result<Document, ConversionError>)
    ensures r.Ok? ==> r.value.pageHeader == [] && r.value.pageFooter == [] && r.value.geometry == DEFAULT_GEOMETRY
    ensures r.Ok? ==> |r.value.elements| <= |events|
    ensures r.Err? ==> BuildError(r.error, loader)
  {
    match RunFrom(INITIAL, events, loader)
    case Err(e) => Err(e)
    case Ok(s) => Ok(NewDocument(s.elements))
  }

  // ---------------------------------------------------------------------------
  // The event loop
  // ---------------------------------------------------------------------------

  /**
   * Builds the document in one pass, updating the sealed elements, the open
   * scope, the list depth and the table slot event by event.
   */
  method Build(events: seq<Events.Event>, loader: Loader) returns (r: Result<Document, ConversionError>)
    ensures r == Parse(events, loader)
  {
    var elements: seq<Element> := [];
    var current: Option<Element> := None;
    var listDepth: int := 0;
    var table: Option<TableSlot> := None;
    var i := 0;
    while i < |events|
      invariant 0 <= i <= |events|
      invariant RunFrom(INITIAL, events, loader) ==
                RunFrom(BuilderState(elements, current, listDepth, table), events[i..], loader)
    {
      ghost var before := BuilderState(elements, current, listDepth, table);
      assert events[i..][1..] == events[i + 1..];
      match events[i] {
        case Start(tag) =>
          match tag {
            case List(start) =>
              var c := Insert(current, List([], start.Some?), listDepth);
              if c.Err? { return Err(c.error); }
              current := c.value;
              listDepth := listDepth + 1;
            case Table =>
              table := Some(TableSlot(false, [], []));
            case TableHead =>
              if table.Some? { table := Some(table.value.(inHeader := true)); }
            case Image(destUrl, title) =>
              var bytes := loader(destUrl);
              if bytes.None? { return Err(ImageLoadFailed(destUrl)); }
              // The open scope (the paragraph around the image) is discarded first.
              current := None;
              var c := Insert(current, Image(ImageData(bytes.value, title, title, destUrl)), listDepth);
              current := c.value;
            case OtherTag =>
            case _ =>
              var c := Insert(current, Placeholder(tag), listDepth);
              if c.Err? { return Err(c.error); }
              current := c.value;
          }
        case Text(t) =>
          var c := RouteText(current, t, listDepth);
          if c.Err? { return Err(c.error); }
          current := c.value;
          if table.Some? { table := Some(TableText(table.value, t)); }
        case End(tag) =>
          match tag {
            case List =>
              listDepth := listDepth - 1;
              if listDepth == 0 && current.Some? {
                elements := elements + [current.value];
                current := None;
              }
            case TableHead =>
              if table.Some? { table := Some(table.value.(inHeader := false)); }
            case Table =>
              if table.Some? {
                elements := elements + [Table(table.value.headers, table.value.rows)];
                table := None;
              }
            case OtherEnd =>
            case _ =>
              if current.Some? && !current.value.List? {
                elements := elements + [current.value];
                current := None;
              }
          }
        case OtherEvent =>
      }
      assert Step(before, events[i], loader) == Ok(BuilderState(elements, current, listDepth, table));
      i := i + 1;
    }
    r := Ok(NewDocument(elements));
  }
}
