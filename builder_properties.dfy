/** What the tree builder promises, stated about its specification `Step` / `RunFrom` / `Parse`. */
module BuilderProperties {
  import opened Wrappers
  import opened Elements
  import opened ListDescent
  import opened TreeBuilder
  import Events

  // ---------------------------------------------------------------------------
  // Inserting into an open list
  // ---------------------------------------------------------------------------

  /**
   * With a list open, inserting succeeds exactly when the descent of
   * `Levels(listDepth)` steps finds its level; the open list keeps its kind and
   * flag, the reached level gets exactly `PushItem` of it, and nothing off the
   * path changes.
   */
  lemma InsertIntoOpenList(items: seq<ListItem>, numbered: bool, el: Element, listDepth: int)
    ensures var r := Insert(Some(List(items, numbered)), el, listDepth);
      && (r.Ok? <==> Descend(items, Levels(listDepth)).Some?)
      && (r.Err? ==> r.error == StructuralInvariantViolation)
      && (r.Ok? ==>
          && r.value.Some? && r.value.value.List? && r.value.value.numbered == numbered
          && SameOffPath(items, r.value.value.items, Levels(listDepth))
          && Descend(r.value.value.items, Levels(listDepth))
             == Some(PushItem(Descend(items, Levels(listDepth)).value, el)))
  {
    ModifyLevelSpec(items, Levels(listDepth), PushInto(el));
  }

  /**
   * At the first nesting level an item is appended to the open list itself:
   * a placeholder `Text` last item is dropped only for a link or header.
   */
  lemma InsertAtTopLevelOfList(items: seq<ListItem>, numbered: bool, el: Element, listDepth: int)
    requires listDepth <= 1
    ensures Insert(Some(List(items, numbered)), el, listDepth)
         == Ok(Some(List(PushItem(items, el), numbered)))
  {
  }

  /** Whether a start tag is one of those that open a placeholder scope. */
  predicate OpensScope(tag: Events.Tag)
  {
    tag.Paragraph? || tag.Heading? || tag.Item? || tag.Link?
  }

  /**
   * Opening a paragraph, heading, item or link: with nothing open the
   * placeholder becomes the open scope; under an open scope other than a list
   * the whole state stays as it was.
   */
  lemma StartScopeOutsideList(s: BuilderState, tag: Events.Tag, loader: Loader)
    requires OpensScope(tag)
    ensures s.current.None? ==>
      Step(s, Events.Start(tag), loader) == Ok(s.(current := Some(Placeholder(tag))))
    ensures s.current.Some? && !s.current.value.List? ==>
      Step(s, Events.Start(tag), loader) == Ok(s)
  {
  }

  /**
   * Opening a list inserts an empty list (a bullet list unless a start number
   * is given) and raises the list depth by one.
   */
  lemma StartListRaisesDepth(s: BuilderState, start: Option<nat>, loader: Loader)
    ensures var r := Step(s, Events.Start(Events.Tag.List(start)), loader);
      && (r.Ok? <==> Insert(s.current, List([], start.Some?), s.listDepth).Ok?)
      && (r.Ok? ==>
          && r.value.listDepth == s.listDepth + 1
          && r.value.current == Insert(s.current, List([], start.Some?), s.listDepth).value
          && r.value.elements == s.elements && r.value.table == s.table)
  {
  }

  /**
   * An image start resolves the reference through the loader: a failure aborts,
   * otherwise whatever scope was open is discarded and the image becomes the
   * open scope, with its title as alternative text.
   */
  lemma StartImage(s: BuilderState, destUrl: string, title: string, loader: Loader)
    ensures loader(destUrl).None? ==>
      Step(s, Events.Start(Events.Tag.Image(destUrl, title)), loader) == Err(ImageLoadFailed(destUrl))
    ensures loader(destUrl).Some? ==>
      Step(s, Events.Start(Events.Tag.Image(destUrl, title)), loader)
      == Ok(s.(current := Some(Image(ImageData(loader(destUrl).value, title, title, destUrl)))))
  {
  }

  // ---------------------------------------------------------------------------
  // Closing scopes
  // ---------------------------------------------------------------------------

  predicate ClosesScope(tag: Events.TagEnd)
  {
    tag.Paragraph? || tag.Heading? || tag.Link? || tag.Image?
  }

  /**
   * Closing a paragraph, heading, link or image: an open list stays open,
   * any other open element is sealed into the body and the slot empties, and
   * with nothing open nothing changes.
   */
  lemma EndScope(s: BuilderState, tag: Events.TagEnd, loader: Loader)
    requires ClosesScope(tag)
    ensures s.current.None? || s.current.value.List? ==> Step(s, Events.End(tag), loader) == Ok(s)
    ensures s.current.Some? && !s.current.value.List? ==>
      Step(s, Events.End(tag), loader)
      == Ok(s.(elements := s.elements + [s.current.value], current := None))
  {
  }

  /**
   * Closing a list lowers the depth by one and seals the open scope into the
   * body only when the depth reaches zero.
   */
  lemma EndList(s: BuilderState, loader: Loader)
    ensures var r := Step(s, Events.End(Events.TagEnd.List), loader);
      && r.Ok?
      && r.value.listDepth == s.listDepth - 1
      && r.value.table == s.table
      && (s.listDepth == 1 && s.current.Some? ==>
            r.value.elements == s.elements + [s.current.value] && r.value.current.None?)
      && (!(s.listDepth == 1 && s.current.Some?) ==>
            r.value.elements == s.elements && r.value.current == s.current)
  {
  }

  /**
   * More list ends than list starts are not reported: the depth just goes
   * negative and nothing is sealed.
   */
  lemma UnbalancedListEnd(loader: Loader)
    ensures RunFrom(INITIAL, [Events.End(Events.TagEnd.List)], loader) == Ok(INITIAL.(listDepth := -1))
    ensures Parse([Events.End(Events.TagEnd.List)], loader) == Ok(NewDocument([]))
  {
  }

  // ---------------------------------------------------------------------------
  // Text
  // ---------------------------------------------------------------------------

  /**
   * Text in an open header is concatenated onto it; in a paragraph it adds
   * exactly one text run; in a top-level link it changes nothing; in an image
   * it becomes the alternative text. The table slot is updated independently.
   */
  lemma TextOutsideList(s: BuilderState, t: string, loader: Loader)
    ensures s.current.Some? && s.current.value.Header? ==>
      Step(s, Events.Text(t), loader).Ok? &&
      Step(s, Events.Text(t), loader).value.current
        == Some(Header(s.current.value.level, s.current.value.text + t))
    ensures s.current.Some? && s.current.value.Paragraph? ==>
      Step(s, Events.Text(t), loader).Ok? &&
      Step(s, Events.Text(t), loader).value.current
        == Some(Paragraph(s.current.value.elements + [Text(t, TEXT_SIZE)]))
    ensures (s.current.None? || s.current.value.Hyperlink? || s.current.value.Text?) ==>
      Step(s, Events.Text(t), loader).Ok? &&
      Step(s, Events.Text(t), loader).value.current == s.current
    ensures s.current.Some? && s.current.value.Image? ==>
      Step(s, Events.Text(t), loader).Ok? &&
      Step(s, Events.Text(t), loader).value.current
        == Some(Image(s.current.value.image.(alt := t)))
    ensures Step(s, Events.Text(t), loader).Ok? ==>
      && Step(s, Events.Text(t), loader).value.elements == s.elements
      && Step(s, Events.Text(t), loader).value.listDepth == s.listDepth
      && Step(s, Events.Text(t), loader).value.table
         == (if s.table.Some? then Some(TableText(s.table.value, t)) else None)
  {
  }

  /**
   * Text with a list open goes to the last item of the level the descent
   * reaches; it fails when the descent fails or that level is empty, and
   * nothing off the path changes.
   */
  lemma TextInOpenList(items: seq<ListItem>, numbered: bool, t: string, listDepth: int)
    ensures RouteText(Some(List(items, numbered)), t, listDepth).Ok?
        <==> Descend(items, Levels(listDepth)).Some? && |Descend(items, Levels(listDepth)).value| > 0
    ensures RouteText(Some(List(items, numbered)), t, listDepth).Err? ==>
      RouteText(Some(List(items, numbered)), t, listDepth).error == StructuralInvariantViolation
    ensures RouteText(Some(List(items, numbered)), t, listDepth).Ok? ==>
      var r := RouteText(Some(List(items, numbered)), t, listDepth).value;
      && r.Some? && r.value.List? && r.value.numbered == numbered
      && SameOffPath(items, r.value.items, Levels(listDepth))
      && Descend(r.value.items, Levels(listDepth)) == AppendToLastItem(Descend(items, Levels(listDepth)).value, t)
  {
    ModifyLevelSpec(items, Levels(listDepth), AppendInto(t));
  }

  // ---------------------------------------------------------------------------
  // Tables
  // ---------------------------------------------------------------------------

  /**
   * Row shape under a fixed header count: no row is empty or longer than the
   * header count, and every row but the last is complete.
   */
  predicate RowsShaped(headerCount: nat, rows: seq<TableRow>)
  {
    && (forall i :: 0 <= i < |rows| ==> 1 <= |rows[i].cells| <= headerCount)
    && (forall i :: 0 <= i < |rows| - 1 ==> |rows[i].cells| == headerCount)
  }

  /** All cells in reading order: row by row, left to right. */
  function Cells(rows: seq<TableRow>): seq<TableCell>
  {
    if |rows| == 0 then [] else Cells(rows[..|rows| - 1]) + rows[|rows| - 1].cells
  }

  /**
   * The table slot's life cycle: a table start opens an empty table in body
   * mode, replacing any table still open; the header start and end switch
   * header mode on and off for an open table; the table end seals the table
   * as a body element and empties the slot. The open scope and the depth
   * are never touched.
   */
  lemma TableLifecycle(s: BuilderState, loader: Loader)
    ensures Step(s, Events.Start(Events.Tag.Table), loader) == Ok(s.(table := Some(TableSlot(false, [], []))))
    ensures s.table.Some? ==>
      && Step(s, Events.Start(Events.Tag.TableHead), loader) == Ok(s.(table := Some(s.table.value.(inHeader := true))))
      && Step(s, Events.End(Events.TagEnd.TableHead), loader) == Ok(s.(table := Some(s.table.value.(inHeader := false))))
      && Step(s, Events.End(Events.TagEnd.Table), loader)
         == Ok(s.(elements := s.elements + [Table(s.table.value.headers, s.table.value.rows)], table := None))
    ensures s.table.None? ==>
      && Step(s, Events.Start(Events.Tag.TableHead), loader) == Ok(s)
      && Step(s, Events.End(Events.TagEnd.TableHead), loader) == Ok(s)
      && Step(s, Events.End(Events.TagEnd.Table), loader) == Ok(s)
  {
  }

  /** In header mode each text adds exactly one header cell and leaves the rows alone. */
  lemma TableTextInHeader(slot: TableSlot, t: string)
    requires slot.inHeader
    ensures TableText(slot, t) == slot.(headers := slot.headers + [TableHeader(CellText(t), HEADER_WIDTH)])
  {
  }

  /**
   * In body mode, with a non-empty header list, each text adds exactly one
   * cell at the end of the reading order, the headers stay fixed and the rows
   * stay shaped: only the last row may be incomplete and none is too long.
   */
  lemma {:induction false} TableTextKeepsRowsShaped(slot: TableSlot, t: string)
    requires !slot.inHeader && |slot.headers| > 0
    requires RowsShaped(|slot.headers|, slot.rows)
    ensures TableText(slot, t).headers == slot.headers
    ensures TableText(slot, t).inHeader == slot.inHeader
    ensures RowsShaped(|slot.headers|, TableText(slot, t).rows)
    ensures Cells(TableText(slot, t).rows) == Cells(slot.rows) + [TableCell(CellText(t))]
  {
    var rows := slot.rows;
    var rows' := TableText(slot, t).rows;
    if |rows| > 0 && |rows[|rows| - 1].cells| != |slot.headers| {
      assert rows'[..|rows'| - 1] == rows[..|rows| - 1];
      assert Cells(rows') == Cells(rows[..|rows| - 1]) + (rows[|rows| - 1].cells + [TableCell(CellText(t))]);
    } else {
      assert rows'[..|rows'| - 1] == rows;
    }
  }

  /** Whether two elements are built by the same constructor. */
  predicate SameKind(a: Element, b: Element)
  {
    && a.Header? == b.Header? && a.Paragraph? == b.Paragraph? && a.Text? == b.Text?
    && a.List? == b.List? && a.Hyperlink? == b.Hyperlink? && a.Image? == b.Image?
    && a.Table? == b.Table?
  }

  /**
   * Text never changes the kind of the open scope, and only a list whose
   * descent fails reports an error. A paragraph gains the text as one more
   * run at its end, a heading's text grows by it, an open list keeps its
   * flag and its number of top-level items.
   */
  lemma RouteTextKeepsKind(current: Option<Element>, t: string, listDepth: int)
    ensures var r := RouteText(current, t, listDepth);
      && (r.Err? ==> current.Some? && current.value.List? && r.error == StructuralInvariantViolation)
      && (r.Ok? ==> r.value.Some? == current.Some?)
      && (r.Ok? && current.Some? ==> SameKind(r.value.value, current.value))
    ensures var r := RouteText(current, t, listDepth);
      r.Ok? && current.Some? && current.value.Paragraph? ==>
        var es := r.value.value.elements;
        current.value.elements <= es && |es| == |current.value.elements| + 1 && es[|es| - 1] == Text(t, TEXT_SIZE)
    ensures var r := RouteText(current, t, listDepth);
      r.Ok? && current.Some? && current.value.Header? ==>
        && r.value.value.level == current.value.level && current.value.text <= r.value.value.text
        && |r.value.value.text| == |current.value.text| + |t|
        && r.value.value.text[|current.value.text|..] == t
    ensures var r := RouteText(current, t, listDepth);
      r.Ok? && current.Some? && current.value.List? ==>
        r.value.value.numbered == current.value.numbered && |r.value.value.items| == |current.value.items|
    ensures current.Some? && current.value.List? && Levels(listDepth) == 0 ==>
      RouteText(current, t, listDepth).Ok? == (|current.value.items| > 0)
  {
  }

  /**
   * Every text lands in the table: in header mode as one more header cell
   * with the rows untouched; in body mode as the new last cell of the last
   * row, with the headers and all earlier rows untouched and at most one new
   * row.
   */
  lemma TableTextPlacesCell(slot: TableSlot, t: string)
    ensures TableText(slot, t).inHeader == slot.inHeader
    ensures slot.inHeader ==>
      TableText(slot, t).rows == slot.rows &&
      TableText(slot, t).headers == slot.headers + [TableHeader(CellText(t), HEADER_WIDTH)]
    ensures !slot.inHeader ==>
      var rows := TableText(slot, t).rows;
      && TableText(slot, t).headers == slot.headers
      && |slot.rows| <= |rows| <= |slot.rows| + 1
      && (|slot.rows| > 0 ==> rows[..|slot.rows| - 1] == slot.rows[..|slot.rows| - 1])
      && |rows| > 0 && |rows[|rows| - 1].cells| > 0
      && rows[|rows| - 1].cells[|rows[|rows| - 1].cells| - 1] == TableCell(CellText(t))
  {
  }

  /** The table slot after texts `ts` arrive one after the other. */
  function FeedTexts(slot: TableSlot, ts: seq<string>): TableSlot
    decreases |ts|
  {
    if |ts| == 0 then slot else FeedTexts(TableText(slot, ts[0]), ts[1..])
  }

  /** The cells texts `ts` become, in order. */
  function TextCells(ts: seq<string>): (cells: seq<TableCell>)
    ensures |cells| == |ts|
  {
    if |ts| == 0 then [] else [TableCell(CellText(ts[0]))] + TextCells(ts[1..])
  }

  /**
   * Body texts fill the table row by row: every row but the last is full,
   * and none is too long. Rows are cut by counting texts, not by the cells of
   * the markdown row.
   */
  lemma {:induction false} FeedTextsKeepsRowsShaped(slot: TableSlot, ts: seq<string>)
    requires !slot.inHeader && |slot.headers| > 0
    requires RowsShaped(|slot.headers|, slot.rows)
    ensures FeedTexts(slot, ts).headers == slot.headers
    ensures !FeedTexts(slot, ts).inHeader
    ensures RowsShaped(|slot.headers|, FeedTexts(slot, ts).rows)
    decreases |ts|
  {
    if |ts| > 0 {
      TableTextKeepsRowsShaped(slot, ts[0]);
      FeedTextsKeepsRowsShaped(TableText(slot, ts[0]), ts[1..]);
    }
  }

  /** In body mode a text always becomes the next cell in reading order, whatever the row shape. */
  lemma TableTextAddsCell(slot: TableSlot, t: string)
    requires !slot.inHeader
    ensures !TableText(slot, t).inHeader
    ensures Cells(TableText(slot, t).rows) == Cells(slot.rows) + [TableCell(CellText(t))]
  {
    var rows, rows' := slot.rows, TableText(slot, t).rows;
    if |rows| > 0 && |rows[|rows| - 1].cells| != |slot.headers| {
      assert rows'[..|rows'| - 1] == rows[..|rows| - 1];
    } else {
      assert rows'[..|rows'| - 1] == rows;
    }
  }

  /** Every body text becomes the next cell in reading order: no text is lost or reordered. */
  lemma {:induction false} FeedTextsAddsCells(slot: TableSlot, ts: seq<string>)
    requires !slot.inHeader
    ensures Cells(FeedTexts(slot, ts).rows) == Cells(slot.rows) + TextCells(ts)
    decreases |ts|
  {
    if |ts| > 0 {
      var c0 := TableCell(CellText(ts[0]));
      TableTextAddsCell(slot, ts[0]);
      FeedTextsAddsCells(TableText(slot, ts[0]), ts[1..]);
      assert TextCells(ts) == [c0] + TextCells(ts[1..]);
      assert Cells(FeedTexts(slot, ts).rows) == (Cells(slot.rows) + [c0]) + TextCells(ts[1..]);
    }
  }

  /** In shaped rows every row but the last holds `headerCount` cells. */
  lemma {:induction false} ShapedCellCount(headerCount: nat, rows: seq<TableRow>)
    requires RowsShaped(headerCount, rows) && |rows| > 0
    ensures |Cells(rows)| == (|rows| - 1) * headerCount + |rows[|rows| - 1].cells|
    decreases |rows|
  {
    var init := rows[..|rows| - 1];
    if |init| > 0 {
      assert RowsShaped(headerCount, init);
      ShapedCellCount(headerCount, init);
      assert init[|init| - 1] == rows[|rows| - 2];
    } else {
      assert Cells(init) == [];
    }
  }

  lemma NonEmptyCellsHaveRows(rows: seq<TableRow>)
    requires |Cells(rows)| > 0
    ensures |rows| > 0
  {
  }

  /**
   * A body of `k > 0` texts under `h` headers makes the smallest number of
   * rows that holds them: `(rows - 1) * h < k <= rows * h`, the last row
   * holding what is left over. The last row comes out short whenever `k` is
   * not a multiple of `h`.
   */
  lemma RowCountOfTexts(headers: seq<TableHeader>, ts: seq<string>)
    requires |headers| > 0 && |ts| > 0
    ensures var rows := FeedTexts(TableSlot(false, headers, []), ts).rows;
      && |rows| > 0
      && (|rows| - 1) * |headers| < |ts| <= |rows| * |headers|
      && |rows[|rows| - 1].cells| == |ts| - (|rows| - 1) * |headers|
  {
    var rows := FeedTexts(TableSlot(false, headers, []), ts).rows;
    FeedTextsKeepsRowsShaped(TableSlot(false, headers, []), ts);
    FeedTextsAddsCells(TableSlot(false, headers, []), ts);
    assert Cells([]) == [];
    assert |Cells(rows)| == |ts|;
    NonEmptyCellsHaveRows(rows);
    ShapedCellCount(|headers|, rows);
    RowArithmetic(|rows|, |headers|, |rows[|rows| - 1].cells|);
  }

  /** `r` rows of `h` cells, the last holding `last`, hold between `(r - 1) * h + 1` and `r * h` cells. */
  lemma RowArithmetic(r: int, h: int, last: int)
    requires r > 0 && 1 <= last <= h
    ensures (r - 1) * h < (r - 1) * h + last <= r * h
  {
    assert r * h == (r - 1) * h + h;
  }

  /**
   * An empty body cell sends no text, so the cells after it shift left: under
   * two headers, the texts `x`, `y`, `z` of a row `x | (empty)` and a row
   * `y | z` come out as the rows `x | y` and `z`.
   */
  lemma SkippedCellShiftsLeft(headers: seq<TableHeader>, ts: seq<string>)
    requires |headers| == 2 && |ts| == 3
    ensures FeedTexts(TableSlot(false, headers, []), ts).rows
         == [TableRow([TableCell(CellText(ts[0])), TableCell(CellText(ts[1]))]), TableRow([TableCell(CellText(ts[2]))])]
  {
    var s0 := TableSlot(false, headers, []);
    var s1 := TableText(s0, ts[0]);
    var s2 := TableText(s1, ts[1]);
    var s3 := TableText(s2, ts[2]);
    assert ts[1..][0] == ts[1] && ts[1..][1..][0] == ts[2] && |ts[1..][1..][1..]| == 0;
    assert FeedTexts(s0, ts) == FeedTexts(s1, ts[1..]) == FeedTexts(s2, ts[1..][1..]) == s3;
    ThreeBodyTexts(headers, ts[0], ts[1], ts[2]);
  }

  /** The three `TableText` steps behind `SkippedCellShiftsLeft`. */
  lemma ThreeBodyTexts(headers: seq<TableHeader>, x: string, y: string, z: string)
    requires |headers| == 2
    ensures TableText(TableText(TableText(TableSlot(false, headers, []), x), y), z).rows
         == [TableRow([TableCell(CellText(x)), TableCell(CellText(y))]), TableRow([TableCell(CellText(z))])]
  {
    var cx, cy, cz := TableCell(CellText(x)), TableCell(CellText(y)), TableCell(CellText(z));
    var s1 := TableText(TableSlot(false, headers, []), x);
    assert s1.rows == [TableRow([cx])];
    var s2 := TableText(s1, y);
    assert [cx] + [cy] == [cx, cy];
    assert s2.rows == [TableRow([cx, cy])];
    var s3 := TableText(s2, z);
    assert s3.rows == s2.rows + [TableRow([cz])];
  }

  // ---------------------------------------------------------------------------
  // Whole runs
  // ---------------------------------------------------------------------------

  /** Running two streams one after the other is running their concatenation. */
  lemma {:induction false} RunFromAppend(s: BuilderState, a: seq<Events.Event>, b: seq<Events.Event>, loader: Loader)
    ensures RunFrom(s, a + b, loader) ==
      match RunFrom(s, a, loader)
      case Err(e) => Err(e)
      case Ok(s') => RunFrom(s', b, loader)
    decreases |a|
  {
    if |a| > 0 {
      assert (a + b)[0] == a[0];
      assert (a + b)[1..] == a[1..] + b;
      match Step(s, a[0], loader)
      case Err(_) =>
      case Ok(s1) => RunFromAppend(s1, a[1..], b, loader);
    } else {
      assert a + b == b;
    }
  }

  /**
   * An image the loader cannot resolve aborts the whole build with an
   * image-load error: no partial document is returned.
   */
  lemma ImageLoadFailureAborts(
    before: seq<Events.Event>, destUrl: string, title: string, after: seq<Events.Event>, loader: Loader)
    requires RunFrom(INITIAL, before, loader).Ok?
    requires loader(destUrl).None?
    ensures Parse(before + [Events.Start(Events.Tag.Image(destUrl, title))] + after, loader)
         == Err(ImageLoadFailed(destUrl))
  {
    var ev := Events.Start(Events.Tag.Image(destUrl, title));
    assert before + [ev] + after == before + ([ev] + after);
    RunFromAppend(INITIAL, before, [ev] + after, loader);
    assert ([ev] + after)[0] == ev;
  }

  /** The change of list depth an event causes. */
  function DepthChange(ev: Events.Event): int
  {
    if ev.Start? && ev.tag.List? then 1
    else if ev.End? && ev.tagEnd.List? then -1
    else 0
  }

  /** Net list depth of a stream: list starts minus list ends. */
  function NetDepth(events: seq<Events.Event>): int
  {
    if |events| == 0 then 0 else DepthChange(events[0]) + NetDepth(events[1..])
  }

  /** The depth counter after a successful run is the number of list starts minus list ends. */
  lemma {:induction false} RunTracksListDepth(s: BuilderState, events: seq<Events.Event>, loader: Loader)
    ensures RunFrom(s, events, loader).Ok? ==>
      RunFrom(s, events, loader).value.listDepth == s.listDepth + NetDepth(events)
    decreases |events|
  {
    if |events| > 0 {
      match Step(s, events[0], loader)
      case Err(_) =>
      case Ok(s1) =>
        assert s1.listDepth == s.listDepth + DepthChange(events[0]);
        RunTracksListDepth(s1, events[1..], loader);
    }
  }
}
