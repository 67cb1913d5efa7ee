/** The builder on the event streams of the repository's own parsing tests. */
module BuilderExamples {
  import opened Wrappers
  import opened Elements
  import opened ListDescent
  import opened TreeBuilder
  import Events

  /** One successful step of a run. */
  lemma RunFromStep(s: BuilderState, events: seq<Events.Event>, loader: Loader, s': BuilderState)
    requires |events| > 0 && Step(s, events[0], loader) == Ok(s')
    ensures RunFrom(s, events, loader) == RunFrom(s', events[1..], loader)
  {
  }

  /** The three events of one heading: start, its text, end. */
  function HeadingEvents(level: HeadingLevel, text: string): seq<Events.Event>
  {
    [Events.Start(Events.Tag.Heading(level)), Events.Text(text), Events.End(Events.TagEnd.Heading)]
  }

  /** A heading's three events, with nothing open, seal one header. */
  lemma {:induction false} RunHeading(s: BuilderState, level: HeadingLevel, text: string, rest: seq<Events.Event>, loader: Loader)
    requires s.current.None? && s.table.None?
    ensures RunFrom(s, HeadingEvents(level, text) + rest, loader)
         == RunFrom(s.(elements := s.elements + [Header(level, text)]), rest, loader)
  {
    var evs := HeadingEvents(level, text) + rest;
    var s1 := s.(current := Some(Header(level, "")));
    var s2 := s.(current := Some(Header(level, text)));
    assert "" + text == text;
    RunFromStep(s, evs, loader, s1);
    RunFromStep(s1, evs[1..], loader, s2);
    RunFromStep(s2, evs[2..], loader, s.(elements := s.elements + [Header(level, text)]));
    assert evs[1..][1..] == evs[2..];
    assert evs[2..][1..] == rest;
  }

  /** Three headings of levels 1, 2 and 3 become three headers, in order. */
  lemma ParseThreeHeaders(loader: Loader)
    ensures Parse(HeadingEvents(1, "First header") + HeadingEvents(2, "Second Header") + HeadingEvents(3, "Third Header"), loader)
      == Ok(NewDocument([Header(1, "First header"), Header(2, "Second Header"), Header(3, "Third Header")]))
  {
    var h1, h2, h3 := HeadingEvents(1, "First header"), HeadingEvents(2, "Second Header"), HeadingEvents(3, "Third Header");
    assert h1 + h2 + h3 == h1 + (h2 + (h3 + []));
    RunHeading(INITIAL, 1, "First header", h2 + (h3 + []), loader);
    var s1 := INITIAL.(elements := INITIAL.elements + [Header(1, "First header")]);
    RunHeading(s1, 2, "Second Header", h3 + [], loader);
    var s2 := s1.(elements := s1.elements + [Header(2, "Second Header")]);
    RunHeading(s2, 3, "Third Header", [], loader);
    var s3 := s2.(elements := s2.elements + [Header(3, "Third Header")]);
    assert s3.elements == [Header(1, "First header"), Header(2, "Second Header"), Header(3, "Third Header")];
    assert RunFrom(s3, [], loader) == Ok(s3);
    assert RunFrom(INITIAL, h1 + h2 + h3, loader) == Ok(s3);
  }

  /** The events of one table cell: an unhandled cell start, its text, an unhandled cell end. */
  function CellEvents(text: string): seq<Events.Event>
  {
    [Events.Start(Events.Tag.OtherTag), Events.Text(text), Events.End(Events.TagEnd.OtherEnd)]
  }

  /** A cell's events, with no scope open, feed its text to the open table only. */
  lemma {:induction false} RunCell(s: BuilderState, text: string, rest: seq<Events.Event>, loader: Loader)
    requires s.current.None? && s.table.Some?
    ensures RunFrom(s, CellEvents(text) + rest, loader)
         == RunFrom(s.(table := Some(TableText(s.table.value, text))), rest, loader)
  {
    var evs := CellEvents(text) + rest;
    var s1 := s.(table := Some(TableText(s.table.value, text)));
    RunFromStep(s, evs, loader, s);
    RunFromStep(s, evs[1..], loader, s1);
    RunFromStep(s1, evs[2..], loader, s1);
    assert evs[1..][1..] == evs[2..];
    assert evs[2..][1..] == rest;
  }

  /** An event the builder does not react to leaves the state as it is. */
  lemma RunIgnored(s: BuilderState, ev: Events.Event, rest: seq<Events.Event>, loader: Loader)
    requires ev == Events.Start(Events.Tag.OtherTag) || ev == Events.End(Events.TagEnd.OtherEnd)
    ensures RunFrom(s, [ev] + rest, loader) == RunFrom(s, rest, loader)
  {
    RunFromStep(s, [ev] + rest, loader, s);
    assert ([ev] + rest)[1..] == rest;
  }

  /** A single event that succeeds moves the run to its successor state. */
  lemma RunOne(s: BuilderState, ev: Events.Event, rest: seq<Events.Event>, loader: Loader, s': BuilderState)
    requires Step(s, ev, loader) == Ok(s')
    ensures RunFrom(s, [ev] + rest, loader) == RunFrom(s', rest, loader)
  {
    RunFromStep(s, [ev] + rest, loader, s');
    assert ([ev] + rest)[1..] == rest;
  }

  /** A body row: its unhandled start, two cells, its unhandled end. */
  function RowEvents(a: string, b: string): seq<Events.Event>
  {
    [Events.Start(Events.Tag.OtherTag)] + CellEvents(a) + CellEvents(b) + [Events.End(Events.TagEnd.OtherEnd)]
  }

  /** A row's events, regrouped event by event. */
  lemma RowEventsSplit(a: string, b: string, rest: seq<Events.Event>)
    ensures RowEvents(a, b) + rest
         == [Events.Start(Events.Tag.OtherTag)] + (CellEvents(a) + (CellEvents(b) + ([Events.End(Events.TagEnd.OtherEnd)] + rest)))
  {
  }

  /** A two-column body row feeds its two texts to the table, in order. */
  lemma RunRow(s: BuilderState, a: string, b: string, rest: seq<Events.Event>, loader: Loader)
    requires s.current.None? && s.table.Some?
    ensures RunFrom(s, RowEvents(a, b) + rest, loader)
         == RunFrom(s.(table := Some(TableText(TableText(s.table.value, a), b))), rest, loader)
  {
    var endRow := [Events.End(Events.TagEnd.OtherEnd)];
    var s1 := s.(table := Some(TableText(s.table.value, a)));
    var s2 := s1.(table := Some(TableText(s1.table.value, b)));
    var tail2 := endRow + rest;
    var tail1 := CellEvents(b) + tail2;
    var tail0 := CellEvents(a) + tail1;
    RowEventsSplit(a, b, rest);
    RunIgnored(s, Events.Start(Events.Tag.OtherTag), tail0, loader);
    RunCell(s, a, tail1, loader);
    RunCell(s1, b, tail2, loader);
    RunIgnored(s2, Events.End(Events.TagEnd.OtherEnd), rest, loader);
  }

  function TextCell(text: string): TableCell
  {
    TableCell(Text(text, TEXT_SIZE))
  }

  function H(text: string): TableHeader
  {
    TableHeader(Text(text, TEXT_SIZE), HEADER_WIDTH)
  }

  /** Two header texts give the two header cells, in order. */
  lemma HeaderCells(a: string, b: string)
    ensures TableText(TableText(TableSlot(true, [], []), a), b) == TableSlot(true, [H(a), H(b)], [])
  {
    assert [H(a)] + [H(b)] == [H(a), H(b)];
  }

  /** Two body texts under two headers fill one new row. */
  lemma {:induction false} BodyRow(headers: seq<TableHeader>, rows: seq<TableRow>, a: string, b: string)
    requires |headers| == 2
    requires |rows| == 0 || |rows[|rows| - 1].cells| == 2
    ensures TableText(TableText(TableSlot(false, headers, rows), a), b)
         == TableSlot(false, headers, rows + [TableRow([TextCell(a), TextCell(b)])])
  {
    var s1 := TableText(TableSlot(false, headers, rows), a);
    assert s1 == TableSlot(false, headers, rows + [TableRow([TextCell(a)])]);
    var rows1 := s1.rows;
    assert rows1[..|rows1| - 1] == rows;
    assert [TextCell(a)] + [TextCell(b)] == [TextCell(a), TextCell(b)];
  }

  /** A two-column table: its header row, then two body rows. */
  function TwoByTwoEvents(h1: string, h2: string, a1: string, b1: string, a2: string, b2: string): seq<Events.Event>
  {
    [Events.Start(Events.Tag.Table), Events.Start(Events.Tag.TableHead)]
      + (CellEvents(h1) + (CellEvents(h2) + ([Events.End(Events.TagEnd.TableHead)]
      + (RowEvents(a1, b1) + (RowEvents(a2, b2) + [Events.End(Events.TagEnd.Table)])))))
  }

  /** Opening a table and its two-cell header row fills in the headers. */
  lemma {:induction false} RunTableHead(s: BuilderState, h1: string, h2: string, rest: seq<Events.Event>, loader: Loader)
    requires s.current.None?
    ensures RunFrom(s, [Events.Start(Events.Tag.Table), Events.Start(Events.Tag.TableHead)]
        + (CellEvents(h1) + (CellEvents(h2) + ([Events.End(Events.TagEnd.TableHead)] + rest))), loader)
      == RunFrom(s.(table := Some(TableSlot(false, [H(h1), H(h2)], []))), rest, loader)
  {
    var head2 := CellEvents(h2) + ([Events.End(Events.TagEnd.TableHead)] + rest);
    var head1 := CellEvents(h1) + head2;
    assert [Events.Start(Events.Tag.Table), Events.Start(Events.Tag.TableHead)] + head1
        == [Events.Start(Events.Tag.Table)] + ([Events.Start(Events.Tag.TableHead)] + head1);
    var s0 := s.(table := Some(TableSlot(false, [], [])));
    RunOne(s, Events.Start(Events.Tag.Table), [Events.Start(Events.Tag.TableHead)] + head1, loader, s0);
    var s1 := s.(table := Some(TableSlot(true, [], [])));
    RunOne(s0, Events.Start(Events.Tag.TableHead), head1, loader, s1);
    RunCell(s1, h1, head2, loader);
    var s2 := s1.(table := Some(TableText(s1.table.value, h1)));
    RunCell(s2, h2, [Events.End(Events.TagEnd.TableHead)] + rest, loader);
    HeaderCells(h1, h2);
    var s3 := s.(table := Some(TableSlot(true, [H(h1), H(h2)], [])));
    RunOne(s3, Events.End(Events.TagEnd.TableHead), rest, loader, s.(table := Some(TableSlot(false, [H(h1), H(h2)], []))));
  }

  /** Two complete two-cell rows, then the table end, seal the table. */
  lemma {:induction false} RunTableBody(s: BuilderState, headers: seq<TableHeader>, a1: string, b1: string, a2: string, b2: string, loader: Loader)
    requires s.current.None? && |headers| == 2 && s.table == Some(TableSlot(false, headers, []))
    ensures RunFrom(s, RowEvents(a1, b1) + (RowEvents(a2, b2) + [Events.End(Events.TagEnd.Table)]), loader)
      == Ok(s.(elements := s.elements + [Table(headers,
           [TableRow([TextCell(a1), TextCell(b1)]), TableRow([TextCell(a2), TextCell(b2)])])], table := None))
  {
    var tail := [Events.End(Events.TagEnd.Table)];
    var row1 := TableRow([TextCell(a1), TextCell(b1)]);
    var row2 := TableRow([TextCell(a2), TextCell(b2)]);
    BodyRow(headers, [], a1, b1);
    RunRow(s, a1, b1, RowEvents(a2, b2) + tail, loader);
    var s5 := s.(table := Some(TableSlot(false, headers, [] + [row1])));
    assert [] + [row1] == [row1];
    BodyRow(headers, [row1], a2, b2);
    RunRow(s5, a2, b2, tail, loader);
    var s6 := s.(table := Some(TableSlot(false, headers, [row1] + [row2])));
    var s7 := s.(elements := s.elements + [Table(headers, [row1, row2])], table := None);
    assert [row1] + [row2] == [row1, row2];
    RunOne(s6, Events.End(Events.TagEnd.Table), [], loader, s7);
    assert tail == tail + [];
    assert RunFrom(s7, [], loader) == Ok(s7);
  }

  /** Any two-column table with two body rows parses into one table with complete rows. */
  lemma {:induction false} ParseTwoByTwo(h1: string, h2: string, a1: string, b1: string, a2: string, b2: string, loader: Loader)
    ensures Parse(TwoByTwoEvents(h1, h2, a1, b1, a2, b2), loader) == Ok(NewDocument([Table(
      [H(h1), H(h2)], [TableRow([TextCell(a1), TextCell(b1)]), TableRow([TextCell(a2), TextCell(b2)])])]))
  {
    var body := RowEvents(a1, b1) + (RowEvents(a2, b2) + [Events.End(Events.TagEnd.Table)]);
    RunTableHead(INITIAL, h1, h2, body, loader);
    var s := INITIAL.(table := Some(TableSlot(false, [H(h1), H(h2)], [])));
    RunTableBody(s, [H(h1), H(h2)], a1, b1, a2, b2, loader);
    assert s.elements + [Table([H(h1), H(h2)], [TableRow([TextCell(a1), TextCell(b1)]), TableRow([TextCell(a2), TextCell(b2)])])]
        == [Table([H(h1), H(h2)], [TableRow([TextCell(a1), TextCell(b1)]), TableRow([TextCell(a2), TextCell(b2)])])];
  }

  /**
   * The repository's table test parses into one table with the headers
   * "Syntax" and "Description" and two complete rows, in order.
   */
  lemma ParseTwoByTwoTable(loader: Loader)
    ensures Parse(TwoByTwoEvents("Syntax", "Description", "Header", "Title", "Paragraph", "Text"), loader)
      == Ok(NewDocument([Table(
        [H("Syntax"), H("Description")],
        [TableRow([TextCell("Header"), TextCell("Title")]), TableRow([TextCell("Paragraph"), TextCell("Text")])])]))
  {
    ParseTwoByTwo("Syntax", "Description", "Header", "Title", "Paragraph", "Text", loader);
  }

  /**
   * A bullet list of one item with text `a` that holds a nested bullet list
   * of one item with text `b` (a tight list: item text is not wrapped in a
   * paragraph).
   */
  function NestedListEvents(a: string, b: string): seq<Events.Event>
  {
    [ Events.Start(Events.Tag.List(None)), Events.Start(Events.Tag.Item), Events.Text(a),
      Events.Start(Events.Tag.List(None)), Events.Start(Events.Tag.Item), Events.Text(b), Events.End(Events.TagEnd.OtherEnd),
      Events.End(Events.TagEnd.List), Events.End(Events.TagEnd.OtherEnd), Events.End(Events.TagEnd.List) ]
  }

  /** The outer list's item holding the outer text. */
  function OuterItem(a: string): ListItem
  {
    ListItem(Text(a, TEXT_SIZE))
  }

  /** The state while the nested list (with items `inner`) is open at depth 2. */
  function NestedOpen(a: string, inner: seq<ListItem>): BuilderState
  {
    BuilderState([], Some(List([OuterItem(a), ListItem(List(inner, false))], false)), 2, None)
  }

  /** The outer list's start, its item, and the item's text `a`; the item stays open. */
  function OuterEvents(a: string): seq<Events.Event>
  {
    [Events.Start(Events.Tag.List(None)), Events.Start(Events.Tag.Item), Events.Text(a)]
  }

  /** The single steps of `OuterEvents`. */
  lemma OuterItemSteps(a: string, loader: Loader)
    ensures Step(INITIAL, Events.Start(Events.Tag.List(None)), loader) == Ok(BuilderState([], Some(List([], false)), 1, None))
    ensures Step(BuilderState([], Some(List([], false)), 1, None), Events.Start(Events.Tag.Item), loader)
         == Ok(BuilderState([], Some(List([ListItem(Text("", TEXT_SIZE))], false)), 1, None))
    ensures Step(BuilderState([], Some(List([ListItem(Text("", TEXT_SIZE))], false)), 1, None), Events.Text(a), loader)
         == Ok(BuilderState([], Some(List([OuterItem(a)], false)), 1, None))
  {
    assert PushItem([], Text("", TEXT_SIZE)) == [ListItem(Text("", TEXT_SIZE))];
    assert AppendToLastItem([ListItem(Text("", TEXT_SIZE))], a) == Some([OuterItem(a)]) by {
      assert "" + a == a;
      assert [ListItem(Text("", TEXT_SIZE))][..0] + [OuterItem(a)] == [OuterItem(a)];
    }
  }

  /** The outer list and its item's text: the list is open at depth 1 with one text item. */
  lemma {:induction false} RunOuterItem(a: string, rest: seq<Events.Event>, loader: Loader)
    ensures RunFrom(INITIAL, OuterEvents(a) + rest, loader)
         == RunFrom(BuilderState([], Some(List([OuterItem(a)], false)), 1, None), rest, loader)
  {
    var e0, e1, e2 := Events.Start(Events.Tag.List(None)), Events.Start(Events.Tag.Item), Events.Text(a);
    var s1 := BuilderState([], Some(List([], false)), 1, None);
    var s2 := s1.(current := Some(List([ListItem(Text("", TEXT_SIZE))], false)));
    var s3 := s1.(current := Some(List([OuterItem(a)], false)));
    OuterItemSteps(a, loader);
    var r2 := [e2] + rest;
    var r1 := [e1] + r2;
    assert OuterEvents(a) + rest == [e0] + r1;
    RunOne(INITIAL, e0, r1, loader, s1);
    RunOne(s1, e1, r2, loader, s2);
    RunOne(s2, e2, rest, loader, s3);
  }

  /** Opening the nested list: it is pushed as a new item after the text item. */
  lemma OpenNested(a: string, loader: Loader)
    ensures Step(BuilderState([], Some(List([OuterItem(a)], false)), 1, None), Events.Start(Events.Tag.List(None)), loader)
         == Ok(NestedOpen(a, []))
  {
    assert PushItem([OuterItem(a)], List([], false)) == [OuterItem(a), ListItem(List([], false))];
  }

  /** An item of the nested list lands one level down. */
  lemma NestedItem(a: string, loader: Loader)
    ensures Step(NestedOpen(a, []), Events.Start(Events.Tag.Item), loader)
         == Ok(NestedOpen(a, [ListItem(Text("", TEXT_SIZE))]))
  {
    var items := [OuterItem(a), ListItem(List([], false))];
    assert LastElement(items) == List([], false);
    assert items[..1] == [OuterItem(a)];
    var items' := [OuterItem(a), ListItem(List([ListItem(Text("", TEXT_SIZE))], false))];
    assert ModifyLevel(items, 1, PushInto(Text("", TEXT_SIZE))) == Some([OuterItem(a)] + [items'[1]]);
    assert [OuterItem(a)] + [items'[1]] == items';
    assert Levels(2) == 1;
    assert Insert(Some(List(items, false)), Placeholder(Events.Tag.Item), 2) == Ok(Some(List(items', false)));
  }

  /** Text in the nested item lands in the nested list. */
  lemma NestedText(a: string, b: string, loader: Loader)
    ensures Step(NestedOpen(a, [ListItem(Text("", TEXT_SIZE))]), Events.Text(b), loader)
         == Ok(NestedOpen(a, [ListItem(Text(b, TEXT_SIZE))]))
  {
    var items := [OuterItem(a), ListItem(List([ListItem(Text("", TEXT_SIZE))], false))];
    assert LastElement(items) == List([ListItem(Text("", TEXT_SIZE))], false);
    assert items[..1] == [OuterItem(a)];
    assert "" + b == b;
    assert AppendToLastItem([ListItem(Text("", TEXT_SIZE))], b) == Some([ListItem(Text(b, TEXT_SIZE))]);
    var items' := [OuterItem(a), ListItem(List([ListItem(Text(b, TEXT_SIZE))], false))];
    assert ModifyLevel(items, 1, AppendInto(b)) == Some([OuterItem(a)] + [items'[1]]);
    assert [OuterItem(a)] + [items'[1]] == items';
    assert Levels(2) == 1;
    assert RouteText(Some(List(items, false)), b, 2) == Ok(Some(List(items', false)));
  }

  /** The nested list's events, then the end of the outer item and of the outer list. */
  function NestedTail(b: string): seq<Events.Event>
  {
    [ Events.Start(Events.Tag.List(None)), Events.Start(Events.Tag.Item), Events.Text(b), Events.End(Events.TagEnd.OtherEnd),
      Events.End(Events.TagEnd.List), Events.End(Events.TagEnd.OtherEnd), Events.End(Events.TagEnd.List) ]
  }

  /** The nested list's first three events, regrouped event by event. */
  lemma NestedTailSplit(b: string, rest: seq<Events.Event>)
    ensures NestedTail(b)[..3] + rest
         == [Events.Start(Events.Tag.List(None))] + ([Events.Start(Events.Tag.Item)] + ([Events.Text(b)] + rest))
  {
  }

  /** The nested list opens and takes one item with text `b`. */
  lemma {:induction false} RunNestedItem(a: string, b: string, rest: seq<Events.Event>, loader: Loader)
    ensures RunFrom(BuilderState([], Some(List([OuterItem(a)], false)), 1, None), NestedTail(b)[..3] + rest, loader)
         == RunFrom(NestedOpen(a, [ListItem(Text(b, TEXT_SIZE))]), rest, loader)
  {
    var e0, e1, e2 := Events.Start(Events.Tag.List(None)), Events.Start(Events.Tag.Item), Events.Text(b);
    OpenNested(a, loader);
    NestedItem(a, loader);
    NestedText(a, b, loader);
    var r2 := [e2] + rest;
    var r1 := [e1] + r2;
    NestedTailSplit(b, rest);
    RunOne(BuilderState([], Some(List([OuterItem(a)], false)), 1, None), e0, r1, loader, NestedOpen(a, []));
    RunOne(NestedOpen(a, []), e1, r2, loader, NestedOpen(a, [ListItem(Text("", TEXT_SIZE))]));
    RunOne(NestedOpen(a, [ListItem(Text("", TEXT_SIZE))]), e2, rest, loader, NestedOpen(a, [ListItem(Text(b, TEXT_SIZE))]));
  }

  /** The ends of the nested item, the nested list, the outer item and the outer list seal the outer list. */
  lemma {:induction false} RunNestedClose(a: string, inner: seq<ListItem>, loader: Loader)
    ensures RunFrom(NestedOpen(a, inner), NestedTail("")[3..], loader)
         == Ok(BuilderState([NestedOpen(a, inner).current.value], None, 0, None))
  {
    var e := NestedTail("")[3..];
    var s7 := NestedOpen(a, inner);
    var s9 := s7.(listDepth := 1);
    var done := BuilderState([s7.current.value], None, 0, None);
    assert e == [e[0]] + ([e[1]] + ([e[2]] + ([e[3]] + [])));
    RunOne(s7, e[0], [e[1]] + ([e[2]] + ([e[3]] + [])), loader, s7);
    RunOne(s7, e[1], [e[2]] + ([e[3]] + []), loader, s9);
    RunOne(s9, e[2], [e[3]] + [], loader, s9);
    assert s9.elements + [s7.current.value] == [s7.current.value];
    RunOne(s9, e[3], [], loader, done);
  }

  /**
   * The nested list becomes its own item of the outer list, after the item
   * holding the outer text, and the inner text lands in the nested list.
   */
  lemma {:induction false} ParseNestedList(a: string, b: string, loader: Loader)
    ensures Parse(NestedListEvents(a, b), loader)
      == Ok(NewDocument([List([OuterItem(a), ListItem(List([ListItem(Text(b, TEXT_SIZE))], false))], false)]))
  {
    var tail := NestedTail(b);
    assert NestedListEvents(a, b) == OuterEvents(a) + tail;
    assert tail == tail[..3] + NestedTail("")[3..];
    RunOuterItem(a, tail, loader);
    RunNestedItem(a, b, NestedTail("")[3..], loader);
    RunNestedClose(a, [ListItem(Text(b, TEXT_SIZE))], loader);
  }

  /**
   * A link or header pushed into a list level replaces a trailing `Text`
   * item even when that item already holds text: the text is lost.
   */
  lemma LinkReplacesFilledTextItem(t: string, size: int, link: Element)
    requires link.Hyperlink?
    ensures PushItem([ListItem(Text(t, size))], link) == [ListItem(link)]
  {
  }

  /** Later text in a list item whose last element is a link overwrites the link's title. */
  lemma ItemTextOverwritesLinkTitle(title: string, url: string, alt: string, size: int, t: string)
    ensures AppendToLastItem([ListItem(Hyperlink(title, url, alt, size))], t)
         == Some([ListItem(Hyperlink(t, url, alt, size))])
  {
  }

  /** A paragraph with text `x`, a link with text `y`, then more text `z`. */
  function LinkInParagraphEvents(x: string, y: string, z: string, url: string, title: string): seq<Events.Event>
  {
    [ Events.Start(Events.Tag.Paragraph), Events.Text(x), Events.Start(Events.Tag.Link(url, title)), Events.Text(y),
      Events.End(Events.TagEnd.Link), Events.Text(z), Events.End(Events.TagEnd.Paragraph) ]
  }

  /**
   * A link inside a top-level paragraph is ignored as an element, its text
   * joins the paragraph, and its end seals the paragraph: the text after the
   * link reaches no element and is lost.
   */
  lemma {:induction false} ParseLinkInParagraph(x: string, y: string, z: string, url: string, title: string, loader: Loader)
    ensures Parse(LinkInParagraphEvents(x, y, z, url, title), loader)
      == Ok(NewDocument([Paragraph([Text(x, TEXT_SIZE), Text(y, TEXT_SIZE)])]))
  {
    var e0, e1, e2, e3 := Events.Start(Events.Tag.Paragraph), Events.Text(x), Events.Start(Events.Tag.Link(url, title)), Events.Text(y);
    var e4, e5, e6 := Events.End(Events.TagEnd.Link), Events.Text(z), Events.End(Events.TagEnd.Paragraph);
    var s1 := INITIAL.(current := Some(Paragraph([])));
    var s2 := INITIAL.(current := Some(Paragraph([Text(x, TEXT_SIZE)])));
    var s3 := INITIAL.(current := Some(Paragraph([Text(x, TEXT_SIZE), Text(y, TEXT_SIZE)])));
    var s4 := INITIAL.(elements := [Paragraph([Text(x, TEXT_SIZE), Text(y, TEXT_SIZE)])]);
    var r6 := [e6];
    var r5 := [e5] + r6;
    var r4 := [e4] + r5;
    var r3 := [e3] + r4;
    var r2 := [e2] + r3;
    var r1 := [e1] + r2;
    assert LinkInParagraphEvents(x, y, z, url, title) == [e0] + r1;
    assert [] + [Text(x, TEXT_SIZE)] == [Text(x, TEXT_SIZE)];
    assert [Text(x, TEXT_SIZE)] + [Text(y, TEXT_SIZE)] == [Text(x, TEXT_SIZE), Text(y, TEXT_SIZE)];
    assert [] + [s3.current.value] == s4.elements;
    RunOne(INITIAL, e0, r1, loader, s1);
    RunOne(s1, e1, r2, loader, s2);
    RunOne(s2, e2, r3, loader, s2);
    RunOne(s2, e3, r4, loader, s3);
    RunOne(s3, e4, r5, loader, s4);
    RunOne(s4, e5, r6, loader, s4);
    RunOne(s4, e6, [], loader, s4);
  }
}
