/**
 * The flat stream of structural events the tree builder consumes, as an
 * external CommonMark tokenizer (with the GitHub Flavored Markdown table
 * extension) produces it. Only the tags the builder reacts to are told apart;
 * every other tag, and every other kind of event, is one catch-all case.
 */
module Events {
  import opened Wrappers
  import opened Elements

  datatype Tag =
    | Paragraph
    | Heading(level: HeadingLevel)
    /** `start` is the first number of an ordered list, `None` for a bullet list. */
    | List(start: Option<nat>)
    | Item
    | Table
    | TableHead
    | Image(destUrl: string, title: string)
    | Link(destUrl: string, title: string)
    | OtherTag

  datatype TagEnd =
    | Paragraph
    | Heading
    | Link
    | Image
    | List
    | TableHead
    | Table
    | OtherEnd

  datatype Event =
    | Start(tag: Tag)
    | Text(text: string)
    | End(tagEnd: TagEnd)
    | OtherEvent
}
