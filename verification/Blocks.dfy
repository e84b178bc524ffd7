/** The vocabulary of a document body: inline runs with marks, and blocks. */
module Blocks {
  import opened Prelude

  datatype Mark =
    | Bold
    | Italic
    | Strike
    | CodeMark
    | Link(href: string, newTab: Option<bool>)

  /** `marks` may be absent or empty; the two mean the same. */
  datatype InlineNode = InlineNode(text: string, marks: Option<seq<Mark>>)

  type InlineContent = seq<InlineNode>

  datatype Block =
    | Paragraph(id: Id, content: InlineContent)
    | Heading(id: Id, level: nat, content: InlineContent)
    | Quote(id: Id, content: InlineContent, attribution: Option<string>)
    | List(id: Id, ordered: bool, items: seq<InlineContent>)
    | Code(id: Id, language: Option<string>, code: string)
    | Image(id: Id, mediaId: Id, caption: Option<InlineContent>)
    | Divider(id: Id)
}
