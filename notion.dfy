/**
 * The shapes of the Notion client's data that the renderer reads:
 * blocks, their type payloads and rich-text spans. Only the fields the
 * renderer consults are kept.
 */
module Notion {
  import opened Wrappers

  /** A block identifier, opaque to the renderer. */
  type Id = string

  /** The style flags of a text span; other upstream flags are not consulted. */
  datatype Annotations = Annotations(bold: bool, italic: bool, code: bool)

  /** One inline span. Mentions and equations are collapsed into `Other`. */
  datatype RichText =
    | Text(content: string, annotations: Annotations)
    | Other(plainText: string)

  datatype Icon = Emoji(emoji: string) | IconFile(url: string) | IconExternal(url: string)

  /** Where a media file lives: an external URL, or storage hosted by the service. */
  datatype File = External(url: string) | Hosted(url: string)

  /** The closed set of block types of the client, with the payload the renderer reads. */
  datatype BlockType =
    | Heading1(text: seq<RichText>)
    | Heading2(text: seq<RichText>)
    | Heading3(text: seq<RichText>)
    | Paragraph(text: seq<RichText>)
    | Code(language: string, text: seq<RichText>)
    | BulletedListItem(text: seq<RichText>)
    | NumberedListItem(text: seq<RichText>)
    | ToDo(text: seq<RichText>, checked: Option<bool>)
    | Quote(text: seq<RichText>)
    | Callout(text: seq<RichText>, icon: Option<Icon>)
    | Image(file: File)
    | Video(file: File)
    | Divider
    | Unsupported(tag: string)
    | ColumnList
    | Column
    | Table
    | Bookmark
    | FileBlock(file: File)
    | Pdf(file: File)
    | TableOfContents
    | ChildPage(title: string)
    | ChildDatabase(title: string)
    | SyncedBlock
    | Template
    | Toggle

  /** A node of the document tree; its children, if any, live on the server. */
  datatype Block = Block(id: Id, value: BlockType, hasChildren: bool)
}
