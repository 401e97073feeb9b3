/** The stored records the modelled code reads, as plain values. Room's table
    mapping and Parcelable support are not part of this model. */
module Entities {

  /** A reader's note on a passage (`BookThought`). Times are epoch
      milliseconds. `chapterPos` is the character offset in the chapter, which
      the table of contents sorts by. */
  datatype BookThought = BookThought(
    id: int,
    bookName: string,
    bookAuthor: string,
    chapterIndex: int,
    chapterName: string,
    chapterPos: int,
    selectedText: string,
    textHash: string,
    thought: string,
    createTime: int,
    updateTime: int)

  /** A bookmark, with the fields the table of contents reads. */
  datatype Bookmark = Bookmark(
    time: int,
    bookName: string,
    bookAuthor: string,
    chapterIndex: int,
    chapterPos: int,
    chapterName: string,
    bookText: string,
    content: string)

  /** One reading session (`DetailedReadRecord`); `id` 0 means "let the
      database assign one". Times are epoch milliseconds. */
  datatype DetailedReadRecord = DetailedReadRecord(
    id: int,
    bookName: string,
    startTime: int,
    endTime: int)
}
