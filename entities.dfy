/**
 * The option records and small entities the converter is configured with
 * (`pkg/html2pug-go/entities/entities.go`).
 */
module Entities {
  import opened Wrappers

  datatype Doctype = Doctype(name: string, publicId: string, systemId: string)

  /** The document element record, which carries only a tag name. */
  datatype Element = Element(tagName: string)

  /** The writer settings; every field may be left unset (nil in Go). */
  datatype WriterOptions = WriterOptions(
    wrapLength: Option<int>,
    scalate: Option<bool>,
    noAttrComma: Option<bool>,
    double: Option<bool>,
    noEmptyPipe: Option<bool>)

  const NoWriterOptions := WriterOptions(None, None, None, None, None)

  datatype ConvertorOptions = ConvertorOptions(
    useTabs: bool,
    nSpaces: int,
    keepHead: bool,
    bodyless: bool,
    scalate: bool,
    writerOptions: Option<WriterOptions>)

  /** How one line of text is to be written. `trim` is carried but never read. */
  datatype TextOptions = TextOptions(
    encodeEntityRef: bool,
    pipe: bool,
    trim: bool,
    wrap: bool,
    escapeBackslash: bool)

  const Plain := TextOptions(false, false, false, false, false)
}
