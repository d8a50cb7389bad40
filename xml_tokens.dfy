/** The data the replay works on: captured token entries, the calls it makes on an XML
    writer, the errors it reports, and the element it is asked to leave out. */
module XmlTokens {
  import opened Wrappers

  /** The node kinds of System.Xml.XmlNodeType that a captured entry can carry.
      `Other` stands for every kind the replay has no case for
      (None, Entity, EntityReference, ProcessingInstruction, Document, ...). */
  datatype XmlNodeType =
    | Element
    | EndElement
    | Attribute
    | Text
    | CData
    | Comment
    | Whitespace
    | SignificantWhitespace
    | DocumentType
    | XmlDeclaration
    | Other

  /** One captured node (XmlTokenEntry). `isEmptyElement` is meaningful only for an
      Element: it marks a self-closing tag, which has no EndElement entry of its own. */
  datatype XmlTokenEntry = XmlTokenEntry(
    nodeType: XmlNodeType,
    prefix: string,
    localName: string,
    namespaceUri: string,
    value: string,
    isEmptyElement: bool)

  /** The calls the replay makes on an XmlDictionaryWriter. */
  datatype WriteCall =
    | WriteStartElement(prefix: string, localName: string, namespaceUri: string)
    | WriteAttributeString(prefix: string, localName: string, namespaceUri: string, value: string)
    | WriteEndElement
    | WriteCData(text: string)
    | WriteComment(text: string)
    | WriteString(text: string)
    | WriteWhitespace(text: string)

  /** ArgumentNullException and InvalidOperationException, with the parameter name and
      the message the source passes them. */
  datatype Error =
    | ArgumentNull(paramName: string)
    | InvalidOperation(message: string)

  const BufferEmpty: string := "XmlTokenBufferIsEmpty"

  /** The element to leave out of a replay: its local name, the depth its parent must sit
      at (None: any depth) and its namespace. A `None` name or namespace (a null string in
      the source) is never equal to a captured element's name, so it matches nothing. */
  datatype Exclusion = Exclusion(
    element: Option<string>,
    parentDepth: Option<int>,
    namespaceUri: Option<string>)

  const NoExclusion: Exclusion := Exclusion(None, None, None)
}
