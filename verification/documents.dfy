/** The document record that flows from the loaders into the vector store
    and back out through retrieval: text content plus string metadata. */
module Documents {

  type Metadata = map<string, string>

  /** langchain's `Document(page_content, metadata)`. */
  datatype Document = Document(content: string, metadata: Metadata)

  /** The metadata key that names the file a document was extracted from. */
  const SourceKey: string := "source"

  /** True when `d` cites `filename` as its source. */
  predicate HasSource(d: Document, filename: string) {
    SourceKey in d.metadata && d.metadata[SourceKey] == filename
  }
}
