/** The document dictionaries that flow between the loaders, the retriever and the question extractor. */
module Docs {

  /** A document: a dictionary from field names (`content`, `filename`, `path`) to text. */
  type Document = map<string, string>

  /** `doc.get(key, default)` */
  function Get(doc: Document, key: string, default: string): (v: string)
    ensures key in doc ==> v == doc[key]
    ensures key !in doc ==> v == default
  {
    if key in doc then doc[key] else default
  }

  /** `doc.get('filename', 'unknown')` */
  function FileName(doc: Document): string {
    Get(doc, "filename", "unknown")
  }
}
