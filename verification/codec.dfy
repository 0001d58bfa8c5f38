/** The file format, abstracted: `json.dumps` / `json.loads` are an exact
    round trip on the abstract document, so the text of a file is modelled
    by the document it encodes, or by `Malformed` when it encodes none. */
module Codec {
  import opened Outcomes
  import opened JsonValue

  datatype FileText = Text(doc: Json) | Malformed

  /** Whatever `json.loads` returns is well-formed: a duplicate key in the
      text is resolved by the parser. */
  predicate FileWellFormed(t: FileText)
  {
    t.Text? ==> WellFormed(t.doc)
  }

  /** `json.loads(text)`. */
  function Loads(t: FileText): (r: Result<Json, Raised>)
    ensures r.Success? <==> t.Text?
    ensures r.Failure? ==> r.error == DecodeError
    ensures FileWellFormed(t) && r.Success? ==> WellFormed(r.value)
  {
    match t
    case Text(doc) => Success(doc)
    case Malformed => Failure(DecodeError)
  }

  /** `json.dumps(doc)`: its text loads back to the same document. */
  function Dumps(doc: Json): (t: FileText)
    ensures Loads(t) == Success(doc)
    ensures WellFormed(doc) ==> FileWellFormed(t)
  {
    Text(doc)
  }
}
