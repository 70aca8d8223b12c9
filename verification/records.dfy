/**
  Values that flow through a topic workflow and the consumption-tax page:
  retrieved documents with their metadata, generator citations, and the
  loosely-typed dictionaries that nodes return and pages store.
 */
module Records {

  datatype Option<+T> = None | Some(value: T)

  /** A `page` metadata entry as a document loader may store it. */
  datatype PageValue = PageNumber(n: int) | PageLabel(s: string)

  /** A retrieved document: its text and the two metadata keys that are read.
      `None` means the key is absent from the metadata dictionary. */
  datatype Document = Document(content: string, source: Option<string>, page: Option<PageValue>)

  /** A claim-to-source link attached to a generation. */
  datatype Citation = Citation(documentTitle: string, citedText: string)

  /** What the generator hands back: its text and, optionally, a `citations` entry. */
  datatype Reply = Reply(text: string, citations: Option<seq<Citation>>)

  /** One call of the generator: a reply, or an exception carrying its message. */
  datatype Generated = Answered(reply: Reply) | Raised(message: string)

  /** The values stored under the keys of a state update or a chat message. */
  datatype Value =
    | Str(s: string)
    | Docs(docs: seq<Document>)
    | Cites(cites: seq<Citation>)
    | Flag(b: bool)

  /** The string keys used in state updates and chat messages, spelled as
      in Python. */
  datatype Key =
    | question | topic | documents | generation | citations | has_structure | verify_result
    | role | content | flow

  /** A Python dictionary over those keys. */
  type Dict = map<Key, Value>

  /** `reply.get("citations", [])`: the citations, or the empty list when absent. */
  function CitationsOf(reply: Reply): (cs: seq<Citation>)
    ensures reply.citations.None? ==> cs == []
    ensures reply.citations.Some? ==> cs == reply.citations.value
  {
    match reply.citations
    case None => []
    case Some(c) => c
  }
}
