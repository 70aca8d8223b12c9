/**
  The three nodes of the currency-exchange (Cambiario) topic workflow.
  Each node reads the workflow state and returns the dictionary of keys it
  updates. The vector store, the generator and the two graders are calls
  into model services; they enter here as their answers.
 */
module CambiarioNodes {
  import opened Records
  import opened Text

  const TopicLabel := "Cambiario"
  const GenerationErrorPrefix := "Error al generar respuesta: "
  const ReferenceMarker := "REFERENCIA"
  const AnalysisMarker := "AN\U{C1}LISIS"

  // ---------------------------------------------------------------- retrieve

  /** The update written by the retrieve node, given what the reranked
      retrieval returned. */
  function RetrieveDocuments(retrieved: seq<Document>): (u: Dict)
    ensures u.Keys == {documents, topic}
    ensures u[documents] == Docs(retrieved)
    ensures u[topic] == Str(TopicLabel)
  {
    map[documents := Docs(retrieved), topic := Str(TopicLabel)]
  }

  // ---------------------------------------------------------------- generate

  /** The generation carries both sections the prompt asks for. */
  function HasStructure(text: string): (b: bool)
    ensures b <==> ((exists i :: OccursAt(ReferenceMarker, text, i))
                    && (exists j :: OccursAt(AnalysisMarker, text, j)))
  {
    Contains(text, ReferenceMarker) && Contains(text, AnalysisMarker)
  }

  /** The update written by the generate node, given the generator's outcome:
      a failure is caught and becomes an error-text generation. */
  function GenerateResponse(outcome: Generated): (u: Dict)
    ensures generation in u
    ensures documents !in u && topic !in u && verify_result !in u
    ensures outcome.Raised? ==>
              u.Keys == {generation}
              && u[generation] == Str(GenerationErrorPrefix + outcome.message)
    ensures outcome.Answered? ==>
              u.Keys == {generation, citations, has_structure}
              && u[generation] == Str(outcome.reply.text)
              && u[citations] == Cites(CitationsOf(outcome.reply))
              && u[has_structure] == Flag(HasStructure(outcome.reply.text))
  {
    match outcome
    case Answered(reply) =>
      map[generation := Str(reply.text),
          citations := Cites(CitationsOf(reply)),
          has_structure := Flag(HasStructure(reply.text))]
    case Raised(message) =>
      map[generation := Str(GenerationErrorPrefix + message)]
  }

  /** The text a generate-node outcome stores under `generation`. */
  function GenerationText(outcome: Generated): string {
    match outcome
    case Answered(reply) => reply.text
    case Raised(message) => GenerationErrorPrefix + message
  }

  // ---------------------------------------------------------------- verify

  datatype VerifyResult = Useful | NotUseful | NotSupported

  /** The string stored under `verify_result` and read by the graph's
      conditional edge. */
  function Label(r: VerifyResult): string {
    match r
    case Useful => "useful"
    case NotUseful => "not_useful"
    case NotSupported => "not_supported"
  }

  /** The inverse of `Label` on the three strings it produces. */
  function ParseLabel(s: string): (r: Option<VerifyResult>)
    ensures r.Some? ==> Label(r.value) == s
    ensures r.None? ==> s !in {"useful", "not_useful", "not_supported"}
  {
    if s == "useful" then Some(Useful)
    else if s == "not_useful" then Some(NotUseful)
    else if s == "not_supported" then Some(NotSupported)
    else None
  }

  lemma LabelRoundTrip(r: VerifyResult)
    ensures ParseLabel(Label(r)) == Some(r)
    ensures Label(r) in {"useful", "not_useful", "not_supported"}
  {
  }

  /** What the two graders would answer in one round: whether the generation
      is grounded in the documents, and whether it addresses the question. */
  datatype Verdict = Verdict(grounded: bool, addresses: bool)

  datatype Grader = HallucinationGrader | AnswerGrader

  /** The verification decision as a function of the two grader scores. */
  function Decide(v: Verdict): (r: VerifyResult)
    ensures r == Useful <==> v.grounded && v.addresses
    ensures r == NotUseful <==> v.grounded && !v.addresses
    ensures r == NotSupported <==> !v.grounded
  {
    if v.grounded then (if v.addresses then Useful else NotUseful) else NotSupported
  }

  /** The verify node's update together with the graders consulted, in order. */
  datatype Verification = Verification(update: Dict, consulted: seq<Grader>)

  function VerifyResponse(v: Verdict): (out: Verification)
    ensures out.update.Keys == {verify_result}
    ensures out.update[verify_result] in {Str("useful"), Str("not_useful"), Str("not_supported")}
    ensures out.update[verify_result] == Str("useful") <==> v.grounded && v.addresses
    ensures out.update[verify_result] == Str("not_useful") <==> v.grounded && !v.addresses
    ensures out.update[verify_result] == Str("not_supported") <==> !v.grounded
    ensures |out.consulted| >= 1 && out.consulted[0] == HallucinationGrader
    ensures AnswerGrader in out.consulted <==> v.grounded
  {
    var r := Decide(v);
    var consulted := if v.grounded then [HallucinationGrader, AnswerGrader] else [HallucinationGrader];
    Verification(map[verify_result := Str(Label(r))], consulted)
  }

  /** An ungrounded generation is rejected whatever the answer grader would say. */
  lemma UngroundedIgnoresAnswerGrader(a1: bool, a2: bool)
    ensures VerifyResponse(Verdict(false, a1)) == VerifyResponse(Verdict(false, a2))
    ensures VerifyResponse(Verdict(false, a1)).update[verify_result] == Str("not_supported")
    ensures VerifyResponse(Verdict(false, a1)).consulted == [HallucinationGrader]
  {
  }

  /** The stored label is the label of the decision. */
  lemma VerifyStoresDecision(v: Verdict)
    ensures VerifyResponse(v).update[verify_result] == Str(Label(Decide(v)))
  {
  }
}
