# Topic verification workflow and consumption-tax page, in Dafny

This project models three pure pieces of a Colombian tax-consultation
assistant built on LangGraph and Streamlit.

1. **The topic verification workflow.** The retención, ipoconsumo,
   cambiario and aduanas graph files each build the same graph:
   RETRIEVE (entry) → GENERATE → VERIFY. From VERIFY, `useful` ends the
   run, and `not_useful` or `not_supported` go back to GENERATE. Nothing
   caps the number of retries. The builder calls are modelled as one
   script, parametrized by topic, folded over an empty graph
   (`TopicWorkflow`). A run is a fuel-bounded walk over the resulting
   table.
2. **The currency-exchange (Cambiario) nodes** (`CambiarioNodes`):
   - the update each node returns;
   - the `has_structure` check;
   - the generator-failure fallback;
   - the verification decision computed from the two grader scores.

   `CambiarioRun` puts the nodes and the graph together. The state is a
   dictionary, and each node's update is merged over it. The graph runtime
   (`Exec`) takes the node semantics as a step function.
3. **The pure string logic of the consumption-tax page** (`ConsumoPage`):
   - citation markers `[n]` rewritten as superscripts;
   - the source headings with their page suffix;
   - the processing-flow log built by `update_flow`;
   - the assistant message stored in the chat history.

`Records` holds the shared values (documents, citations, generator
replies, dictionary keys and values). `Text` holds decimal numerals,
substring search, and joining lines.

The model calls several external services. Each one becomes an input:
- **Reranked vector-store retrieval:** the sequence of documents it returns. On the page it may also raise; in the graph a raising retrieval is not modelled (see below).
- **Generator:** one outcome per call, either a reply or a raised message.
- **Hallucination and answer graders:** one pair of booleans per verify
  round, given as an infinite stream (`nat -> Verdict`). This lets a lemma
  say that a run never finishes, whatever the fuel.
- **Fuel:** counts node executions. It stands in for the unbounded loop.

The Python dictionaries are maps from an enumeration of the keys the
code uses. The values are a small sum type. The state schema module
`graph/state.py` is not part of this model. The model assumes that
LangGraph merges a node's update by overriding keys, which is the
default for a state with no reducers.

## Model

| member | source | states |
|---|---|---|
| CambiarioNodes.RetrieveDocuments | graph/topics/cambiario/nodes.py:23-44 | the retrieve node writes exactly `documents` (the reranked retrieval) and `topic` = "Cambiario" |
| CambiarioNodes.HasStructure | graph/topics/cambiario/nodes.py:66 | `has_structure` holds iff "REFERENCIA" occurs at some position of the generation and "ANÁLISIS" occurs at some position |
| Text.Contains | graph/topics/cambiario/nodes.py:66 | Python's substring test `pat in s` is true iff `pat` occurs at some index of `s` |
| CambiarioNodes.GenerateResponse | graph/topics/cambiario/nodes.py:46-76 | on success the node writes exactly `generation`, `citations` (empty when the reply has none) and `has_structure`, the last being `HasStructure` of the text, i.e. true iff both markers occur; on a raised generator it writes only `generation` = "Error al generar respuesta: " + message; it never writes `documents`, `topic` or `verify_result` |
| Records.CitationsOf | graph/topics/cambiario/nodes.py:60 | a reply without `citations` yields the empty list, otherwise its citations |
| CambiarioNodes.Decide | graph/topics/cambiario/nodes.py:92-108 | `useful` iff both graders say yes; `not_useful` iff grounded but not addressing the question; `not_supported` iff not grounded |
| CambiarioNodes.VerifyResponse | graph/topics/cambiario/nodes.py:78-108 | the verify node writes only `verify_result`, always one of the three labels, each label exactly under its grader condition; the hallucination grader is consulted first and the answer grader iff the generation is grounded |
| CambiarioNodes.UngroundedIgnoresAnswerGrader | graph/topics/cambiario/nodes.py:88-108 | an ungrounded generation gives `not_supported` whatever the answer grader would say, with only the hallucination grader consulted |
| CambiarioNodes.VerifyStoresDecision | graph/topics/cambiario/nodes.py:92-108 | the stored label is the label of the decision |
| CambiarioNodes.ParseLabel | graph/topics/cambiario/graph.py:44-49 | reading a routing key gives back the result whose label it is, and nothing for any other string |
| CambiarioNodes.LabelRoundTrip | graph/topics/cambiario/graph.py:45-49 | every verification result's label is one of the three routing keys and reads back as that result |
| TopicWorkflow.TopicGraph | graph/topics/cambiario/graph.py:27-50 | the builder script binds exactly RETRIEVE, GENERATE and VERIFY to that topic's node functions, enters at RETRIEVE, adds the edges RETRIEVE→GENERATE and GENERATE→VERIFY, and routes VERIFY by `useful`/`not_useful`/`not_supported` |
| TopicWorkflow.TablesAgree | graph/topics/aduanas/graph.py:27-50 | the four topic graphs have the same transition table and node names |
| TopicWorkflow.TopicSuccessors | graph/topics/retencion/graph.py:35-50 | RETRIEVE always goes to GENERATE and GENERATE to VERIFY; VERIFY goes to END on `useful` and to GENERATE on `not_useful` or `not_supported`, with no route for any other key; END has no successor |
| TopicWorkflow.EndOnlyFromUseful | graph/topics/aduanas/graph.py:46 | a step reaches END iff it leaves VERIFY with the key `useful` |
| TopicWorkflow.RunStart | graph/topics/ipoconsumo/graph.py:35-38 | every run with fuel executes RETRIEVE first and then continues at GENERATE in round 0 |
| TopicWorkflow.LoopAccepts | graph/topics/ipoconsumo/graph.py:38-50 | from GENERATE in round `r`, a first `useful` in round `k` finishes after exactly the generate/verify rounds `r..k` |
| TopicWorkflow.LoopStalls | graph/topics/retencion/graph.py:42-50 | with no `useful` within the fuel, the run alternates GENERATE and VERIFY until the fuel is spent |
| TopicWorkflow.RunAcceptsAtFirstUseful | graph/topics/ipoconsumo/graph.py:35-50 | a run whose first `useful` is round `k`, with fuel for it, finishes with the trace RETRIEVE followed by `k + 1` generate/verify rounds |
| TopicWorkflow.RunFinishesIff | graph/topics/ipoconsumo/graph.py:42-50 | a run finishes iff some round is `useful` and the first such round is reached within the fuel |
| TopicWorkflow.NeverAcceptedNeverFinishes | graph/topics/retencion/graph.py:42-50 | with no `useful` round the run never reaches END for any fuel: it runs out of fuel after RETRIEVE and alternating GENERATE/VERIFY steps |
| TopicWorkflow.LoopSpendsFuel | graph/topics/cambiario/graph.py:35-53 | a walk only appends to the trace it was given, one node per unit of fuel and never more than the fuel, starting with the node it was started at; running out of fuel means every unit was spent |
| TopicWorkflow.Run | graph/topics/cambiario/graph.py:35-53 | a compiled graph with no entry point fails at once; otherwise the entry point executes first, at most `fuel` nodes execute, and running out of fuel means exactly `fuel` executed |
| TopicWorkflow.FirstUsefulExists | graph/topics/ipoconsumo/graph.py:42-50 | if some round is `useful`, a first `useful` round exists no later than it |
| TopicWorkflow.ShapeCounts | graph/topics/retencion/graph.py:35-50 | a finished trace of `k` rounds starts with RETRIEVE and ends with VERIFY; RETRIEVE occurs once, END never, and GENERATE and VERIFY `k` times each |
| TopicWorkflow.FinishedCounts | graph/topics/retencion/graph.py:35-50 | the same counts read off a finished outcome |
| TopicWorkflow.CountAppend | graph/topics/retencion/graph.py:35-50 | counting the steps of a concatenated trace adds the counts of its parts |
| TopicWorkflow.RoundsCounts | graph/topics/retencion/graph.py:38-50 | `k` generate/verify rounds hold `k` GENERATE and `k` VERIFY steps and no RETRIEVE or END |
| TopicWorkflow.LastOfRounds | graph/topics/retencion/graph.py:39-50 | the last step of one or more rounds is VERIFY |
| CambiarioRun.AdvanceFollowsTable | graph/topics/cambiario/graph.py:35-50 | one Cambiario step, with its nodes' real updates, goes where the transition table sends it under the decision of the two graders, and counts a round exactly at VERIFY |
| CambiarioRun.StepFollowsTable | graph/topics/cambiario/graph.py:35-50 | the same for every configuration |
| CambiarioRun.Effect | graph/topics/cambiario/graph.py:27-32 | merging a node's update into the state: every key the node returns takes the returned value, every other key keeps its value, and no key disappears |
| CambiarioRun.Advance | graph/topics/cambiario/graph.py:35-50 | one node execution of the Cambiario graph has a successor exactly when the node is not END, counts a round exactly at VERIFY, and reaches END only from VERIFY with `verify_result` = `useful` |
| CambiarioRun.StepTotal | graph/topics/cambiario/graph.py:42-50 | the Cambiario step has a successor for every node but END: the verify node only ever writes one of the three routing keys |
| CambiarioRun.ExecFollowsTable | graph/topics/cambiario/graph.py:35-50 | a runtime whose step follows the table walks exactly the nodes of the table-level run |
| CambiarioRun.InvokeFollowsTable | graph/topics/cambiario/graph.py:53 | invoking the Cambiario app walks exactly the nodes of the table-level run under the decisions of the two graders |
| CambiarioRun.FinishesAtEnd | graph/topics/cambiario/graph.py:46 | a run finishes exactly when it stops at END |
| CambiarioRun.RoundsAreVerifySteps | graph/topics/cambiario/graph.py:42-50 | at the end of a finished run the number of completed rounds is the number of VERIFY steps in its trace |
| CambiarioRun.ExecNeverFails | graph/topics/cambiario/graph.py:35-50 | a runtime whose step has a successor for every node but END never stops on a missing edge |
| CambiarioRun.ExecFromEntry | graph/topics/cambiario/graph.py:35-53 | a run from RETRIEVE in round 0 with a total step that follows the table executes RETRIEVE first, spends one unit of fuel per node, and never fails |
| CambiarioRun.AdvanceKeepsInv | graph/topics/cambiario/nodes.py:23-108 | each node step keeps the run invariant: every generator call gets the retrieved documents, the topic label stays, VERIFY sees the current round's generation, and END is reached only with `useful` |
| CambiarioRun.StepKeepsInv | graph/topics/cambiario/nodes.py:23-108 | the same for every configuration |
| CambiarioRun.ExecKeepsInv | graph/topics/cambiario/graph.py:35-50 | wherever a run stops, the invariant holds |
| CambiarioRun.InvokeEndsInInv | graph/topics/cambiario/graph.py:35-53 | an invocation stops in a configuration satisfying the invariant, and a finished one stops at END after as many rounds as VERIFY steps |
| CambiarioRun.Invoke | graph/topics/cambiario/graph.py:53-63 | `app.invoke` executes RETRIEVE first, at most `fuel` nodes, exactly `fuel` when it runs out, and never stops on a missing edge |
| CambiarioRun.AcceptedTrace | graph/topics/cambiario/graph.py:42-50 | if round `k` is the first where both graders say yes and the fuel suffices, the invocation finishes with the trace RETRIEVE then `k + 1` generate/verify rounds |
| CambiarioRun.AcceptedCounts | graph/topics/cambiario/graph.py:35-50 | such an invocation retrieves exactly once and generates and verifies `k + 1` times, i.e. 1 + the index of the first agreeing round |
| CambiarioRun.AcceptedAtFirstAgreement | graph/topics/cambiario/nodes.py:52-102 | such an invocation hands the same retrieved documents to all `k + 1` generator calls and ends with `verify_result` = `useful`, round `k`'s generation, the retrieved documents and the topic label |
| CambiarioRun.NeverAgreedNeverFinishes | graph/topics/cambiario/graph.py:42-50 | if the two graders never both say yes, the invocation runs out of fuel for every fuel |
| CambiarioRun.FirstAcceptedIsFirstUseful | graph/topics/cambiario/nodes.py:92-108 | the first round both graders accept is exactly the first round whose stored result is `useful` |
| CambiarioRun.InvokeFinishesIff | graph/topics/cambiario/graph.py:42-53 | an invocation finishes iff some round is accepted by both graders and the first such round is reached within the fuel |
| ConsumoPage.FormatWithCitations | pages/6_Impuesto_al_Consumo.py:59-60 | with no citations the text is returned unchanged |
| ConsumoPage.OnlyEmptinessMatters | pages/6_Impuesto_al_Consumo.py:64-72 | the formatted text depends on the citations only through whether there are any |
| ConsumoPage.DigitRun | pages/6_Impuesto_al_Consumo.py:74 | `\d+` takes the longest run of digits: all of it digits and the next character not a digit |
| ConsumoPage.MarkerAt | pages/6_Impuesto_al_Consumo.py:74 | a marker found at the start of the text is `[`, one or more digits and `]`; when none is found, no marker of any length starts there |
| ConsumoPage.Superscripts | pages/6_Impuesto_al_Consumo.py:74 | a text with no `[` at all comes back unchanged; what happens to the rest is `EveryTextFormatted` |
| ConsumoPage.MarkersBecomeSuperscripts | pages/6_Impuesto_al_Consumo.py:69-74 | for any reading of a text into plain characters and `[digits]` markers where no plain character starts a marker (a `[` that opens no marker is plain), each marker becomes `<sup>[int(digits)]</sup>` in order and every other character is kept in place |
| ConsumoPage.PlainStep | pages/6_Impuesto_al_Consumo.py:74 | a character that starts no marker, `[` included, is copied and the scan moves on |
| ConsumoPage.MarkerStep | pages/6_Impuesto_al_Consumo.py:69-74 | a marker at the front becomes its superscript and the scan resumes right after its `]` |
| ConsumoPage.DigitRunOf | pages/6_Impuesto_al_Consumo.py:74 | `\d+` reads a run of digits followed by a non-digit whole |
| ConsumoPage.Pieces | pages/6_Impuesto_al_Consumo.py:74 | every text has a reading into pieces in which no plain character starts a marker and that writes back as the text |
| ConsumoPage.MarkerCase | pages/6_Impuesto_al_Consumo.py:74 | a text starting with a marker reads as that marker followed by the reading of what comes after its `]` |
| ConsumoPage.PlainCase | pages/6_Impuesto_al_Consumo.py:74 | a text starting with no marker reads as its first character followed by the reading of the rest |
| ConsumoPage.EveryTextFormatted | pages/6_Impuesto_al_Consumo.py:69-74 | for every text, formatting shows each marker as its superscript and every other character as written |
| ConsumoPage.NoMarkerUnchanged | pages/6_Impuesto_al_Consumo.py:74 | a text with no marker anywhere is left unchanged |
| ConsumoPage.LeadingZerosDropped | pages/6_Impuesto_al_Consumo.py:70-72 | a marker with any number of leading zeros before the numeral of `n` shows as `<sup>[n]</sup>` |
| ConsumoPage.ReprintedMarker | pages/6_Impuesto_al_Consumo.py:70-72 | a lone marker shows the re-printed value of its digits |
| Text.ParsePrinted | pages/6_Impuesto_al_Consumo.py:70-72 | reading back a printed natural number gives the number |
| Text.LeadingZeroIgnored | pages/6_Impuesto_al_Consumo.py:70 | `int()` ignores a leading zero |
| Text.ZeroPaddedReprint | pages/6_Impuesto_al_Consumo.py:70-72 | reading and re-printing a zero-padded numeral drops all the padding |
| Text.NatToString | pages/6_Impuesto_al_Consumo.py:72 | a printed natural number is a non-empty string of digits with no leading zero except "0" itself |
| Text.DigitsValue | pages/6_Impuesto_al_Consumo.py:70 | `int()` of a digit string is 0 exactly when every digit is `0`; it inverts `str` by `Text.ParsePrinted` |
| Text.IntToString | pages/6_Impuesto_al_Consumo.py:94 | `str` of a non-negative integer is a digit string without leading zeros that reads back as the integer; of a negative one, a minus sign followed by such a string for its absolute value |
| ConsumoPage.PageInfo | pages/6_Impuesto_al_Consumo.py:93-94 | the page suffix is empty iff the page is absent, 0 or an empty label; otherwise it is " (Pág. " + the page + ")" |
| ConsumoPage.PageNumberReadsBack | pages/6_Impuesto_al_Consumo.py:222-223 | a positive page number is shown between the prefix and ")" as a numeral that reads back as that number |
| ConsumoPage.SourceName | pages/6_Impuesto_al_Consumo.py:92 | the source is the document's `source` metadata, or "Documento i+1" when absent |
| ConsumoPage.SourceHeading | pages/6_Impuesto_al_Consumo.py:219-224 | the heading of the i-th document is "**Fuente ", a numeral without leading zeros that reads back as i+1 and is the whole digit run there, ":** `", the source name and page suffix, and a closing backquote |
| ConsumoPage.UpdateFlow | pages/6_Impuesto_al_Consumo.py:134-139 | `update_flow` appends "- step" to the steps and shows "**Procesando:**\n" followed by every step, each followed by a line break |
| ConsumoPage.Recorded | pages/6_Impuesto_al_Consumo.py:134-135 | one recorded step per call |
| ConsumoPage.FlowTextAfterCalls | pages/6_Impuesto_al_Consumo.py:134-139 | after any calls the flow text is "- step\n" for each call in call order, and it is the `final_flow` join plus a last line break |
| ConsumoPage.RecordedLines | pages/6_Impuesto_al_Consumo.py:134-139 | after any calls the accumulated flow text is "- step\n" for each call, in call order |
| ConsumoPage.BulletedAppend | pages/6_Impuesto_al_Consumo.py:135-138 | one more call adds its bullet line at the end |
| Text.LinesAppend | pages/6_Impuesto_al_Consumo.py:137-138 | the accumulated flow text of two runs of steps is the concatenation of theirs |
| Text.LinesIsJoinPlusBreak | pages/6_Impuesto_al_Consumo.py:199 | for one or more steps, the shown flow text is the `'\n'.join` of the steps plus a line break |
| Text.Join | pages/6_Impuesto_al_Consumo.py:166 | `'\n'.join` of one or more parts starts with the first part and is as long as all the parts plus one separator between each two |
| ConsumoPage.RecordedPrefix | pages/6_Impuesto_al_Consumo.py:134-135 | the steps recorded for a prefix of the calls are a prefix of the steps, and each later call is recorded as its bullet |
| ConsumoPage.RecordedBullets | pages/6_Impuesto_al_Consumo.py:135 | the i-th recorded step is the bullet of the i-th call |
| ConsumoPage.CallsShape | pages/6_Impuesto_al_Consumo.py:142-232 | every query makes the four opening calls; a failed retrieval ends with the error step, an empty one with the not-found step; otherwise found/reranked/generating follow, then the error step (8 calls) or the two checks, the citation step exactly when there are citations, and the success step (11 or 10 calls) |
| ConsumoPage.Calls | pages/6_Impuesto_al_Consumo.py:142-238 | every query makes the four opening calls and at least one more; the last call is an error step iff retrieval or generation raised, the not-found step iff retrieval found nothing, and the success step iff an answer was generated |
| ConsumoPage.EndingOf | pages/6_Impuesto_al_Consumo.py:163-238 | the stored ending agrees with the last flow step: after an error step, the error response with that step's message and no documents or citations; after the not-found step, the not-found response and nothing else; after the success step, the reply text, the retrieved documents (never empty) and the reply's citations |
| ConsumoPage.AssistantMessage | pages/6_Impuesto_al_Consumo.py:241-247 | the stored assistant message has exactly the keys role, content, documents, flow and citations, holding the given values |
| ConsumoPage.Answer | pages/6_Impuesto_al_Consumo.py:163-247 | in every branch the stored message has the five keys with role "assistant", the recorded steps are those of the calls made, and the stored flow is the steps joined by "\n" |
| ConsumoPage.AnswerSteps | pages/6_Impuesto_al_Consumo.py:134-232 | the recorded steps are the bullets of the calls, one per call, in order |
| ConsumoPage.RecordedTexts | pages/6_Impuesto_al_Consumo.py:134-135 | recording the texts of some steps gives one bullet per step, in order |
| ConsumoPage.AnswerOnFailure | pages/6_Impuesto_al_Consumo.py:163-170 | a failed retrieval, an empty retrieval and a failed generation store no documents and no citations, with the error or not-found response as content |
| ConsumoPage.AnswerOnSuccess | pages/6_Impuesto_al_Consumo.py:182-247 | an answered query stores the raw generated text, the retrieved documents, and the citations (empty when the generator gave none) |
| ConsumoPage.ShownFlowMatchesStored | pages/6_Impuesto_al_Consumo.py:134-139 | the last flow text shown while processing is the stored flow plus a final line break |
| ConsumoPage.StoredFlow | pages/6_Impuesto_al_Consumo.py:199 | for a non-empty step list, the accumulated flow text is the stored join plus a line break |
| ConsumoPage.LiveContent | pages/6_Impuesto_al_Consumo.py:204-236 | while answering, an error or not-found response is shown as it is, never formatted; a generated answer is formatted iff it has citations |
| ConsumoPage.HistoryContent | pages/6_Impuesto_al_Consumo.py:82-86 | the history shows a message as stored unless it is an assistant message with citations, which is formatted; a text with no `[` is always shown as stored |
| ConsumoPage.HistoryShowsWhatWasShown | pages/6_Impuesto_al_Consumo.py:82-86 | re-displaying the stored message shows exactly what was shown when the answer was produced, in every branch |

## Left out

- The LLM chains are left out: the generator, the hallucination and answer graders, the router and the retrieval grader. They are model calls, so only their answers enter, as inputs.
- A grader that raises inside the verify node is not modelled. Such an exception ends the LangGraph run, and the model has no outcome for it.
- The vector store, reranking and Pinecone index selection (`retrieve_with_reranking`, `query_*`, `graph/nodes/retrieve.py`, the page's index check) are left out. These are network services. On the page, retrieval enters as the documents it returns or the message it raised.
- CambiarioRun.Invoke: a retrieval that raises inside the retrieve node is not modelled. `retrieve_with_reranking` is called outside any `try` there, so the exception ends `app.invoke`; the model's retrieval always returns documents.
- Streamlit rendering, `st.session_state`, placeholders, `time.sleep` and the sidebar are left out. Only the strings the page builds and stores are modelled.
- `print`/`debug_print` output, the global `DEBUG` flag and `set_debug` are left out. Their f-string arguments are still evaluated when `DEBUG` is off, and that evaluation is where the restrictions on replies and documents below come from.
- CambiarioNodes.GenerateResponse: a reply's text is always a string, and its `citations` entry is a list or absent. A reply whose `citations` is present but `None`, or whose text is not a string, would raise a `TypeError` at the `len(...)` calls of the generate node's debug lines. The node would then store the error generation without `citations` or `has_structure`. The model has no such replies.
- CambiarioNodes.RetrieveDocuments: retrieved items are documents with a metadata dictionary. The retrieve node reads `doc.metadata` outside any `try`, so anything else would end the run with an exception.
- `load_dotenv`, the API-key checks and `setup.py` are configuration and packaging.
- The bodies of the retención, ipoconsumo and aduanas node modules are not part of this model. Only their graph wiring is.
- Python's `\d` also matches non-ASCII Unicode digits. The model matches `0`–`9` only.
- ConsumoPage.PageInfo: a page stored as a float or another type is not modelled. Only integer pages and string labels are.
- The document body under each source heading (`page_content` in a code block) is not modelled.
- The references expander (`[i+1]` with the citation title and text) is not modelled. It is display only.
- The user message appended before answering is not modelled.
- The page's outer handler for a failed Pinecone connection is not modelled.
- An exception raised by the page's own formatting or rendering code is not modelled. The model raises only in retrieval and generation.
- LangGraph's compile-time validation and state channels are not modelled. The graph files set no retry cap; LangGraph's own recursion limit, which stops a run with an error after a configured number of steps, is what the fuel stands for: `OutOfFuel` is that stop, and no particular limit value is assumed.
- CambiarioNodes.GenerateResponse: the KeyError from reading `state["documents"]` outside the `try` is not modelled. The documents are always present at GENERATE, as `CambiarioRun.AdvanceKeepsInv` shows.
