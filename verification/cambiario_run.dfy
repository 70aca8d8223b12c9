/**
  One invocation of the currency-exchange (Cambiario) graph with its own
  nodes: the state dictionary is threaded through retrieve, generate and
  verify, each node's update is merged into it, and the verify node's
  `verify_result` picks the conditional edge.

  The reranked retrieval, the generator and the two graders are answers given
  in advance: `retrieved` is what retrieval returns, `gen(i)` and
  `grades(i)` are the generator outcome and the two scores of round `i`.
 */
module CambiarioRun {
  import opened Records
  import N = CambiarioNodes
  import W = TopicWorkflow

  /** A point in a run: the node about to execute, the state, the number of
      verify rounds completed, and the documents handed to each generator
      call so far. */
  datatype Config = Config(node: W.Node, state: Dict, round: nat, generatorInputs: seq<seq<Document>>)

  /** Where an invocation stopped, with the nodes it executed in order. */
  datatype Final = Final(status: W.Outcome, last: Config)


  /** What the conditional edge reads: `state["verify_result"]`. */
  function RouteKey(state: Dict): string {
    if verify_result in state && state[verify_result].Str? then state[verify_result].s else ""
  }

  /** `state["documents"]`, as the generate node reads it. */
  function DocumentsIn(state: Dict): seq<Document> {
    if documents in state && state[documents].Docs? then state[documents].docs else []
  }

  /** The dictionary `node` returns; END returns nothing. */
  function Update(retrieved: seq<Document>, gen: nat -> Generated, grades: nat -> N.Verdict,
                  node: W.Node, round: nat): Dict
  {
    match node
    case Retrieve => N.RetrieveDocuments(retrieved)
    case Generate => N.GenerateResponse(gen(round))
    case Verify => N.VerifyResponse(grades(round)).update
    case End => map[]
  }

  /** The state after executing `node`: every key the node returns takes the
      returned value, and every other key keeps its value. */
  function Effect(retrieved: seq<Document>, gen: nat -> Generated, grades: nat -> N.Verdict,
                  node: W.Node, state: Dict, round: nat): (state': Dict)
    ensures var u := Update(retrieved, gen, grades, node, round);
            && state'.Keys == state.Keys + u.Keys
            && (forall k :: k in u ==> state'[k] == u[k])
            && (forall k :: k in state && k !in u ==> state'[k] == state[k])
  {
    state + Update(retrieved, gen, grades, node, round)
  }

  /** Execute `c.node` and follow the edge it selects in the wiring the
      Cambiario graph file builds (`W.TopicGraph(W.Cambiario).table`, which
      is `W.Wiring`); `None` when there is no edge for it. */
  function Advance(retrieved: seq<Document>, gen: nat -> Generated, grades: nat -> N.Verdict, c: Config): (r: Option<Config>)
    ensures r.None? <==> c.node == W.End
    ensures r.Some? ==> r.value.round == if c.node == W.Verify then c.round + 1 else c.round
    ensures r.Some? && r.value.node == W.End ==> c.node == W.Verify && RouteKey(r.value.state) == "useful"
  {
    var state' := Effect(retrieved, gen, grades, c.node, c.state, c.round);
    var key := if c.node == W.Verify then RouteKey(state') else "";
    W.TopicSuccessors(key);
    W.EndOnlyFromUseful(c.node, key);
    match W.Successor(W.Wiring, c.node, key)
    case None => None
    case Some(next) =>
      Some(Config(next, state',
                  if c.node == W.Verify then c.round + 1 else c.round,
                  if c.node == W.Generate then c.generatorInputs + [DocumentsIn(c.state)] else c.generatorInputs))
  }

  /** The graph runtime: execute nodes with `step` from `c` until END, a
      missing edge, or `fuel` node executions. It knows nothing of what the
      nodes do. */
  function Exec(step: Config -> Option<Config>, c: Config, fuel: nat, trace: seq<W.Node>): Final
    decreases fuel
  {
    if c.node == W.End then Final(W.Finished(trace), c)
    else if fuel == 0 then Final(W.OutOfFuel(trace), c)
    else
      match step(c)
      case None => Final(W.Failed(trace + [c.node]), c)
      case Some(c') => Exec(step, c', fuel - 1, trace + [c.node])
  }

  /** The Cambiario graph's step: its nodes over its wiring. */
  function Step(retrieved: seq<Document>, gen: nat -> Generated, grades: nat -> N.Verdict): Config -> Option<Config> {
    c => Advance(retrieved, gen, grades, c)
  }

  /** The configuration `app.invoke({"question": q})` starts from. */
  function Start(q: string): Config {
    Config(W.Retrieve, map[question := Str(q)], 0, [])
  }

  /** `app.invoke({"question": q})` with at most `fuel` node executions:
      RETRIEVE runs first, every node executed costs one unit of fuel, and
      the run never stops on a missing edge. */
  function Invoke(q: string, retrieved: seq<Document>, gen: nat -> Generated, grades: nat -> N.Verdict, fuel: nat): (f: Final)
    ensures |f.status.trace| <= fuel
    ensures fuel >= 1 ==> |f.status.trace| >= 1 && f.status.trace[0] == W.Retrieve
    ensures f.status.OutOfFuel? ==> |f.status.trace| == fuel
    ensures !f.status.Failed?
  {
    StepFollowsTable(retrieved, gen, grades);
    StepTotal(retrieved, gen, grades);
    ExecFromEntry(Step(retrieved, gen, grades), Decisions(grades), Start(q), fuel);
    Exec(Step(retrieved, gen, grades), Start(q), fuel, [])
  }

  /** The verification results the two scores lead to, round by round. */
  function Decisions(grades: nat -> N.Verdict): nat -> N.VerifyResult {
    (i: nat) => N.Decide(grades(i))
  }

  /** Round `k` is the first in which both graders say yes. */
  predicate FirstAccepted(grades: nat -> N.Verdict, k: nat) {
    grades(k).grounded && grades(k).addresses
    && forall i: nat :: i < k ==> !(grades(i).grounded && grades(i).addresses)
  }

  // ---------------------------------------------------------------- the runtime follows the table

  /** The outcome `a` of a step from `c` goes where the table-level run
      goes, keyed by the result `labels` gives for the current round. */
  predicate Agrees(a: Option<Config>, c: Config, labels: nat -> N.VerifyResult) {
    var key := if c.node == W.Verify then N.Label(labels(c.round)) else "";
    var next := W.Successor(W.Wiring, c.node, key);
    && (a.None? <==> next.None?)
    && (a.Some? ==> a.value.node == next.value)
    && (a.Some? ==> a.value.round == if c.node == W.Verify then c.round + 1 else c.round)
  }

  ghost predicate FollowsTable(step: Config -> Option<Config>, labels: nat -> N.VerifyResult) {
    forall c: Config :: Agrees(step(c), c, labels)
  }

  /** One Cambiario step goes where the table-level run goes, keyed by the
      graders' decision. */
  lemma AdvanceFollowsTable(retrieved: seq<Document>, gen: nat -> Generated, grades: nat -> N.Verdict, c: Config)
    ensures Agrees(Advance(retrieved, gen, grades, c), c, Decisions(grades))
  {
    if c.node == W.Verify {
      N.VerifyStoresDecision(grades(c.round));
    }
  }

  lemma StepFollowsTable(retrieved: seq<Document>, gen: nat -> Generated, grades: nat -> N.Verdict)
    ensures FollowsTable(Step(retrieved, gen, grades), Decisions(grades))
  {
    forall c: Config ensures Agrees(Step(retrieved, gen, grades)(c), c, Decisions(grades)) {
      AdvanceFollowsTable(retrieved, gen, grades, c);
    }
  }

  /** A runtime whose step follows the table walks exactly the nodes the
      table-level run walks. */
  lemma {:induction false} ExecFollowsTable(step: Config -> Option<Config>, labels: nat -> N.VerifyResult,
                                            c: Config, fuel: nat, trace: seq<W.Node>)
    requires FollowsTable(step, labels)
    ensures Exec(step, c, fuel, trace).status == W.Loop(W.Wiring, labels, c.node, c.round, fuel, trace)
    decreases fuel
  {
    if c.node != W.End && fuel > 0 {
      assert Agrees(step(c), c, labels);
      if step(c).Some? {
        ExecFollowsTable(step, labels, step(c).value, fuel - 1, trace + [c.node]);
      }
    }
  }

  /** Completed rounds are the VERIFY steps in the trace. */
  lemma {:induction false} RoundsAreVerifySteps(step: Config -> Option<Config>, labels: nat -> N.VerifyResult,
                                                c: Config, fuel: nat, trace: seq<W.Node>)
    requires FollowsTable(step, labels)
    requires c.round == W.Count(trace, W.Verify)
    ensures Exec(step, c, fuel, trace).status.Finished? ==>
              Exec(step, c, fuel, trace).last.round == W.Count(Exec(step, c, fuel, trace).status.trace, W.Verify)
    decreases fuel
  {
    if c.node != W.End && fuel > 0 && step(c).Some? {
      assert Agrees(step(c), c, labels);
      W.CountAppend(trace, [c.node], W.Verify);
      assert W.Count([c.node], W.Verify) == (if c.node == W.Verify then 1 else 0);
      RoundsAreVerifySteps(step, labels, step(c).value, fuel - 1, trace + [c.node]);
    }
  }

  /** A run finishes exactly when it stops at END. */
  lemma {:induction false} FinishesAtEnd(step: Config -> Option<Config>, c: Config, fuel: nat, trace: seq<W.Node>)
    ensures Exec(step, c, fuel, trace).status.Finished? <==> Exec(step, c, fuel, trace).last.node == W.End
    decreases fuel
  {
    if c.node != W.End && fuel > 0 && step(c).Some? {
      FinishesAtEnd(step, step(c).value, fuel - 1, trace + [c.node]);
    }
  }

  /** `step` has a successor for every node but END. */
  ghost predicate Total(step: Config -> Option<Config>) {
    forall c: Config :: c.node != W.End ==> step(c).Some?
  }

  lemma StepTotal(retrieved: seq<Document>, gen: nat -> Generated, grades: nat -> N.Verdict)
    ensures Total(Step(retrieved, gen, grades))
  {
    forall c: Config | c.node != W.End ensures Step(retrieved, gen, grades)(c).Some? {
      assert Advance(retrieved, gen, grades, c).Some?;
    }
  }

  /** A runtime with a total step never stops on a missing edge. */
  lemma {:induction false} ExecNeverFails(step: Config -> Option<Config>, c: Config, fuel: nat, trace: seq<W.Node>)
    requires Total(step)
    ensures !Exec(step, c, fuel, trace).status.Failed?
    decreases fuel
  {
    if c.node != W.End && fuel > 0 {
      assert step(c).Some?;
      ExecNeverFails(step, step(c).value, fuel - 1, trace + [c.node]);
    }
  }

  /** A run from RETRIEVE in round 0 whose step is total and follows the
      table spends one unit of fuel per node, starts with RETRIEVE and
      never fails. */
  lemma ExecFromEntry(step: Config -> Option<Config>, labels: nat -> N.VerifyResult, c: Config, fuel: nat)
    requires FollowsTable(step, labels) && Total(step)
    requires c.node == W.Retrieve && c.round == 0
    ensures var f := Exec(step, c, fuel, []);
            && |f.status.trace| <= fuel
            && (fuel >= 1 ==> |f.status.trace| >= 1 && f.status.trace[0] == W.Retrieve)
            && (f.status.OutOfFuel? ==> |f.status.trace| == fuel)
            && !f.status.Failed?
  {
    ExecFollowsTable(step, labels, c, fuel, []);
    assert W.Run(W.Wiring, labels, fuel) == W.Loop(W.Wiring, labels, c.node, c.round, fuel, []);
    ExecNeverFails(step, c, fuel, []);
  }

  // ---------------------------------------------------------------- what the state holds

  /** What holds at each node of the Cambiario graph. */
  predicate Inv(retrieved: seq<Document>, gen: nat -> Generated, c: Config) {
    && (forall i :: 0 <= i < |c.generatorInputs| ==> c.generatorInputs[i] == retrieved)
    && (c.node == W.Retrieve ==> c.round == 0 && |c.generatorInputs| == 0)
    && (c.node == W.Generate || c.node == W.End ==> |c.generatorInputs| == c.round)
    && (c.node == W.Verify ==> |c.generatorInputs| == c.round + 1)
    && (c.node != W.Retrieve ==>
          && documents in c.state && c.state[documents] == Docs(retrieved)
          && topic in c.state && c.state[topic] == Str(N.TopicLabel))
    && (c.node == W.Verify ==>
          generation in c.state && c.state[generation] == Str(N.GenerationText(gen(c.round))))
    && (c.node == W.End ==>
          && c.round >= 1
          && generation in c.state && c.state[generation] == Str(N.GenerationText(gen(c.round - 1)))
          && verify_result in c.state && c.state[verify_result] == Str("useful"))
  }

  /** `step` never leaves the invariant. */
  ghost predicate KeepsInv(step: Config -> Option<Config>, retrieved: seq<Document>, gen: nat -> Generated) {
    forall c: Config :: Inv(retrieved, gen, c) && c.node != W.End && step(c).Some? ==> Inv(retrieved, gen, step(c).value)
  }

  lemma AdvanceKeepsInv(retrieved: seq<Document>, gen: nat -> Generated, grades: nat -> N.Verdict, c: Config)
    requires Inv(retrieved, gen, c) && c.node != W.End
    requires Advance(retrieved, gen, grades, c).Some?
    ensures Inv(retrieved, gen, Advance(retrieved, gen, grades, c).value)
  {
    var state' := Effect(retrieved, gen, grades, c.node, c.state, c.round);
    var c' := Advance(retrieved, gen, grades, c).value;
    match c.node
    case Retrieve =>
      W.TopicSuccessors("");
      assert c' == Config(W.Generate, state', 0, []);
    case Generate =>
      W.TopicSuccessors("");
      assert DocumentsIn(c.state) == retrieved;
      assert c' == Config(W.Verify, state', c.round, c.generatorInputs + [retrieved]);
    case Verify =>
      var v := grades(c.round);
      N.VerifyStoresDecision(v);
      N.LabelRoundTrip(N.Decide(v));
      assert RouteKey(state') == N.Label(N.Decide(v));
      W.TopicSuccessors(N.Label(N.Decide(v)));
      assert c'.round == c.round + 1 && c'.generatorInputs == c.generatorInputs;
      assert c'.node == W.End ==> N.Decide(v) == N.Useful;
  }

  lemma StepKeepsInv(retrieved: seq<Document>, gen: nat -> Generated, grades: nat -> N.Verdict)
    ensures KeepsInv(Step(retrieved, gen, grades), retrieved, gen)
  {
    forall c: Config | Inv(retrieved, gen, c) && c.node != W.End && Step(retrieved, gen, grades)(c).Some?
      ensures Inv(retrieved, gen, Step(retrieved, gen, grades)(c).value)
    {
      AdvanceKeepsInv(retrieved, gen, grades, c);
    }
  }

  lemma {:induction false} ExecKeepsInv(step: Config -> Option<Config>, retrieved: seq<Document>, gen: nat -> Generated,
                                        c: Config, fuel: nat, trace: seq<W.Node>)
    requires KeepsInv(step, retrieved, gen) && Inv(retrieved, gen, c)
    ensures Inv(retrieved, gen, Exec(step, c, fuel, trace).last)
    decreases fuel
  {
    if c.node != W.End && fuel > 0 && step(c).Some? {
      ExecKeepsInv(step, retrieved, gen, step(c).value, fuel - 1, trace + [c.node]);
    }
  }

  // ---------------------------------------------------------------- invocations

  /** Where an invocation stops the invariant holds, and when it finishes
      it stops at END after as many rounds as VERIFY steps. */
  lemma InvokeEndsInInv(q: string, retrieved: seq<Document>, gen: nat -> Generated,
                        grades: nat -> N.Verdict, fuel: nat)
    ensures var f := Invoke(q, retrieved, gen, grades, fuel);
            && Inv(retrieved, gen, f.last)
            && (f.status.Finished? ==> f.last.node == W.End && f.last.round == W.Count(f.status.trace, W.Verify))
  {
    var step := Step(retrieved, gen, grades);
    StepKeepsInv(retrieved, gen, grades);
    StepFollowsTable(retrieved, gen, grades);
    ExecKeepsInv(step, retrieved, gen, Start(q), fuel, []);
    FinishesAtEnd(step, Start(q), fuel, []);
    RoundsAreVerifySteps(step, Decisions(grades), Start(q), fuel, []);
  }

  /** An invocation's nodes are those of the table-level run under the
      graders' decisions. */
  lemma InvokeFollowsTable(q: string, retrieved: seq<Document>, gen: nat -> Generated,
                           grades: nat -> N.Verdict, fuel: nat)
    ensures Invoke(q, retrieved, gen, grades, fuel).status == W.Run(W.Wiring, Decisions(grades), fuel)
  {
    StepFollowsTable(retrieved, gen, grades);
    ExecFollowsTable(Step(retrieved, gen, grades), Decisions(grades), Start(q), fuel, []);
  }

  /** The first round the graders both accept is the first `useful` round. */
  lemma FirstAcceptedIsFirstUseful(grades: nat -> N.Verdict, k: nat)
    ensures W.FirstUseful(Decisions(grades), k) <==> FirstAccepted(grades, k)
  {
    forall i: nat ensures (Decisions(grades)(i) == N.Useful) == (grades(i).grounded && grades(i).addresses) {
      assert Decisions(grades)(i) == N.Decide(grades(i));
    }
  }

  /** An invocation finishes exactly when some round is accepted by both
      graders and the first such round is reached within the fuel. */
  lemma InvokeFinishesIff(q: string, retrieved: seq<Document>, gen: nat -> Generated,
                          grades: nat -> N.Verdict, fuel: nat)
    ensures Invoke(q, retrieved, gen, grades, fuel).status.Finished? <==>
              exists k: nat :: FirstAccepted(grades, k) && 2 * k + 3 <= fuel
  {
    InvokeFollowsTable(q, retrieved, gen, grades, fuel);
    W.RunFinishesIff(Decisions(grades), fuel);
    if k: nat :| W.FirstUseful(Decisions(grades), k) && 2 * k + 3 <= fuel {
      FirstAcceptedIsFirstUseful(grades, k);
    }
    if k: nat :| FirstAccepted(grades, k) && 2 * k + 3 <= fuel {
      FirstAcceptedIsFirstUseful(grades, k);
    }
  }

  /** The trace of an invocation first accepted in round `k` (zero-based),
      given fuel for it: RETRIEVE once, then `k + 1` generate/verify rounds. */
  lemma AcceptedTrace(q: string, retrieved: seq<Document>, gen: nat -> Generated,
                      grades: nat -> N.Verdict, k: nat, fuel: nat)
    requires FirstAccepted(grades, k) && 2 * k + 3 <= fuel
    ensures Invoke(q, retrieved, gen, grades, fuel).status == W.Finished(W.Shape(k + 1))
  {
    InvokeFollowsTable(q, retrieved, gen, grades, fuel);
    W.RunAcceptsAtFirstUseful(Decisions(grades), k, fuel);
  }

  /** Such an invocation retrieves once and generates `k + 1` times. */
  lemma AcceptedCounts(q: string, retrieved: seq<Document>, gen: nat -> Generated,
                       grades: nat -> N.Verdict, k: nat, fuel: nat)
    requires FirstAccepted(grades, k) && 2 * k + 3 <= fuel
    ensures var f := Invoke(q, retrieved, gen, grades, fuel);
            && f.status.Finished?
            && W.Count(f.status.trace, W.Retrieve) == 1
            && W.Count(f.status.trace, W.Generate) == k + 1
            && W.Count(f.status.trace, W.Verify) == k + 1
  {
    AcceptedTrace(q, retrieved, gen, grades, k, fuel);
    W.FinishedCounts(Invoke(q, retrieved, gen, grades, fuel).status, k + 1);
  }

  /** Such an invocation hands the retrieved documents to each of its `k + 1`
      generator calls, and ends with the `useful` verdict, the last
      generation, and the retrieved documents under the topic label. */
  lemma AcceptedAtFirstAgreement(q: string, retrieved: seq<Document>, gen: nat -> Generated,
                                 grades: nat -> N.Verdict, k: nat, fuel: nat)
    requires FirstAccepted(grades, k) && 2 * k + 3 <= fuel
    ensures var last := Invoke(q, retrieved, gen, grades, fuel).last;
            && |last.generatorInputs| == k + 1
            && (forall i :: 0 <= i < k + 1 ==> last.generatorInputs[i] == retrieved)
            && verify_result in last.state && last.state[verify_result] == Str("useful")
            && generation in last.state && last.state[generation] == Str(N.GenerationText(gen(k)))
            && documents in last.state && last.state[documents] == Docs(retrieved)
            && topic in last.state && last.state[topic] == Str(N.TopicLabel)
  {
    var f := Invoke(q, retrieved, gen, grades, fuel);
    AcceptedCounts(q, retrieved, gen, grades, k, fuel);
    InvokeEndsInInv(q, retrieved, gen, grades, fuel);
    var last := f.last;
    assert last.node == W.End && last.round == k + 1;
    assert Inv(retrieved, gen, last);
  }

  /** When the two graders never both say yes, the invocation never finishes. */
  lemma NeverAgreedNeverFinishes(q: string, retrieved: seq<Document>, gen: nat -> Generated,
                                 grades: nat -> N.Verdict, fuel: nat)
    requires forall i: nat :: !(grades(i).grounded && grades(i).addresses)
    ensures Invoke(q, retrieved, gen, grades, fuel).status.OutOfFuel?
  {
    InvokeFollowsTable(q, retrieved, gen, grades, fuel);
    W.NeverAcceptedNeverFinishes(Decisions(grades), fuel);
  }
}
