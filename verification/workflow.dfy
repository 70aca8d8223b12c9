/**
  The wiring shared by the four topic graphs (withholding tax, consumption
  tax, currency exchange, customs) and the control flow of one run.

  Each topic's graph file issues the same builder calls; only the node module
  it binds differs. The builder script is written once, parametrized by the
  topic, and the resulting transition tables are proved equal. A run is a
  fuel-bounded walk over the table: the graph itself has no retry cap, so a
  run that is never accepted only stops because the fuel runs out.
 */
module TopicWorkflow {
  import opened Records
  import CambiarioNodes

  type VerifyResult = CambiarioNodes.VerifyResult

  datatype Node = Retrieve | Generate | Verify | End

  datatype Topic = Retencion | Ipoconsumo | Cambiario | Aduanas

  /** The node function a graph binds: a topic's node module and the entry in it. */
  datatype NodeFn = RetrieveDocuments | GenerateResponse | VerifyResponse
  datatype Binding = Binding(topic: Topic, fn: NodeFn)

  /** The builder calls made by a graph file, in order. */
  datatype Op =
    | AddNode(name: Node, binding: Binding)
    | SetEntryPoint(entry: Node)
    | AddEdge(from: Node, to: Node)
    | AddConditionalEdges(source: Node, pathMap: map<string, Node>)

  /** Where the run goes next: the entry point, the unconditional edges, and
      for each conditional source the map from routing key to target. */
  datatype Table = Table(entry: Option<Node>, edges: map<Node, Node>, branches: map<Node, map<string, Node>>)

  datatype Graph = Graph(bindings: map<Node, Binding>, table: Table)

  const Empty := Graph(map[], Table(None, map[], map[]))

  function Apply(g: Graph, op: Op): Graph {
    match op
    case AddNode(n, b) => g.(bindings := g.bindings[n := b])
    case SetEntryPoint(n) => g.(table := g.table.(entry := Some(n)))
    case AddEdge(a, b) => g.(table := g.table.(edges := g.table.edges[a := b]))
    case AddConditionalEdges(src, pm) => g.(table := g.table.(branches := g.table.branches[src := pm]))
  }

  /** The graph after the builder calls, applied left to right. */
  function Build(ops: seq<Op>): Graph {
    if |ops| == 0 then Empty else Apply(Build(ops[..|ops| - 1]), ops[|ops| - 1])
  }

  /** The routing keys of the verify node's conditional edge. */
  const VerifyRoutes: map<string, Node> :=
    map["useful" := End, "not_useful" := Generate, "not_supported" := Generate]

  /** The builder script every topic graph file runs, binding that topic's nodes. */
  function Script(t: Topic): seq<Op> {
    [ AddNode(Retrieve, Binding(t, RetrieveDocuments)),
      AddNode(Generate, Binding(t, GenerateResponse)),
      AddNode(Verify, Binding(t, VerifyResponse)),
      SetEntryPoint(Retrieve),
      AddEdge(Retrieve, Generate),
      AddEdge(Generate, Verify),
      AddConditionalEdges(Verify, VerifyRoutes) ]
  }

  /** The transition table every topic graph wires: enter at RETRIEVE, then
      RETRIEVE to GENERATE to VERIFY, and VERIFY routed by its result. */
  const Wiring: Table :=
    Table(Some(Retrieve), map[Retrieve := Generate, Generate := Verify], map[Verify := VerifyRoutes])

  /** The graph a topic's graph file builds: the three nodes bound to that
      topic's node functions, and the shared wiring. */
  function TopicGraph(t: Topic): (g: Graph)
    ensures g.bindings.Keys == {Retrieve, Generate, Verify}
    ensures forall n :: n in g.bindings ==> g.bindings[n].topic == t
    ensures g.bindings[Retrieve].fn == RetrieveDocuments
    ensures g.bindings[Generate].fn == GenerateResponse
    ensures g.bindings[Verify].fn == VerifyResponse
    ensures g.table == Wiring
  {
    var s := Script(t);
    var g1 := Apply(Empty, s[0]);
    assert Build(s[..1]) == g1 by { assert s[..1][..0] == []; }
    var g2 := Apply(g1, s[1]);
    assert Build(s[..2]) == g2 by { assert s[..2][..1] == s[..1]; }
    var g3 := Apply(g2, s[2]);
    assert Build(s[..3]) == g3 by { assert s[..3][..2] == s[..2]; }
    var g4 := Apply(g3, s[3]);
    assert Build(s[..4]) == g4 by { assert s[..4][..3] == s[..3]; }
    var g5 := Apply(g4, s[4]);
    assert Build(s[..5]) == g5 by { assert s[..5][..4] == s[..4]; }
    var g6 := Apply(g5, s[5]);
    assert Build(s[..6]) == g6 by { assert s[..6][..5] == s[..5]; }
    assert Build(s) == Apply(g6, s[6]) by { assert s[..6] == s[..|s| - 1]; }
    Build(s)
  }

  /** The next node after `n`; `key` is the routing key, read only at a
      conditional source. `None` is a missing edge or an unmapped key. */
  function Successor(tbl: Table, n: Node, key: string): Option<Node> {
    if n in tbl.edges then Some(tbl.edges[n])
    else if n in tbl.branches && key in tbl.branches[n] then Some(tbl.branches[n][key])
    else None
  }

  /** Retrieval is always followed by generation, generation by verification;
      verification ends on `useful`, regenerates on the two rejections and
      has no route for any other key. */
  lemma TopicSuccessors(key: string)
    ensures Successor(Wiring, Retrieve, key) == Some(Generate)
    ensures Successor(Wiring, Generate, key) == Some(Verify)
    ensures key == "useful" ==> Successor(Wiring, Verify, key) == Some(End)
    ensures key == "not_useful" ==> Successor(Wiring, Verify, key) == Some(Generate)
    ensures key == "not_supported" ==> Successor(Wiring, Verify, key) == Some(Generate)
    ensures key !in {"useful", "not_useful", "not_supported"} ==>
              Successor(Wiring, Verify, key) == None
    ensures Successor(Wiring, End, key) == None
  {
  }

  /** The only way into END is a `useful` verification. */
  lemma EndOnlyFromUseful(n: Node, key: string)
    ensures Successor(Wiring, n, key) == Some(End) <==> n == Verify && key == "useful"
  {
  }

  /** The four graph files wire the same transition table. */
  lemma TablesAgree(t1: Topic, t2: Topic)
    ensures TopicGraph(t1).table == TopicGraph(t2).table == Wiring
    ensures TopicGraph(t1).bindings.Keys == TopicGraph(t2).bindings.Keys
  {
  }

  // ---------------------------------------------------------------- runs

  /** How a fuel-bounded run stops, with the nodes it executed in order. */
  datatype Outcome = Finished(trace: seq<Node>) | OutOfFuel(trace: seq<Node>) | Failed(trace: seq<Node>)

  /** Walk from `node`; `labels(i)` is the verification result of the i-th
      round (zero-based), `fuel` bounds the number of node executions. */
  function Loop(tbl: Table, labels: nat -> VerifyResult, node: Node, round: nat, fuel: nat, trace: seq<Node>): Outcome
    decreases fuel
  {
    if node == End then Finished(trace)
    else if fuel == 0 then OutOfFuel(trace)
    else
      var key := if node == Verify then CambiarioNodes.Label(labels(round)) else "";
      var round' := if node == Verify then round + 1 else round;
      match Successor(tbl, node, key)
      case None => Failed(trace + [node])
      case Some(next) => Loop(tbl, labels, next, round', fuel - 1, trace + [node])
  }

  /** The walk only appends to `trace`, one node per unit of fuel, starting
      with `node` itself; running out of fuel means all of it was spent. */
  lemma {:induction false} LoopSpendsFuel(tbl: Table, labels: nat -> VerifyResult, node: Node, round: nat,
                                          fuel: nat, trace: seq<Node>)
    ensures var o := Loop(tbl, labels, node, round, fuel, trace);
            && |trace| <= |o.trace| <= |trace| + fuel && o.trace[..|trace|] == trace
            && (o.OutOfFuel? ==> |o.trace| == |trace| + fuel)
            && (fuel >= 1 && node != End ==> |o.trace| > |trace| && o.trace[|trace|] == node)
    decreases fuel
  {
    if node != End && fuel > 0 {
      var key := if node == Verify then CambiarioNodes.Label(labels(round)) else "";
      var round' := if node == Verify then round + 1 else round;
      if Successor(tbl, node, key).Some? {
        var next := Successor(tbl, node, key).value;
        var t := trace + [node];
        LoopSpendsFuel(tbl, labels, next, round', fuel - 1, t);
        var o := Loop(tbl, labels, next, round', fuel - 1, t);
        assert o.trace[..|trace|] == o.trace[..|t|][..|trace|];
        assert o.trace[|trace|] == o.trace[..|t|][|trace|];
      }
    }
  }

  /** A run from the entry point: each executed node costs one unit of fuel,
      and the entry point executes first. */
  function Run(tbl: Table, labels: nat -> VerifyResult, fuel: nat): (o: Outcome)
    ensures |o.trace| <= fuel
    ensures o.OutOfFuel? ==> |o.trace| == fuel
    ensures tbl.entry.None? ==> o == Failed([])
    ensures fuel >= 1 && tbl.entry.Some? && tbl.entry.value != End ==> |o.trace| >= 1 && o.trace[0] == tbl.entry.value
  {
    match tbl.entry
    case None => Failed([])
    case Some(e) =>
      LoopSpendsFuel(tbl, labels, e, 0, fuel, []);
      Loop(tbl, labels, e, 0, fuel, [])
  }

  /** `k` generate/verify rounds. */
  function Rounds(k: nat): (s: seq<Node>)
    ensures |s| == 2 * k
  {
    if k == 0 then [] else [Generate, Verify] + Rounds(k - 1)
  }

  /** The trace of a run accepted in round `k` (one-based). */
  function Shape(k: nat): seq<Node> {
    [Retrieve] + Rounds(k)
  }

  /** Round `k` is the first one whose verification says `useful`. */
  predicate FirstUseful(labels: nat -> VerifyResult, k: nat) {
    labels(k) == CambiarioNodes.Useful && forall i: nat :: i < k ==> labels(i) != CambiarioNodes.Useful
  }

  /** The first `n` steps of endless generate/verify rounds. */
  function Alternation(n: nat): (s: seq<Node>)
    ensures |s| == n
  {
    if n == 0 then [] else if n == 1 then [Generate] else [Generate, Verify] + Alternation(n - 2)
  }

  lemma {:induction false} LoopAccepts(labels: nat -> VerifyResult, r: nat, k: nat, fuel: nat, trace: seq<Node>)
    requires r <= k && FirstUseful(labels, k)
    requires 2 * (k - r) + 2 <= fuel
    ensures Loop(Wiring, labels, Generate, r, fuel, trace) == Finished(trace + Rounds(k - r + 1))
    decreases k - r
  {
    var tbl := Wiring;
    var key := CambiarioNodes.Label(labels(r));
    TopicSuccessors("");
    TopicSuccessors(key);
    var t2 := trace + [Generate] + [Verify];
    assert Loop(tbl, labels, Generate, r, fuel, trace) == Loop(tbl, labels, Verify, r, fuel - 1, trace + [Generate]);
    if r == k {
      assert Loop(tbl, labels, Verify, r, fuel - 1, trace + [Generate]) == Loop(tbl, labels, End, r + 1, fuel - 2, t2);
      assert Rounds(1) == [Generate, Verify];
      assert t2 == trace + Rounds(1);
    } else {
      assert Loop(tbl, labels, Verify, r, fuel - 1, trace + [Generate]) == Loop(tbl, labels, Generate, r + 1, fuel - 2, t2);
      LoopAccepts(labels, r + 1, k, fuel - 2, t2);
      assert Rounds(k - r + 1) == [Generate, Verify] + Rounds(k - r);
      assert t2 + Rounds(k - r) == trace + Rounds(k - r + 1);
    }
  }

  lemma {:induction false} LoopStalls(labels: nat -> VerifyResult, r: nat, fuel: nat, trace: seq<Node>)
    requires forall i: nat :: r <= i && 2 * (i - r) + 2 <= fuel ==> labels(i) != CambiarioNodes.Useful
    ensures Loop(Wiring, labels, Generate, r, fuel, trace) == OutOfFuel(trace + Alternation(fuel))
    decreases fuel
  {
    var tbl := Wiring;
    TopicSuccessors("");
    if fuel == 1 {
      assert Loop(tbl, labels, Generate, r, fuel, trace) == Loop(tbl, labels, Verify, r, 0, trace + [Generate]);
    } else if fuel >= 2 {
      var key := CambiarioNodes.Label(labels(r));
      TopicSuccessors(key);
      var t2 := trace + [Generate] + [Verify];
      assert Loop(tbl, labels, Generate, r, fuel, trace) == Loop(tbl, labels, Verify, r, fuel - 1, trace + [Generate]);
      assert Loop(tbl, labels, Verify, r, fuel - 1, trace + [Generate]) == Loop(tbl, labels, Generate, r + 1, fuel - 2, t2);
      LoopStalls(labels, r + 1, fuel - 2, t2);
      assert t2 + Alternation(fuel - 2) == trace + Alternation(fuel);
    } else {
      assert trace + Alternation(0) == trace;
    }
  }

  /** Every run with fuel starts with the retrieve step. */
  lemma RunStart(labels: nat -> VerifyResult, fuel: nat)
    requires fuel >= 1
    ensures Run(Wiring, labels, fuel) == Loop(Wiring, labels, Generate, 0, fuel - 1, [Retrieve])
  {
    var tbl := Wiring;
    TopicSuccessors("");
    assert Run(tbl, labels, fuel) == Loop(tbl, labels, Retrieve, 0, fuel, []);
    assert [] + [Retrieve] == [Retrieve];
  }

  lemma {:induction false} FirstUsefulExists(labels: nat -> VerifyResult, j: nat)
    requires labels(j) == CambiarioNodes.Useful
    ensures exists k: nat :: k <= j && FirstUseful(labels, k)
  {
    if !FirstUseful(labels, j) {
      var i: nat :| i < j && labels(i) == CambiarioNodes.Useful;
      FirstUsefulExists(labels, i);
    }
  }

  /** A run that is first accepted in round `k` (zero-based) and has fuel for
      it executes RETRIEVE once and then `k + 1` generate/verify rounds. */
  lemma RunAcceptsAtFirstUseful(labels: nat -> VerifyResult, k: nat, fuel: nat)
    requires FirstUseful(labels, k) && 2 * k + 3 <= fuel
    ensures Run(Wiring, labels, fuel) == Finished(Shape(k + 1))
  {
    var tbl := Wiring;
    RunStart(labels, fuel);
    LoopAccepts(labels, 0, k, fuel - 1, [Retrieve]);
  }

  /** A run finishes exactly when some round is accepted, the first such
      round being reached within the fuel. */
  lemma RunFinishesIff(labels: nat -> VerifyResult, fuel: nat)
    ensures Run(Wiring, labels, fuel).Finished? <==>
              exists k: nat :: FirstUseful(labels, k) && 2 * k + 3 <= fuel
  {
    if k: nat :| FirstUseful(labels, k) && 2 * k + 3 <= fuel {
      RunAcceptsAtFirstUseful(labels, k, fuel);
    } else if fuel >= 1 {
      forall i: nat | 2 * i + 2 <= fuel - 1
        ensures labels(i) != CambiarioNodes.Useful
      {
        if labels(i) == CambiarioNodes.Useful {
          FirstUsefulExists(labels, i);
        }
      }
      var tbl := Wiring;
      RunStart(labels, fuel);
      LoopStalls(labels, 0, fuel - 1, [Retrieve]);
    }
  }

  /** With no accepted round the run never reaches END, whatever the fuel:
      it spends all of it on RETRIEVE followed by alternating generate and
      verify steps. */
  lemma NeverAcceptedNeverFinishes(labels: nat -> VerifyResult, fuel: nat)
    requires forall i: nat :: labels(i) != CambiarioNodes.Useful
    ensures fuel == 0 ==> Run(Wiring, labels, fuel) == OutOfFuel([])
    ensures fuel >= 1 ==> Run(Wiring, labels, fuel) == OutOfFuel([Retrieve] + Alternation(fuel - 1))
  {
    var tbl := Wiring;
    if fuel >= 1 {
      RunStart(labels, fuel);
      LoopStalls(labels, 0, fuel - 1, [Retrieve]);
    }
  }

  function Count(s: seq<Node>, n: Node): nat {
    if |s| == 0 then 0 else (if s[0] == n then 1 else 0) + Count(s[1..], n)
  }

  lemma {:induction false} CountAppend(a: seq<Node>, b: seq<Node>, n: Node)
    ensures Count(a + b, n) == Count(a, n) + Count(b, n)
  {
    if |a| == 0 {
      assert a + b == b;
    } else {
      assert (a + b)[1..] == a[1..] + b;
      CountAppend(a[1..], b, n);
    }
  }

  lemma {:induction false} RoundsCounts(k: nat)
    ensures Count(Rounds(k), Retrieve) == 0 && Count(Rounds(k), End) == 0
    ensures Count(Rounds(k), Generate) == k && Count(Rounds(k), Verify) == k
  {
    if k > 0 {
      var s := Rounds(k);
      assert s[1..][1..] == Rounds(k - 1);
      RoundsCounts(k - 1);
    }
  }

  /** A finished trace: RETRIEVE first and only once, as many GENERATE as
      VERIFY steps, one per round, and a VERIFY last. */
  lemma ShapeCounts(k: nat)
    requires k >= 1
    ensures Shape(k)[0] == Retrieve && Shape(k)[|Shape(k)| - 1] == Verify
    ensures Count(Shape(k), Retrieve) == 1 && Count(Shape(k), End) == 0
    ensures Count(Shape(k), Generate) == k && Count(Shape(k), Verify) == k
  {
    assert Shape(k)[1..] == Rounds(k);
    RoundsCounts(k);
    var r := Rounds(k);
    assert r == [Generate, Verify] + Rounds(k - 1);
    if k > 1 {
      var last := Rounds(k - 1);
      assert |last| >= 2;
    }
    LastOfRounds(k);
  }

  lemma FinishedCounts(o: Outcome, k: nat)
    requires k >= 1 && o == Finished(Shape(k))
    ensures o.Finished?
    ensures Count(o.trace, Retrieve) == 1 && Count(o.trace, Generate) == k && Count(o.trace, Verify) == k
  {
    ShapeCounts(k);
  }

  lemma {:induction false} LastOfRounds(k: nat)
    requires k >= 1
    ensures Rounds(k)[2 * k - 1] == Verify
  {
    if k > 1 {
      LastOfRounds(k - 1);
      assert Rounds(k)[2 * k - 1] == Rounds(k - 1)[2 * (k - 1) - 1];
    }
  }
}
