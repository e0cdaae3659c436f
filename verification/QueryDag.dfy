/**
 The structural validation of a v2 query plan: a list of operator nodes, each
 naming the nodes it reads from.  The last stage is a worklist that counts
 unprocessed inputs and decides whether the plan has a cycle.
 */
module QueryDag {
  import opened Prelude
  import opened Decimal

  const QUERY_IR_CONTRACT_V2 := "query-ir.v2"
  const MAX_NODES := 10_000

  datatype Node = Node(id: string, inputs: seq<string>)

  /** `parameterTypes` holds the entries of the source's BTreeMap in its iteration order. */
  datatype QueryIr = QueryIr(
    contractVersion: string,
    nodes: seq<Node>,
    root: string,
    parameterTypes: seq<(string, string)>)

  datatype Defect =
    | UnsupportedContract(version: string)
    | NodeCountOutOfRange
    | InvalidIdentifier(kind: string, value: string)
    | DuplicateNode(id: string)
    | MissingRoot(root: string)
    | EmptyParameterType
    | UnknownInput(node: string, input: string)
    | ContainsCycle

  // ---------------------------------------------------------------------
  // What a sound plan is
  // ---------------------------------------------------------------------

  function Ids(nodes: seq<Node>): set<string> {
    set i | 0 <= i < |nodes| :: nodes[i].id
  }

  ghost predicate UniqueIds(nodes: seq<Node>) {
    forall i, j | 0 <= i < j < |nodes| :: nodes[i].id != nodes[j].id
  }

  /** Every id is an identifier and none repeats. */
  ghost predicate IdsSound(nodes: seq<Node>) {
    UniqueIds(nodes) && forall i | 0 <= i < |nodes| :: IsIdentifier(nodes[i].id)
  }

  ghost predicate InputsKnown(nodes: seq<Node>, known: set<string>) {
    forall i, a | 0 <= i < |nodes| && a in nodes[i].inputs :: a in known
  }

  /** Some node called `b` lists `a` among its inputs. */
  ghost predicate Feeds(nodes: seq<Node>, a: string, b: string) {
    exists i | 0 <= i < |nodes| :: nodes[i].id == b && a in nodes[i].inputs
  }

  ghost predicate StepsAt(nodes: seq<Node>, walk: seq<string>, i: int)
    requires 0 <= i < |walk| - 1
  {
    Feeds(nodes, walk[i], walk[i + 1])
  }

  ghost predicate IsWalk(nodes: seq<Node>, walk: seq<string>) {
    forall i | 0 <= i < |walk| - 1 :: StepsAt(nodes, walk, i)
  }

  /** A closed walk along the input relation; a self-loop is the walk `[a, a]`. */
  ghost predicate IsCycle(nodes: seq<Node>, walk: seq<string>) {
    |walk| >= 2 && walk[0] == walk[|walk| - 1] && IsWalk(nodes, walk)
  }

  ghost predicate Acyclic(nodes: seq<Node>) {
    forall walk: seq<string> :: !IsCycle(nodes, walk)
  }

  /** `order` lists every node once, each after all of its inputs. */
  ghost predicate IsTopologicalOrder(nodes: seq<Node>, order: seq<string>) {
    && NoDup(order)
    && Elements(order) == Ids(nodes)
    && forall i, j | 0 <= i < |order| && 0 <= j < |order| && Feeds(nodes, order[i], order[j]) :: i < j
  }

  ghost predicate HeaderSound(ir: QueryIr) {
    && ir.contractVersion == QUERY_IR_CONTRACT_V2
    && 1 <= |ir.nodes| <= MAX_NODES
    && IsIdentifier(ir.root)
  }

  ghost predicate NamesSound(ir: QueryIr) {
    && HeaderSound(ir)
    && IdsSound(ir.nodes)
    && ir.root in Ids(ir.nodes)
  }

  ghost predicate ParametersNamed(parameters: seq<(string, string)>) {
    forall i | 0 <= i < |parameters| :: IsIdentifier(parameters[i].0)
  }

  ghost predicate ParametersTyped(parameters: seq<(string, string)>) {
    forall i | 0 <= i < |parameters| :: parameters[i].1 != ""
  }

  ghost predicate PreludeSound(ir: QueryIr) {
    NamesSound(ir) && ParametersNamed(ir.parameterTypes) && ParametersTyped(ir.parameterTypes)
  }

  ghost predicate SoundPlan(ir: QueryIr) {
    PreludeSound(ir) && InputsKnown(ir.nodes, Ids(ir.nodes)) && Acyclic(ir.nodes)
  }

  /** Node `i`, input `j` is the first input that names no node. */
  ghost predicate FirstUnknownInput(nodes: seq<Node>, i: nat, j: nat) {
    && i < |nodes| && j < |nodes[i].inputs|
    && InputsKnown(nodes[..i], Ids(nodes))
    && (forall k | 0 <= k < j :: nodes[i].inputs[k] in Ids(nodes))
    && nodes[i].inputs[j] !in Ids(nodes)
  }

  /** `d` is the first thing wrong with `ir`, in the order the checks are made. */
  ghost predicate Diagnoses(ir: QueryIr, d: Defect) {
    match d
    case UnsupportedContract(v) =>
      v == ir.contractVersion && v != QUERY_IR_CONTRACT_V2
    case NodeCountOutOfRange =>
      ir.contractVersion == QUERY_IR_CONTRACT_V2 && !(1 <= |ir.nodes| <= MAX_NODES)
    case InvalidIdentifier(kind, v) =>
      && !IsIdentifier(v)
      && ir.contractVersion == QUERY_IR_CONTRACT_V2 && 1 <= |ir.nodes| <= MAX_NODES
      && ((kind == "root" && v == ir.root)
          || (kind == "query node" && HeaderSound(ir)
              && exists i | 0 <= i < |ir.nodes| :: ir.nodes[i].id == v && IdsSound(ir.nodes[..i]))
          || (kind == "parameter" && NamesSound(ir)
              && exists i | 0 <= i < |ir.parameterTypes| ::
                   ir.parameterTypes[i].0 == v && ParametersNamed(ir.parameterTypes[..i])))
    case DuplicateNode(id) =>
      && HeaderSound(ir) && IsIdentifier(id)
      && exists i | 0 <= i < |ir.nodes| ::
           ir.nodes[i].id == id && IdsSound(ir.nodes[..i]) && id in Ids(ir.nodes[..i])
    case MissingRoot(root) =>
      HeaderSound(ir) && IdsSound(ir.nodes) && root == ir.root && root !in Ids(ir.nodes)
    case EmptyParameterType =>
      NamesSound(ir) && ParametersNamed(ir.parameterTypes) && !ParametersTyped(ir.parameterTypes)
    case UnknownInput(node, input) =>
      && PreludeSound(ir)
      && exists i: nat, j: nat :: FirstUnknownInput(ir.nodes, i, j)
                        && ir.nodes[i].id == node && ir.nodes[i].inputs[j] == input
    case ContainsCycle =>
      PreludeSound(ir) && InputsKnown(ir.nodes, Ids(ir.nodes)) && !Acyclic(ir.nodes)
  }

  // ---------------------------------------------------------------------
  // Schedules: every order in which the worklist can be drained
  // ---------------------------------------------------------------------

  /** From each node id to its inputs. */
  type Graph = map<string, seq<string>>

  ghost function IndexOf(nodes: seq<Node>, id: string): (i: nat)
    requires id in Ids(nodes)
    ensures i < |nodes| && nodes[i].id == id
  {
    var i :| 0 <= i < |nodes| && nodes[i].id == id;
    i
  }

  ghost function GraphOf(nodes: seq<Node>): (g: Graph)
    requires UniqueIds(nodes)
    ensures g.Keys == Ids(nodes)
    ensures forall i | 0 <= i < |nodes| :: g[nodes[i].id] == nodes[i].inputs
  {
    map id | id in Ids(nodes) :: nodes[IndexOf(nodes, id)].inputs
  }

  ghost predicate Closed(g: Graph) {
    forall b, a | b in g && a in g[b] :: a in g
  }

  /** Occurrences in `inputs` of nodes that are not done yet. */
  ghost function Pending(inputs: seq<string>, done: set<string>): nat {
    if inputs == [] then 0
    else (if inputs[0] in done then 0 else 1) + Pending(inputs[1..], done)
  }

  lemma {:induction false} PendingZero(inputs: seq<string>, done: set<string>)
    ensures Pending(inputs, done) == 0 <==> forall a | a in inputs :: a in done
  {
    if inputs != [] {
      PendingZero(inputs[1..], done);
      assert inputs == [inputs[0]] + inputs[1..];
    }
  }

  lemma {:induction false} PendingStart(inputs: seq<string>)
    ensures Pending(inputs, {}) == |inputs|
  {
    if inputs != [] { PendingStart(inputs[1..]); }
  }

  /** Finishing `a` pays off every occurrence of `a`. */
  lemma {:induction false} PendingFinish(inputs: seq<string>, done: set<string>, a: string)
    requires a !in done
    ensures Pending(inputs, done) == Pending(inputs, done + {a}) + multiset(inputs)[a]
  {
    if inputs != [] {
      PendingFinish(inputs[1..], done, a);
      assert inputs == [inputs[0]] + inputs[1..];
    }
  }

  /** Not done, and waiting for nothing. */
  ghost predicate IsReady(g: Graph, done: set<string>, id: string) {
    id in g && id !in done && Pending(g[id], done) == 0
  }

  ghost predicate TakesReady(g: Graph, s: seq<string>, k: int)
    requires 0 <= k < |s|
  {
    IsReady(g, Elements(s[..k]), s[k])
  }

  /** Each element was ready when it was taken: any pop order, any tie-breaking. */
  ghost predicate IsSchedule(g: Graph, s: seq<string>) {
    forall k | 0 <= k < |s| :: TakesReady(g, s, k)
  }

  ghost predicate IsStuck(g: Graph, s: seq<string>) {
    forall id: string :: !IsReady(g, Elements(s), id)
  }

  lemma ScheduleNoDup(g: Graph, s: seq<string>)
    requires IsSchedule(g, s)
    ensures NoDup(s) && Elements(s) <= g.Keys && |s| <= |g|
  {
    forall i, j | 0 <= i < j < |s| ensures s[i] != s[j] {
      assert s[..j][i] == s[i];
      assert TakesReady(g, s, j);
    }
    forall x | x in Elements(s) ensures x in g.Keys {
      var k :| 0 <= k < |s| && s[k] == x;
      assert TakesReady(g, s, k);
    }
    NoDupCardinality(s);
    SubsetCardinality(Elements(s), g.Keys);
  }

  /** In a schedule an input always comes before the node that reads it. */
  lemma ScheduleOrdersInputs(g: Graph, s: seq<string>, i: nat, j: nat)
    requires IsSchedule(g, s)
    requires i < |s| && j < |s| && s[j] in g && s[i] in g[s[j]]
    ensures i < j
  {
    assert TakesReady(g, s, j);
    PendingZero(g[s[j]], Elements(s[..j]));
    var k :| 0 <= k < j && s[k] == s[i];
    ScheduleNoDup(g, s);
  }

  /** A walk takes ever later positions of a topological order. */
  lemma {:induction false} WalkAdvances(nodes: seq<Node>, order: seq<string>, walk: seq<string>, n: nat)
      returns (first: nat, last: nat)
    requires IsTopologicalOrder(nodes, order)
    requires IsWalk(nodes, walk)
    requires n + 1 < |walk|
    requires walk[0] in Ids(nodes)
    ensures first < last < |order| && order[first] == walk[0] && order[last] == walk[n + 1]
  {
    var mid: nat;
    if n == 0 {
      assert walk[0] in Elements(order);
      first :| 0 <= first < |order| && order[first] == walk[0];
      mid := first;
    } else {
      first, mid := WalkAdvances(nodes, order, walk, n - 1);
    }
    assert StepsAt(nodes, walk, n);
    assert walk[n + 1] in Elements(order);
    last :| 0 <= last < |order| && order[last] == walk[n + 1];
    assert Feeds(nodes, order[mid], order[last]);
  }

  lemma TopologicalOrderExcludesCycles(nodes: seq<Node>, order: seq<string>)
    requires IsTopologicalOrder(nodes, order)
    requires InputsKnown(nodes, Ids(nodes))
    ensures Acyclic(nodes)
  {
    forall walk: seq<string> ensures !IsCycle(nodes, walk) {
      if IsCycle(nodes, walk) {
        assert StepsAt(nodes, walk, 0);
        var first, last := WalkAdvances(nodes, order, walk, |walk| - 2);
      }
    }
  }

  /** A node that never becomes ready has an input that never does. */
  lemma StuckInput(g: Graph, s: seq<string>, b: string) returns (a: string)
    requires Closed(g) && IsStuck(g, s)
    requires b in g.Keys - Elements(s)
    ensures a in g[b] && a in g.Keys - Elements(s)
  {
    assert !IsReady(g, Elements(s), b);
    PendingZero(g[b], Elements(s));
    a :| a in g[b] && a !in Elements(s);
  }

  /** Following such inputs backwards gives walks of any length. */
  lemma {:induction false} StuckWalk(nodes: seq<Node>, s: seq<string>, start: string, n: nat)
      returns (walk: seq<string>)
    requires UniqueIds(nodes) && Closed(GraphOf(nodes)) && IsStuck(GraphOf(nodes), s)
    requires start in Ids(nodes) - Elements(s)
    ensures |walk| == n + 1
    ensures Elements(walk) <= Ids(nodes) - Elements(s)
    ensures IsWalk(nodes, walk)
  {
    if n == 0 {
      return [start];
    }
    var tail := StuckWalk(nodes, s, start, n - 1);
    assert tail[0] in Elements(tail);
    var a := StuckInput(GraphOf(nodes), s, tail[0]);
    var k :| 0 <= k < |nodes| && nodes[k].id == tail[0];
    assert Feeds(nodes, a, tail[0]);
    walk := [a] + tail;
    forall i | 0 <= i < n ensures StepsAt(nodes, walk, i) {
      if i > 0 { assert StepsAt(nodes, tail, i - 1); }
    }
  }

  lemma ClosedWhenKnown(nodes: seq<Node>)
    requires UniqueIds(nodes) && InputsKnown(nodes, Ids(nodes))
    ensures Closed(GraphOf(nodes))
  {
  }

  lemma ReturningWalkIsCycle(nodes: seq<Node>, walk: seq<string>, i: nat, j: nat)
    requires IsWalk(nodes, walk)
    requires i < j < |walk| && walk[i] == walk[j]
    ensures IsCycle(nodes, walk[i..j + 1])
  {
    var cycle := walk[i..j + 1];
    forall k | 0 <= k < |cycle| - 1 ensures StepsAt(nodes, cycle, k) {
      assert StepsAt(nodes, walk, i + k);
    }
  }

  /** Left-over nodes contain a cycle: a long enough backward walk repeats. */
  lemma StuckScheduleHasCycle(nodes: seq<Node>, s: seq<string>) returns (cycle: seq<string>)
    requires UniqueIds(nodes) && InputsKnown(nodes, Ids(nodes))
    requires IsStuck(GraphOf(nodes), s)
    requires !(Ids(nodes) <= Elements(s))
    ensures IsCycle(nodes, cycle)
  {
    ClosedWhenKnown(nodes);
    var start :| start in Ids(nodes) && start !in Elements(s);
    var walk := StuckWalk(nodes, s, start, |Ids(nodes)|);
    var i, j := Pigeonhole(walk, Ids(nodes));
    cycle := walk[i..j + 1];
    ReturningWalkIsCycle(nodes, walk, i, j);
  }

  lemma IdsCardinality(nodes: seq<Node>)
    requires UniqueIds(nodes)
    ensures |Ids(nodes)| == |nodes|
  {
    var names := seq(|nodes|, i requires 0 <= i < |nodes| => nodes[i].id);
    assert Elements(names) == Ids(nodes) by {
      forall i | 0 <= i < |nodes| ensures names[i] == nodes[i].id && nodes[i].id in Elements(names) {
        assert names[i] in names;
      }
    }
    NoDupCardinality(names);
  }

  lemma ScheduleSize(nodes: seq<Node>, s: seq<string>)
    requires UniqueIds(nodes) && IsSchedule(GraphOf(nodes), s)
    ensures |s| == |nodes| <==> Elements(s) == Ids(nodes)
    ensures Elements(s) <= Ids(nodes)
  {
    assert |s| == |Elements(s)| && Elements(s) <= Ids(nodes) by {
      ScheduleNoDup(GraphOf(nodes), s);
      NoDupCardinality(s);
    }
    IdsCardinality(nodes);
    SubsetCardinality(Elements(s), Ids(nodes));
  }

  /**
   The worklist theorem.  However the ready nodes are picked, once none is
   left the number taken is the number of nodes exactly when the input
   relation has no cycle, and then the order taken is topological.
   */
  lemma ScheduleDecidesAcyclicity(nodes: seq<Node>, s: seq<string>)
    requires UniqueIds(nodes) && InputsKnown(nodes, Ids(nodes))
    requires IsSchedule(GraphOf(nodes), s) && IsStuck(GraphOf(nodes), s)
    ensures |s| == |nodes| <==> Acyclic(nodes)
    ensures |s| == |nodes| ==> IsTopologicalOrder(nodes, s)
  {
    ScheduleSize(nodes, s);
    if |s| == |nodes| {
      FullScheduleIsTopological(nodes, s);
      TopologicalOrderExcludesCycles(nodes, s);
    } else {
      var cycle := StuckScheduleHasCycle(nodes, s);
    }
  }

  lemma FullScheduleIsTopological(nodes: seq<Node>, s: seq<string>)
    requires UniqueIds(nodes)
    requires IsSchedule(GraphOf(nodes), s) && Elements(s) == Ids(nodes)
    ensures IsTopologicalOrder(nodes, s)
  {
    ScheduleNoDup(GraphOf(nodes), s);
    forall i, j | 0 <= i < |s| && 0 <= j < |s| && Feeds(nodes, s[i], s[j]) ensures i < j {
      ScheduleOrdersInputs(GraphOf(nodes), s, i, j);
    }
  }

  /** Whatever one schedule takes, a stuck one has taken too. */
  lemma {:induction false} StuckScheduleCovers(g: Graph, s: seq<string>, t: seq<string>, n: nat)
    requires IsSchedule(g, s) && IsStuck(g, t)
    requires n <= |s|
    ensures Elements(s[..n]) <= Elements(t)
  {
    if n > 0 {
      StuckScheduleCovers(g, s, t, n - 1);
      assert TakesReady(g, s, n - 1);
      PendingZero(g[s[n - 1]], Elements(s[..n - 1]));
      PendingZero(g[s[n - 1]], Elements(t));
      assert !IsReady(g, Elements(t), s[n - 1]);
    }
  }

  /** Map order and pop order change neither the nodes visited nor how many. */
  lemma VisitIndependentOfOrder(g: Graph, s: seq<string>, t: seq<string>)
    requires IsSchedule(g, s) && IsStuck(g, s)
    requires IsSchedule(g, t) && IsStuck(g, t)
    ensures Elements(s) == Elements(t) && |s| == |t|
  {
    StuckScheduleCovers(g, s, t, |s|);
    StuckScheduleCovers(g, t, s, |t|);
    assert s[..|s|] == s && t[..|t|] == t;
    ScheduleNoDup(g, s);
    ScheduleNoDup(g, t);
    NoDupCardinality(s);
    NoDupCardinality(t);
  }

  // ---------------------------------------------------------------------
  // The counters and edge lists
  // ---------------------------------------------------------------------

  function Children(outgoing: Graph, id: string): seq<string> {
    if id in outgoing then outgoing[id] else []
  }

  /** `b` is listed as a child of `a` as often as `a` is an input of `b`. */
  ghost predicate SameCount(g: Graph, outgoing: Graph, a: string, b: string)
    requires b in g
  {
    multiset(Children(outgoing, a))[b] == multiset(g[b])[a]
  }

  /** The maps record exactly the edges of `g`, with multiplicity. */
  ghost predicate RecordsEdges(g: Graph, indegree: map<string, nat>, outgoing: Graph) {
    && indegree.Keys == g.Keys
    && (forall b | b in g :: indegree[b] == |g[b]|)
    && (forall a: string, b | b in g :: SameCount(g, outgoing, a, b))
    && (forall a: string, b | b in Children(outgoing, a) :: b in g)
  }

  lemma RecordEdge(g: Graph, indegree: map<string, nat>, outgoing: Graph, a: string, b: string)
    requires RecordsEdges(g, indegree, outgoing)
    requires b in g
    ensures b in indegree
    ensures RecordsEdges(g[b := g[b] + [a]], indegree[b := indegree[b] + 1],
                         outgoing[a := Children(outgoing, a) + [b]])
  {
    var g' := g[b := g[b] + [a]];
    var outgoing' := outgoing[a := Children(outgoing, a) + [b]];
    forall x: string, y | y in g' ensures SameCount(g', outgoing', x, y) {
      assert SameCount(g, outgoing, x, y);
    }
    forall x: string, y | y in Children(outgoing', x) ensures y in g' {
      assert y in Children(outgoing, x) || y == b;
    }
  }

  /** The edges of the nodes before `i` and of the first `j` inputs of node `i`. */
  ghost function ReadSoFar(nodes: seq<Node>, i: nat, j: nat): (g: Graph)
    requires UniqueIds(nodes)
    requires i <= |nodes| && (i < |nodes| ==> j <= |nodes[i].inputs|)
  {
    map id | id in Ids(nodes) ::
      var k := IndexOf(nodes, id);
      if k < i then nodes[k].inputs else if k == i then nodes[k].inputs[..j] else []
  }

  lemma ReadInput(nodes: seq<Node>, i: nat, j: nat)
    requires UniqueIds(nodes)
    requires i < |nodes| && j < |nodes[i].inputs|
    ensures nodes[i].id in ReadSoFar(nodes, i, j)
    ensures ReadSoFar(nodes, i, j + 1)
         == ReadSoFar(nodes, i, j)[nodes[i].id := ReadSoFar(nodes, i, j)[nodes[i].id] + [nodes[i].inputs[j]]]
  {
    var b := nodes[i].id;
    assert b in Ids(nodes);
    assert IndexOf(nodes, b) == i;
    assert nodes[i].inputs[..j + 1] == nodes[i].inputs[..j] + [nodes[i].inputs[j]];
  }

  lemma ReadNode(nodes: seq<Node>, i: nat)
    requires UniqueIds(nodes) && i < |nodes|
    ensures ReadSoFar(nodes, i, |nodes[i].inputs|) == ReadSoFar(nodes, i + 1, 0)
  {
    assert nodes[i].inputs[..|nodes[i].inputs|] == nodes[i].inputs;
  }

  lemma ReadNothing(nodes: seq<Node>, indegree: map<string, nat>)
    requires UniqueIds(nodes)
    requires indegree == map id | id in Ids(nodes) :: 0
    ensures RecordsEdges(ReadSoFar(nodes, 0, 0), indegree, map[])
  {
  }

  lemma ReadEverything(nodes: seq<Node>)
    requires UniqueIds(nodes)
    ensures ReadSoFar(nodes, |nodes|, 0) == GraphOf(nodes)
  {
  }

  lemma KnownSoFar(nodes: seq<Node>, i: nat, known: set<string>)
    requires i < |nodes| && InputsKnown(nodes[..i], known)
    requires forall k | 0 <= k < |nodes[i].inputs| :: nodes[i].inputs[k] in known
    ensures InputsKnown(nodes[..i + 1], known)
  {
  }

  lemma UnknownInputFound(nodes: seq<Node>, i: nat, j: nat)
    requires i < |nodes| && j < |nodes[i].inputs|
    requires InputsKnown(nodes[..i], Ids(nodes))
    requires forall k | 0 <= k < j :: nodes[i].inputs[k] in Ids(nodes)
    requires nodes[i].inputs[j] !in Ids(nodes)
    ensures FirstUnknownInput(nodes, i, j)
    ensures !InputsKnown(nodes, Ids(nodes))
  {
  }

  /** The inner loop over the inputs of node `i`; `bad` is the first unknown one. */
  method ReadInputs(nodes: seq<Node>, i: nat, nodeIds: set<string>,
                    indegree0: map<string, nat>, outgoing0: map<string, seq<string>>)
      returns (bad: Option<nat>, indegree: map<string, nat>, outgoing: map<string, seq<string>>)
    requires UniqueIds(nodes) && i < |nodes|
    requires RecordsEdges(ReadSoFar(nodes, i, 0), indegree0, outgoing0)
    ensures bad.None? ==> forall k | 0 <= k < |nodes[i].inputs| :: nodes[i].inputs[k] in nodeIds
    ensures bad.None? ==> RecordsEdges(ReadSoFar(nodes, i + 1, 0), indegree, outgoing)
    ensures bad.Some? ==> bad.value < |nodes[i].inputs| && nodes[i].inputs[bad.value] !in nodeIds
    ensures bad.Some? ==> forall k | 0 <= k < bad.value :: nodes[i].inputs[k] in nodeIds
  {
    hide RecordsEdges, ReadSoFar, Children, Ids;
    var node := nodes[i];
    indegree, outgoing := indegree0, outgoing0;
    for j := 0 to |node.inputs|
      invariant forall k | 0 <= k < j :: node.inputs[k] in nodeIds
      invariant RecordsEdges(ReadSoFar(nodes, i, j), indegree, outgoing)
    {
      var input := node.inputs[j];
      if input !in nodeIds {
        return Some(j), indegree, outgoing;
      }
      ReadInput(nodes, i, j);
      RecordEdge(ReadSoFar(nodes, i, j), indegree, outgoing, input, node.id);
      indegree := indegree[node.id := indegree[node.id] + 1];
      outgoing := outgoing[input := Children(outgoing, input) + [node.id]];
    }
    ReadNode(nodes, i);
    bad := None;
  }

  method ReadEdges(nodes: seq<Node>, nodeIds: set<string>)
      returns (defect: Option<Defect>, indegree: map<string, nat>, outgoing: map<string, seq<string>>)
    requires UniqueIds(nodes) && nodeIds == Ids(nodes)
    ensures defect.None? <==> InputsKnown(nodes, Ids(nodes))
    ensures defect.None? ==> RecordsEdges(GraphOf(nodes), indegree, outgoing)
    ensures defect.Some? ==>
      exists i: nat, j: nat :: FirstUnknownInput(nodes, i, j)
                               && defect == Some(UnknownInput(nodes[i].id, nodes[i].inputs[j]))
  {
    indegree := map id | id in nodeIds :: 0;
    outgoing := map[];
    ReadNothing(nodes, indegree);
    assert nodes[..0] == [];
    for i := 0 to |nodes|
      invariant InputsKnown(nodes[..i], nodeIds)
      invariant RecordsEdges(ReadSoFar(nodes, i, 0), indegree, outgoing)
    {
      var bad: Option<nat>;
      bad, indegree, outgoing := ReadInputs(nodes, i, nodeIds, indegree, outgoing);
      if bad.Some? {
        UnknownInputFound(nodes, i, bad.value);
        return Some(UnknownInput(nodes[i].id, nodes[i].inputs[bad.value])), indegree, outgoing;
      }
      KnownSoFar(nodes, i, nodeIds);
    }
    assert nodes[..|nodes|] == nodes;
    ReadEverything(nodes);
    defect := None;
  }

  // ---------------------------------------------------------------------
  // The worklist
  // ---------------------------------------------------------------------

  /**
   Between pops: each counter is the number of input occurrences not yet
   visited, and `ready` holds exactly the ready nodes, each once.
   */
  ghost predicate WorklistInvariant(g: Graph, indegree: map<string, nat>, ready: seq<string>, popped: seq<string>) {
    && indegree.Keys == g.Keys
    && (forall b | b in g :: indegree[b] == Pending(g[b], Elements(popped)))
    && NoDup(ready)
    && (forall b: string :: b in ready <==> IsReady(g, Elements(popped), b))
    && IsSchedule(g, popped)
  }

  /** While the children of the last pop are being paid off, `rest` are still owed. */
  ghost predicate PayingOff(
    g: Graph, indegree: map<string, nat>, ready: seq<string>, popped: seq<string>, rest: seq<string>)
  {
    && indegree.Keys == g.Keys
    && (forall b | b in rest :: b in g && b !in popped)
    && (forall b | b in g :: indegree[b] == Pending(g[b], Elements(popped)) + multiset(rest)[b])
    && NoDup(ready)
    && (forall b: string :: b in ready <==> b in g && b !in popped && indegree[b] == 0)
    && IsSchedule(g, popped)
  }

  method InitialReady(indegree: map<string, nat>) returns (ready: seq<string>)
    ensures NoDup(ready)
    ensures forall b: string :: b in ready <==> b in indegree && indegree[b] == 0
  {
    ready := [];
    var rest := indegree.Keys;
    while rest != {}
      invariant rest <= indegree.Keys
      invariant NoDup(ready)
      invariant forall b: string :: b in ready <==> b in indegree && b !in rest && indegree[b] == 0
      decreases |rest|
    {
      var id :| id in rest;
      rest := rest - {id};
      if indegree[id] == 0 {
        ready := ready + [id];
      }
    }
  }

  lemma StartPaying(g: Graph, indegree: map<string, nat>, outgoing: Graph, ready: seq<string>,
                    popped: seq<string>, id: string)
    requires WorklistInvariant(g, indegree, ready + [id], popped)
    requires forall b | b in g :: SameCount(g, outgoing, id, b)
    requires forall b | b in Children(outgoing, id) :: b in g
    ensures PayingOff(g, indegree, ready, popped + [id], Children(outgoing, id))
  {
    var done := Elements(popped);
    var popped' := popped + [id];
    assert id in ready + [id];
    assert IsReady(g, done, id);
    assert Elements(popped') == done + {id};
    forall b | b in g
      ensures indegree[b] == Pending(g[b], Elements(popped')) + multiset(Children(outgoing, id))[b]
    {
      assert SameCount(g, outgoing, id, b);
      PendingFinish(g[b], done, id);
    }
    forall b | b in Children(outgoing, id) ensures b !in popped' {
      assert SameCount(g, outgoing, id, b);
      assert multiset(g[b])[id] > 0;
      assert id in g[b];
      if b in popped' {
        PendingZero(g[b], done);
        ReadyInputsDone(g, popped, id, b);
      }
    }
    ExtendSchedule(g, popped, id);
    ReadyAfterPop(g, indegree, ready, popped, id);
  }

  lemma ReadyAfterPop(g: Graph, indegree: map<string, nat>, ready: seq<string>, popped: seq<string>, id: string)
    requires WorklistInvariant(g, indegree, ready + [id], popped)
    ensures NoDup(ready)
    ensures forall b: string :: b in ready <==> b in g && b !in popped + [id] && indegree[b] == 0
  {
    var all := ready + [id];
    assert all[|ready|] == id;
    forall i, j | 0 <= i < j < |ready| ensures ready[i] != ready[j] {
      assert all[i] != all[j];
    }
    forall b: string ensures b in ready <==> b in g && b !in popped + [id] && indegree[b] == 0 {
      if b in ready {
        var i :| 0 <= i < |ready| && ready[i] == b;
        assert all[i] == b;
      }
      assert b in all <==> b in ready || b == id;
      assert b in all <==> IsReady(g, Elements(popped), b);
    }
  }

  /** No node already taken, nor the one being taken, reads the one being taken. */
  lemma ReadyInputsDone(g: Graph, popped: seq<string>, id: string, b: string)
    requires IsSchedule(g, popped) && IsReady(g, Elements(popped), id)
    requires b in g && id in g[b]
    ensures b !in popped && b != id
  {
    PendingZero(g[b], Elements(popped));
    if b in popped {
      var k :| 0 <= k < |popped| && popped[k] == b;
      assert TakesReady(g, popped, k);
      PendingZero(g[b], Elements(popped[..k]));
    }
  }

  lemma ExtendSchedule(g: Graph, popped: seq<string>, id: string)
    requires IsSchedule(g, popped) && IsReady(g, Elements(popped), id)
    ensures IsSchedule(g, popped + [id])
  {
    var s := popped + [id];
    forall k | 0 <= k < |s| ensures TakesReady(g, s, k) {
      if k < |popped| {
        assert TakesReady(g, popped, k);
        assert s[..k] == popped[..k];
      } else {
        assert s[..k] == popped;
      }
    }
  }

  /** Paying off one child; the counter it decrements is never zero. */
  lemma PayOne(g: Graph, indegree: map<string, nat>, ready: seq<string>, popped: seq<string>, rest: seq<string>)
    requires PayingOff(g, indegree, ready, popped, rest) && rest != []
    ensures rest[0] in indegree && indegree[rest[0]] > 0
    ensures
      var child := rest[0];
      var indegree' := indegree[child := indegree[child] - 1];
      var ready' := if indegree'[child] == 0 then ready + [child] else ready;
      PayingOff(g, indegree', ready', popped, rest[1..])
  {
    hide Pending, IsSchedule;
    var child := rest[0];
    assert rest == [child] + rest[1..];
    assert child in rest;
    assert multiset(rest)[child] > 0;
    assert multiset(rest) == multiset{child} + multiset(rest[1..]);
    assert child !in ready;
  }

  lemma StartDraining(g: Graph, indegree: map<string, nat>, outgoing: Graph, ready: seq<string>)
    requires RecordsEdges(g, indegree, outgoing)
    requires NoDup(ready)
    requires forall b: string :: b in ready <==> b in indegree && indegree[b] == 0
    ensures WorklistInvariant(g, indegree, ready, [])
  {
    assert Elements<string>([]) == {};
    forall b | b in g ensures Pending(g[b], {}) == |g[b]| {
      PendingStart(g[b]);
    }
  }

  lemma DonePaying(g: Graph, indegree: map<string, nat>, ready: seq<string>, popped: seq<string>)
    requires PayingOff(g, indegree, ready, popped, [])
    ensures WorklistInvariant(g, indegree, ready, popped)
  {
  }

  /** The inner loop: pay off each child of the node just visited. */
  method PayChildren(ghost g: Graph, indegree0: map<string, nat>, ready0: seq<string>,
                     ghost popped: seq<string>, children: seq<string>)
      returns (indegree: map<string, nat>, ready: seq<string>)
    requires PayingOff(g, indegree0, ready0, popped, children)
    ensures WorklistInvariant(g, indegree, ready, popped)
  {
    hide PayingOff, WorklistInvariant;
    indegree, ready := indegree0, ready0;
    for k := 0 to |children|
      invariant PayingOff(g, indegree, ready, popped, children[k..])
    {
      var child := children[k];
      PayOne(g, indegree, ready, popped, children[k..]);
      assert children[k..][0] == child && children[k..][1..] == children[k + 1..];
      indegree := indegree[child := indegree[child] - 1];
      if indegree[child] == 0 {
        ready := ready + [child];
      }
    }
    assert children[|children|..] == [];
    DonePaying(g, indegree, ready, popped);
  }

  /** The drain loop; `popped` is the order in which nodes were visited. */
  method Drain(ghost g: Graph, indegree0: map<string, nat>, outgoing: map<string, seq<string>>)
      returns (visited: nat, ghost popped: seq<string>)
    requires RecordsEdges(g, indegree0, outgoing)
    ensures visited == |popped|
    ensures IsSchedule(g, popped) && IsStuck(g, popped)
  {
    var indegree := indegree0;
    var ready := InitialReady(indegree);
    StartDraining(g, indegree, outgoing, ready);
    visited, popped := 0, [];
    while ready != []
      invariant visited == |popped|
      invariant WorklistInvariant(g, indegree, ready, popped)
      decreases |g| - |popped|
    {
      var id := ready[|ready| - 1];
      assert ready == ready[..|ready| - 1] + [id];
      ready := ready[..|ready| - 1];
      StartPaying(g, indegree, outgoing, ready, popped, id);
      popped := popped + [id];
      visited := visited + 1;
      ScheduleNoDup(g, popped);
      indegree, ready := PayChildren(g, indegree, ready, popped, Children(outgoing, id));
    }
    forall id: string ensures !IsReady(g, Elements(popped), id) {
      assert id !in ready;
    }
  }

  // ---------------------------------------------------------------------
  // The whole validation
  // ---------------------------------------------------------------------

  method CollectIds(ir: QueryIr) returns (defect: Option<Defect>, nodeIds: set<string>)
    requires HeaderSound(ir)
    ensures defect.None? <==> IdsSound(ir.nodes)
    ensures defect.None? ==> nodeIds == Ids(ir.nodes)
    ensures defect.Some? ==> Diagnoses(ir, defect.value)
  {
    defect := None;
    nodeIds := {};
    for i := 0 to |ir.nodes|
      invariant IdsSound(ir.nodes[..i])
      invariant nodeIds == Ids(ir.nodes[..i])
    {
      var id := ir.nodes[i].id;
      if !IsIdentifier(id) {
        return Some(InvalidIdentifier("query node", id)), nodeIds;
      }
      if id in nodeIds {
        var k :| 0 <= k < i && ir.nodes[..i][k].id == id;
        assert ir.nodes[k].id == ir.nodes[i].id;
        return Some(DuplicateNode(id)), nodeIds;
      }
      nodeIds := nodeIds + {id};
      IdsGrow(ir.nodes, i);
    }
    assert ir.nodes[..|ir.nodes|] == ir.nodes;
  }

  lemma IdsGrow(nodes: seq<Node>, i: nat)
    requires i < |nodes|
    ensures Ids(nodes[..i + 1]) == Ids(nodes[..i]) + {nodes[i].id}
  {
  }

  method CheckParameters(ir: QueryIr) returns (defect: Option<Defect>)
    requires NamesSound(ir)
    ensures defect.None? <==> PreludeSound(ir)
    ensures defect.Some? ==> Diagnoses(ir, defect.value)
  {
    var parameters := ir.parameterTypes;
    for i := 0 to |parameters|
      invariant ParametersNamed(parameters[..i])
    {
      if !IsIdentifier(parameters[i].0) {
        return Some(InvalidIdentifier("parameter", parameters[i].0));
      }
    }
    assert parameters[..|parameters|] == parameters;
    if exists i | 0 <= i < |parameters| :: parameters[i].1 == "" {
      return Some(EmptyParameterType);
    }
    return None;
  }

  /**
   `QueryIrV2::validate`.  A plan is accepted exactly when it is sound, a
   rejection names the first defect, and on acceptance the visiting order is
   topological.
   */
  method Validate(ir: QueryIr) returns (verdict: Result<(), Defect>, ghost popped: seq<string>)
    ensures verdict.Ok? <==> SoundPlan(ir)
    ensures verdict.Err? ==> Diagnoses(ir, verdict.error)
    ensures verdict.Ok? ==> IsTopologicalOrder(ir.nodes, popped)
  {
    popped := [];
    if ir.contractVersion != QUERY_IR_CONTRACT_V2 {
      return Err(UnsupportedContract(ir.contractVersion)), popped;
    }
    if |ir.nodes| == 0 || |ir.nodes| > MAX_NODES {
      return Err(NodeCountOutOfRange), popped;
    }
    if !IsIdentifier(ir.root) {
      return Err(InvalidIdentifier("root", ir.root)), popped;
    }
    var defect, nodeIds := CollectIds(ir);
    if defect.Some? {
      return Err(defect.value), popped;
    }
    if ir.root !in nodeIds {
      return Err(MissingRoot(ir.root)), popped;
    }
    defect := CheckParameters(ir);
    if defect.Some? {
      return Err(defect.value), popped;
    }
    var unknown, indegree, outgoing := ReadEdges(ir.nodes, nodeIds);
    if unknown.Some? {
      return Err(unknown.value), popped;
    }
    var visited: nat;
    visited, popped := Drain(GraphOf(ir.nodes), indegree, outgoing);
    ScheduleDecidesAcyclicity(ir.nodes, popped);
    if visited != |ir.nodes| {
      return Err(ContainsCycle), popped;
    }
    return Ok(()), popped;
  }

  // ---------------------------------------------------------------------
  // The diagnosis is determined
  // ---------------------------------------------------------------------

  ghost predicate FirstBadId(nodes: seq<Node>, i: int) {
    && 0 <= i < |nodes|
    && IdsSound(nodes[..i])
    && (!IsIdentifier(nodes[i].id) || nodes[i].id in Ids(nodes[..i]))
  }

  lemma FirstBadIdUnique(nodes: seq<Node>, i: int, j: int)
    requires FirstBadId(nodes, i) && FirstBadId(nodes, j)
    ensures i == j
  {
  }

  lemma FirstUnknownInputUnique(nodes: seq<Node>, i: nat, j: nat, k: nat, l: nat)
    requires FirstUnknownInput(nodes, i, j) && FirstUnknownInput(nodes, k, l)
    ensures i == k && j == l
  {
  }

  /** At most one defect is the first one, and a sound plan has none. */
  lemma DiagnosisUnique(ir: QueryIr, d: Defect, e: Defect)
    requires Diagnoses(ir, d)
    ensures !SoundPlan(ir)
    ensures Diagnoses(ir, e) ==> d == e
  {
    Stages(ir, d);
    if Diagnoses(ir, e) {
      Stages(ir, e);
      SameStage(ir, d, e);
    }
  }

  /** The check that finds the defect. */
  function Stage(d: Defect): nat {
    match d
    case UnsupportedContract(_) => 0
    case NodeCountOutOfRange => 1
    case InvalidIdentifier(kind, _) => if kind == "root" then 2 else if kind == "query node" then 3 else 5
    case DuplicateNode(_) => 3
    case MissingRoot(_) => 4
    case EmptyParameterType => 6
    case UnknownInput(_, _) => 7
    case ContainsCycle => 8
  }

  /** The plan passes every check before stage `n`. */
  ghost predicate PassesBefore(ir: QueryIr, n: nat) {
    && (n > 0 ==> ir.contractVersion == QUERY_IR_CONTRACT_V2)
    && (n > 1 ==> 1 <= |ir.nodes| <= MAX_NODES)
    && (n > 2 ==> IsIdentifier(ir.root))
    && (n > 3 ==> IdsSound(ir.nodes))
    && (n > 4 ==> ir.root in Ids(ir.nodes))
    && (n > 5 ==> ParametersNamed(ir.parameterTypes))
    && (n > 6 ==> ParametersTyped(ir.parameterTypes))
    && (n > 7 ==> InputsKnown(ir.nodes, Ids(ir.nodes)))
    && (n > 8 ==> Acyclic(ir.nodes))
  }

  lemma Stages(ir: QueryIr, d: Defect)
    requires Diagnoses(ir, d)
    ensures PassesBefore(ir, Stage(d)) && !PassesBefore(ir, Stage(d) + 1)
  {
  }

  lemma NamedPrefix(parameters: seq<(string, string)>, i: int, j: int)
    requires 0 <= i < |parameters| && 0 <= j <= |parameters|
    requires !IsIdentifier(parameters[i].0) && ParametersNamed(parameters[..j])
    ensures j <= i
  {
  }

  lemma SameStage(ir: QueryIr, d: Defect, e: Defect)
    requires Diagnoses(ir, d) && Diagnoses(ir, e)
    requires PassesBefore(ir, Stage(d)) && !PassesBefore(ir, Stage(d) + 1)
    requires PassesBefore(ir, Stage(e)) && !PassesBefore(ir, Stage(e) + 1)
    ensures d == e
  {
    assert Stage(d) == Stage(e);
    if Stage(d) == 3 {
      var i, j := BadIdOf(ir, d), BadIdOf(ir, e);
      FirstBadIdUnique(ir.nodes, i, j);
    } else if Stage(d) == 5 {
      var i, j := BadParameterOf(ir, d), BadParameterOf(ir, e);
      NamedPrefix(ir.parameterTypes, i, j);
      NamedPrefix(ir.parameterTypes, j, i);
    } else if Stage(d) == 7 {
      var i: nat, j: nat :| FirstUnknownInput(ir.nodes, i, j)
                            && ir.nodes[i].id == d.node && ir.nodes[i].inputs[j] == d.input;
      var k: nat, l: nat :| FirstUnknownInput(ir.nodes, k, l)
                            && ir.nodes[k].id == e.node && ir.nodes[k].inputs[l] == e.input;
      FirstUnknownInputUnique(ir.nodes, i, j, k, l);
    }
  }

  ghost function BadIdOf(ir: QueryIr, d: Defect): (i: int)
    requires Diagnoses(ir, d) && Stage(d) == 3
    ensures FirstBadId(ir.nodes, i)
    ensures d == if IsIdentifier(ir.nodes[i].id) then DuplicateNode(ir.nodes[i].id)
                 else InvalidIdentifier("query node", ir.nodes[i].id)
  {
    if d.DuplicateNode? then
      var i :| 0 <= i < |ir.nodes| && ir.nodes[i].id == d.id && IdsSound(ir.nodes[..i]) && d.id in Ids(ir.nodes[..i]);
      i
    else
      var i :| 0 <= i < |ir.nodes| && ir.nodes[i].id == d.value && IdsSound(ir.nodes[..i]);
      i
  }

  ghost function BadParameterOf(ir: QueryIr, d: Defect): (i: int)
    requires Diagnoses(ir, d) && Stage(d) == 5
    ensures 0 <= i < |ir.parameterTypes| && ParametersNamed(ir.parameterTypes[..i])
    ensures !IsIdentifier(ir.parameterTypes[i].0)
    ensures d == InvalidIdentifier("parameter", ir.parameterTypes[i].0)
  {
    var i :| 0 <= i < |ir.parameterTypes| && ir.parameterTypes[i].0 == d.value && ParametersNamed(ir.parameterTypes[..i]);
    i
  }

  // ---------------------------------------------------------------------
  // Plans as lowering names them
  // ---------------------------------------------------------------------

  function Numbered(i: nat): string {
    "h" + Show(i)
  }

  /** `n` nodes `h0`, `h1`, ..., each reading from the one before. */
  function Chain(n: nat): (nodes: seq<Node>)
    ensures |nodes| == n
  {
    seq(n, i requires 0 <= i < n => Node(Numbered(i), if i == 0 then [] else [Numbered(i - 1)]))
  }

  function Plan(nodes: seq<Node>, root: nat): QueryIr {
    QueryIr("query-ir.v2", nodes, Numbered(root), [])
  }

  lemma NumberedIsIdentifier(i: nat)
    ensures IsIdentifier(Numbered(i))
  {
    IdentifierGrows("h", 'h');
    DigitsKeepIdentifier("h", Show(i));
  }

  lemma {:induction false} DigitsKeepIdentifier(s: string, digits: string)
    requires IsIdentifier(s) && forall i | 0 <= i < |digits| :: '0' <= digits[i] <= '9'
    ensures IsIdentifier(s + digits)
  {
    if digits == "" {
      assert s + digits == s;
    } else {
      var last := |digits| - 1;
      DigitsKeepIdentifier(s, digits[..last]);
      IdentifierGrows(s + digits[..last], digits[last]);
      assert s + digits == s + digits[..last] + [digits[last]];
    }
  }

  lemma NumberedDistinct(i: nat, j: nat)
    requires Numbered(i) == Numbered(j)
    ensures i == j
  {
    assert Numbered(i)[1..] == Show(i) && Numbered(j)[1..] == Show(j);
    ParseShow(i);
    ParseShow(j);
  }

  function Numbers(n: nat): (ids: seq<string>)
    ensures |ids| == n && forall i | 0 <= i < n :: ids[i] == Numbered(i)
  {
    seq(n, i requires 0 <= i < n => Numbered(i))
  }

  lemma NumbersNoDup(n: nat)
    ensures NoDup(Numbers(n))
  {
    hide Numbered;
    forall i, j | 0 <= i < j < n ensures Numbers(n)[i] != Numbers(n)[j] {
      if Numbered(i) == Numbered(j) { NumberedDistinct(i, j); }
    }
  }

  ghost predicate IsNumbered(nodes: seq<Node>) {
    forall i | 0 <= i < |nodes| :: nodes[i].id == Numbered(i)
  }

  lemma NumberedIdsSound(nodes: seq<Node>)
    requires IsNumbered(nodes)
    ensures IdsSound(nodes)
  {
    hide Numbered, IsIdentifier;
    forall i | 0 <= i < |nodes| ensures IsIdentifier(nodes[i].id) {
      NumberedIsIdentifier(i);
    }
    forall i, j | 0 <= i < j < |nodes| ensures nodes[i].id != nodes[j].id {
      if Numbered(i) == Numbered(j) { NumberedDistinct(i, j); }
    }
  }

  lemma NumberedIds(nodes: seq<Node>)
    requires IsNumbered(nodes)
    ensures Ids(nodes) == Elements(Numbers(|nodes|))
  {
    hide Numbered;
    var order := Numbers(|nodes|);
    forall id | id in Ids(nodes) ensures id in order {
      var k :| 0 <= k < |nodes| && nodes[k].id == id;
      assert order[k] == id;
    }
    forall id | id in order ensures id in Ids(nodes) {
      var k :| 0 <= k < |nodes| && order[k] == id;
      assert nodes[k].id == id;
    }
  }

  lemma NumberedKnown(nodes: seq<Node>, i: nat)
    requires IsNumbered(nodes) && i < |nodes|
    ensures Numbered(i) in Ids(nodes)
  {
    hide Numbered;
    assert nodes[i].id == Numbered(i);
  }

  lemma ChainInputsKnown(n: nat)
    ensures InputsKnown(Chain(n), Ids(Chain(n)))
  {
    hide Numbered, Ids, Chain;
    ChainNumbered(n);
    forall i, a | 0 <= i < n && a in Chain(n)[i].inputs ensures a in Ids(Chain(n)) {
      ChainNode(n, i);
      NumberedKnown(Chain(n), i - 1);
    }
  }

  lemma ChainNode(n: nat, i: nat)
    requires i < n
    ensures Chain(n)[i] == Node(Numbered(i), if i == 0 then [] else [Numbered(i - 1)])
  {
  }

  lemma ChainFeeds(n: nat, i: nat, j: nat)
    requires i < n && j < n && Feeds(Chain(n), Numbered(i), Numbered(j))
    ensures i < j
  {
    hide Numbered;
    var nodes := Chain(n);
    var k :| 0 <= k < n && nodes[k].id == Numbered(j) && Numbered(i) in nodes[k].inputs;
    NumberedDistinct(k, j);
    if k > 0 { NumberedDistinct(i, k - 1); }
  }

  lemma ChainAcyclic(n: nat)
    ensures Acyclic(Chain(n))
  {
    hide Numbered, Numbers, Chain, Ids, Feeds, Acyclic, InputsKnown, Elements, NoDup;
    var nodes, order := Chain(n), Numbers(n);
    ChainNumbered(n);
    NumberedIds(nodes);
    NumbersNoDup(n);
    ChainInputsKnown(n);
    forall i, j | 0 <= i < n && 0 <= j < n && Feeds(nodes, order[i], order[j]) ensures i < j {
      ChainFeeds(n, i, j);
    }
    TopologicalOrderExcludesCycles(nodes, order);
  }

  lemma ChainNumbered(n: nat)
    ensures IsNumbered(Chain(n))
  {
  }

  /** A chain is accepted for every length up to ten thousand and for none beyond. */
  lemma ChainAccepted(n: nat, root: nat)
    requires root < n || n == 0
    ensures SoundPlan(Plan(Chain(n), root)) <==> 1 <= n <= 10000
    ensures n == 0 || n > 10000 ==> Diagnoses(Plan(Chain(n), root), NodeCountOutOfRange)
  {
    hide Numbered, IsIdentifier, Acyclic, IdsSound, InputsKnown, Chain, Ids;
    ChainNumbered(n);
    NumberedIdsSound(Chain(n));
    if root < n { NumberedKnown(Chain(n), root); }
    ChainInputsKnown(n);
    ChainAcyclic(n);
    NumberedIsIdentifier(root);
  }

  /** The same nodes closed to a ring: the first one reads from the last. */
  function Ring(n: nat): (nodes: seq<Node>)
    requires n > 0
    ensures |nodes| == n
  {
    seq(n, i requires 0 <= i < n => Node(Numbered(i), [Numbered(if i == 0 then n - 1 else i - 1)]))
  }

  /** A ring of any admitted length is rejected as cyclic, a self-loop included. */
  lemma RingRejected(n: nat, root: nat)
    requires root < n <= 10000
    ensures Diagnoses(Plan(Ring(n), root), ContainsCycle)
  {
    hide Numbered, IsIdentifier, Acyclic, IdsSound, InputsKnown, Ring, Ids;
    RingNumbered(n);
    NumberedIdsSound(Ring(n));
    NumberedKnown(Ring(n), root);
    NumberedIsIdentifier(root);
    RingInputsKnown(n);
    RingCycle(n);
  }

  lemma RingNumbered(n: nat)
    requires n > 0
    ensures IsNumbered(Ring(n))
  {
  }

  lemma RingInputsKnown(n: nat)
    requires n > 0
    ensures InputsKnown(Ring(n), Ids(Ring(n)))
  {
    hide Numbered, Ids, Ring;
    RingNumbered(n);
    forall i, a | 0 <= i < n && a in Ring(n)[i].inputs ensures a in Ids(Ring(n)) {
      RingNode(n, i);
      NumberedKnown(Ring(n), if i == 0 then n - 1 else i - 1);
    }
  }

  lemma RingNode(n: nat, i: nat)
    requires i < n
    ensures Ring(n)[i] == Node(Numbered(i), [Numbered(if i == 0 then n - 1 else i - 1)])
  {
  }

  lemma RingCycle(n: nat)
    requires n > 0
    ensures !Acyclic(Ring(n))
  {
    hide Numbered, Ring;
    var nodes := Ring(n);
    var walk := Numbers(n) + [Numbered(0)];
    forall i | 0 <= i < n ensures StepsAt(nodes, walk, i) {
      var b := if i + 1 == n then 0 else i + 1;
      RingNode(n, b);
      assert nodes[b].id == walk[i + 1] && walk[i] in nodes[b].inputs;
    }
    assert IsCycle(nodes, walk);
  }
}
