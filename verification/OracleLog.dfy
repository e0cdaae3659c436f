/**
 What the oracle answers, read off the operation log alone: no versions, no
 edges and no markers are kept here.  The oracle's state machine is proved to
 give these answers.
 */
module OracleLog {
  import opened Prelude
  import opened Json
  import opened Oracle

  // ---------------------------------------------------------------------
  // Reading the log
  // ---------------------------------------------------------------------

  /** The commits an operation takes. */
  function Cost(op: Operation): nat {
    match op
    case AddNode(_, _, _) => 1
    case AddEdge(_, _, _) => 1
    case Supersede(_, _) => 2
    case _ => 0
  }

  function Commits(ops: seq<Operation>): nat {
    if ops == [] then 0 else Commits(ops[..|ops| - 1]) + Cost(ops[|ops| - 1])
  }

  /** No valid time is asked, or `from` is not after it. */
  predicate BegunBy(from: string, asOf: Option<string>) {
    asOf == None || asOf == Some(from) || StringLess(from, asOf.value)
  }

  ghost predicate Introduced(ops: seq<Operation>, id: string) {
    exists i | 0 <= i < |ops| :: ops[i].AddNode? && ops[i].id == id
  }

  /** A version begun by commit `began`, for times from `from`, and closed by commit `closed` if at all. */
  predicate Shows(began: nat, from: string, closed: Option<nat>, tx: nat, asOf: Option<string>) {
    && began <= tx && BegunBy(from, asOf)
    && (closed.Some? && closed.value <= tx && asOf.Some? ==> StringLess(asOf.value, "2099-01-01T00:00:00Z"))
  }

  function WindowAt(closed: Option<nat>, tx: nat): Window {
    if closed.Some? && closed.value <= tx then Closed else Open
  }

  /**
   The belief about `id`, from the newest operation backwards.  `closed` is the
   commit that closed the version sought next, known from the supersede after it.
   */
  function Told(ops: seq<Operation>, id: string, tx: nat, asOf: Option<string>, closed: Option<nat>): Option<Belief> {
    if ops == [] then None
    else
      var front, last := ops[..|ops| - 1], ops[|ops| - 1];
      if last.AddNode? && last.id == id then
        if Shows(Commits(front) + 1, last.validFrom, closed, tx, asOf)
        then Some(Belief(if last.props == None then JObject([]) else last.props.value, WindowAt(closed, tx)))
        else Told(front, id, tx, asOf, None)
      else if last.Supersede? && last.id == id then
        if Shows(Commits(front) + 2, "2026-10-04T00:00:00Z", closed, tx, asOf)
        then Some(Belief(last.newProps, WindowAt(closed, tx)))
        else Told(front, id, tx, asOf, Some(Commits(front) + 1))
      else Told(front, id, tx, asOf, closed)
  }

  /** An edge from hub to doc, logged by commit `tx`, for times up to the one asked. */
  ghost predicate HubEdgeLogged(ops: seq<Operation>, tx: nat, asOf: Option<string>) {
    exists i | 0 <= i < |ops| ::
      && ops[i].AddEdge? && ops[i].source == "hub" && ops[i].target == "doc"
      && Commits(ops[..i + 1]) <= tx && BegunBy(ops[i].validFrom, asOf)
  }

  /** The commit of the last marker of that name. */
  function LastMark(ops: seq<Operation>, name: string): Option<nat> {
    if ops == [] then None
    else
      var front, last := ops[..|ops| - 1], ops[|ops| - 1];
      if last == Mark(name) then Some(Commits(front)) else LastMark(front, name)
  }

  ghost function AnswerAt(ops: seq<Operation>, tx: nat, asOf: Option<string>): Result<Option<Belief>, Fault> {
    if !Introduced(ops, "doc") then Err(UnknownNode("doc"))
    else if Told(ops, "doc", tx, asOf, None) == None then Ok(None)
    else if HubEdgeLogged(ops, tx, asOf) then Ok(Told(ops, "doc", tx, asOf, None))
    else Err(NoVisibleEdge)
  }

  ghost function LogAnswer(ops: seq<Operation>, q: Query): Result<Option<Belief>, Fault> {
    if q.tx == "latest" then AnswerAt(ops, Commits(ops), q.validAt)
    else if LastMark(ops, q.tx).Some? then AnswerAt(ops, LastMark(ops, q.tx).value, q.validAt)
    else Err(UnknownMarker(q.tx))
  }

  /** What operation `i` raises: its kind is unknown, or its node was never added. */
  ghost function OperationFault(ops: seq<Operation>, i: int): Option<Fault>
    requires 0 <= i < |ops|
  {
    if ops[i].Unrecognised? then Some(UnknownOperation(ops[i].kind))
    else if ops[i].Supersede? && !Introduced(ops[..i], ops[i].id) then Some(UnknownNode(ops[i].id))
    else None
  }

  ghost predicate Replayable(ops: seq<Operation>) {
    forall i | 0 <= i < |ops| :: OperationFault(ops, i) == None
  }

  /** The log is fine up to operation `i`, which raises `f`. */
  ghost predicate FailsFirst(ops: seq<Operation>, i: int, f: Fault) {
    0 <= i < |ops| && Replayable(ops[..i]) && OperationFault(ops, i) == Some(f)
  }

  // ---------------------------------------------------------------------
  // The state is what the log says
  // ---------------------------------------------------------------------

  lemma ReplayNothing()
    ensures Replay(INITIAL, []) == Ok(INITIAL)
  {
  }

  lemma SplitLast(ops: seq<Operation>)
    requires ops != []
    ensures
      var front, last := ops[..|ops| - 1], ops[|ops| - 1];
      && (Replay(INITIAL, ops).Ok? ==> Replay(INITIAL, front).Ok?)
      && (Replay(INITIAL, front).Ok? ==> Replay(INITIAL, ops) == Apply(Replay(INITIAL, front).value, last))
      && (Replay(INITIAL, front).Err? ==> Replay(INITIAL, ops) == Replay(INITIAL, front))
  {
    hide Apply;
    var front, last := ops[..|ops| - 1], ops[|ops| - 1];
    assert ops == front + [last];
    ReplayAppend(INITIAL, front, [last]);
    if Replay(INITIAL, front).Ok? {
      OneMore(front, last);
    }
  }

  lemma {:induction false} SequenceIsCommits(ops: seq<Operation>)
    requires Replay(INITIAL, ops).Ok?
    ensures Replay(INITIAL, ops).value.sequence == Commits(ops)
  {
    ReplayNothing();
    hide Replay;
    if ops != [] {
      SplitLast(ops);
      SequenceIsCommits(ops[..|ops| - 1]);
    }
  }

  lemma {:induction false} VersionsAreIntroduced(ops: seq<Operation>, id: string)
    requires Replay(INITIAL, ops).Ok?
    ensures id in Replay(INITIAL, ops).value.versions <==> Introduced(ops, id)
    ensures History(Replay(INITIAL, ops).value, id) != [] <==> Introduced(ops, id)
  {
    ReplayNothing();
    hide Replay;
    ReplaySound(INITIAL, ops);
    if ops != [] {
      var front, last := ops[..|ops| - 1], ops[|ops| - 1];
      SplitLast(ops);
      VersionsAreIntroduced(front, id);
      IntroducedLast(ops, id);
    }
  }

  lemma IntroducedLast(ops: seq<Operation>, id: string)
    requires ops != []
    ensures
      var front, last := ops[..|ops| - 1], ops[|ops| - 1];
      Introduced(ops, id) <==> Introduced(front, id) || (last.AddNode? && last.id == id)
  {
    var front := ops[..|ops| - 1];
    if i :| 0 <= i < |front| && front[i].AddNode? && front[i].id == id { assert ops[i] == front[i]; }
    if i :| 0 <= i < |ops| && ops[i].AddNode? && ops[i].id == id { assert i < |front| ==> front[i] == ops[i]; }
  }

  lemma {:induction false} MarkersAreLogged(ops: seq<Operation>, name: string)
    requires Replay(INITIAL, ops).Ok?
    ensures
      var markers := Replay(INITIAL, ops).value.markers;
      LastMark(ops, name) == if name in markers then Some(markers[name]) else None
  {
    ReplayNothing();
    hide Replay;
    if ops != [] {
      SplitLast(ops);
      SequenceIsCommits(ops[..|ops| - 1]);
      MarkersAreLogged(ops[..|ops| - 1], name);
    }
  }

  lemma {:induction false} EdgesAreLogged(ops: seq<Operation>, tx: nat, asOf: Option<string>)
    requires Replay(INITIAL, ops).Ok?
    ensures (exists e | e in Replay(INITIAL, ops).value.edges :: HubEdgeVisible(e, tx, asOf)) <==> HubEdgeLogged(ops, tx, asOf)
  {
    ReplayNothing();
    hide Replay, BegunBy, VisibleAt;
    if ops != [] {
      var front, last := ops[..|ops| - 1], ops[|ops| - 1];
      SplitLast(ops);
      SequenceIsCommits(front);
      EdgesAreLogged(front, tx, asOf);
      HubEdgeLast(ops, tx, asOf);
      if last.AddEdge? {
        OpenVisible(last.validFrom, asOf);
        var e := Edge(Commits(ops), last.source, last.target, last.validFrom, None);
        var was, now := Replay(INITIAL, front).value.edges, Replay(INITIAL, ops).value.edges;
        assert now == was + [e] && e in now;
        assert forall x | x in now :: x in was || x == e;
        assert forall x | x in was :: x in now;
      } else {
        assert Replay(INITIAL, ops).value.edges == Replay(INITIAL, front).value.edges;
      }
    }
  }

  lemma HubEdgeLast(ops: seq<Operation>, tx: nat, asOf: Option<string>)
    requires ops != []
    ensures
      var front, last := ops[..|ops| - 1], ops[|ops| - 1];
      HubEdgeLogged(ops, tx, asOf)
      <==> || HubEdgeLogged(front, tx, asOf)
           || (&& last.AddEdge? && last.source == "hub" && last.target == "doc"
               && Commits(ops) <= tx && BegunBy(last.validFrom, asOf))
  {
    hide BegunBy, Commits;
    var front := ops[..|ops| - 1];
    assert forall i | 0 <= i < |front| :: front[i] == ops[i] && front[..i + 1] == ops[..i + 1];
    assert ops[..|front| + 1] == ops;
  }

  lemma OpenVisible(from: string, asOf: Option<string>)
    ensures VisibleAt(from, None, asOf) <==> BegunBy(from, asOf)
  {
    if asOf.Some? {
      StringLessTotal(from, asOf.value);
      if StringLess(from, asOf.value) { StringLessAsymmetric(from, asOf.value); }
      if asOf.value == from { StringLessIrreflexive(from); }
    }
  }

  /** The versions of a node with the newest one closed, if it was. */
  function ClosedLast(vs: seq<Version>, closed: Option<nat>): seq<Version> {
    if vs == [] || closed.None? then vs else vs[|vs| - 1 := Close(vs[|vs| - 1], closed.value)]
  }

  function LastBelief(vs: seq<Version>, tx: nat, asOf: Option<string>): Option<Belief> {
    var candidates := Candidates(vs, tx, asOf);
    if candidates == [] then None else Some(BeliefOf(candidates[|candidates| - 1], tx))
  }

  lemma LastBeliefAppend(vs: seq<Version>, v: Version, tx: nat, asOf: Option<string>)
    ensures LastBelief(vs + [v], tx, asOf)
         == if IsCandidate(v, tx, asOf) then Some(BeliefOf(v, tx)) else LastBelief(vs, tx, asOf)
  {
    hide IsCandidate;
    assert (vs + [v])[..|vs|] == vs;
  }

  /** A version as the log describes it. */
  function Begun(began: nat, from: string, props: Json, closed: Option<nat>): Version {
    if closed.None? then NewVersion(began, from, props) else Close(NewVersion(began, from, props), closed.value)
  }

  lemma BegunShows(began: nat, from: string, props: Json, closed: Option<nat>, tx: nat, asOf: Option<string>)
    ensures IsCandidate(Begun(began, from, props, closed), tx, asOf) <==> Shows(began, from, closed, tx, asOf)
    ensures BeliefOf(Begun(began, from, props, closed), tx) == Belief(props, WindowAt(closed, tx))
  {
    hide StringLess;
    OpenVisible(from, asOf);
  }

  lemma {:induction false} ToldIsBelieved(ops: seq<Operation>, id: string, tx: nat, asOf: Option<string>, closed: Option<nat>)
    requires Replay(INITIAL, ops).Ok?
    ensures Told(ops, id, tx, asOf, closed)
         == LastBelief(ClosedLast(History(Replay(INITIAL, ops).value, id), closed), tx, asOf)
  {
    ReplayNothing();
    hide Replay, LastBelief, Shows, BeliefOf, WindowAt;
    if ops == [] {
      NothingBelieved(tx, asOf);
    } else {
      var front, last := ops[..|ops| - 1], ops[|ops| - 1];
      SplitLast(ops);
      SequenceIsCommits(front);
      var past, now := Replay(INITIAL, front).value, Replay(INITIAL, ops).value;
      var was := History(past, id);
      if last.AddNode? && last.id == id {
        var props := if last.props == None then JObject([]) else last.props.value;
        var v := Begun(Commits(front) + 1, last.validFrom, props, closed);
        ToldIsBelieved(front, id, tx, asOf, None);
        assert ClosedLast(History(now, id), closed) == was + [v];
        LastBeliefAppend(was, v, tx, asOf);
        BegunShows(Commits(front) + 1, last.validFrom, props, closed, tx, asOf);
      } else if last.Supersede? && last.id == id {
        var v := Begun(Commits(front) + 2, SUPERSEDED_FROM, last.newProps, closed);
        var before := ClosedLast(was, Some(Commits(front) + 1));
        ToldIsBelieved(front, id, tx, asOf, Some(Commits(front) + 1));
        assert ClosedLast(History(now, id), closed) == before + [v];
        LastBeliefAppend(before, v, tx, asOf);
        BegunShows(Commits(front) + 2, SUPERSEDED_FROM, last.newProps, closed, tx, asOf);
      } else {
        ToldIsBelieved(front, id, tx, asOf, closed);
        assert History(now, id) == was;
      }
    }
  }

  lemma NothingBelieved(tx: nat, asOf: Option<string>)
    ensures LastBelief([], tx, asOf) == None
  {
  }

  lemma BeliefIsTold(ops: seq<Operation>, id: string, tx: nat, asOf: Option<string>)
    requires Replay(INITIAL, ops).Ok?
    ensures BeliefAt(Replay(INITIAL, ops).value, id, tx, asOf)
         == if Introduced(ops, id) then Ok(Told(ops, id, tx, asOf, None)) else Err(UnknownNode(id))
  {
    hide Replay, Introduced, Candidates, BeliefOf;
    VersionsAreIntroduced(ops, id);
    ToldIsBelieved(ops, id, tx, asOf, None);
  }

  // ---------------------------------------------------------------------
  // The answers
  // ---------------------------------------------------------------------

  /**
   A query over a replayable log is answered from the log: by the belief about
   doc, provided an edge from hub was logged by the commit read and is not for
   later times.
   */
  lemma AnswerFromLog(ops: seq<Operation>, q: Query)
    requires Replay(INITIAL, ops).Ok?
    ensures AnswerQuery(Replay(INITIAL, ops).value, q) == LogAnswer(ops, q)
  {
    hide Replay, Introduced, HubEdgeLogged, Told, HubEdgeVisible, BeliefAt;
    var s := Replay(INITIAL, ops).value;
    SequenceIsCommits(ops);
    MarkersAreLogged(ops, q.tx);
    if CommitOf(s, q.tx).Ok? {
      var tx := CommitOf(s, q.tx).value;
      BeliefIsTold(ops, "doc", tx, q.validAt);
      EdgesAreLogged(ops, tx, q.validAt);
    }
  }

  lemma {:induction false} ReplayFromLog(ops: seq<Operation>)
    ensures Replay(INITIAL, ops).Ok? <==> Replayable(ops)
    ensures forall i, f | FailsFirst(ops, i, f) :: Replay(INITIAL, ops) == Err(f)
  {
    ReplayNothing();
    hide Replay, Introduced;
    if ops != [] {
      var front, last := ops[..|ops| - 1], ops[|ops| - 1];
      ReplayFromLog(front);
      SplitLast(ops);
      if Replay(INITIAL, front).Ok? && last.Supersede? {
        VersionsAreIntroduced(front, last.id);
      }
      assert forall i | 0 <= i < |front| :: front[i] == ops[i] && front[..i] == ops[..i];
      assert forall i | 0 <= i < |front| :: OperationFault(front, i) == OperationFault(ops, i);
      assert ops[..|front|] == front;
      assert Replayable(ops) <==> Replayable(front) && OperationFault(ops, |front|) == None;
      forall i, f | FailsFirst(ops, i, f) ensures Replay(INITIAL, ops) == Err(f) {
        if i < |front| {
          assert FailsFirst(front, i, f);
        }
      }
    }
  }

  ghost predicate LastOfItsId(queries: seq<Query>, i: int) {
    0 <= i < |queries| && forall j | i < j < |queries| :: queries[j].id != queries[i].id
  }

  ghost predicate AllAnswered(ops: seq<Operation>, queries: seq<Query>) {
    forall i | 0 <= i < |queries| :: LogAnswer(ops, queries[i]).Ok?
  }

  ghost predicate FailsFirstQuery(ops: seq<Operation>, queries: seq<Query>, i: int, f: Fault) {
    0 <= i < |queries| && AllAnswered(ops, queries[..i]) && LogAnswer(ops, queries[i]) == Err(f)
  }

  ghost predicate HasId(queries: seq<Query>, id: string) {
    exists i | 0 <= i < |queries| :: queries[i].id == id
  }

  /** Each id maps to the answer of the last query that has it. */
  ghost predicate HoldsAnswers(ops: seq<Operation>, queries: seq<Query>, expected: map<string, Option<Belief>>) {
    && (forall id :: id in expected <==> HasId(queries, id))
    && (forall i | LastOfItsId(queries, i) :: queries[i].id in expected && Ok(expected[queries[i].id]) == LogAnswer(ops, queries[i]))
  }

  lemma OneMoreAnswer(ops: seq<Operation>, queries: seq<Query>, expected: map<string, Option<Belief>>, rows: Option<Belief>)
    requires queries != []
    requires HoldsAnswers(ops, queries[..|queries| - 1], expected)
    requires LogAnswer(ops, queries[|queries| - 1]) == Ok(rows)
    ensures HoldsAnswers(ops, queries, expected[queries[|queries| - 1].id := rows])
  {
    hide LogAnswer, HasId;
    var front, last := queries[..|queries| - 1], queries[|queries| - 1];
    var longer := expected[last.id := rows];
    forall id ensures id in longer <==> HasId(queries, id) {
      LastId(queries, id);
    }
    forall i | LastOfItsId(queries, i)
      ensures queries[i].id in longer && Ok(longer[queries[i].id]) == LogAnswer(ops, queries[i])
    {
      if i < |front| {
        EarlierId(queries, i);
      }
    }
  }

  lemma LastId(queries: seq<Query>, id: string)
    requires queries != []
    ensures HasId(queries, id) <==> HasId(queries[..|queries| - 1], id) || queries[|queries| - 1].id == id
  {
    var front := queries[..|queries| - 1];
    if i :| 0 <= i < |front| && front[i].id == id { assert queries[i].id == id; }
    if i :| 0 <= i < |queries| && queries[i].id == id { assert i < |front| ==> front[i].id == id; }
  }

  lemma EarlierId(queries: seq<Query>, i: int)
    requires LastOfItsId(queries, i) && i < |queries| - 1
    ensures LastOfItsId(queries[..|queries| - 1], i) && queries[..|queries| - 1][i] == queries[i]
    ensures queries[|queries| - 1].id != queries[i].id
  {
  }

  lemma {:induction false} AnswersFromLog(ops: seq<Operation>, queries: seq<Query>)
    requires Replay(INITIAL, ops).Ok?
    ensures
      var all := AnswerAll(Replay(INITIAL, ops).value, queries);
      && (AllAnswered(ops, queries) ==> all.Ok? && HoldsAnswers(ops, queries, all.value))
      && (forall i, f | FailsFirstQuery(ops, queries, i, f) :: all == Err(f))
    decreases |queries|
  {
    hide Replay, LogAnswer, AnswerQuery, HoldsAnswers, AllAnswered, FailsFirstQuery;
    if queries == [] {
      NoAnswers(ops);
    } else {
      var front, last := queries[..|queries| - 1], queries[|queries| - 1];
      AnswersFromLog(ops, front);
      AnswerFromLog(ops, last);
      AllAnsweredLast(ops, queries);
      if AllAnswered(ops, queries) {
        var before := AnswerAll(Replay(INITIAL, ops).value, front);
        OneMoreAnswer(ops, queries, before.value, LogAnswer(ops, last).value);
      }
      forall i, f | FailsFirstQuery(ops, queries, i, f)
        ensures AnswerAll(Replay(INITIAL, ops).value, queries) == Err(f)
      {
        FailsLast(ops, queries, i, f);
      }
    }
  }

  lemma NoAnswers(ops: seq<Operation>)
    ensures HoldsAnswers(ops, [], map[])
    ensures forall i, f :: !FailsFirstQuery(ops, [], i, f)
  {
  }

  lemma AllAnsweredLast(ops: seq<Operation>, queries: seq<Query>)
    requires queries != []
    ensures AllAnswered(ops, queries)
       <==> AllAnswered(ops, queries[..|queries| - 1]) && LogAnswer(ops, queries[|queries| - 1]).Ok?
  {
    hide LogAnswer;
    var front := queries[..|queries| - 1];
    assert forall i | 0 <= i < |front| :: front[i] == queries[i];
  }

  lemma FailsLast(ops: seq<Operation>, queries: seq<Query>, i: int, f: Fault)
    requires queries != [] && FailsFirstQuery(ops, queries, i, f)
    ensures
      var front := queries[..|queries| - 1];
      || FailsFirstQuery(ops, front, i, f)
      || (AllAnswered(ops, front) && LogAnswer(ops, queries[|queries| - 1]) == Err(f))
  {
    hide LogAnswer, AllAnswered;
    var front := queries[..|queries| - 1];
    if i < |front| {
      assert front[..i] == queries[..i] && front[i] == queries[i];
    } else {
      assert queries[..i] == front;
    }
  }

  /**
   The whole case, from the log: the first operation that cannot be replayed
   decides, then the first query that cannot be answered; otherwise every id
   holds the answer of the last query that has it.
   */
  lemma CaseFromLog(ops: seq<Operation>, queries: seq<Query>)
    ensures forall i, f | FailsFirst(ops, i, f) :: Evaluate(ops, queries) == Err(f)
    ensures Replayable(ops) ==> forall i, f | FailsFirstQuery(ops, queries, i, f) :: Evaluate(ops, queries) == Err(f)
    ensures Replayable(ops) && AllAnswered(ops, queries) ==>
      Evaluate(ops, queries).Ok? && HoldsAnswers(ops, queries, Evaluate(ops, queries).value)
  {
    hide Replay, LogAnswer, AnswerAll, FailsFirst, FailsFirstQuery, HoldsAnswers, Replayable, AllAnswered;
    ReplayFromLog(ops);
    if Replay(INITIAL, ops).Ok? {
      AnswersFromLog(ops, queries);
    }
  }
}
