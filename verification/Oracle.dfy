/**
 The bitemporal reference oracle: a log of graph operations is replayed into
 version lists whose older entries are overwritten when superseded, and then
 asked what was believed at commit `tx` about valid time `asOf`.
 */
module Oracle {
  import opened Prelude
  import opened Json

  const FAR_FUTURE := "2099-01-01T00:00:00Z"
  const SUPERSEDED_FROM := "2026-10-04T00:00:00Z"

  datatype Version = Version(
    txFrom: nat, validFrom: string, validTo: Option<string>, closedTx: Option<nat>, props: Json)

  datatype Edge = Edge(txFrom: nat, source: string, target: string, validFrom: string, validTo: Option<string>)

  datatype Operation =
    | AddNode(id: string, validFrom: string, props: Option<Json>)
    | AddEdge(source: string, target: string, validFrom: string)
    | Mark(name: string)
    | Supersede(id: string, newProps: Json)
    | Unrecognised(kind: string)

  datatype Query = Query(id: string, tx: string, validAt: Option<string>)

  datatype Fault =
    | UnknownOperation(kind: string)
    | UnknownNode(id: string)
    | UnknownMarker(name: string)
    | NoVisibleEdge

  datatype State = State(
    versions: map<string, seq<Version>>, edges: seq<Edge>, markers: map<string, nat>, sequence: nat)

  const INITIAL := State(map[], [], map[], 0)

  datatype Window = Open | Closed

  datatype Belief = Belief(props: Json, window: Window)

  // ---------------------------------------------------------------------
  // Replay
  // ---------------------------------------------------------------------

  function NewVersion(txFrom: nat, validFrom: string, props: Json): Version {
    Version(txFrom, validFrom, None, None, props)
  }

  function Close(v: Version, tx: nat): Version {
    v.(validTo := Some(FAR_FUTURE), closedTx := Some(tx))
  }

  function History(s: State, id: string): seq<Version> {
    if id in s.versions then s.versions[id] else []
  }

  function Apply(s: State, op: Operation): Result<State, Fault> {
    match op
    case AddNode(id, validFrom, props) =>
      var payload := if props.Some? then props.value else JObject([]);
      Ok(s.(versions := s.versions[id := History(s, id) + [NewVersion(s.sequence + 1, validFrom, payload)]],
            sequence := s.sequence + 1))
    case AddEdge(source, target, validFrom) =>
      Ok(s.(edges := s.edges + [Edge(s.sequence + 1, source, target, validFrom, None)],
            sequence := s.sequence + 1))
    case Mark(name) =>
      Ok(s.(markers := s.markers[name := s.sequence]))
    case Supersede(id, newProps) =>
      if History(s, id) == [] then Err(UnknownNode(id))
      else
        var vs := History(s, id);
        var last := |vs| - 1;
        Ok(s.(versions := s.versions[id := vs[last := Close(vs[last], s.sequence + 1)]
                                          + [NewVersion(s.sequence + 2, SUPERSEDED_FROM, newProps)]],
              sequence := s.sequence + 2))
    case Unrecognised(kind) => Err(UnknownOperation(kind))
  }

  function Replay(s: State, ops: seq<Operation>): Result<State, Fault>
    decreases |ops|
  {
    if ops == [] then Ok(s)
    else
      match Apply(s, ops[0])
      case Ok(next) => Replay(next, ops[1..])
      case Err(fault) => Err(fault)
  }

  lemma {:induction false} ReplayAppend(s: State, a: seq<Operation>, b: seq<Operation>)
    ensures Replay(s, a + b) == match Replay(s, a) case Ok(t) => Replay(t, b) case Err(f) => Err(f)
    decreases |a|
  {
    if a == [] {
      assert a + b == b;
    } else {
      assert (a + b)[1..] == a[1..] + b;
      if Apply(s, a[0]).Ok? {
        ReplayAppend(Apply(s, a[0]).value, a[1..], b);
      }
    }
  }

  // ---------------------------------------------------------------------
  // Reading
  // ---------------------------------------------------------------------

  predicate VisibleAt(validFrom: string, validTo: Option<string>, asOf: Option<string>) {
    asOf.None? || (!StringLess(asOf.value, validFrom) && (validTo.None? || StringLess(asOf.value, validTo.value)))
  }

  /** The valid-time end as believed at commit `tx`: a later closing is not known yet. */
  function KnownEnd(v: Version, tx: nat): Option<string> {
    if v.closedTx.None? || v.closedTx.value <= tx then v.validTo else None
  }

  predicate IsCandidate(v: Version, tx: nat, asOf: Option<string>) {
    v.txFrom <= tx && VisibleAt(v.validFrom, KnownEnd(v, tx), asOf)
  }

  function Candidates(vs: seq<Version>, tx: nat, asOf: Option<string>): seq<Version> {
    if vs == [] then []
    else
      var last := |vs| - 1;
      Candidates(vs[..last], tx, asOf) + if IsCandidate(vs[last], tx, asOf) then [vs[last]] else []
  }

  function VersionAt(s: State, id: string, tx: nat, asOf: Option<string>): Result<Option<Version>, Fault> {
    if id !in s.versions then Err(UnknownNode(id))
    else
      var candidates := Candidates(s.versions[id], tx, asOf);
      Ok(if candidates == [] then None else Some(candidates[|candidates| - 1]))
  }

  function BeliefOf(v: Version, tx: nat): Belief {
    Belief(v.props, if v.closedTx.None? || v.closedTx.value > tx then Open else Closed)
  }

  function BeliefAt(s: State, id: string, tx: nat, asOf: Option<string>): Result<Option<Belief>, Fault> {
    match VersionAt(s, id, tx, asOf)
    case Ok(None) => Ok(None)
    case Ok(Some(v)) => Ok(Some(BeliefOf(v, tx)))
    case Err(fault) => Err(fault)
  }

  predicate HubEdgeVisible(e: Edge, tx: nat, asOf: Option<string>) {
    e.source == "hub" && e.target == "doc" && e.txFrom <= tx && VisibleAt(e.validFrom, e.validTo, asOf)
  }

  /** The answer to one query; `None` is the empty row list. */
  function Answer(s: State, tx: nat, asOf: Option<string>): Result<Option<Belief>, Fault> {
    match BeliefAt(s, "doc", tx, asOf)
    case Ok(None) => Ok(None)
    case Ok(Some(belief)) =>
      if exists e | e in s.edges :: HubEdgeVisible(e, tx, asOf) then Ok(Some(belief)) else Err(NoVisibleEdge)
    case Err(fault) => Err(fault)
  }

  function CommitOf(s: State, tx: string): Result<nat, Fault> {
    if tx == "latest" then Ok(s.sequence)
    else if tx in s.markers then Ok(s.markers[tx])
    else Err(UnknownMarker(tx))
  }

  function AnswerQuery(s: State, q: Query): Result<Option<Belief>, Fault> {
    match CommitOf(s, q.tx)
    case Ok(tx) => Answer(s, tx, q.validAt)
    case Err(fault) => Err(fault)
  }

  function AnswerAll(s: State, queries: seq<Query>): Result<map<string, Option<Belief>>, Fault> {
    if queries == [] then Ok(map[])
    else
      var last := |queries| - 1;
      match AnswerAll(s, queries[..last])
      case Err(fault) => Err(fault)
      case Ok(expected) =>
        match AnswerQuery(s, queries[last])
        case Ok(rows) => Ok(expected[queries[last].id := rows])
        case Err(fault) => Err(fault)
  }

  function Evaluate(operations: seq<Operation>, queries: seq<Query>): Result<map<string, Option<Belief>>, Fault> {
    match Replay(INITIAL, operations)
    case Ok(s) => AnswerAll(s, queries)
    case Err(fault) => Err(fault)
  }

  // ---------------------------------------------------------------------
  // What every reachable state satisfies
  // ---------------------------------------------------------------------

  /** A closed version has a successor that starts on the very next commit. */
  ghost predicate ClosedBySuccessor(vs: seq<Version>, i: int)
    requires 0 <= i < |vs|
  {
    && (vs[i].closedTx.None? <==> vs[i].validTo.None?)
    && (vs[i].closedTx.Some? ==>
          && i + 1 < |vs|
          && vs[i].txFrom < vs[i].closedTx.value
          && vs[i + 1].txFrom == vs[i].closedTx.value + 1)
  }

  ghost predicate SoundHistory(vs: seq<Version>, sequence: nat) {
    && vs != []
    && (forall i | 0 <= i < |vs| :: vs[i].txFrom <= sequence)
    && (forall i, j | 0 <= i < j < |vs| :: vs[i].txFrom < vs[j].txFrom)
    && (forall i | 0 <= i < |vs| :: ClosedBySuccessor(vs, i))
  }

  /** `tx` does not fall between the closing of a version and its successor. */
  ghost predicate IsBoundary(s: State, tx: nat) {
    forall id, i | id in s.versions && 0 <= i < |s.versions[id]| :: s.versions[id][i].closedTx != Some(tx)
  }

  ghost predicate Sound(s: State) {
    && (forall id | id in s.versions :: SoundHistory(s.versions[id], s.sequence))
    && (forall e | e in s.edges :: e.txFrom <= s.sequence)
    && (forall name | name in s.markers :: s.markers[name] <= s.sequence && IsBoundary(s, s.markers[name]))
  }

  lemma AddVersionSound(vs: seq<Version>, v: Version, sequence: nat)
    requires vs == [] || SoundHistory(vs, sequence)
    requires v.txFrom == sequence + 1 && v.closedTx.None? && v.validTo.None?
    ensures SoundHistory(vs + [v], sequence + 1)
  {
    var vs' := vs + [v];
    forall i | 0 <= i < |vs'| ensures ClosedBySuccessor(vs', i) {
      if i < |vs| { assert ClosedBySuccessor(vs, i); }
    }
  }

  lemma SupersedeSound(vs: seq<Version>, v: Version, sequence: nat)
    requires SoundHistory(vs, sequence)
    requires v.txFrom == sequence + 2 && v.closedTx.None? && v.validTo.None?
    ensures SoundHistory(vs[|vs| - 1 := Close(vs[|vs| - 1], sequence + 1)] + [v], sequence + 2)
  {
    var vs' := vs[|vs| - 1 := Close(vs[|vs| - 1], sequence + 1)] + [v];
    forall i | 0 <= i < |vs'| ensures ClosedBySuccessor(vs', i) {
      if i < |vs| { assert ClosedBySuccessor(vs, i); }
    }
  }

  /** In a sound history every closing commit is already in the past. */
  lemma ClosingsArePast(s: State, id: string, i: nat)
    requires Sound(s) && id in s.versions && i < |s.versions[id]|
    requires s.versions[id][i].closedTx.Some?
    ensures s.versions[id][i].closedTx.value < s.sequence
  {
    assert ClosedBySuccessor(s.versions[id], i);
  }

  /** Replacing one history by a sound one whose new closings are later than every marker. */
  lemma UpdateSound(s: State, id: string, vs: seq<Version>, sequence: nat)
    requires Sound(s) && sequence >= s.sequence
    requires SoundHistory(vs, sequence)
    requires forall i | 0 <= i < |vs| ::
               vs[i].closedTx.Some? ==>
                 vs[i].closedTx.value > s.sequence || (i < |History(s, id)| && vs[i] == History(s, id)[i])
    ensures Sound(s.(versions := s.versions[id := vs], sequence := sequence))
  {
  }

  lemma MarkSound(s: State, name: string)
    requires Sound(s)
    ensures Sound(s.(markers := s.markers[name := s.sequence]))
  {
    var t := s.(markers := s.markers[name := s.sequence]);
    assert IsBoundary(s, s.sequence) by {
      forall id, i | id in s.versions && 0 <= i < |s.versions[id]|
        ensures s.versions[id][i].closedTx != Some(s.sequence)
      {
        if s.versions[id][i].closedTx.Some? { ClosingsArePast(s, id, i); }
      }
    }
    forall other | other in t.markers ensures IsBoundary(t, t.markers[other]) {
      assert IsBoundary(s, t.markers[other]);
    }
  }

  lemma AddNodeSound(s: State, id: string, v: Version)
    requires Sound(s) && v.txFrom == s.sequence + 1 && v.closedTx.None? && v.validTo.None?
    ensures Sound(s.(versions := s.versions[id := History(s, id) + [v]], sequence := s.sequence + 1))
  {
    var vs := History(s, id);
    AddVersionSound(vs, v, s.sequence);
    UpdateSound(s, id, vs + [v], s.sequence + 1);
  }

  lemma SupersedeNodeSound(s: State, id: string, v: Version)
    requires Sound(s) && History(s, id) != []
    requires v.txFrom == s.sequence + 2 && v.closedTx.None? && v.validTo.None?
    ensures
      var vs := History(s, id);
      var last := |vs| - 1;
      Sound(s.(versions := s.versions[id := vs[last := Close(vs[last], s.sequence + 1)] + [v]],
               sequence := s.sequence + 2))
  {
    var vs := History(s, id);
    var last := |vs| - 1;
    SupersedeSound(vs, v, s.sequence);
    UpdateSound(s, id, vs[last := Close(vs[last], s.sequence + 1)] + [v], s.sequence + 2);
  }

  lemma ApplySound(s: State, op: Operation)
    requires Sound(s) && Apply(s, op).Ok?
    ensures Sound(Apply(s, op).value)
  {
    hide Sound, History, Close;
    var t := Apply(s, op).value;
    match op
    case AddNode(id, validFrom, props) =>
      AddNodeSound(s, id, NewVersion(s.sequence + 1, validFrom, if props.Some? then props.value else JObject([])));
    case Supersede(id, newProps) =>
      SupersedeNodeSound(s, id, NewVersion(s.sequence + 2, SUPERSEDED_FROM, newProps));
    case AddEdge(_, _, _) => EdgeSound(s, t);
    case Mark(name) => MarkSound(s, name);
  }

  lemma EdgeSound(s: State, t: State)
    requires Sound(s) && |t.edges| > 0
    requires t == s.(edges := s.edges + [t.edges[|t.edges| - 1]], sequence := s.sequence + 1)
    requires t.edges[|t.edges| - 1].txFrom == t.sequence
    ensures Sound(t)
  {
  }

  lemma {:induction false} ReplaySound(s: State, ops: seq<Operation>)
    requires Sound(s) && Replay(s, ops).Ok?
    ensures Sound(Replay(s, ops).value)
    decreases |ops|
  {
    if ops != [] {
      ApplySound(s, ops[0]);
      ReplaySound(Apply(s, ops[0]).value, ops[1..]);
    }
  }

  // ---------------------------------------------------------------------
  // What later operations can change
  // ---------------------------------------------------------------------

  /** `now` is `was`, or `was` closed after commit `tx`; a closed version never changes. */
  ghost predicate SameUpTo(was: Version, now: Version, tx: nat) {
    now == was || (was.closedTx.None? && was.validTo.None?
                   && exists c: nat | c > tx :: now == Close(was, c))
  }

  ghost predicate HistoryExtends(was: seq<Version>, now: seq<Version>, tx: nat) {
    && |was| <= |now|
    && (forall i | 0 <= i < |was| :: SameUpTo(was[i], now[i], tx))
    && (forall i | |was| <= i < |now| :: now[i].txFrom > tx)
  }

  ghost predicate Extends(was: State, now: State) {
    && was.sequence <= now.sequence
    && (forall id: string :: HistoryExtends(History(was, id), History(now, id), was.sequence))
    && was.versions.Keys <= now.versions.Keys
    && |was.edges| <= |now.edges|
    && now.edges[..|was.edges|] == was.edges
    && (forall i | |was.edges| <= i < |now.edges| :: now.edges[i].txFrom > was.sequence)
  }

  lemma SupersedeExtends(was: seq<Version>, now: seq<Version>, v: Version, tx: nat, c: nat, sequence: nat)
    requires HistoryExtends(was, now, tx)
    requires SoundHistory(now, sequence) && tx < c && tx < v.txFrom
    ensures HistoryExtends(was, now[|now| - 1 := Close(now[|now| - 1], c)] + [v], tx)
  {
    var last := |now| - 1;
    assert ClosedBySuccessor(now, last);
    if last < |was| {
      assert SameUpTo(was[last], now[last], tx);
      assert was[last] == now[last];
    }
  }

  lemma ApplyExtendsHistory(base: State, s: State, op: Operation, id: string)
    requires Sound(s) && Apply(s, op).Ok?
    requires HistoryExtends(History(base, id), History(s, id), base.sequence) && base.sequence <= s.sequence
    ensures HistoryExtends(History(base, id), History(Apply(s, op).value, id), base.sequence)
  {
    if op.Supersede? && id == op.id {
      hide SoundHistory, SameUpTo;
      var v := NewVersion(s.sequence + 2, SUPERSEDED_FROM, op.newProps);
      SupersedeExtends(History(base, id), History(s, id), v, base.sequence, s.sequence + 1, s.sequence);
    }
  }

  lemma ApplyExtends(base: State, s: State, op: Operation)
    requires Sound(s) && Extends(base, s) && Apply(s, op).Ok?
    ensures Extends(base, Apply(s, op).value)
  {
    hide Sound, HistoryExtends;
    var t := Apply(s, op).value;
    forall id: string ensures HistoryExtends(History(base, id), History(t, id), base.sequence) {
      ApplyExtendsHistory(base, s, op, id);
    }
  }

  lemma {:induction false} ReplayExtends(base: State, s: State, ops: seq<Operation>)
    requires Sound(s) && Extends(base, s) && Replay(s, ops).Ok?
    ensures Extends(base, Replay(s, ops).value)
    decreases |ops|
  {
    if ops != [] {
      ApplySound(s, ops[0]);
      ApplyExtends(base, s, ops[0]);
      ReplayExtends(base, Apply(s, ops[0]).value, ops[1..]);
    }
  }

  // ---------------------------------------------------------------------
  // Time travel
  // ---------------------------------------------------------------------

  ghost predicate SameBeliefs(a: seq<Version>, b: seq<Version>, tx: nat) {
    |a| == |b| && forall i | 0 <= i < |a| :: BeliefOf(a[i], tx) == BeliefOf(b[i], tx)
  }

  /** Later closings and later versions are invisible to a read at `at <= tx`. */
  lemma {:induction false} CandidatesUnchanged(was: seq<Version>, now: seq<Version>, tx: nat, at: nat, asOf: Option<string>)
    requires HistoryExtends(was, now, tx) && at <= tx
    ensures SameBeliefs(Candidates(was, at, asOf), Candidates(now, at, asOf), at)
    decreases |now|
  {
    if now != [] {
      var last := |now| - 1;
      if |was| < |now| {
        assert now[last].txFrom > tx;
        CandidatesUnchanged(was, now[..last], tx, at, asOf);
      } else {
        assert SameUpTo(was[last], now[last], tx);
        CandidatesUnchanged(was[..last], now[..last], tx, at, asOf);
      }
    }
  }

  lemma BeliefUnchanged(base: State, now: State, id: string, at: nat, asOf: Option<string>)
    requires Extends(base, now) && at <= base.sequence
    requires id in base.versions
    ensures BeliefAt(now, id, at, asOf) == BeliefAt(base, id, at, asOf)
  {
    assert HistoryExtends(History(base, id), History(now, id), base.sequence);
    CandidatesUnchanged(base.versions[id], now.versions[id], base.sequence, at, asOf);
  }

  lemma BeliefBeforeCreation(base: State, now: State, id: string, at: nat, asOf: Option<string>)
    requires Extends(base, now) && at <= base.sequence
    requires id in now.versions && id !in base.versions
    ensures BeliefAt(now, id, at, asOf) == Ok(None)
  {
    assert HistoryExtends([], History(now, id), base.sequence);
    CandidatesUnchanged([], now.versions[id], base.sequence, at, asOf);
  }

  /**
   Time travel equals replay: reading the state of `a + b` at any commit up to
   the end of `a` gives what the state of `a` alone gives, for every node and
   valid time.  A node first added by `b` reads as absent.
   */
  lemma TimeTravelIsReplay(a: seq<Operation>, b: seq<Operation>, id: string, at: nat, asOf: Option<string>)
    requires Replay(INITIAL, a + b).Ok?
    ensures Replay(INITIAL, a).Ok?
    ensures
      var past, now := Replay(INITIAL, a).value, Replay(INITIAL, a + b).value;
      at <= past.sequence ==>
        && (id in past.versions ==> BeliefAt(now, id, at, asOf) == BeliefAt(past, id, at, asOf))
        && (id !in past.versions && id in now.versions ==> BeliefAt(now, id, at, asOf) == Ok(None))
  {
    ReplayAppend(INITIAL, a, b);
    var past := Replay(INITIAL, a).value;
    ReplaySound(INITIAL, a);
    ReplayExtends(past, past, b);
    var now := Replay(INITIAL, a + b).value;
    if at <= past.sequence {
      if id in past.versions {
        BeliefUnchanged(past, now, id, at, asOf);
      } else if id in now.versions {
        BeliefBeforeCreation(past, now, id, at, asOf);
      }
    }
  }

  ghost predicate NeverMarks(ops: seq<Operation>, name: string) {
    forall i | 0 <= i < |ops| :: ops[i] != Mark(name)
  }

  lemma {:induction false} MarkerKept(s: State, ops: seq<Operation>, name: string)
    requires name in s.markers && NeverMarks(ops, name) && Replay(s, ops).Ok?
    ensures name in Replay(s, ops).value.markers
    ensures Replay(s, ops).value.markers[name] == s.markers[name]
    decreases |ops|
  {
    if ops != [] {
      assert ops[0] != Mark(name);
      MarkerKept(Apply(s, ops[0]).value, ops[1..], name);
    }
  }

  lemma HubEdgeUnchanged(base: State, now: State, at: nat, asOf: Option<string>)
    requires Extends(base, now) && at <= base.sequence
    ensures (exists e | e in now.edges :: HubEdgeVisible(e, at, asOf))
       <==> (exists e | e in base.edges :: HubEdgeVisible(e, at, asOf))
  {
  }

  lemma AnswerUnchanged(base: State, now: State, at: nat, asOf: Option<string>)
    requires Extends(base, now) && at <= base.sequence
    ensures Answer(now, at, asOf) ==
            if "doc" in base.versions || "doc" !in now.versions then Answer(base, at, asOf) else Ok(None)
  {
    if "doc" in base.versions {
      BeliefUnchanged(base, now, "doc", at, asOf);
      HubEdgeUnchanged(base, now, at, asOf);
    } else if "doc" in now.versions {
      BeliefBeforeCreation(base, now, "doc", at, asOf);
    }
  }

  lemma MarkedState(a: seq<Operation>, b: seq<Operation>, name: string)
    requires Replay(INITIAL, a + [Mark(name)] + b).Ok?
    requires NeverMarks(b, name)
    ensures Replay(INITIAL, a).Ok?
    ensures
      var past, now := Replay(INITIAL, a).value, Replay(INITIAL, a + [Mark(name)] + b).value;
      Extends(past, now) && name in now.markers && now.markers[name] == past.sequence
  {
    assert a + [Mark(name)] + b == a + ([Mark(name)] + b);
    ReplayAppend(INITIAL, a, [Mark(name)] + b);
    var past := Replay(INITIAL, a).value;
    ReplaySound(INITIAL, a);
    var marked := Apply(past, Mark(name)).value;
    assert ([Mark(name)] + b)[1..] == b;
    ApplySound(past, Mark(name));
    MarkerKept(marked, b, name);
    ReplayExtends(past, marked, b);
  }

  /**
   A query at a marker, asked at the end of the log, is answered as the
   "latest" query would have been answered when the marker was set; only a
   document that did not exist yet reads as absent instead of raising.
   */
  lemma MarkedQueryIsLatestThen(a: seq<Operation>, b: seq<Operation>, name: string, q: Query)
    requires Replay(INITIAL, a + [Mark(name)] + b).Ok?
    requires NeverMarks(b, name) && name != "latest" && q.tx == name
    ensures Replay(INITIAL, a).Ok?
    ensures
      var past, now := Replay(INITIAL, a).value, Replay(INITIAL, a + [Mark(name)] + b).value;
      AnswerQuery(now, q) == if "doc" in past.versions || "doc" !in now.versions
                             then AnswerQuery(past, q.(tx := "latest")) else Ok(None)
  {
    MarkedState(a, b, name);
    var past, now := Replay(INITIAL, a).value, Replay(INITIAL, a + [Mark(name)] + b).value;
    AnswerUnchanged(past, now, past.sequence, q.validAt);
  }

  // ---------------------------------------------------------------------
  // Closings
  // ---------------------------------------------------------------------

  /** Once closed, a version is never touched again: it is closed at most once. */
  lemma ClosedAtMostOnce(a: seq<Operation>, b: seq<Operation>, id: string, i: nat)
    requires Replay(INITIAL, a + b).Ok?
    ensures Replay(INITIAL, a).Ok?
    ensures
      var past, now := Replay(INITIAL, a).value, Replay(INITIAL, a + b).value;
      i < |History(past, id)| ==>
        && i < |History(now, id)|
        && (History(past, id)[i].closedTx.Some? ==> History(now, id)[i] == History(past, id)[i])
        && (History(past, id)[i].closedTx.Some? ==> i + 1 < |History(past, id)|)
  {
    ReplayAppend(INITIAL, a, b);
    var past := Replay(INITIAL, a).value;
    ReplaySound(INITIAL, a);
    ReplayExtends(past, past, b);
    var now := Replay(INITIAL, a + b).value;
    assert HistoryExtends(History(past, id), History(now, id), past.sequence);
    if i < |History(past, id)| {
      assert SameUpTo(History(past, id)[i], History(now, id)[i], past.sequence);
      assert ClosedBySuccessor(History(past, id), i);
    }
  }

  /** With no valid time the candidates are the versions begun by `tx`. */
  lemma {:induction false} CandidatesWithoutValidTime(vs: seq<Version>, tx: nat) returns (n: nat)
    requires forall i, j | 0 <= i < j < |vs| :: vs[i].txFrom < vs[j].txFrom
    ensures n <= |vs| && Candidates(vs, tx, None) == vs[..n]
    ensures forall i | 0 <= i < n :: vs[i].txFrom <= tx
    ensures n < |vs| ==> vs[n].txFrom > tx
  {
    hide StringLess, KnownEnd;
    n := 0;
    if vs != [] {
      var last := |vs| - 1;
      n := CandidatesWithoutValidTime(vs[..last], tx);
      if vs[last].txFrom <= tx {
        assert n == last;
        assert vs[..last][..n] + [vs[last]] == vs[..n + 1];
        n := n + 1;
      } else {
        assert vs[..last][..n] == vs[..n];
      }
    }
  }

  /** The newest version begun by a boundary commit is open there. */
  lemma NewestIsOpen(s: State, id: string, at: nat, i: nat)
    requires Sound(s) && (at == s.sequence || IsBoundary(s, at))
    requires i < |History(s, id)|
    requires i + 1 < |History(s, id)| ==> History(s, id)[i + 1].txFrom > at
    ensures BeliefOf(History(s, id)[i], at).window == Open
  {
    assert ClosedBySuccessor(s.versions[id], i);
    assert at != s.sequence ==> s.versions[id][i].closedTx != Some(at);
  }

  /**
   A read at a marker or at the latest commit, with no valid time, finds an
   open version whenever the node had any version by then, and that version
   is the newest one begun by then.
   */
  lemma BoundaryReadIsOpen(ops: seq<Operation>, id: string, tx: string)
    requires Replay(INITIAL, ops).Ok?
    ensures
      var s := Replay(INITIAL, ops).value;
      var vs := History(s, id);
      CommitOf(s, tx).Ok? && vs != [] ==>
        var at := CommitOf(s, tx).value;
        if vs[0].txFrom > at then VersionAt(s, id, at, None) == Ok(None)
        else
          exists i | 0 <= i < |vs| ::
            && VersionAt(s, id, at, None) == Ok(Some(vs[i]))
            && BeliefOf(vs[i], at).window == Open
            && vs[i].txFrom <= at
            && (i + 1 < |vs| ==> vs[i + 1].txFrom > at)
  {
    hide VisibleAt, KnownEnd, Replay;
    var s := Replay(INITIAL, ops).value;
    ReplaySound(INITIAL, ops);
    var vs := History(s, id);
    if CommitOf(s, tx).Ok? && vs != [] {
      var at := CommitOf(s, tx).value;
      var n := CandidatesWithoutValidTime(vs, at);
      if vs[0].txFrom <= at {
        NewestIsOpen(s, id, at, n - 1);
        assert vs[..n][n - 1] == vs[n - 1];
      }
    }
  }

  // ---------------------------------------------------------------------
  // What a write does to the next read
  // ---------------------------------------------------------------------

  /** The newest version, when it is visible, is the one a latest read returns. */
  lemma NewestWins(vs: seq<Version>, tx: nat, asOf: Option<string>)
    requires vs != [] && IsCandidate(vs[|vs| - 1], tx, asOf)
    ensures
      var candidates := Candidates(vs, tx, asOf);
      candidates != [] && candidates[|candidates| - 1] == vs[|vs| - 1]
  {
  }

  /** When the newest is not visible the one before it may be. */
  lemma NextNewestWins(vs: seq<Version>, tx: nat, asOf: Option<string>)
    requires |vs| >= 2 && !IsCandidate(vs[|vs| - 1], tx, asOf) && IsCandidate(vs[|vs| - 2], tx, asOf)
    ensures
      var candidates := Candidates(vs, tx, asOf);
      candidates != [] && candidates[|candidates| - 1] == vs[|vs| - 2]
  {
    var front := vs[..|vs| - 1];
    NewestWins(front, tx, asOf);
    assert Candidates(vs, tx, asOf) == Candidates(front, tx, asOf) + [];
  }

  /**
   A supersede shows at once: reads from its fixed valid time on, and reads
   without one, see the new properties and an open window.  Earlier valid
   times that the previous version covered see its properties, closed.
   */
  lemma SupersedeShows(ops: seq<Operation>, id: string, props: Json, asOf: Option<string>)
    requires Replay(INITIAL, ops).Ok? && History(Replay(INITIAL, ops).value, id) != []
    ensures Replay(INITIAL, ops + [Supersede(id, props)]).Ok?
    ensures
      var past, now := Replay(INITIAL, ops).value, Replay(INITIAL, ops + [Supersede(id, props)]).value;
      var previous := History(past, id)[|History(past, id)| - 1];
      && (asOf.None? || !StringLess(asOf.value, SUPERSEDED_FROM) ==>
            BeliefAt(now, id, now.sequence, asOf) == Ok(Some(Belief(props, Open))))
      && (asOf.Some? && StringLess(asOf.value, SUPERSEDED_FROM)
          && VisibleAt(previous.validFrom, Some(FAR_FUTURE), asOf) ==>
            BeliefAt(now, id, now.sequence, asOf) == Ok(Some(Belief(previous.props, Closed))))
  {
    hide StringLess;
    var past := Replay(INITIAL, ops).value;
    OneMore(ops, Supersede(id, props));
    ReplaySound(INITIAL, ops);
    var now := Apply(past, Supersede(id, props)).value;
    var vs := now.versions[id];
    if asOf.None? || !StringLess(asOf.value, SUPERSEDED_FROM) {
      NewestWins(vs, now.sequence, asOf);
    } else if VisibleAt(vs[|vs| - 2].validFrom, Some(FAR_FUTURE), asOf) {
      NextNewestWins(vs, now.sequence, asOf);
    }
  }

  /** So does a new version of a node, from its own valid time on. */
  lemma AddNodeShows(ops: seq<Operation>, id: string, validFrom: string, props: Json, asOf: Option<string>)
    requires Replay(INITIAL, ops).Ok?
    requires asOf.None? || !StringLess(asOf.value, validFrom)
    ensures Replay(INITIAL, ops + [AddNode(id, validFrom, Some(props))]).Ok?
    ensures
      var now := Replay(INITIAL, ops + [AddNode(id, validFrom, Some(props))]).value;
      BeliefAt(now, id, now.sequence, asOf) == Ok(Some(Belief(props, Open)))
  {
    hide StringLess, Candidates, Replay;
    var past := Replay(INITIAL, ops).value;
    OneMore(ops, AddNode(id, validFrom, Some(props)));
    var now := Apply(past, AddNode(id, validFrom, Some(props))).value;
    NewestWins(now.versions[id], now.sequence, asOf);
  }

  lemma OneMore(ops: seq<Operation>, op: Operation)
    requires Replay(INITIAL, ops).Ok?
    ensures Replay(INITIAL, ops + [op]) == Apply(Replay(INITIAL, ops).value, op)
  {
    ReplayAppend(INITIAL, ops, [op]);
    assert [op][1..] == [];
    var past := Replay(INITIAL, ops).value;
    assert Apply(past, op).Ok? ==> Replay(Apply(past, op).value, []) == Apply(past, op);
  }

  // ---------------------------------------------------------------------
  // The oracle itself
  // ---------------------------------------------------------------------

  /** The body of the replay loop; `fault` is the exception it raises, if any. */
  method ApplyInPlace(operation: Operation, state: State) returns (fault: Option<Fault>, next: State)
    requires forall id | id in state.versions :: state.versions[id] != []
    ensures forall id | id in next.versions :: next.versions[id] != []
    ensures fault.None? ==> Apply(state, operation) == Ok(next)
    ensures fault.Some? ==> Apply(state, operation) == Err(fault.value)
  {
    var versions, edges := state.versions, state.edges;
    var markers, sequence := state.markers, state.sequence;
    fault := None;
    match operation {
      case AddNode(id, validFrom, props) =>
        sequence := sequence + 1;
        if id !in versions {
          versions := versions[id := []];
        }
        var payload := if props.Some? then props.value else JObject([]);
        versions := versions[id := versions[id] + [Version(sequence, validFrom, None, None, payload)]];
        assert versions == Apply(state, operation).value.versions;
      case AddEdge(source, target, validFrom) =>
        sequence := sequence + 1;
        edges := edges + [Edge(sequence, source, target, validFrom, None)];
      case Mark(name) =>
        markers := markers[name := sequence];
      case Supersede(id, newProps) =>
        if id !in versions {
          return Some(UnknownNode(id)), state;
        }
        var last := |versions[id]| - 1;
        var previous := versions[id][last];
        sequence := sequence + 1;
        previous := previous.(validTo := Some(FAR_FUTURE));
        previous := previous.(closedTx := Some(sequence));
        versions := versions[id := versions[id][last := previous]];
        versions := versions[id := versions[id]
                                   + [Version(sequence + 1, SUPERSEDED_FROM, None, None, newProps)]];
        sequence := sequence + 1;
        assert versions == Apply(state, operation).value.versions;
      case Unrecognised(kind) =>
        return Some(UnknownOperation(kind)), state;
    }
    next := State(versions, edges, markers, sequence);
  }

  method ReplayInPlace(operations: seq<Operation>) returns (outcome: Result<State, Fault>)
    ensures outcome == Replay(INITIAL, operations)
  {
    hide Apply;
    var state := INITIAL;
    for n := 0 to |operations|
      invariant Replay(INITIAL, operations) == Replay(state, operations[n..])
      invariant forall id | id in state.versions :: state.versions[id] != []
    {
      assert operations[n..][0] == operations[n] && operations[n..][1..] == operations[n + 1..];
      var fault: Option<Fault>;
      fault, state := ApplyInPlace(operations[n], state);
      if fault.Some? {
        return Err(fault.value);
      }
    }
    assert operations[|operations|..] == [];
    return Ok(state);
  }

  method GraphCase(operations: seq<Operation>, queries: seq<Query>)
      returns (outcome: Result<map<string, Option<Belief>>, Fault>)
    ensures outcome == Evaluate(operations, queries)
  {
    var replayed := ReplayInPlace(operations);
    if replayed.Err? {
      return Err(replayed.error);
    }
    var state := replayed.value;
    var expected: map<string, Option<Belief>> := map[];
    for n := 0 to |queries|
      invariant AnswerAll(state, queries[..n]) == Ok(expected)
    {
      var rows := AnswerQuery(state, queries[n]);
      assert queries[..n + 1][..n] == queries[..n];
      if rows.Err? {
        AnswerAllFails(state, queries, n + 1);
        return Err(rows.error);
      }
      expected := expected[queries[n].id := rows.value];
    }
    assert queries[..|queries|] == queries;
    return Ok(expected);
  }

  /** The first failing query decides the outcome. */
  lemma {:induction false} AnswerAllFails(s: State, queries: seq<Query>, n: nat)
    requires n <= |queries| && AnswerAll(s, queries[..n]).Err?
    ensures AnswerAll(s, queries) == AnswerAll(s, queries[..n])
    decreases |queries|
  {
    if n == |queries| {
      assert queries[..n] == queries;
    } else {
      var last := |queries| - 1;
      assert queries[..last][..n] == queries[..n];
      AnswerAllFails(s, queries[..last], n);
    }
  }
}
