/**
 Reciprocal-rank fusion.  Two benchmarks carry their own copy; one breaks ties
 by id, the other leaves them in hash-map order.  Scores are exact reals.
 */
module RankFusion {
  import opened Prelude

  const RRF_K := 60.0

  // ---------------------------------------------------------------------
  // Scores
  // ---------------------------------------------------------------------

  function Term(rank: nat): (t: real)
    ensures t > 0.0
  {
    1.0 / (RRF_K + rank as real + 1.0)
  }

  lemma TermDecreases(i: nat, j: nat)
    requires i < j
    ensures Term(i) > Term(j)
  {
    var a, b := RRF_K + i as real + 1.0, RRF_K + j as real + 1.0;
    ReciprocalDecreases(a, b);
  }

  lemma ReciprocalDecreases(a: real, b: real)
    requires 0.0 < a < b
    ensures 1.0 / a > 1.0 / b
  {
  }

  /** What one list contributes to `id`. */
  function ScoreIn(list: seq<string>, id: string): (score: real)
    ensures score >= 0.0
  {
    if list == [] then 0.0
    else
      var last := |list| - 1;
      ScoreIn(list[..last], id) + if list[last] == id then Term(last) else 0.0
  }

  function Score(lists: seq<seq<string>>, id: string): (score: real)
    ensures score >= 0.0
  {
    if lists == [] then 0.0
    else Score(lists[..|lists| - 1], id) + ScoreIn(lists[|lists| - 1], id)
  }

  function Ids(lists: seq<seq<string>>): set<string> {
    set list, id | list in lists && id in list :: id
  }

  // ---------------------------------------------------------------------
  // The order
  // ---------------------------------------------------------------------

  /** `x` sorts strictly before `y`: higher score, and on a tie the lesser id if ids break ties. */
  predicate Beats(sx: real, x: string, sy: real, y: string, byId: bool) {
    sx > sy || (byId && sx == sy && StringLess(x, y))
  }

  ghost predicate Outranks(lists: seq<seq<string>>, x: string, y: string, byId: bool) {
    Beats(Score(lists, x), x, Score(lists, y), y, byId)
  }

  lemma NegativelyTransitive(sx: real, x: string, sy: real, y: string, sz: real, z: string, byId: bool)
    requires Beats(sx, x, sz, z, byId) && !Beats(sx, x, sy, y, byId)
    ensures Beats(sy, y, sz, z, byId)
  {
    if sx == sy == sz {
      StringLessTotal(x, y);
      if StringLess(y, x) { StringLessTransitive(y, x, z); }
    }
  }

  /**
   `ids` are the best `k` ids: distinct, none beaten by a later or by an
   omitted one.
   */
  ghost predicate IsTop(lists: seq<seq<string>>, k: nat, ids: seq<string>, byId: bool) {
    && NoDup(ids)
    && Elements(ids) <= Ids(lists)
    && |ids| == (if k < |Ids(lists)| then k else |Ids(lists)|)
    && (forall i, j | 0 <= i < j < |ids| :: !Outranks(lists, ids[j], ids[i], byId))
    && (forall x, i | x in Ids(lists) && x !in ids && 0 <= i < |ids| :: !Outranks(lists, x, ids[i], byId))
  }

  /** Position by position, neither of two top lists is better. */
  lemma NeitherBetter(lists: seq<seq<string>>, k: nat, a: seq<string>, b: seq<string>, byId: bool, i: nat)
    requires IsTop(lists, k, a, byId) && IsTop(lists, k, b, byId)
    requires i < |a|
    ensures !Outranks(lists, a[i], b[i], byId)
  {
    if Outranks(lists, a[i], b[i], byId) {
      forall x | x in Elements(a[..i + 1]) ensures x in Elements(b[..i]) {
        var j :| 0 <= j <= i && a[j] == x;
        AheadOf(lists, k, a, b, byId, i, j);
      }
      NoDupCardinality(a[..i + 1]);
      NoDupCardinality(b[..i]);
      SubsetCardinality(Elements(a[..i + 1]), Elements(b[..i]));
      assert false;
    }
  }

  lemma WinnerIsNotLater(lists: seq<seq<string>>, k: nat, ids: seq<string>, byId: bool, winner: nat, loser: nat)
    requires IsTop(lists, k, ids, byId) && winner < |ids| && loser < |ids|
    requires Outranks(lists, ids[winner], ids[loser], byId)
    ensures winner <= loser
  {
  }

  lemma AheadOf(lists: seq<seq<string>>, k: nat, a: seq<string>, b: seq<string>, byId: bool, i: nat, j: nat)
    requires IsTop(lists, k, a, byId) && IsTop(lists, k, b, byId)
    requires j <= i < |a| && Outranks(lists, a[i], b[i], byId)
    ensures a[j] in b[..i]
  {
    var x, z := a[j], b[i];
    if j < i {
      assert !Outranks(lists, a[i], x, byId);
      NegativelyTransitive(Score(lists, a[i]), a[i], Score(lists, x), x, Score(lists, z), z, byId);
    }
    assert Outranks(lists, x, z, byId);
    assert x in Elements(a);
    assert x in b;
    var m :| 0 <= m < |b| && b[m] == x;
    StringLessIrreflexive(z);
    WinnerIsNotLater(lists, k, b, byId, m, i);
  }

  /** With the tie-break the result is determined: no map order can change it. */
  lemma TieBrokenTopUnique(lists: seq<seq<string>>, k: nat, a: seq<string>, b: seq<string>)
    requires IsTop(lists, k, a, true) && IsTop(lists, k, b, true)
    ensures a == b
  {
    forall i | 0 <= i < |a| ensures a[i] == b[i] {
      NeitherBetter(lists, k, a, b, true, i);
      NeitherBetter(lists, k, b, a, true, i);
      StringLessTotal(a[i], b[i]);
    }
  }

  /** A tie-broken result is one of the results of the version without tie-break. */
  lemma TieBreakRefines(lists: seq<seq<string>>, k: nat, ids: seq<string>)
    requires IsTop(lists, k, ids, true)
    ensures IsTop(lists, k, ids, false)
  {
  }

  /** A returned id has the score of another id, returned or not. */
  ghost predicate ReturnedTie(lists: seq<seq<string>>, ids: seq<string>) {
    exists x, y | x in ids && y in Ids(lists) && x != y :: Score(lists, x) == Score(lists, y)
  }

  /**
   The two versions agree on the sequence of scores for every input and map
   order, and on the ids whenever no returned id ties.
   */
  lemma VersionsAgree(lists: seq<seq<string>>, k: nat, bench: seq<string>, libsql: seq<string>)
    requires IsTop(lists, k, bench, true) && IsTop(lists, k, libsql, false)
    ensures |bench| == |libsql|
    ensures forall i | 0 <= i < |bench| :: Score(lists, bench[i]) == Score(lists, libsql[i])
    ensures !ReturnedTie(lists, bench) ==> bench == libsql
  {
    TieBreakRefines(lists, k, bench);
    forall i | 0 <= i < |bench| ensures Score(lists, bench[i]) == Score(lists, libsql[i]) {
      NeitherBetter(lists, k, bench, libsql, false, i);
      NeitherBetter(lists, k, libsql, bench, false, i);
    }
    if !ReturnedTie(lists, bench) {
      forall i | 0 <= i < |bench| ensures bench[i] == libsql[i] {
        assert bench[i] in bench && libsql[i] in Elements(libsql);
      }
    }
  }

  /** Without tie-break only scores matter, so ids of equal score can stand for each other. */
  lemma SameScoresTop(lists: seq<seq<string>>, k: nat, bench: seq<string>, other: seq<string>)
    requires IsTop(lists, k, bench, true)
    requires NoDup(other) && Elements(other) <= Ids(lists) && |other| == |bench|
    requires forall i | 0 <= i < |bench| :: Score(lists, bench[i]) == Score(lists, other[i])
    requires forall x | x in Ids(lists) && x !in other ::
      exists y | y in Ids(lists) && y !in bench :: Score(lists, x) == Score(lists, y)
    ensures IsTop(lists, k, other, false)
  {
    forall i, j | 0 <= i < j < |other| ensures !Outranks(lists, other[j], other[i], false) {
      assert !Outranks(lists, bench[j], bench[i], true);
    }
    forall x, i | x in Ids(lists) && x !in other && 0 <= i < |other|
      ensures !Outranks(lists, x, other[i], false)
    {
      var y :| y in Ids(lists) && y !in bench && Score(lists, x) == Score(lists, y);
      assert !Outranks(lists, y, bench[i], true);
    }
  }

  /** Swapping two returned ids of equal score. */
  lemma TiedSwapped(lists: seq<seq<string>>, k: nat, bench: seq<string>, i: nat, j: nat)
    requires IsTop(lists, k, bench, true)
    requires i < |bench| && j < |bench| && i != j && Score(lists, bench[i]) == Score(lists, bench[j])
    ensures IsTop(lists, k, bench[i := bench[j]][j := bench[i]], false)
  {
    hide Score, Ids;
    var other := bench[i := bench[j]][j := bench[i]];
    forall z ensures z in other <==> z in bench {
      if n :| 0 <= n < |bench| && bench[n] == z { assert z == other[if n == i then j else if n == j then i else n]; }
      if n :| 0 <= n < |bench| && other[n] == z { assert z == bench[if n == i then j else if n == j then i else n]; }
    }
    assert Elements(other) == Elements(bench);
    SameScoresTop(lists, k, bench, other);
  }

  /** Returning an omitted id in the place of one of equal score. */
  lemma TiedReplaced(lists: seq<seq<string>>, k: nat, bench: seq<string>, i: nat, y: string)
    requires IsTop(lists, k, bench, true)
    requires i < |bench| && y in Ids(lists) && y !in bench && Score(lists, bench[i]) == Score(lists, y)
    ensures IsTop(lists, k, bench[i := y], false)
  {
    hide Score, Ids, Outranks;
    var other := bench[i := y];
    forall z | z in other ensures z in Ids(lists) {
      assert z == y || z in Elements(bench);
    }
    forall n | 0 <= n < |bench| && n != i ensures bench[n] in other {
      assert other[n] == bench[n];
    }
    forall x | x in Ids(lists) && x !in other
      ensures exists z | z in Ids(lists) && z !in bench :: Score(lists, x) == Score(lists, z)
    {
      assert x in bench ==> x == bench[i];
    }
    SameScoresTop(lists, k, bench, other);
  }

  /** From a tie, another result of the version without tie-break. */
  lemma TieHasAlternative(lists: seq<seq<string>>, k: nat, bench: seq<string>) returns (other: seq<string>)
    requires IsTop(lists, k, bench, true) && ReturnedTie(lists, bench)
    ensures IsTop(lists, k, other, false) && other != bench
  {
    hide IsTop, Score, Ids;
    var x, y :| x in bench && y in Ids(lists) && x != y && Score(lists, x) == Score(lists, y);
    var i :| 0 <= i < |bench| && bench[i] == x;
    if y in bench {
      var j :| 0 <= j < |bench| && bench[j] == y;
      other := bench[i := y][j := x];
      TiedSwapped(lists, k, bench, i, j);
    } else {
      other := bench[i := y];
      TiedReplaced(lists, k, bench, i, y);
    }
    assert other[i] == y;
  }

  // ---------------------------------------------------------------------
  // The order of the lists
  // ---------------------------------------------------------------------

  lemma {:induction false} ScoreWithout(lists: seq<seq<string>>, i: nat, id: string)
    requires i < |lists|
    ensures Score(lists, id) == Score(lists[..i] + lists[i + 1..], id) + ScoreIn(lists[i], id)
  {
    var last := |lists| - 1;
    var rest := lists[..i] + lists[i + 1..];
    if i == last {
      assert rest == lists[..last];
    } else {
      ScoreWithout(lists[..last], i, id);
      assert rest[..|rest| - 1] == lists[..last][..i] + lists[..last][i + 1..];
      assert rest[|rest| - 1] == lists[last];
    }
  }

  lemma RemoveAt<T>(s: seq<T>, i: nat)
    requires i < |s|
    ensures multiset(s[..i] + s[i + 1..]) == multiset(s) - multiset{s[i]}
  {
    assert s == s[..i] + [s[i]] + s[i + 1..];
  }

  lemma {:induction false} ScorePermuted(a: seq<seq<string>>, b: seq<seq<string>>, id: string)
    requires multiset(a) == multiset(b)
    ensures Score(a, id) == Score(b, id)
    decreases |a|
  {
    hide ScoreIn;
    if a == [] {
      assert |multiset(b)| == 0;
    } else {
      var last := |a| - 1;
      var i := PositionOf(a, b, a[last]);
      var rest := b[..i] + b[i + 1..];
      assert multiset(a[..last]) == multiset(rest) by {
        hide Score;
        RemoveAt(a, last);
        assert a[..last] + a[last + 1..] == a[..last];
        RemoveAt(b, i);
      }
      ScorePermuted(a[..last], rest, id);
      ScoreWithout(b, i, id);
    }
  }

  lemma PositionOf<T>(a: seq<T>, b: seq<T>, x: T) returns (i: nat)
    requires multiset(a) == multiset(b) && x in a
    ensures i < |b| && b[i] == x
  {
    assert x in multiset(b);
    i :| 0 <= i < |b| && b[i] == x;
  }

  /** Permuting the ranked lists changes nothing. */
  lemma FusionIgnoresListOrder(a: seq<seq<string>>, b: seq<seq<string>>, k: nat, x: seq<string>, y: seq<string>)
    requires multiset(a) == multiset(b)
    requires IsTop(a, k, x, true) && IsTop(b, k, y, true)
    ensures x == y
  {
    assert Ids(a) == Ids(b) by {
      assert forall list :: list in a <==> list in multiset(a);
      assert forall list :: list in b <==> list in multiset(b);
    }
    forall id ensures Score(a, id) == Score(b, id) {
      ScorePermuted(a, b, id);
    }
    assert IsTop(a, k, y, true) by {
      forall i, j | 0 <= i < j < |y| ensures !Outranks(a, y[j], y[i], true) {
        assert !Outranks(b, y[j], y[i], true);
      }
      forall z, i | z in Ids(a) && z !in y && 0 <= i < |y| ensures !Outranks(a, z, y[i], true) {
        assert !Outranks(b, z, y[i], true);
      }
    }
    TieBrokenTopUnique(a, k, x, y);
  }

  // ---------------------------------------------------------------------
  // Dominance
  // ---------------------------------------------------------------------

  lemma {:induction false} ScoreInAbsent(list: seq<string>, id: string)
    requires id !in list
    ensures ScoreIn(list, id) == 0.0
  {
    if list != [] { ScoreInAbsent(list[..|list| - 1], id); }
  }

  lemma {:induction false} ScoreInOnce(list: seq<string>, i: nat)
    requires NoDup(list) && i < |list|
    ensures ScoreIn(list, list[i]) == Term(i)
  {
    var last := |list| - 1;
    if i == last {
      ScoreInAbsent(list[..last], list[i]);
    } else {
      ScoreInOnce(list[..last], i);
    }
  }

  ghost predicate PrecedesIn(list: seq<string>, a: string, b: string) {
    exists i, j | 0 <= i < j < |list| :: list[i] == a && list[j] == b
  }

  lemma DominatedInList(list: seq<string>, a: string, b: string)
    requires NoDup(list) && (b in list ==> PrecedesIn(list, a, b))
    ensures ScoreIn(list, a) >= ScoreIn(list, b)
    ensures b in list ==> ScoreIn(list, a) > ScoreIn(list, b)
  {
    if b in list {
      var i, j :| 0 <= i < j < |list| && list[i] == a && list[j] == b;
      ScoreInOnce(list, i);
      ScoreInOnce(list, j);
      TermDecreases(i, j);
    } else {
      ScoreInAbsent(list, b);
    }
  }

  lemma {:induction false} DominatedScore(lists: seq<seq<string>>, a: string, b: string)
    requires forall list | list in lists :: NoDup(list) && (b in list ==> PrecedesIn(list, a, b))
    ensures Score(lists, a) >= Score(lists, b)
    ensures b in Ids(lists) ==> Score(lists, a) > Score(lists, b) && a in Ids(lists)
  {
    if lists != [] {
      var front, last := lists[..|lists| - 1], lists[|lists| - 1];
      DominatedScore(front, a, b);
      assert last in lists;
      DominatedInList(last, a, b);
      assert lists == front + [last];
      if b in Ids(lists) {
        assert b in last || b in Ids(front);
        if b in last { assert PrecedesIn(last, a, b); assert a in last; }
      }
    }
  }

  /** An id ahead of another in every list that holds the other is never placed below it. */
  lemma DominanceKept(lists: seq<seq<string>>, k: nat, ids: seq<string>, byId: bool, a: string, b: string)
    requires IsTop(lists, k, ids, byId)
    requires forall list | list in lists :: NoDup(list) && (b in list ==> PrecedesIn(list, a, b))
    requires b in ids
    ensures PrecedesIn(ids, a, b)
  {
    var j :| 0 <= j < |ids| && ids[j] == b;
    assert b in Elements(ids);
    DominatedScore(lists, a, b);
    assert Outranks(lists, a, b, byId);
    assert a in ids;
    var i :| 0 <= i < |ids| && ids[i] == a;
    WinnerIsNotLater(lists, k, ids, byId, i, j);
  }

  // ---------------------------------------------------------------------
  // How much a rank is worth
  // ---------------------------------------------------------------------

  /** Over the three lists, `a` at rank `r` of the last two and `b` heading the first. */
  lemma TwoAgainstOneScores(first: seq<string>, x: seq<string>, y: seq<string>, a: string, b: string, r: nat)
    requires NoDup(first) && NoDup(x) && NoDup(y)
    requires first != [] && first[0] == b && a !in first
    requires r < |x| && r < |y| && x[r] == a && y[r] == a && b !in x && b !in y
    ensures Score([first, x, y], a) == Term(r) + Term(r)
    ensures Score([first, x, y], b) == Term(0)
  {
    hide ScoreIn;
    var lists := [first, x, y];
    assert lists[..2] == [first, x] && [first, x][..1] == [first] && [first][..0] == [];
    ScoreInOnce(first, 0);
    ScoreInOnce(x, r);
    ScoreInOnce(y, r);
    ScoreInAbsent(first, a);
    ScoreInAbsent(x, b);
    ScoreInAbsent(y, b);
    forall id ensures Score(lists, id) == ScoreIn(first, id) + ScoreIn(x, id) + ScoreIn(y, id) {
      assert Score([first], id) == ScoreIn(first, id);
      assert Score([first, x], id) == ScoreIn(first, id) + ScoreIn(x, id);
    }
  }

  lemma TermIsReciprocal(rank: nat)
    ensures Term(rank) * (61 + rank) as real == 1.0
  {
  }

  /** Two lists outweigh the head of one exactly down to rank 60, counted from zero; at rank 61 they tie. */
  lemma TwoListsOutweighOne(first: seq<string>, x: seq<string>, y: seq<string>, a: string, b: string, r: nat)
    requires NoDup(first) && NoDup(x) && NoDup(y)
    requires first != [] && first[0] == b && a !in first
    requires r < |x| && r < |y| && x[r] == a && y[r] == a && b !in x && b !in y
    ensures Score([first, x, y], a) > Score([first, x, y], b) <==> r < 61
    ensures Score([first, x, y], a) == Score([first, x, y], b) <==> r == 61
  {
    hide Term, Score;
    TwoAgainstOneScores(first, x, y, a, b, r);
    TermIsReciprocal(r);
    TermIsReciprocal(0);
    TermIsReciprocal(61);
    if r < 61 { TermDecreases(r, 61); }
    if r > 61 { TermDecreases(61, r); }
  }

  // ---------------------------------------------------------------------
  // The fusion itself
  // ---------------------------------------------------------------------

  datatype Entry = Entry(id: string, score: real)

  predicate EntryBeats(x: Entry, y: Entry, byId: bool) {
    Beats(x.score, x.id, y.score, y.id, byId)
  }

  /** `score` holds the sums over the lists before the last and the first `n` ranks of it. */
  ghost predicate Accumulated(lists: seq<seq<string>>, list: seq<string>, score: map<string, real>) {
    && score.Keys == Ids(lists) + Elements(list)
    && forall id | id in score :: score[id] == Score(lists, id) + ScoreIn(list, id)
  }

  lemma AccumulateOne(lists: seq<seq<string>>, list: seq<string>, j: nat, score: map<string, real>)
    requires j < |list| && Accumulated(lists, list[..j], score)
    ensures
      var id := list[j];
      var was := if id in score then score[id] else 0.0;
      Accumulated(lists, list[..j + 1], score[id := was + Term(j)])
  {
    var id := list[j];
    var next := list[..j + 1];
    assert next[..j] == list[..j];
    if id !in score {
      AbsentScore(lists, id);
      ScoreInAbsent(list[..j], id);
    }
    assert Elements(next) == Elements(list[..j]) + {id};
  }

  lemma {:induction false} AbsentScore(lists: seq<seq<string>>, id: string)
    requires id !in Ids(lists)
    ensures Score(lists, id) == 0.0
  {
    if lists != [] {
      var front, last := lists[..|lists| - 1], lists[|lists| - 1];
      assert last in lists;
      assert forall list | list in front :: list in lists;
      AbsentScore(front, id);
      ScoreInAbsent(last, id);
    }
  }

  lemma AccumulateList(lists: seq<seq<string>>, i: nat, score: map<string, real>)
    requires i < |lists| && Accumulated(lists[..i], lists[i], score)
    ensures Accumulated(lists[..i + 1], [], score)
  {
    var next := lists[..i + 1];
    assert next[..i] == lists[..i];
    assert Ids(next) == Ids(lists[..i]) + Elements(lists[i]) by {
      assert next == lists[..i] + [lists[i]];
    }
    assert Elements<string>([]) == {};
  }

  method Accumulate(lists: seq<seq<string>>) returns (score: map<string, real>)
    ensures score.Keys == Ids(lists)
    ensures forall id | id in score :: score[id] == Score(lists, id)
  {
    score := map[];
    for i := 0 to |lists|
      invariant Accumulated(lists[..i], [], score)
    {
      var list := lists[i];
      for rank := 0 to |list|
        invariant Accumulated(lists[..i], list[..rank], score)
      {
        var id := list[rank];
        AccumulateOne(lists[..i], list, rank, score);
        var was := if id in score then score[id] else 0.0;
        score := score[id := was + Term(rank)];
      }
      assert list[..|list|] == list;
      AccumulateList(lists, i, score);
    }
    assert lists[..|lists|] == lists;
  }

  /** Exactly the pairs of the map, each once. */
  ghost predicate ListsMap(score: map<string, real>, v: seq<Entry>) {
    && (forall i, j | 0 <= i < j < |v| :: v[i].id != v[j].id)
    && (forall i | 0 <= i < |v| :: v[i].id in score && v[i].score == score[v[i].id])
    && (forall id | id in score :: Listed(v, id))
  }

  ghost predicate Listed(v: seq<Entry>, id: string) {
    exists i | 0 <= i < |v| :: v[i].id == id
  }

  /** Iterating a hash map: any order. */
  method Drain(score: map<string, real>) returns (v: seq<Entry>)
    ensures ListsMap(score, v)
  {
    v := [];
    var rest := score.Keys;
    while rest != {}
      invariant rest <= score.Keys
      invariant forall i, j | 0 <= i < j < |v| :: v[i].id != v[j].id
      invariant forall i | 0 <= i < |v| :: v[i].id in score.Keys - rest && v[i].score == score[v[i].id]
      invariant forall id | id in score && id !in rest :: Listed(v, id)
      decreases |rest|
    {
      var id :| id in rest;
      ghost var was := v;
      v := v + [Entry(id, score[id])];
      rest := rest - {id};
      forall other | other in score && other !in rest ensures Listed(v, other) {
        if other == id {
          assert v[|was|].id == other;
        } else {
          assert Listed(was, other);
          var i :| 0 <= i < |was| && was[i].id == other;
          assert v[i].id == other;
        }
      }
    }
  }

  ghost predicate SortedEntries(v: seq<Entry>, byId: bool) {
    forall i, j | 0 <= i < j < |v| :: !EntryBeats(v[j], v[i], byId)
  }

  /** Where a stable sort puts `x` behind the entries of `ranked`. */
  method PlaceFor(ranked: seq<Entry>, x: Entry, byId: bool) returns (at: nat)
    ensures at <= |ranked|
    ensures forall j | at <= j < |ranked| :: EntryBeats(x, ranked[j], byId)
    ensures at < |ranked| ==> EntryBeats(x, ranked[|ranked| - 1], byId)
    ensures at > 0 ==> !EntryBeats(x, ranked[at - 1], byId)
  {
    hide EntryBeats;
    at := |ranked|;
    while at > 0 && EntryBeats(x, ranked[at - 1], byId)
      invariant 0 <= at <= |ranked|
      invariant forall j | at <= j < |ranked| :: EntryBeats(x, ranked[j], byId)
    {
      at := at - 1;
    }
  }

  /** A stable comparison sort: each entry is moved down to its place in the sorted prefix. */
  method Sort(v: seq<Entry>, byId: bool) returns (ranked: seq<Entry>)
    ensures multiset(ranked) == multiset(v)
    ensures SortedEntries(ranked, byId)
    ensures SortedEntries(v, byId) ==> ranked == v
  {
    hide EntryBeats, SortedEntries;
    NothingSorted(byId);
    ranked := [];
    for i := 0 to |v|
      invariant multiset(ranked) == multiset(v[..i])
      invariant SortedEntries(ranked, byId)
      invariant SortedEntries(v, byId) ==> ranked == v[..i]
    {
      var at := PlaceFor(ranked, v[i], byId);
      InsertSorted(ranked, v[i], at, byId);
      OneMore(v, i, ranked, at);
      if SortedEntries(v, byId) {
        SortedStays(v, i, at, byId);
      }
      ranked := ranked[..at] + [v[i]] + ranked[at..];
    }
    assert v[..|v|] == v;
  }

  lemma SortedStays(v: seq<Entry>, i: nat, at: nat, byId: bool)
    requires SortedEntries(v, byId) && at <= i < |v|
    requires at < i ==> EntryBeats(v[i], v[i - 1], byId)
    ensures at == i && v[..i][..at] + [v[i]] + v[..i][at..] == v[..i + 1]
  {
    hide EntryBeats;
  }

  lemma OneMore(v: seq<Entry>, i: nat, ranked: seq<Entry>, at: nat)
    requires i < |v| && at <= |ranked| && multiset(ranked) == multiset(v[..i])
    ensures multiset(ranked[..at] + [v[i]] + ranked[at..]) == multiset(v[..i + 1])
  {
    assert ranked == ranked[..at] + ranked[at..];
    assert v[..i + 1] == v[..i] + [v[i]];
  }

  lemma NothingSorted(byId: bool)
    ensures SortedEntries([], byId)
  {
  }

  lemma InsertSorted(s: seq<Entry>, x: Entry, at: nat, byId: bool)
    requires SortedEntries(s, byId) && at <= |s|
    requires forall j | at <= j < |s| :: EntryBeats(x, s[j], byId)
    requires at > 0 ==> !EntryBeats(x, s[at - 1], byId)
    ensures SortedEntries(s[..at] + [x] + s[at..], byId)
  {
    var t := s[..at] + [x] + s[at..];
    forall i, j | 0 <= i < j < |t| ensures !EntryBeats(t[j], t[i], byId) {
      if j == at {
        if i < at - 1 && EntryBeats(x, s[i], byId) {
          var y := s[at - 1];
          assert !EntryBeats(y, s[i], byId);
          NegativelyTransitive(x.score, x.id, y.score, y.id, s[i].score, s[i].id, byId);
        }
      } else if i == at {
        BeatsAsymmetric(x, s[j - 1], byId);
      }
    }
  }

  lemma BeatsAsymmetric(x: Entry, y: Entry, byId: bool)
    requires EntryBeats(x, y, byId)
    ensures !EntryBeats(y, x, byId)
  {
    if x.score == y.score { StringLessAsymmetric(x.id, y.id); }
  }

  lemma MemberOfPermutation(v: seq<Entry>, ranked: seq<Entry>, e: Entry)
    requires multiset(ranked) == multiset(v)
    ensures e in ranked <==> e in v
  {
    assert e in ranked <==> e in multiset(ranked);
    assert e in v <==> e in multiset(v);
  }

  /** A permutation of a listing of the map is a listing of the map. */
  lemma ListingPermuted(score: map<string, real>, v: seq<Entry>, ranked: seq<Entry>)
    requires ListsMap(score, v) && multiset(ranked) == multiset(v)
    ensures ListsMap(score, ranked)
  {
    forall i, j | 0 <= i < j < |ranked| ensures ranked[i].id != ranked[j].id {
      if ranked[i].id == ranked[j].id {
        MemberOfPermutation(v, ranked, ranked[i]);
        MemberOfPermutation(v, ranked, ranked[j]);
        OccursOnce(score, v, ranked[i]);
        TwoOccurrences(ranked, i, j);
      }
    }
    forall i | 0 <= i < |ranked| ensures ranked[i].id in score && ranked[i].score == score[ranked[i].id] {
      MemberOfPermutation(v, ranked, ranked[i]);
    }
    forall id | id in score ensures Listed(ranked, id) {
      assert Listed(v, id);
      var i :| 0 <= i < |v| && v[i].id == id;
      MemberOfPermutation(v, ranked, v[i]);
      var j :| 0 <= j < |ranked| && ranked[j] == v[i];
      assert ranked[j].id == id;
    }
  }

  lemma OccursOnce(score: map<string, real>, v: seq<Entry>, e: Entry)
    requires ListsMap(score, v)
    ensures multiset(v)[e] <= 1
  {
    if multiset(v)[e] > 0 {
      var i :| 0 <= i < |v| && v[i] == e;
      assert v == v[..i] + [e] + v[i + 1..];
      assert e !in v[..i] && e !in v[i + 1..];
    }
  }

  lemma TwoOccurrences(s: seq<Entry>, i: nat, j: nat)
    requires i < j < |s| && s[i] == s[j]
    ensures multiset(s)[s[i]] >= 2
  {
    assert s == s[..i] + [s[i]] + s[i + 1..j] + [s[j]] + s[j + 1..];
  }

  lemma ListingSize(score: map<string, real>, v: seq<Entry>)
    requires ListsMap(score, v)
    ensures |v| == |score|
  {
    var ids := seq(|v|, i requires 0 <= i < |v| => v[i].id);
    assert Elements(ids) == score.Keys by {
      forall id | id in score ensures id in ids {
        assert Listed(v, id);
        var i :| 0 <= i < |v| && v[i].id == id;
        assert ids[i] == id;
      }
    }
    NoDupCardinality(ids);
  }

  method TakeIds(ranked: seq<Entry>, k: nat) returns (ids: seq<string>)
    ensures |ids| == if k < |ranked| then k else |ranked|
    ensures forall i | 0 <= i < |ids| :: ids[i] == ranked[i].id
  {
    ids := [];
    while |ids| < k && |ids| < |ranked|
      invariant |ids| <= k && |ids| <= |ranked|
      invariant forall i | 0 <= i < |ids| :: ids[i] == ranked[i].id
      decreases |ranked| - |ids|
    {
      ids := ids + [ranked[|ids|].id];
    }
  }

  lemma SortedPrefixIsTop(lists: seq<seq<string>>, score: map<string, real>, ranked: seq<Entry>,
                          k: nat, ids: seq<string>, byId: bool)
    requires score.Keys == Ids(lists) && forall id | id in score :: score[id] == Score(lists, id)
    requires ListsMap(score, ranked) && SortedEntries(ranked, byId)
    requires |ids| == if k < |ranked| then k else |ranked|
    requires forall i | 0 <= i < |ids| :: ids[i] == ranked[i].id
    ensures IsTop(lists, k, ids, byId)
  {
    ListingSize(score, ranked);
    forall i, j | 0 <= i < j < |ids| ensures !Outranks(lists, ids[j], ids[i], byId) {
      assert !EntryBeats(ranked[j], ranked[i], byId);
    }
    forall x, i | x in Ids(lists) && x !in ids && 0 <= i < |ids| ensures !Outranks(lists, x, ids[i], byId) {
      assert x in score && Listed(ranked, x);
      var j :| 0 <= j < |ranked| && ranked[j].id == x;
      forall q | 0 <= q < |ids| ensures ranked[q].id != x {
        assert ids[q] in ids;
      }
      assert !EntryBeats(ranked[j], ranked[i], byId);
    }
  }

  /** `rrf` of the SQLite benchmark: ties go to the lesser id. */
  method RrfTieBroken(lists: seq<seq<string>>, k: nat) returns (ids: seq<string>)
    ensures IsTop(lists, k, ids, true)
  {
    var score := Accumulate(lists);
    var v := Drain(score);
    var ranked := Sort(v, true);
    ListingPermuted(score, v, ranked);
    ids := TakeIds(ranked, k);
    SortedPrefixIsTop(lists, score, ranked, k, ids, true);
  }

  /** The ids of the first `k` entries. */
  ghost predicate FirstIds(v: seq<Entry>, k: nat, ids: seq<string>) {
    && |ids| == (if k < |v| then k else |v|)
    && forall i | 0 <= i < |ids| :: ids[i] == v[i].id
  }

  /** Sort and cut, for the entries in the order in which the map gave them. */
  method RankInMapOrder(v: seq<Entry>, k: nat) returns (ids: seq<string>)
    ensures exists ranked ::
      multiset(ranked) == multiset(v) && SortedEntries(ranked, false) && FirstIds(ranked, k, ids)
    ensures SortedEntries(v, false) ==> FirstIds(v, k, ids)
  {
    var ranked := Sort(v, false);
    var kept := if |ranked| > k then ranked[..k] else ranked;
    ids := TakeIds(kept, |kept|);
    assert FirstIds(ranked, k, ids);
  }

  /** `rrf` of the libSQL benchmark: ties stay in map order. */
  method RrfMapOrder(lists: seq<seq<string>>, k: nat) returns (ids: seq<string>)
    ensures IsTop(lists, k, ids, false)
  {
    var score := Accumulate(lists);
    var v := Drain(score);
    ids := RankInMapOrder(v, k);
    ghost var ranked :|
      multiset(ranked) == multiset(v) && SortedEntries(ranked, false) && FirstIds(ranked, k, ids);
    ListingPermuted(score, v, ranked);
    SortedPrefixIsTop(lists, score, ranked, k, ids, false);
  }

  // ---------------------------------------------------------------------
  // When the two versions differ
  // ---------------------------------------------------------------------

  ghost function Above(lists: seq<seq<string>>, x: string): set<string> {
    set z | z in Ids(lists) && Score(lists, z) > Score(lists, x)
  }

  /** Two ids tie, and fewer than `k` score above them. */
  ghost predicate Contested(lists: seq<seq<string>>, k: nat) {
    exists x, y | x in Ids(lists) && y in Ids(lists) && x != y ::
      Score(lists, x) == Score(lists, y) && |Above(lists, x)| < k
  }

  /** `v` is an order of the score map that sorting leaves alone, and `ids` what is returned for it. */
  ghost predicate Arises(lists: seq<seq<string>>, k: nat, v: seq<Entry>, ids: seq<string>) {
    ListsMap(ScoreMap(lists), v) && SortedEntries(v, false) && FirstIds(v, k, ids)
  }

  function ScoreMap(lists: seq<seq<string>>): map<string, real> {
    map id | id in Ids(lists) :: Score(lists, id)
  }

  lemma ReturnedIsContested(lists: seq<seq<string>>, k: nat, bench: seq<string>)
    requires IsTop(lists, k, bench, true) && ReturnedTie(lists, bench)
    ensures Contested(lists, k)
  {
    hide Score, Ids;
    var x, y :| x in bench && y in Ids(lists) && x != y && Score(lists, x) == Score(lists, y);
    var i :| 0 <= i < |bench| && bench[i] == x;
    var ahead := bench[..i];
    forall z | z in Above(lists, x) ensures z in Elements(ahead) {
      assert Outranks(lists, z, x, true);
      assert z in bench;
      var j :| 0 <= j < |bench| && bench[j] == z;
      WinnerIsNotLater(lists, k, bench, true, j, i);
      assert ahead[j] == z;
    }
    assert NoDup(ahead);
    NoDupCardinality(ahead);
    SubsetCardinality(Above(lists, x), Elements(ahead));
    assert x in Elements(bench);
  }

  lemma ContestedIsReturned(lists: seq<seq<string>>, k: nat, bench: seq<string>)
    requires IsTop(lists, k, bench, true) && Contested(lists, k)
    ensures ReturnedTie(lists, bench)
  {
    hide Score, Ids;
    var x, y :| x in Ids(lists) && y in Ids(lists) && x != y
                && Score(lists, x) == Score(lists, y) && |Above(lists, x)| < k;
    NoDupCardinality(bench);
    if x !in bench {
      SubsetCardinality(Elements(bench), Ids(lists));
      assert |bench| == k;
      if Elements(bench) <= Above(lists, x) {
        SubsetCardinality(Elements(bench), Above(lists, x));
        assert false;
      }
      var b :| b in Elements(bench) && b !in Above(lists, x);
      var i :| 0 <= i < |bench| && bench[i] == b;
      assert !Outranks(lists, x, bench[i], true);
      assert b in bench && b != x && Score(lists, b) == Score(lists, x);
    }
  }

  lemma BestOf(lists: seq<seq<string>>, pool: set<string>) returns (best: string)
    requires pool != {}
    ensures best in pool && forall z | z in pool :: Score(lists, z) <= Score(lists, best)
  {
    hide Score;
    var x :| x in pool;
    best := x;
    var rest := pool - {x};
    if rest != {} {
      var other := BestOf(lists, rest);
      if Score(lists, other) > Score(lists, x) { best := other; }
    }
    forall z | z in pool ensures Score(lists, z) <= Score(lists, best) {
      assert z == x || z in rest;
    }
  }

  ghost predicate Descending(lists: seq<seq<string>>, ids: seq<string>) {
    forall i, j | 0 <= i < j < |ids| :: Score(lists, ids[i]) >= Score(lists, ids[j])
  }

  lemma SortPool(lists: seq<seq<string>>, pool: set<string>) returns (ids: seq<string>)
    ensures NoDup(ids) && Elements(ids) == pool && Descending(lists, ids)
  {
    hide Score;
    ids := [];
    if pool != {} {
      var best := BestOf(lists, pool);
      var rest := SortPool(lists, pool - {best});
      ids := [best] + rest;
      assert Elements(ids) == {best} + Elements(rest);
      assert forall i | 0 <= i < |rest| :: rest[i] in Elements(rest);
    }
  }

  /** All ids in descending order of score are an order in which the map can give them. */
  lemma OrderArises(lists: seq<seq<string>>, k: nat, all: seq<string>, ids: seq<string>) returns (v: seq<Entry>)
    requires NoDup(all) && Elements(all) == Ids(lists) && Descending(lists, all)
    requires ids <= all && |ids| == if k < |all| then k else |all|
    ensures Arises(lists, k, v, ids)
  {
    hide Score, Ids;
    v := seq(|all|, i requires 0 <= i < |all| => Entry(all[i], Score(lists, all[i])));
    assert forall i | 0 <= i < |all| :: all[i] in Elements(all);
    forall id | id in Ids(lists) ensures Listed(v, id) {
      assert id in Elements(all);
      var i :| 0 <= i < |all| && all[i] == id;
      assert v[i].id == id;
    }
  }

  /** Returned ids followed by the omitted ones. */
  lemma DescendingAppend(lists: seq<seq<string>>, k: nat, ids: seq<string>, rest: seq<string>)
    requires IsTop(lists, k, ids, false)
    requires Descending(lists, rest) && Elements(rest) == Ids(lists) - Elements(ids)
    ensures Descending(lists, ids + rest)
  {
    hide Score, Ids;
    var all := ids + rest;
    forall i, j | 0 <= i < j < |all| ensures Score(lists, all[i]) >= Score(lists, all[j]) {
      if i < |ids| {
        assert j >= |ids| ==> all[j] in Elements(rest);
        assert !Outranks(lists, all[j], ids[i], false);
      }
    }
  }

  /** Every result without tie-break is what some map order gives. */
  lemma EveryTopArises(lists: seq<seq<string>>, k: nat, ids: seq<string>) returns (v: seq<Entry>)
    requires IsTop(lists, k, ids, false)
    ensures Arises(lists, k, v, ids)
  {
    hide Score, Ids, Arises, Descending, NoDup, Outranks, Elements;
    var rest := SortPool(lists, Ids(lists) - Elements(ids));
    NoDupAppend(ids, rest);
    DescendingAppend(lists, k, ids, rest);
    NoDupCardinality(ids + rest);
    v := OrderArises(lists, k, ids + rest, ids);
  }

  /**
   The versions return the same ids, whatever the map order, exactly when no
   tie reaches into the first `k` places.
   */
  lemma VersionsAgreeExactly(lists: seq<seq<string>>, k: nat, bench: seq<string>)
    requires IsTop(lists, k, bench, true)
    ensures (forall libsql | IsTop(lists, k, libsql, false) :: libsql == bench) <==> !Contested(lists, k)
    ensures (forall v, libsql | Arises(lists, k, v, libsql) :: libsql == bench) <==> !Contested(lists, k)
  {
    hide IsTop, Score, Ids, Arises, Contested, ReturnedTie;
    if Contested(lists, k) {
      ContestedIsReturned(lists, k, bench);
      var other := TieHasAlternative(lists, k, bench);
      var v := EveryTopArises(lists, k, other);
    } else {
      if ReturnedTie(lists, bench) { ReturnedIsContested(lists, k, bench); }
      forall libsql | IsTop(lists, k, libsql, false) ensures libsql == bench {
        VersionsAgree(lists, k, bench, libsql);
      }
      forall v, libsql | Arises(lists, k, v, libsql) ensures IsTop(lists, k, libsql, false) {
        ArisingIsTop(lists, k, v, libsql);
      }
    }
  }

  lemma ArisingIsTop(lists: seq<seq<string>>, k: nat, v: seq<Entry>, ids: seq<string>)
    requires Arises(lists, k, v, ids)
    ensures IsTop(lists, k, ids, false)
  {
    SortedPrefixIsTop(lists, ScoreMap(lists), v, k, ids, false);
  }

  lemma SingletonScores(a: string, b: string)
    requires a != b
    ensures Score([[a], [b]], a) == Term(0) == Score([[a], [b]], b)
    ensures Ids([[a], [b]]) == {a, b}
  {
    var one, other: seq<string> := [a], [b];
    var first, lists: seq<seq<string>> := [one], [one, other];
    ScoreInOnce(one, 0);
    ScoreInOnce(other, 0);
    ScoreInAbsent(one, b);
    ScoreInAbsent(other, a);
    assert lists[..1] == first && first[..0] == [];
    assert Score(first, a) == Term(0) && Score(first, b) == 0.0;
    assert one in lists && other in lists && a in one && b in other;
  }

  /** Two ids that each head a list of their own: whichever the map gives first is returned. */
  lemma VersionsDiffer(a: string, b: string)
    requires StringLess(a, b)
    ensures IsTop([[a], [b]], 1, [a], true) && IsTop([[a], [b]], 1, [b], false) && Contested([[a], [b]], 1)
    ensures exists v :: Arises([[a], [b]], 1, v, [b])
  {
    hide Score, Ids;
    StringLessAsymmetric(a, b);
    SingletonScores(a, b);
    var lists: seq<seq<string>> := [[a], [b]];
    assert a != b && |{a, b}| == 2;
    assert Above(lists, a) == {};
    var v := EveryTopArises(lists, 1, [b]);
  }
}
