/**
 Depth- and limit-bounded breadth-first traversal over adjacency lists held in
 a key-value store.  A node without an entry has no neighbours.
 */
module Traversal {
  import opened Prelude

  type Store = map<nat, seq<nat>>

  function Neighbours(db: Store, node: nat): seq<nat> {
    if node in db then db[node] else []
  }

  /** `x` stands in the stored list of `node`. */
  predicate Lists(db: Store, node: nat, x: nat) {
    node in db && x in db[node]
  }

  // ---------------------------------------------------------------------
  // Walks and distance
  // ---------------------------------------------------------------------

  ghost predicate StepsAt(db: Store, walk: seq<nat>, i: int)
    requires 0 <= i < |walk| - 1
  {
    Lists(db, walk[i], walk[i + 1])
  }

  /** `walk` leads from `source` to `target` in `|walk| - 1` steps. */
  ghost predicate IsWalk(db: Store, source: nat, target: nat, walk: seq<nat>) {
    && walk != []
    && walk[0] == source
    && walk[|walk| - 1] == target
    && forall i | 0 <= i < |walk| - 1 :: StepsAt(db, walk, i)
  }

  ghost predicate ReachableIn(db: Store, source: nat, target: nat, steps: nat) {
    exists walk :: IsWalk(db, source, target, walk) && |walk| == steps + 1
  }

  ghost predicate AtDistance(db: Store, source: nat, target: nat, distance: nat) {
    && ReachableIn(db, source, target, distance)
    && forall k: nat | k < distance :: !ReachableIn(db, source, target, k)
  }

  ghost predicate Within(db: Store, source: nat, target: nat, d: int) {
    exists k: nat | k <= d :: ReachableIn(db, source, target, k)
  }

  lemma ReachZero(db: Store, source: nat, target: nat)
    ensures ReachableIn(db, source, target, 0) <==> target == source
  {
    assert IsWalk(db, source, source, [source]);
  }

  lemma ReachSucc(db: Store, source: nat, target: nat, k: nat)
    ensures ReachableIn(db, source, target, k + 1)
       <==> exists via :: ReachableIn(db, source, via, k) && target in Neighbours(db, via)
  {
    if walk :| IsWalk(db, source, target, walk) && |walk| == k + 2 {
      var front := walk[..k + 1];
      forall i | 0 <= i < |front| - 1 ensures StepsAt(db, front, i) {
        assert StepsAt(db, walk, i);
      }
      assert IsWalk(db, source, walk[k], front);
      assert StepsAt(db, walk, k);
      assert ReachableIn(db, source, walk[k], k) && target in Neighbours(db, walk[k]);
    }
    if via :| ReachableIn(db, source, via, k) && target in Neighbours(db, via) {
      var front :| IsWalk(db, source, via, front) && |front| == k + 1;
      var walk := front + [target];
      forall i | 0 <= i < |walk| - 1 ensures StepsAt(db, walk, i) {
        if i < |front| - 1 { assert StepsAt(db, front, i); } else { assert Lists(db, via, target); }
      }
      assert IsWalk(db, source, target, walk);
    }
  }

  lemma {:induction false} ShortestExists(db: Store, source: nat, target: nat, k: nat) returns (distance: nat)
    requires ReachableIn(db, source, target, k)
    ensures distance <= k && AtDistance(db, source, target, distance)
  {
    if j: nat :| j < k && ReachableIn(db, source, target, j) {
      distance := ShortestExists(db, source, target, j);
    } else {
      distance := k;
    }
  }

  // ---------------------------------------------------------------------
  // The traversal as a function
  // ---------------------------------------------------------------------

  /** The neighbours not seen before, in order of first appearance. */
  function Fresh(neighbours: seq<nat>, visited: set<nat>): seq<nat> {
    if neighbours == [] then []
    else if neighbours[0] in visited then Fresh(neighbours[1..], visited)
    else [neighbours[0]] + Fresh(neighbours[1..], visited + {neighbours[0]})
  }

  /** The next frontier. */
  function Expand(db: Store, frontier: seq<nat>, visited: set<nat>): seq<nat> {
    if frontier == [] then []
    else
      var unseen := Fresh(Neighbours(db, frontier[0]), visited);
      unseen + Expand(db, frontier[1..], visited + Elements(unseen))
  }

  function Levels(db: Store, frontier: seq<nat>, visited: set<nat>, d: nat): seq<nat>
    decreases d
  {
    if d == 0 || frontier == [] then []
    else
      var next := Expand(db, frontier, visited);
      next + Levels(db, next, visited + Elements(next), d - 1)
  }

  /** Everything found to depth `d` when no limit intervenes; a negative depth is no depth. */
  function Unlimited(db: Store, start: nat, d: int): seq<nat> {
    Levels(db, [start], {start}, if d < 0 then 0 else d)
  }

  lemma {:induction false} FreshContents(neighbours: seq<nat>, visited: set<nat>)
    ensures NoDup(Fresh(neighbours, visited))
    ensures Elements(Fresh(neighbours, visited)) == Elements(neighbours) - visited
  {
    if neighbours != [] {
      var head, tail := neighbours[0], neighbours[1..];
      assert Elements(neighbours) == {head} + Elements(tail);
      if head in visited {
        FreshContents(tail, visited);
      } else {
        FreshContents(tail, visited + {head});
        var rest := Fresh(tail, visited + {head});
        assert head !in Elements(rest);
        assert Elements([head] + rest) == {head} + Elements(rest);
      }
    }
  }

  ghost function AllNeighbours(db: Store, frontier: seq<nat>): set<nat> {
    set node, x | node in frontier && x in Neighbours(db, node) :: x
  }

  lemma AllNeighboursStep(db: Store, frontier: seq<nat>)
    requires frontier != []
    ensures AllNeighbours(db, frontier)
         == Elements(Neighbours(db, frontier[0])) + AllNeighbours(db, frontier[1..])
  {
    assert frontier == [frontier[0]] + frontier[1..];
  }

  lemma ElementsAppend(a: seq<nat>, b: seq<nat>)
    ensures Elements(a + b) == Elements(a) + Elements(b)
  {
  }

  lemma {:induction false} ExpandContents(db: Store, frontier: seq<nat>, visited: set<nat>)
    ensures NoDup(Expand(db, frontier, visited))
    ensures Elements(Expand(db, frontier, visited)) == AllNeighbours(db, frontier) - visited
  {
    if frontier != [] {
      var unseen := Fresh(Neighbours(db, frontier[0]), visited);
      FreshContents(Neighbours(db, frontier[0]), visited);
      var rest := Expand(db, frontier[1..], visited + Elements(unseen));
      ExpandContents(db, frontier[1..], visited + Elements(unseen));
      NoDupAppend(unseen, rest);
      ElementsAppend(unseen, rest);
      AllNeighboursStep(db, frontier);
    }
  }

  // ---------------------------------------------------------------------
  // Exactness
  // ---------------------------------------------------------------------

  /** `frontier` is the sphere of radius `k` and `visited` the ball. */
  ghost predicate AtLevel(db: Store, start: nat, frontier: seq<nat>, visited: set<nat>, k: nat) {
    && (forall x: nat :: x in frontier <==> AtDistance(db, start, x, k))
    && (forall x: nat :: x in visited <==> Within(db, start, x, k))
  }

  lemma StartLevel(db: Store, start: nat)
    ensures AtLevel(db, start, [start], {start}, 0)
  {
    forall x: nat ensures ReachableIn(db, start, x, 0) <==> x == start {
      ReachZero(db, start, x);
    }
    assert ReachableIn(db, start, start, 0);
  }

  lemma DistanceSucc(db: Store, start: nat, frontier: seq<nat>, visited: set<nat>, k: nat, x: nat)
    requires AtLevel(db, start, frontier, visited, k)
    ensures AtDistance(db, start, x, k + 1) <==> x in AllNeighbours(db, frontier) && x !in visited
  {
    ReachSucc(db, start, x, k);
    if AtDistance(db, start, x, k + 1) {
      var via :| ReachableIn(db, start, via, k) && x in Neighbours(db, via);
      forall j: nat | j < k ensures !ReachableIn(db, start, via, j) {
        ReachSucc(db, start, x, j);
      }
      assert via in frontier;
      assert x !in visited;
    }
    if x in AllNeighbours(db, frontier) && x !in visited {
      var via :| via in frontier && x in Neighbours(db, via);
      assert AtDistance(db, start, via, k);
      forall j: nat | j <= k ensures !ReachableIn(db, start, x, j) {
        assert !Within(db, start, x, k);
      }
    }
  }

  lemma NextLevel(db: Store, start: nat, frontier: seq<nat>, visited: set<nat>, k: nat)
    requires AtLevel(db, start, frontier, visited, k)
    ensures
      var next := Expand(db, frontier, visited);
      AtLevel(db, start, next, visited + Elements(next), k + 1)
  {
    var next := Expand(db, frontier, visited);
    ExpandContents(db, frontier, visited);
    forall x: nat
      ensures x in next <==> AtDistance(db, start, x, k + 1)
      ensures x in visited + Elements(next) <==> Within(db, start, x, k + 1)
    {
      assert x in next <==> x in Elements(next);
      DistanceSucc(db, start, frontier, visited, k, x);
      if Within(db, start, x, k + 1) && x !in visited {
        var j: nat :| j <= k + 1 && ReachableIn(db, start, x, j);
        assert !Within(db, start, x, k);
        assert j == k + 1;
        assert AtDistance(db, start, x, k + 1);
      }
      if x in visited {
        var j: nat :| j <= k && ReachableIn(db, start, x, j);
      }
    }
  }

  /** `found` lists each node at a distance in `(k, k + d]` once, nearer nodes first. */
  ghost predicate ListsByDistance(db: Store, start: nat, found: seq<nat>, k: nat, d: nat) {
    && NoDup(found)
    && (forall x: nat :: x in found <==> exists n: nat | k < n <= k + d :: AtDistance(db, start, x, n))
    && (forall i, j, m: nat, n: nat |
          0 <= i < j < |found| && AtDistance(db, start, found[i], m) && AtDistance(db, start, found[j], n) :: m <= n)
  }

  lemma DistanceUnique(db: Store, start: nat, x: nat, m: nat, n: nat)
    requires AtDistance(db, start, x, m) && AtDistance(db, start, x, n)
    ensures m == n
  {
  }

  lemma PrependLevel(db: Store, start: nat, next: seq<nat>, visited: set<nat>,
                     found: seq<nat>, k: nat, d: nat)
    requires NoDup(next) && AtLevel(db, start, next, visited, k + 1)
    requires ListsByDistance(db, start, found, k + 1, d)
    ensures ListsByDistance(db, start, next + found, k, d + 1)
  {
    var all := next + found;
    forall x: nat ensures x in all <==> exists n: nat | k < n <= k + d + 1 :: AtDistance(db, start, x, n) {
      if x in next { assert AtDistance(db, start, x, k + 1); }
      if n: nat :| k < n <= k + d + 1 && AtDistance(db, start, x, n) {
        assert n == k + 1 ==> x in next;
      }
    }
    assert Elements(next) !! Elements(found) by {
      forall x: nat | x in found ensures x !in next {
        var n: nat :| k + 1 < n <= k + 1 + d && AtDistance(db, start, x, n);
        assert !ReachableIn(db, start, x, k + 1);
      }
    }
    NoDupAppend(next, found);
    forall i, j, m: nat, n: nat |
      0 <= i < j < |all| && AtDistance(db, start, all[i], m) && AtDistance(db, start, all[j], n)
      ensures m <= n
    {
      if j < |next| {
        assert all[i] in next && all[j] in next;
        DistanceUnique(db, start, all[i], m, k + 1);
        DistanceUnique(db, start, all[j], n, k + 1);
      } else if i < |next| {
        assert all[i] in next && all[j] in found;
        DistanceUnique(db, start, all[i], m, k + 1);
        var n': nat :| k + 1 < n' <= k + 1 + d && AtDistance(db, start, all[j], n');
        DistanceUnique(db, start, all[j], n, n');
      } else {
        assert all[i] == found[i - |next|] && all[j] == found[j - |next|];
      }
    }
  }

  lemma LevelsStep(db: Store, frontier: seq<nat>, visited: set<nat>, d: nat)
    requires d > 0
    ensures
      var next := Expand(db, frontier, visited);
      Levels(db, frontier, visited, d) == next + Levels(db, next, visited + Elements(next), d - 1)
  {
  }

  lemma {:induction false} LevelsExact(db: Store, start: nat, frontier: seq<nat>, visited: set<nat>, k: nat, d: nat)
    requires AtLevel(db, start, frontier, visited, k)
    ensures ListsByDistance(db, start, Levels(db, frontier, visited, d), k, d)
    decreases d
  {
    if d > 0 {
      hide ListsByDistance, AtLevel, Expand;
      var next := Expand(db, frontier, visited);
      ExpandContents(db, frontier, visited);
      NextLevel(db, start, frontier, visited, k);
      var visited' := visited + Elements(next);
      LevelsExact(db, start, next, visited', k + 1, d - 1);
      PrependLevel(db, start, next, visited', Levels(db, next, visited', d - 1), k, d - 1);
      LevelsStep(db, frontier, visited, d);
    }
  }

  /**
   With no limit reached the traversal lists, once each and nearest first,
   exactly the nodes whose shortest distance from `start` is 1 to `d`: the
   nodes other than `start` that some walk of at most `d` steps reaches.
   */
  lemma UnlimitedExact(db: Store, start: nat, d: int)
    ensures ListsByDistance(db, start, Unlimited(db, start, d), 0, if d < 0 then 0 else d)
    ensures forall x: nat :: x in Unlimited(db, start, d) <==>
              x != start && exists k: nat | 1 <= k <= d :: ReachableIn(db, start, x, k)
  {
    StartLevel(db, start);
    LevelsExact(db, start, [start], {start}, 0, if d < 0 then 0 else d);
    forall x: nat
      ensures x in Unlimited(db, start, d) <==>
              x != start && exists k: nat | 1 <= k <= d :: ReachableIn(db, start, x, k)
    {
      ReachZero(db, start, x);
      if x != start {
        if k: nat :| 1 <= k <= d && ReachableIn(db, start, x, k) {
          var n := ShortestExists(db, start, x, k);
          assert n != 0;
        }
      }
    }
  }

  // ---------------------------------------------------------------------
  // The order of discovery
  // ---------------------------------------------------------------------

  /** The position of the first node of `all` whose list holds `x`; `|all|` when there is none. */
  ghost function Finder(db: Store, all: seq<nat>, x: nat): (f: nat)
    ensures f <= |all|
    ensures f < |all| ==> Lists(db, all[f], x)
    ensures forall i | 0 <= i < f :: !Lists(db, all[i], x)
  {
    if all == [] || Lists(db, all[0], x) then 0 else 1 + Finder(db, all[1..], x)
  }

  /** The position of `x` in `list`, counting from its start. */
  ghost function FirstAt(list: seq<nat>, x: nat): (i: nat)
    ensures i <= |list|
    ensures i < |list| ==> list[i] == x
    ensures forall j | 0 <= j < i :: list[j] != x
  {
    if list == [] || list[0] == x then 0 else 1 + FirstAt(list[1..], x)
  }

  /** `x` is found before `y`: by an earlier finder, or earlier in the list of the same one. */
  ghost predicate FoundBefore(db: Store, all: seq<nat>, x: nat, y: nat) {
    var f, g := Finder(db, all, x), Finder(db, all, y);
    f < g || (f == g < |all| && all[f] in db && FirstAt(db[all[f]], x) < FirstAt(db[all[f]], y))
  }

  /**
   Every node of `all` but the first is listed by an earlier one, and the order
   is that of discovery, list by list and from the start of each list.
   */
  ghost predicate InDiscoveryOrder(db: Store, all: seq<nat>) {
    && (forall j | 1 <= j < |all| :: Finder(db, all, all[j]) < j)
    && (forall j, k | 1 <= j < k < |all| :: FoundBefore(db, all, all[j], all[k]))
  }

  lemma FinderUnique(db: Store, all: seq<nat>, x: nat, f: nat)
    requires f < |all| && Lists(db, all[f], x) && forall i | 0 <= i < f :: !Lists(db, all[i], x)
    ensures Finder(db, all, x) == f
  {
  }

  lemma FinderExtends(db: Store, all: seq<nat>, more: seq<nat>, x: nat)
    requires Finder(db, all, x) < |all|
    ensures Finder(db, all + more, x) == Finder(db, all, x)
  {
    var f := Finder(db, all, x);
    assert (all + more)[f] == all[f];
    assert forall i | 0 <= i < f :: (all + more)[i] == all[i];
    FinderUnique(db, all + more, x, f);
  }

  /** In the middle of the search: the lists of the first `p` nodes have been read. */
  ghost predicate Searched(db: Store, all: seq<nat>, p: nat) {
    && p <= |all|
    && InDiscoveryOrder(db, all)
    && (forall j | 1 <= j < |all| :: Finder(db, all, all[j]) < p)
    && (forall i, x | 0 <= i < p && Lists(db, all[i], x) :: x in all)
  }

  /** Unseen neighbours come in the order of the list. */
  lemma {:induction false} FreshInOrder(list: seq<nat>, visited: set<nat>)
    ensures
      var unseen := Fresh(list, visited);
      forall j, k | 0 <= j < k < |unseen| :: FirstAt(list, unseen[j]) < FirstAt(list, unseen[k])
  {
    if list != [] {
      var head, tail := list[0], list[1..];
      if head in visited {
        FreshInOrder(tail, visited);
        FreshContents(tail, visited);
        var unseen := Fresh(tail, visited);
        forall j | 0 <= j < |unseen| ensures FirstAt(list, unseen[j]) == 1 + FirstAt(tail, unseen[j]) {
          assert unseen[j] in Elements(unseen);
        }
      } else {
        FreshInOrder(tail, visited + {head});
        FreshContents(tail, visited + {head});
        var rest := Fresh(tail, visited + {head});
        forall j | 0 <= j < |rest| ensures FirstAt(list, rest[j]) == 1 + FirstAt(tail, rest[j]) {
          assert rest[j] in Elements(rest);
        }
      }
    }
  }

  /** Reading one list. */
  lemma ReadList(db: Store, all: seq<nat>, p: nat)
    requires Searched(db, all, p) && p < |all|
    ensures Searched(db, all + Fresh(Neighbours(db, all[p]), Elements(all)), p + 1)
  {
    var list := Neighbours(db, all[p]);
    var unseen := Fresh(list, Elements(all));
    var longer := all + unseen;
    FreshContents(list, Elements(all));
    FreshInOrder(list, Elements(all));
    forall j | |all| <= j < |longer| ensures Finder(db, longer, longer[j]) == p {
      var x := longer[j];
      assert x in Elements(unseen);
      assert Lists(db, longer[p], x);
      FinderUnique(db, longer, x, p);
    }
    forall j | 1 <= j < |all| ensures Finder(db, longer, longer[j]) == Finder(db, all, all[j]) < p {
      FinderExtends(db, all, unseen, all[j]);
    }
    forall j, k | 1 <= j < k < |longer| ensures FoundBefore(db, longer, longer[j], longer[k]) {
      if k < |all| {
        assert FoundBefore(db, all, all[j], all[k]);
      }
    }
    forall i, x | 0 <= i < p + 1 && Lists(db, longer[i], x) ensures x in longer {
      if i == p && x !in Elements(all) {
        assert x in Elements(unseen);
      }
    }
  }

  /** Reading the lists of a frontier. */
  lemma {:induction false} ReadFrontier(db: Store, done: seq<nat>, frontier: seq<nat>, next: seq<nat>)
    requires Searched(db, done + frontier + next, |done|)
    ensures
      var all := done + frontier + next;
      Searched(db, all + Expand(db, frontier, Elements(all)), |done| + |frontier|)
    decreases |frontier|
  {
    hide Searched, Fresh;
    var all := done + frontier + next;
    if frontier == [] {
      assert all + [] == all;
    } else {
      var unseen := Fresh(Neighbours(db, frontier[0]), Elements(all));
      ReadList(db, all, |done|);
      assert all[|done|] == frontier[0];
      var done', rest := done + [frontier[0]], frontier[1..];
      assert all + unseen == done' + rest + (next + unseen);
      ElementsAppend(all, unseen);
      ReadFrontier(db, done', rest, next + unseen);
      var later := Expand(db, rest, Elements(all) + Elements(unseen));
      assert all + (unseen + later) == all + unseen + later;
    }
  }

  lemma {:induction false} ReadLevels(db: Store, done: seq<nat>, frontier: seq<nat>, d: nat) returns (p: nat)
    requires Searched(db, done + frontier, |done|)
    ensures
      var all := done + frontier;
      Searched(db, all + Levels(db, frontier, Elements(all), d), p)
    decreases d
  {
    hide Searched, Expand;
    var all := done + frontier;
    if d == 0 || frontier == [] {
      assert all + [] == all;
      p := |done|;
    } else {
      assert all + [] == all;
      ReadFrontier(db, done, frontier, []);
      var next := Expand(db, frontier, Elements(all));
      ElementsAppend(all, next);
      p := ReadLevels(db, all, next, d - 1);
      var later := Levels(db, next, Elements(all) + Elements(next), d - 1);
      assert all + (next + later) == all + next + later;
    }
  }

  lemma UnlimitedInOrder(db: Store, start: nat, d: int)
    ensures InDiscoveryOrder(db, [start] + Unlimited(db, start, d))
  {
    assert Searched(db, [start], 0);
    assert [] + [start] == [start] && Elements([start]) == {start};
    var p := ReadLevels(db, [], [start], if d < 0 then 0 else d);
  }

  lemma DiscoveryPrefix(db: Store, all: seq<nat>, n: nat)
    requires InDiscoveryOrder(db, all) && n <= |all|
    ensures InDiscoveryOrder(db, all[..n])
  {
    var front := all[..n];
    forall j | 1 <= j < n ensures Finder(db, front, front[j]) == Finder(db, all, all[j]) {
      FinderUnique(db, front, front[j], Finder(db, all, all[j]));
    }
    forall j, k | 1 <= j < k < n ensures FoundBefore(db, front, front[j], front[k]) {
      assert FoundBefore(db, all, all[j], all[k]);
    }
  }

  /** Discovery order leaves no choice: of the same nodes there is only one such order. */
  lemma DiscoveryDetermines(db: Store, s: seq<nat>, t: seq<nat>)
    requires s != [] && t != [] && s[0] == t[0] && NoDup(s) && NoDup(t) && Elements(s) == Elements(t)
    requires InDiscoveryOrder(db, s) && InDiscoveryOrder(db, t)
    ensures s == t
  {
    hide InDiscoveryOrder, FoundBefore;
    NoDupCardinality(s);
    NoDupCardinality(t);
    if s != t {
      assert s[..1] == t[..1];
      var j := FirstDifference(s, t, 1);
      assert s[j] in Elements(t) && t[j] in Elements(s);
      var l :| 0 <= l < |t| && t[l] == s[j];
      var k :| 0 <= k < |s| && s[k] == t[j];
      CommonPrefix(s, t, j, l);
      CommonPrefix(t, s, j, k);
      OneWayOnly(db, s, t, j, k, l);
    }
  }

  /** The nodes reached, without repetition and in discovery order: that is the answer. */
  lemma OnlyAnswer(db: Store, start: nat, d: int, found: seq<nat>)
    requires NoDup([start] + found) && InDiscoveryOrder(db, [start] + found)
    requires forall x: nat :: x in found <==> x != start && exists k: nat | 1 <= k <= d :: ReachableIn(db, start, x, k)
    ensures found == Unlimited(db, start, d)
  {
    hide InDiscoveryOrder, ReachableIn;
    var answer := Unlimited(db, start, d);
    var s, t := [start] + found, [start] + answer;
    UnlimitedExact(db, start, d);
    UnlimitedInOrder(db, start, d);
    forall x: nat ensures x in s <==> x in t {
      assert x in answer <==> x in found;
    }
    assert start !in answer;
    StartFirst(start, answer);
    assert Elements(s) == Elements(t);
    DiscoveryDetermines(db, s, t);
    assert found == s[1..] && answer == t[1..];
  }

  lemma StartFirst(start: nat, answer: seq<nat>)
    requires NoDup(answer) && start !in answer
    ensures NoDup([start] + answer)
  {
  }

  lemma CommonPrefix(s: seq<nat>, t: seq<nat>, j: nat, l: nat)
    requires j < |s| && l < |t| && j <= |t| && s[..j] == t[..j] && t[l] == s[j] && NoDup(s) && (l == j ==> s[j] != t[j])
    ensures j < l
  {
    assert forall i | 0 <= i < j :: s[..j][i] == s[i] && t[..j][i] == t[i];
  }

  lemma {:induction false} FirstDifference(s: seq<nat>, t: seq<nat>, n: nat) returns (j: nat)
    requires |s| == |t| && s != t && n <= |s| && s[..n] == t[..n]
    ensures n <= j < |s| && s[..j] == t[..j] && s[j] != t[j]
    decreases |s| - n
  {
    assert s[..|s|] == s && t[..|t|] == t;
    if s[n] != t[n] {
      j := n;
    } else {
      assert s[..n + 1] == s[..n] + [s[n]] && t[..n + 1] == t[..n] + [t[n]];
      j := FirstDifference(s, t, n + 1);
    }
  }

  /** Two orders that first differ at `j` cannot both be orders of discovery. */
  lemma OneWayOnly(db: Store, s: seq<nat>, t: seq<nat>, j: nat, k: nat, l: nat)
    requires 1 <= j < k < |s| && j < l < |t| && s[..j] == t[..j]
    requires t[l] == s[j] && s[k] == t[j]
    ensures !(InDiscoveryOrder(db, s) && InDiscoveryOrder(db, t))
  {
    if InDiscoveryOrder(db, s) && InDiscoveryOrder(db, t) {
      SameFinder(db, s, t, j, j, l);
      SameFinder(db, t, s, j, j, k);
      OneWayRound(db, s, t, j, k, l);
    }
  }

  lemma OneWayRound(db: Store, s: seq<nat>, t: seq<nat>, j: nat, k: nat, l: nat)
    requires j < k < |s| && j < l < |t| && s[..j] == t[..j]
    requires t[l] == s[j] && s[k] == t[j]
    requires Finder(db, t, t[l]) == Finder(db, s, s[j]) < j && Finder(db, s, s[k]) == Finder(db, t, t[j]) < j
    requires FoundBefore(db, s, s[j], s[k])
    ensures !FoundBefore(db, t, t[j], t[l])
  {
    var f := Finder(db, s, s[j]);
    assert s[..j][f] == s[f] && t[..j][f] == t[f];
  }

  /** A finder among the first `j` nodes, which both orders share, is the finder in both. */
  lemma SameFinder(db: Store, s: seq<nat>, t: seq<nat>, j: nat, i: nat, l: nat)
    requires j <= |s| && j <= |t| && s[..j] == t[..j]
    requires 1 <= i < |s| && l < |t| && t[l] == s[i] && i <= j && InDiscoveryOrder(db, s)
    ensures Finder(db, t, t[l]) == Finder(db, s, s[i]) < j
  {
    var f := Finder(db, s, s[i]);
    assert forall n | 0 <= n < j :: s[..j][n] == s[n] == t[n];
    FinderUnique(db, t, t[l], f);
  }

  // ---------------------------------------------------------------------
  // Prefix laws
  // ---------------------------------------------------------------------

  lemma {:induction false} LevelsPrefix(db: Store, frontier: seq<nat>, visited: set<nat>, d: nat)
    ensures Levels(db, frontier, visited, d) <= Levels(db, frontier, visited, d + 1)
    decreases d
  {
    if d > 0 && frontier != [] {
      var next := Expand(db, frontier, visited);
      LevelsPrefix(db, next, visited + Elements(next), d - 1);
    }
  }

  function Take(s: seq<nat>, n: nat): seq<nat> {
    if |s| <= n then s else s[..n]
  }

  function Cap(limit: int): nat {
    if limit < 1 then 1 else limit
  }

  /** Searching deeper, or with a larger limit, only appends. */
  lemma DeeperExtends(db: Store, start: nat, d: int, e: int, limit: int, more: int)
    requires d <= e && limit <= more
    ensures Take(Unlimited(db, start, d), Cap(limit)) <= Take(Unlimited(db, start, e), Cap(more))
    decreases e - d
  {
    hide Expand, Neighbours;
    if d < e {
      if d >= 0 { LevelsPrefix(db, [start], {start}, d); }
      DeeperExtends(db, start, d + 1, e, limit, more);
    }
  }

  // ---------------------------------------------------------------------
  // The traversal itself
  // ---------------------------------------------------------------------

  /** What is still to be found in the middle of a level, in the order of the loops. */
  ghost function Remainder(db: Store, neighbours: seq<nat>, rest: seq<nat>, visited: set<nat>,
                           next: seq<nat>, depth: nat): seq<nat>
    decreases |rest|, |neighbours|
  {
    if neighbours != [] then
      var head, tail := neighbours[0], neighbours[1..];
      if head in visited then Remainder(db, tail, rest, visited, next, depth)
      else [head] + Remainder(db, tail, rest, visited + {head}, next + [head], depth)
    else if rest != [] then Remainder(db, Neighbours(db, rest[0]), rest[1..], visited, next, depth)
    else Levels(db, next, visited, depth)
  }

  /** The same, level by level: the rest of this level, then the deeper ones. */
  ghost function ByLevel(db: Store, neighbours: seq<nat>, rest: seq<nat>, visited: set<nat>,
                         next: seq<nat>, depth: nat): seq<nat>
  {
    var unseen := Fresh(neighbours, visited);
    var seen := visited + Elements(unseen);
    var later := Expand(db, rest, seen);
    unseen + later + Levels(db, next + unseen + later, seen + Elements(later), depth)
  }

  lemma TakeNeighbour(db: Store, neighbours: seq<nat>, rest: seq<nat>, visited: set<nat>, next: seq<nat>, depth: nat)
    requires neighbours != [] && neighbours[0] !in visited
    ensures ByLevel(db, neighbours, rest, visited, next, depth)
         == [neighbours[0]]
            + ByLevel(db, neighbours[1..], rest, visited + {neighbours[0]}, next + [neighbours[0]], depth)
  {
    hide Levels, Expand;
    var head := neighbours[0];
    var tail := Fresh(neighbours[1..], visited + {head});
    assert Fresh(neighbours, visited) == [head] + tail;
    assert visited + Elements([head] + tail) == visited + {head} + Elements(tail);
    var later := Expand(db, rest, visited + {head} + Elements(tail));
    assert next + ([head] + tail) + later == (next + [head]) + tail + later;
  }

  lemma NextNode(db: Store, rest: seq<nat>, visited: set<nat>, next: seq<nat>, depth: nat)
    requires rest != []
    ensures ByLevel(db, [], rest, visited, next, depth)
         == ByLevel(db, Neighbours(db, rest[0]), rest[1..], visited, next, depth)
  {
    hide Levels;
    var unseen := Fresh(Neighbours(db, rest[0]), visited);
    var later := Expand(db, rest[1..], visited + Elements(unseen));
    ElementsAppend(unseen, later);
    assert visited + Elements<nat>([]) == visited;
    assert next + [] + (unseen + later) == next + unseen + later;
    assert visited + (Elements(unseen) + Elements(later)) == visited + Elements(unseen) + Elements(later);
  }

  lemma LevelDone(db: Store, visited: set<nat>, next: seq<nat>, depth: nat)
    ensures ByLevel(db, [], [], visited, next, depth) == Levels(db, next, visited, depth)
  {
    assert next + [] + [] == next;
    assert visited + Elements<nat>([]) + Elements<nat>([]) == visited;
  }

  lemma {:induction false} RemainderByLevel(db: Store, neighbours: seq<nat>, rest: seq<nat>, visited: set<nat>,
                                            next: seq<nat>, depth: nat)
    ensures Remainder(db, neighbours, rest, visited, next, depth)
         == ByLevel(db, neighbours, rest, visited, next, depth)
    decreases |rest|, |neighbours|
  {
    if neighbours != [] {
      var head, tail := neighbours[0], neighbours[1..];
      if head in visited {
        RemainderByLevel(db, tail, rest, visited, next, depth);
      } else {
        RemainderByLevel(db, tail, rest, visited + {head}, next + [head], depth);
        TakeNeighbour(db, neighbours, rest, visited, next, depth);
      }
    } else if rest != [] {
      RemainderByLevel(db, Neighbours(db, rest[0]), rest[1..], visited, next, depth);
      NextNode(db, rest, visited, next, depth);
    } else {
      LevelDone(db, visited, next, depth);
    }
  }

  lemma LevelStart(db: Store, frontier: seq<nat>, visited: set<nat>, depth: nat)
    requires depth > 0
    ensures Levels(db, frontier, visited, depth) == Remainder(db, [], frontier, visited, [], depth - 1)
  {
    RemainderByLevel(db, [], frontier, visited, [], depth - 1);
    assert visited + Elements<nat>([]) == visited;
    var next := Expand(db, frontier, visited);
    assert [] + [] + next == next;
  }

  /** `results` is a full answer once it has reached the limit. */
  lemma LimitReached(results: seq<nat>, remainder: seq<nat>, limit: int)
    requires |results| >= 1 && |results| <= Cap(limit) && |results| >= limit
    ensures Take(results + remainder, Cap(limit)) == results
  {
  }

  /** The innermost loop: one adjacency list. */
  method VisitNeighbours(ghost db: Store, v: seq<nat>, ghost rest: seq<nat>, ghost depth: nat, limit: int,
                         visited0: set<nat>, results0: seq<nat>, nxt0: seq<nat>, ghost total: seq<nat>)
      returns (full: bool, visited: set<nat>, results: seq<nat>, nxt: seq<nat>)
    requires |results0| < Cap(limit)
    requires total == results0 + Remainder(db, v, rest, visited0, nxt0, depth)
    ensures full ==> results == Take(total, Cap(limit))
    ensures !full ==> |results| < Cap(limit) && total == results + Remainder(db, [], rest, visited, nxt, depth)
  {
    hide Levels, Fresh, Expand, Neighbours;
    visited, results, nxt := visited0, results0, nxt0;
    for j := 0 to |v|
      invariant total == results + Remainder(db, v[j..], rest, visited, nxt, depth)
      invariant |results| < Cap(limit)
    {
      var nb := v[j];
      assert v[j..][0] == nb && v[j..][1..] == v[j + 1..];
      if nb !in visited {
        visited := visited + {nb};
        results := results + [nb];
        ghost var remainder := Remainder(db, v[j + 1..], rest, visited, nxt + [nb], depth);
        assert total == results + remainder;
        if |results| >= limit {
          LimitReached(results, remainder, limit);
          return true, visited, results, nxt;
        }
        nxt := nxt + [nb];
      }
    }
    assert v[|v|..] == [];
    full := false;
  }

  /** The middle loop: one level. */
  method VisitLevel(db: Store, frontier: seq<nat>, ghost depth: nat, limit: int,
                    visited0: set<nat>, results0: seq<nat>, ghost total: seq<nat>)
      returns (full: bool, visited: set<nat>, results: seq<nat>, nxt: seq<nat>)
    requires |results0| < Cap(limit) && depth > 0
    requires total == results0 + Levels(db, frontier, visited0, depth)
    ensures full ==> results == Take(total, Cap(limit))
    ensures !full ==> |results| < Cap(limit) && total == results + Levels(db, nxt, visited, depth - 1)
  {
    hide Levels, Fresh, Expand;
    visited, results, nxt := visited0, results0, [];
    LevelStart(db, frontier, visited, depth);
    for i := 0 to |frontier|
      invariant total == results + Remainder(db, [], frontier[i..], visited, nxt, depth - 1)
      invariant |results| < Cap(limit)
    {
      var node := frontier[i];
      assert frontier[i..][0] == node && frontier[i..][1..] == frontier[i + 1..];
      if node in db {
        full, visited, results, nxt :=
          VisitNeighbours(db, db[node], frontier[i + 1..], depth - 1, limit, visited, results, nxt, total);
        if full {
          return;
        }
      }
    }
    assert frontier[|frontier|..] == [];
    full := false;
  }

  /** What an answer is, in terms of stored lists and walks. */
  lemma AnswerExact(db: Store, start: nat, d: int, limit: int, results: seq<nat>)
    requires results == Take(Unlimited(db, start, d), Cap(limit))
    ensures InDiscoveryOrder(db, [start] + results)
    ensures results <= Unlimited(db, start, d)
    ensures
      var most := if limit < 1 then 1 else limit;
      |results| == if |Unlimited(db, start, d)| < most then |Unlimited(db, start, d)| else most
  {
    hide Unlimited, InDiscoveryOrder;
    var all := [start] + Unlimited(db, start, d);
    UnlimitedInOrder(db, start, d);
    DiscoveryPrefix(db, all, 1 + |results|);
    assert all[..1 + |results|] == [start] + results;
  }

  method Traverse(db: Store, start: nat, d: int, limit: int) returns (results: seq<nat>)
    ensures results == Take(Unlimited(db, start, d), Cap(limit))
    ensures InDiscoveryOrder(db, [start] + results)
  {
    hide Expand, Neighbours, InDiscoveryOrder;
    AnswerExact(db, start, d, limit, Take(Unlimited(db, start, d), Cap(limit)));
    results := [];
    var visited := {start};
    var frontier := [start];
    var depth := 0;
    ghost var total := Unlimited(db, start, d);
    while depth < d
      invariant depth <= d || depth == 0
      invariant total == results + Levels(db, frontier, visited, if d < 0 then 0 else d - depth)
      invariant |results| < Cap(limit)
      decreases d - depth
    {
      var full: bool;
      var nxt: seq<nat>;
      full, visited, results, nxt := VisitLevel(db, frontier, d - depth, limit, visited, results, total);
      if full {
        return;
      }
      frontier := nxt;
      depth := depth + 1;
      if frontier == [] {
        break;
      }
    }
  }
}
