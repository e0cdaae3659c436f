/**
 The React Native bridge: integer handles minted by a registry stand for native
 database instances.  Bridge calls interleave at the registry's boundary, and an
 instance is closed only after it has left the registry.
 */
module HandleRegistry {
  import opened Prelude

  type Handle = int

  type Instance = int

  // ---------------------------------------------------------------------
  // The registry
  // ---------------------------------------------------------------------

  class InstanceRegistry {
    var instances: map<Handle, Instance>
    var nextId: Handle

    ghost predicate Valid()
      reads this
    {
      forall id | id in instances :: id < nextId
    }

    /** The registry is the one of the interleaving's state `s`. */
    ghost predicate Mirrors(s: Bridge)
      reads this
    {
      s.instances == instances && s.nextId == nextId
    }

    constructor ()
      ensures Valid() && instances == map[] && nextId == 1 && Mirrors(INITIAL)
    {
      instances := map[];
      nextId := 1;
    }

    method Insert(db: Instance) returns (id: Handle)
      requires Valid()
      modifies this
      ensures Valid()
      ensures id == old(nextId) && id !in old(instances) && nextId == id + 1
      ensures instances == old(instances)[id := db]
      ensures forall s | old(Mirrors(s)) :: Mirrors(AfterInsert(s, db))
    {
      id := nextId;
      nextId := nextId + 1;
      instances := instances[id := db];
    }

    method Get(id: Handle) returns (db: Option<Instance>)
      ensures db == Lookup(instances, id)
    {
      db := if id in instances then Some(instances[id]) else None;
    }

    method Remove(id: Handle) returns (db: Option<Instance>)
      requires Valid()
      modifies this
      ensures Valid() && nextId == old(nextId)
      ensures db == Lookup(old(instances), id)
      ensures instances == old(instances) - {id}
      ensures forall s | old(Mirrors(s)) :: Mirrors(AfterRemove(s, id))
    {
      db := Get(id);
      instances := instances - {id};
    }

    /** `all` is `Array(instances.values)`: one element for each handle, in any order. */
    method RemoveAll() returns (all: seq<Instance>)
      requires Valid()
      modifies this
      ensures Valid() && nextId == old(nextId) && instances == map[]
      ensures IsValueListing(old(instances), all)
      ensures forall s | old(Mirrors(s)) :: Mirrors(AfterRemoveAll(s, all))
    {
      all := Values(instances);
      instances := map[];
    }
  }

  method Values(instances: map<Handle, Instance>) returns (all: seq<Instance>)
    ensures IsValueListing(instances, all)
  {
    all := [];
    ghost var ids: seq<Handle> := [];
    var rest := instances.Keys;
    while rest != {}
      invariant ListsPart(instances, all, ids, rest)
      decreases |rest|
    {
      ghost var member := AnyMember(rest);
      var id :| id in rest;
      ListOneMore(instances, all, ids, rest, id);
      rest := rest - {id};
      all := all + [instances[id]];
      ids := ids + [id];
    }
    assert ListsValues(instances, all, ids);
  }

  ghost predicate ListsPart(instances: map<Handle, Instance>, all: seq<Instance>, ids: seq<Handle>, rest: set<Handle>) {
    && rest <= instances.Keys
    && NoDup(ids) && Elements(ids) == instances.Keys - rest && |all| == |ids|
    && forall i | 0 <= i < |ids| :: ids[i] in instances && all[i] == instances[ids[i]]
  }

  lemma ListOneMore(instances: map<Handle, Instance>, all: seq<Instance>, ids: seq<Handle>, rest: set<Handle>, id: Handle)
    requires ListsPart(instances, all, ids, rest) && id in rest
    ensures ListsPart(instances, all + [instances[id]], ids + [id], rest - {id})
  {
    assert id !in Elements(ids);
    assert Elements(ids + [id]) == Elements(ids) + {id};
  }

  function Lookup(instances: map<Handle, Instance>, id: Handle): Option<Instance> {
    if id in instances then Some(instances[id]) else None
  }

  ghost predicate ListsValues(instances: map<Handle, Instance>, all: seq<Instance>, ids: seq<Handle>) {
    && NoDup(ids) && Elements(ids) == instances.Keys && |all| == |ids|
    && forall i | 0 <= i < |ids| :: ids[i] in instances && all[i] == instances[ids[i]]
  }

  ghost predicate IsValueListing(instances: map<Handle, Instance>, all: seq<Instance>) {
    exists ids :: ListsValues(instances, all, ids)
  }

  // ---------------------------------------------------------------------
  // Interleaved bridge calls
  // ---------------------------------------------------------------------

  /**
   `opening` are instances opened but not yet registered, `closing` removed but
   not yet closed; `closed` logs the close calls made.  `handed` remembers what
   each handle was minted for.
   */
  datatype Bridge = Bridge(
    minted: Instance,
    opening: multiset<Instance>,
    instances: map<Handle, Instance>,
    nextId: Handle,
    closing: multiset<Instance>,
    closed: multiset<Instance>,
    handed: map<Handle, Instance>)

  const INITIAL := Bridge(0, multiset{}, map[], 1, multiset{}, multiset{}, map[])

  ghost predicate OpenStep(s: Bridge, t: Bridge) {
    t == s.(minted := s.minted + 1, opening := s.opening + multiset{s.minted})
  }

  function AfterInsert(s: Bridge, db: Instance): Bridge {
    s.(opening := s.opening - multiset{db},
       instances := s.instances[s.nextId := db],
       handed := s.handed[s.nextId := db],
       nextId := s.nextId + 1)
  }

  function AfterRemove(s: Bridge, id: Handle): Bridge {
    s.(instances := s.instances - {id},
       closing := s.closing + (match Lookup(s.instances, id) case Some(db) => multiset{db} case None => multiset{}))
  }

  function AfterRemoveAll(s: Bridge, all: seq<Instance>): Bridge {
    s.(instances := map[], closing := s.closing + multiset(all))
  }

  ghost predicate InsertStep(s: Bridge, t: Bridge) {
    exists db | db in s.opening :: t == AfterInsert(s, db)
  }

  ghost predicate RemoveStep(s: Bridge, t: Bridge, id: Handle) {
    t == AfterRemove(s, id)
  }

  ghost predicate RemoveAllStep(s: Bridge, t: Bridge) {
    exists all :: IsValueListing(s.instances, all) && t == AfterRemoveAll(s, all)
  }

  ghost predicate CloseStep(s: Bridge, t: Bridge) {
    exists db | db in s.closing ::
      t == s.(closing := s.closing - multiset{db}, closed := s.closed + multiset{db})
  }

  ghost predicate Step(s: Bridge, t: Bridge) {
    || OpenStep(s, t) || InsertStep(s, t) || (exists id :: RemoveStep(s, t, id))
    || RemoveAllStep(s, t) || CloseStep(s, t)
  }

  ghost predicate StepAt(run: seq<Bridge>, i: int)
    requires 0 <= i < |run| - 1
  {
    Step(run[i], run[i + 1])
  }

  ghost predicate IsRun(run: seq<Bridge>) {
    && run != [] && run[0] == INITIAL
    && forall i | 0 <= i < |run| - 1 :: StepAt(run, i)
  }

  // ---------------------------------------------------------------------
  // Where an instance can be
  // ---------------------------------------------------------------------

  predicate MapsTo(instances: map<Handle, Instance>, id: Handle, db: Instance) {
    id in instances && instances[id] == db
  }

  ghost predicate Registered(s: Bridge, db: Instance) {
    exists id :: MapsTo(s.instances, id, db)
  }

  /** A minted instance is in exactly one place, once; an unminted one is nowhere. */
  ghost predicate InOnePlace(s: Bridge, db: Instance) {
    s.opening[db] + (if Registered(s, db) then 1 else 0) + s.closing[db] + s.closed[db]
    == if 0 <= db < s.minted then 1 else 0
  }

  ghost predicate Injective(instances: map<Handle, Instance>) {
    forall a, b | a in instances && b in instances && a != b :: instances[a] != instances[b]
  }

  ghost predicate Invariant(s: Bridge) {
    && s.minted >= 0 && s.nextId >= 1
    && (forall id :: id in s.handed <==> 1 <= id < s.nextId)
    && (forall id | id in s.instances :: id in s.handed && s.handed[id] == s.instances[id])
    && Injective(s.instances)
    && (forall db: Instance :: InOnePlace(s, db))
  }

  lemma OpenKeeps(s: Bridge, t: Bridge)
    requires Invariant(s) && OpenStep(s, t)
    ensures Invariant(t)
  {
    assert InOnePlace(s, s.minted);
    forall db: Instance ensures InOnePlace(t, db) {
      assert InOnePlace(s, db);
      assert Registered(t, db) <==> Registered(s, db);
    }
  }

  lemma InsertKeeps(s: Bridge, t: Bridge)
    requires Invariant(s) && InsertStep(s, t)
    ensures Invariant(t)
  {
    var db :| db in s.opening && t == AfterInsert(s, db);
    InsertOne(s, t, db);
  }

  lemma InsertOne(s: Bridge, t: Bridge, db: Instance)
    requires Invariant(s) && db in s.opening
    requires t == AfterInsert(s, db)
    ensures Invariant(t)
  {
    assert InOnePlace(s, db);
    assert !Registered(s, db);
    assert s.nextId !in s.handed;
    InsertInjective(s, db);
    forall other: Instance ensures InOnePlace(t, other) {
      InsertPlaces(s, t, db, other);
    }
  }

  lemma InsertPlaces(s: Bridge, t: Bridge, db: Instance, other: Instance)
    requires InOnePlace(s, other) && db in s.opening && s.nextId !in s.instances && !Registered(s, db)
    requires t == AfterInsert(s, db)
    ensures InOnePlace(t, other)
  {
    if other == db {
      assert MapsTo(t.instances, s.nextId, db);
      assert Registered(t, db);
    } else {
      SameRegistered(s, t, other);
    }
  }

  lemma InsertInjective(s: Bridge, db: Instance)
    requires Injective(s.instances) && s.nextId !in s.instances && !Registered(s, db)
    ensures Injective(s.instances[s.nextId := db])
  {
    forall a | a in s.instances ensures s.instances[a] != db {
      assert !MapsTo(s.instances, a, db);
    }
  }

  lemma SameRegistered(s: Bridge, t: Bridge, db: Instance)
    requires forall id | MapsTo(s.instances, id, db) :: MapsTo(t.instances, id, db)
    requires forall id | MapsTo(t.instances, id, db) :: MapsTo(s.instances, id, db)
    ensures Registered(s, db) <==> Registered(t, db)
  {
  }

  lemma RemoveKeeps(s: Bridge, t: Bridge, id: Handle)
    requires Invariant(s) && RemoveStep(s, t, id)
    ensures Invariant(t)
  {
    if id in s.instances {
      forall db: Instance ensures InOnePlace(t, db) {
        assert InOnePlace(s, db);
        if db == s.instances[id] {
          assert MapsTo(s.instances, id, db);
          assert !Registered(t, db);
        } else {
          SameRegistered(s, t, db);
        }
      }
    } else {
      assert t == s by {
        assert t.instances == s.instances && t.closing == s.closing;
      }
    }
  }

  /** The listed values are the registered instances, each once. */
  lemma ListingCounts(instances: map<Handle, Instance>, all: seq<Instance>, db: Instance)
    requires Injective(instances) && IsValueListing(instances, all)
    ensures multiset(all)[db] == if exists id :: MapsTo(instances, id, db) then 1 else 0
  {
    var ids :| ListsValues(instances, all, ids);
    ListingDistinct(instances, all, ids);
    NoDupCount(all, db);
    ListingMember(instances, all, ids, db);
  }

  lemma ListingDistinct(instances: map<Handle, Instance>, all: seq<Instance>, ids: seq<Handle>)
    requires Injective(instances) && ListsValues(instances, all, ids)
    ensures NoDup(all)
  {
    forall i, j | 0 <= i < j < |all| ensures all[i] != all[j] {
      assert ids[i] != ids[j];
    }
  }

  lemma ListingMember(instances: map<Handle, Instance>, all: seq<Instance>, ids: seq<Handle>, db: Instance)
    requires ListsValues(instances, all, ids)
    ensures db in all <==> exists id :: MapsTo(instances, id, db)
  {
    forall id | MapsTo(instances, id, db) ensures db in all {
      assert id in Elements(ids);
      var k :| 0 <= k < |ids| && ids[k] == id;
      assert all[k] == db;
    }
    forall k | 0 <= k < |all| && all[k] == db ensures exists id :: MapsTo(instances, id, db) {
      var id := ids[k];
      assert MapsTo(instances, id, db);
    }
  }

  lemma RemoveAllKeeps(s: Bridge, t: Bridge)
    requires Invariant(s) && RemoveAllStep(s, t)
    ensures Invariant(t)
  {
    var all :| IsValueListing(s.instances, all) && t == AfterRemoveAll(s, all);
    forall db: Instance ensures InOnePlace(t, db) {
      assert InOnePlace(s, db);
      ListingCounts(s.instances, all, db);
    }
  }

  lemma CloseKeeps(s: Bridge, t: Bridge)
    requires Invariant(s) && CloseStep(s, t)
    ensures Invariant(t)
  {
    forall db: Instance ensures InOnePlace(t, db) {
      assert InOnePlace(s, db);
      assert Registered(t, db) <==> Registered(s, db);
    }
  }

  lemma StepKeeps(s: Bridge, t: Bridge)
    requires Invariant(s) && Step(s, t)
    ensures Invariant(t)
    ensures forall id | id in s.handed :: id in t.handed && t.handed[id] == s.handed[id]
    ensures forall id | id in s.handed && id !in s.instances :: id !in t.instances
  {
    hide Injective, InOnePlace;
    if OpenStep(s, t) {
      OpenKeeps(s, t);
    } else if InsertStep(s, t) {
      InsertKeeps(s, t);
    } else if RemoveAllStep(s, t) {
      RemoveAllKeeps(s, t);
    } else if CloseStep(s, t) {
      CloseKeeps(s, t);
    } else {
      var id :| RemoveStep(s, t, id);
      RemoveKeeps(s, t, id);
    }
  }

  lemma {:induction false} RunKeeps(run: seq<Bridge>, n: nat)
    requires IsRun(run) && n < |run|
    ensures Invariant(run[n])
  {
    if n > 0 {
      RunKeeps(run, n - 1);
      assert StepAt(run, n - 1);
      StepKeeps(run[n - 1], run[n]);
    }
  }

  lemma RunExtended(run: seq<Bridge>, n: nat, t: Bridge)
    requires IsRun(run) && n < |run| && Step(run[n], t)
    ensures IsRun(run[..n + 1] + [t])
  {
    hide Step;
    var longer := run[..n + 1] + [t];
    forall i | 0 <= i < |longer| - 1 ensures StepAt(longer, i) {
      if i < n {
        assert StepAt(run, i);
      }
    }
  }

  /**
   A registry that mirrors a state of a run can take each of its operations,
   and the run goes on with what the operation makes of that state.
   */
  lemma OperationsExtendRuns(registry: InstanceRegistry, run: seq<Bridge>, n: nat)
    requires IsRun(run) && n < |run|
    requires registry.Mirrors(run[n])
    ensures registry.Valid()
    ensures forall db | db in run[n].opening :: IsRun(run[..n + 1] + [AfterInsert(run[n], db)])
    ensures forall id :: IsRun(run[..n + 1] + [AfterRemove(run[n], id)])
    ensures forall all | IsValueListing(registry.instances, all) ::
      IsRun(run[..n + 1] + [AfterRemoveAll(run[n], all)])
  {
    hide IsRun, IsValueListing;
    var s := run[n];
    RunKeeps(run, n);
    forall db | db in s.opening ensures IsRun(run[..n + 1] + [AfterInsert(s, db)]) {
      assert InsertStep(s, AfterInsert(s, db));
      RunExtended(run, n, AfterInsert(s, db));
    }
    forall id ensures IsRun(run[..n + 1] + [AfterRemove(s, id)]) {
      assert RemoveStep(s, AfterRemove(s, id), id);
      RunExtended(run, n, AfterRemove(s, id));
    }
    forall all | IsValueListing(registry.instances, all) ensures IsRun(run[..n + 1] + [AfterRemoveAll(s, all)]) {
      assert RemoveAllStep(s, AfterRemoveAll(s, all));
      RunExtended(run, n, AfterRemoveAll(s, all));
    }
  }

  /**
   Over every interleaving: a handle stands for the instance it was minted for
   and for nothing else, and once it is gone it stays gone.
   */
  lemma {:induction false} HandlesAreNeverReused(run: seq<Bridge>, i: nat, j: nat, id: Handle)
    requires IsRun(run) && i <= j < |run| && id in run[i].handed
    ensures id in run[j].handed && run[j].handed[id] == run[i].handed[id]
    ensures Lookup(run[j].instances, id) == None || Lookup(run[j].instances, id) == Some(run[i].handed[id])
    ensures id !in run[i].instances ==> Lookup(run[j].instances, id) == None
  {
    hide Step, InOnePlace, Injective;
    RunKeeps(run, j);
    if i < j {
      HandlesAreNeverReused(run, i, j - 1, id);
      RunKeeps(run, j - 1);
      assert StepAt(run, j - 1);
      StepKeeps(run[j - 1], run[j]);
    }
  }

  /** No instance is closed twice, and none is closed while a handle still reaches it. */
  lemma ClosedAtMostOnce(run: seq<Bridge>, n: nat, db: Instance)
    requires IsRun(run) && n < |run|
    ensures run[n].closed[db] <= 1
    ensures run[n].closed[db] == 1 ==> !Registered(run[n], db) && run[n].closing[db] == 0
  {
    RunKeeps(run, n);
    assert InOnePlace(run[n], db);
  }

  /** Once nothing is open or in flight, every instance ever opened was closed exactly once. */
  lemma NothingLeaks(run: seq<Bridge>, n: nat, db: Instance)
    requires IsRun(run) && n < |run|
    requires run[n].opening == multiset{} && run[n].closing == multiset{} && run[n].instances == map[]
    ensures run[n].closed[db] == if 0 <= db < run[n].minted then 1 else 0
  {
    RunKeeps(run, n);
    assert InOnePlace(run[n], db);
  }

  // ---------------------------------------------------------------------
  // The JavaScript object
  // ---------------------------------------------------------------------

  /** `nativeCloses` counts the native close calls the object has issued. */
  class GenesisDb {
    var dbId: Option<Handle>
    var nativeCloses: nat

    ghost predicate Valid()
      reads this
    {
      nativeCloses == if dbId.Some? then 0 else 1
    }

    constructor (id: Handle)
      ensures Valid() && dbId == Some(id)
    {
      dbId := Some(id);
      nativeCloses := 0;
    }

    /** The handle, or `None` where the source throws. */
    method Id() returns (id: Option<Handle>)
      ensures id == dbId
    {
      id := dbId;
    }

    method Close() returns (issued: Option<Handle>)
      requires Valid()
      modifies this
      ensures Valid() && dbId == None && nativeCloses == 1
      ensures issued == old(dbId)
    {
      issued := dbId;
      if dbId.Some? {
        dbId := None;
        nativeCloses := nativeCloses + 1;
      }
    }
  }
}
