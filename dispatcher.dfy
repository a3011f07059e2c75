/** The driver dispatch registry (`DispatcherService`): a fixed-size availability pool kept
    sorted by experience, an id-to-driver index, an id-to-route-history index, and the
    operations on them. */
module Dispatcher {
  import opened Int32
  import opened CaseFold
  import opened Model
  import opened Pool
  import opened Performance
  import opened Wrappers

  /** The length of the pool array. */
  const Capacity: nat := 100

  /** How a registration ends: the driver is registered, the name is taken (nothing happens),
      or the pool array is full (the Java store past the end of the array throws before
      anything is written). */
  datatype AddOutcome = Added | DuplicateName | PoolFull

  /** No two registered drivers have names that are equal ignoring case. */
  ghost predicate UniqueNames(m: map<int32, Driver>)
  {
    forall i, j :: i in m && j in m && i != j ==> !EqualsIgnoreCase(m[i].name, m[j].name)
  }

  /** Storing a driver whose name matches no stored driver keeps the names unique, whether its
      id is new or overwrites an existing entry. */
  lemma PutKeepsNamesUnique(m: map<int32, Driver>, d: Driver)
    requires UniqueNames(m)
    requires forall x :: x in m.Values ==> !EqualsIgnoreCase(x.name, d.name)
    ensures UniqueNames(m[d.id := d])
  {
    var m' := m[d.id := d];
    forall i, j | i in m' && j in m' && i != j
      ensures !EqualsIgnoreCase(m'[i].name, m'[j].name)
    {
      if i == d.id {
        assert m[j] in m.Values;
        Symmetric(m'[j].name, d.name);
      } else if j == d.id {
        assert m[i] in m.Values;
      }
    }
  }

  class DispatcherService {
    /** The availability pool: `availableDrivers[..driverCount]`. */
    var availableDrivers: array<Driver>
    var driverCount: nat
    /** Every registered driver, by id. */
    var driverMap: map<int32, Driver>
    /** The route history of every registered driver, by id, in the order routes were added. */
    var driverRoutes: map<int32, seq<Route>>

    /** The registry's invariant: the pool fits its array and is sorted by experience,
        descending; every registered id has a history and nothing else has one; each driver is
        stored under its own id; names are unique ignoring case; and the id of every pooled
        driver is registered, since the maps never lose a key. */
    ghost predicate Valid()
      reads this, availableDrivers
    {
      PoolValid() && IndexValid() && PoolRegistered()
    }

    /** Every pooled driver's id has an entry in the id index (and so a history). */
    ghost predicate PoolRegistered()
      reads this, availableDrivers
      requires PoolValid()
    {
      forall x :: x in availableDrivers[..driverCount] ==> x.id in driverMap
    }

    ghost predicate PoolValid()
      reads this, availableDrivers
    {
      && availableDrivers.Length == Capacity
      && driverCount <= Capacity
      && SortedDesc(availableDrivers[..driverCount])
    }

    ghost predicate IndexValid()
      reads this
    {
      && driverMap.Keys == driverRoutes.Keys
      && (forall id :: id in driverMap ==> driverMap[id].id == id)
      && UniqueNames(driverMap)
    }

    /** The drivers currently available for assignment, head first. */
    ghost function PoolContents(): seq<Driver>
      reads this, availableDrivers
      requires Valid()
    {
      availableDrivers[..driverCount]
    }

    /** Some registered driver's name matches `name` ignoring case. */
    predicate NameInUse(name: string)
      reads this
    {
      exists x :: x in driverMap.Values && EqualsIgnoreCase(x.name, name)
    }

    constructor ()
      ensures Valid() && fresh(availableDrivers)
      ensures PoolContents() == [] && driverMap == map[] && driverRoutes == map[]
    {
      availableDrivers := new Driver[Capacity];
      driverCount := 0;
      driverMap := map[];
      driverRoutes := map[];
    }

    /** The duplicate-name scan over the stored drivers, stopping at the first match. */
    method NameTaken(name: string) returns (taken: bool)
      ensures taken <==> NameInUse(name)
    {
      var rest := driverMap.Values;
      while rest != {}
        invariant rest <= driverMap.Values
        invariant forall x :: x in driverMap.Values && x !in rest ==> !EqualsIgnoreCase(x.name, name)
        decreases rest
      {
        var x :| x in rest;
        if EqualsIgnoreCase(x.name, name) {
          return true;
        }
        rest := rest - {x};
      }
      return false;
    }

    /** Registers `d`: rejects a name already in use, otherwise inserts `d` into the pool after
        every driver with at least its experience, indexes it by id and gives it an empty
        history (replacing any driver and history stored under that id). */
    method AddDriver(d: Driver) returns (outcome: AddOutcome)
      requires Valid()
      modifies this, availableDrivers
      ensures Valid() && availableDrivers == old(availableDrivers)
      ensures outcome == DuplicateName <==> old(NameInUse(d.name))
      ensures outcome == PoolFull <==> !old(NameInUse(d.name)) && old(driverCount) == Capacity
      ensures outcome != Added ==>
        && PoolContents() == old(PoolContents())
        && driverMap == old(driverMap)
        && driverRoutes == old(driverRoutes)
      ensures outcome == Added ==>
        && PoolContents() == Insert(old(PoolContents()), d)
        && driverCount == old(driverCount) + 1
        && driverMap == old(driverMap)[d.id := d]
        && driverRoutes == old(driverRoutes)[d.id := []]
        && GetDriver(d.id) == Some(d)
        && GetDriverRoutes(d.id) == Some([])
    {
      var taken := NameTaken(d.name);
      if taken {
        return DuplicateName;
      }
      ghost var before := PoolContents();
      var full := InsertIntoPool(d);
      if full {
        return PoolFull;
      }
      InsertMembers(before, d);
      PutKeepsNamesUnique(driverMap, d);
      driverMap := driverMap[d.id := d];
      driverRoutes := driverRoutes[d.id := []];
      return Added;
    }

    /** The insertion step of `AddDriver`. The Java code's first store is always to index
        `driverCount` (the first shift, or the final store when nothing shifts), so on a full
        pool it throws before anything is written; that is `full`, with nothing changed. */
    method InsertIntoPool(d: Driver) returns (full: bool)
      requires PoolValid()
      modifies this`driverCount, availableDrivers
      ensures PoolValid()
      ensures full <==> old(driverCount) == Capacity
      ensures full ==> driverCount == old(driverCount) && unchanged(availableDrivers)
      ensures !full ==>
        && driverCount == old(driverCount) + 1
        && availableDrivers[..driverCount] == Insert(old(availableDrivers[..driverCount]), d)
    {
      if driverCount == availableDrivers.Length {
        return true;
      }
      ghost var s := availableDrivers[..driverCount];
      var k := ShiftTail(d.experienceYears);
      availableDrivers[k] := d;
      driverCount := driverCount + 1;
      InsertShape(s, d, availableDrivers[..driverCount]);
      InsertKeepsSorted(s, d);
      return false;
    }

    /** The shifting loop: from the tail down, moves every entry with strictly less experience
        than `e` one slot back, and returns the slot left free, `Position(PoolContents(), e)`. */
    method ShiftTail(e: int32) returns (k: nat)
      requires driverCount < availableDrivers.Length
      modifies availableDrivers
      ensures k == Position(old(availableDrivers[..driverCount]), e)
      ensures forall j :: 0 <= j < k ==> availableDrivers[j] == old(availableDrivers[j])
      ensures forall j :: k < j <= driverCount ==> availableDrivers[j] == old(availableDrivers[j - 1])
    {
      ghost var s := availableDrivers[..driverCount];
      var i: int := driverCount - 1;
      while i >= 0 && availableDrivers[i].experienceYears < e
        invariant -1 <= i < driverCount
        invariant forall j :: 0 <= j <= i ==> availableDrivers[j] == s[j]
        invariant forall j :: i + 1 < j <= driverCount ==> availableDrivers[j] == s[j - 1]
        invariant forall j :: i < j < driverCount ==> s[j].experienceYears < e
        decreases i
      {
        availableDrivers[i + 1] := availableDrivers[i];
        i := i - 1;
      }
      k := i + 1;
      PositionUnique(s, e, k);
    }

    /** Takes the driver at the tail of the pool, the least experienced one, out of the pool;
        the driver stays registered and keeps its history. */
    method AssignDriver() returns (r: Option<Driver>)
      requires Valid()
      modifies this`driverCount
      ensures Valid()
      ensures old(driverCount) == 0 ==> r == None && driverCount == 0
      ensures old(driverCount) > 0 ==>
        && r == Some(old(PoolContents())[old(driverCount) - 1])
        && driverCount == old(driverCount) - 1
        && PoolContents() == old(PoolContents())[..driverCount]
      ensures r.Some? ==> forall j :: 0 <= j < |old(PoolContents())| ==>
        r.value.experienceYears <= old(PoolContents())[j].experienceYears
      ensures r.Some? ==> GetDriver(r.value.id).Some? && GetDriverRoutes(r.value.id).Some?
      ensures driverMap == old(driverMap) && driverRoutes == old(driverRoutes)
    {
      if driverCount == 0 {
        return None;
      }
      ghost var s := availableDrivers[..driverCount];
      r := Some(availableDrivers[driverCount - 1]);
      driverCount := driverCount - 1;
      assert availableDrivers[..driverCount] == s[..|s| - 1];
      assert s[|s| - 1] in s;
      PopKeepsSorted(s);
      TailIsLeastExperienced(s);
    }

    /** The driver registered under `id`, if any; it is always stored under its own id. */
    function GetDriver(id: int32): (r: Option<Driver>)
      reads this, availableDrivers
      requires Valid()
      ensures r.Some? ==> r.value.id == id
    {
      if id in driverMap then Some(driverMap[id]) else None
    }

    /** The number of drivers in the pool. */
    function GetDriverCount(): (n: nat)
      reads this, availableDrivers
      requires Valid()
      ensures n == |PoolContents()| && n <= Capacity
    {
      driverCount
    }

    /** A copy of the pool, in pool order, that later changes to the pool cannot reach. */
    method GetAvailableDrivers() returns (snapshot: array<Driver>)
      requires Valid()
      ensures fresh(snapshot) && snapshot[..] == PoolContents()
    {
      snapshot := new Driver[driverCount];
      var i := 0;
      while i < driverCount
        invariant 0 <= i <= driverCount
        invariant snapshot[..i] == availableDrivers[..i]
      {
        snapshot[i] := availableDrivers[i];
        i := i + 1;
      }
    }

    /** Every registered driver once, in no particular order. */
    method GetAllDrivers() returns (all: array<Driver>)
      requires Valid()
      ensures fresh(all) && all.Length == |driverMap|
      ensures forall x :: x in all[..] ==> x.id in driverMap && driverMap[x.id] == x
      ensures forall id :: id in driverMap ==> driverMap[id] in all[..]
    {
      var acc: seq<Driver> := [];
      var rest := driverMap.Keys;
      while rest != {}
        invariant rest <= driverMap.Keys
        invariant |acc| + |rest| == |driverMap|
        invariant forall x :: x in acc ==> x.id in driverMap && x.id !in rest && driverMap[x.id] == x
        invariant forall id :: id in driverMap && id !in rest ==> driverMap[id] in acc
        decreases rest
      {
        var id :| id in rest;
        acc := acc + [driverMap[id]];
        rest := rest - {id};
      }
      all := new Driver[|acc|](i requires 0 <= i < |acc| => acc[i]);
      assert all[..] == acc;
    }

    /** The route history of `id`; exactly the registered drivers have one. */
    function GetDriverRoutes(id: int32): (r: Option<seq<Route>>)
      reads this, availableDrivers
      requires Valid()
      ensures r.Some? <==> GetDriver(id).Some?
    {
      if id in driverRoutes then Some(driverRoutes[id]) else None
    }

    /** Appends `route` to the history of a registered driver. For an unknown id the Java code
        dereferences a missing history and throws before changing anything; here that is
        `ok == false` with nothing changed. */
    method AddRouteToDriver(id: int32, route: Route) returns (ok: bool)
      requires Valid()
      modifies this`driverRoutes
      ensures Valid()
      ensures ok <==> id in old(driverRoutes)
      ensures ok ==> driverRoutes == old(driverRoutes)[id := old(driverRoutes)[id] + [route]]
      ensures !ok ==> driverRoutes == old(driverRoutes)
      ensures forall other :: other != id ==> GetDriverRoutes(other) == old(GetDriverRoutes(other))
    {
      if id !in driverRoutes {
        return false;
      }
      var current := driverRoutes[id];
      driverRoutes := driverRoutes[id := current + [route]];
      return true;
    }

    /** The performance summary of `id`'s history: no data for an unknown id or an empty
        history, otherwise the number of routes, of completed routes and the total time. */
    method GetDriverPerformance(id: int32) returns (s: Summary)
      requires Valid()
      ensures s == Summarize(GetDriverRoutes(id))
      ensures s.NoData? <==> (id !in driverRoutes || driverRoutes[id] == [])
      ensures s.Report? ==> s.total == |driverRoutes[id]| && s.completed <= s.total
    {
      if id !in driverRoutes || |driverRoutes[id]| == 0 {
        return NoData;
      }
      var routes := driverRoutes[id];
      var completed: nat := 0;
      var totalTime: int32 := 0;
      for i := 0 to |routes|
        invariant completed == CompletedCount(routes[..i])
        invariant totalTime == IntTimeSum(routes[..i])
      {
        assert routes[..i + 1] == routes[..i] + [routes[i]];
        LastStep(routes[..i], routes[i]);
        if EqualsIgnoreCase("Completed", routes[i].status) {
          completed := completed + 1;
        }
        totalTime := Wrap(totalTime as int + routes[i].estimatedTime as int);
      }
      assert routes[..|routes|] == routes;
      return Report(|routes|, completed, totalTime);
    }
  }
}
