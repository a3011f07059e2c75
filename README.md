# Driver dispatch registry

A Dafny model of the in-memory driver registry of a small logistics system
(`DispatcherService`). The registry keeps:

- an **availability pool**: a fixed array of 100 drivers with a count. `addDriver` keeps it
  sorted by years of experience, highest first, by insertion sort. `assignDriver` takes drivers
  off its tail;
- an **id index** of every registered driver, and a **route history** per driver id. The
  history only ever grows at the end;
- a **duplicate-name guard**: a driver whose name equals a registered one, ignoring case, is
  refused;
- a **performance summary** of a driver's history: the number of routes, how many are
  completed, and the total estimated time.

Files, one module each:

- `wrappers.dfy`: `Option`, standing for a Java reference that may be `null`.
- `int32.dfy`: Java's 32-bit `int`, and `Wrap`, the wrap-around of its addition.
- `casefold.dfy`: `String.equalsIgnoreCase` on ASCII letters, with its algebraic properties.
- `model.dfy`: the `Driver` and `Route` records.
- `pool.dfy`: pure functions specifying the pool. `Position` is the slot the shifting loop
  frees. `Insert` is the pool after an insertion. The lemmas cover sortedness, tie order and
  permutation.
- `performance.dfy`: the summary fold as pure functions (`CompletedCount`, `IntTimeSum`,
  `Summarize`) and lemmas about them.
- `dispatcher.dfy`: the class `DispatcherService`. Its fields are the pool array, the count and
  the two id-keyed maps. Its methods are proved against the functions above. `Valid()` is the
  invariant every method keeps: the pool is sorted; every registered id has a history and no
  other id does; each driver is stored under its own id; names are unique ignoring case; every
  pooled driver's id is registered.
- `scenario.dfy`: client methods that walk through the registry's example scenarios using
  only the class's contracts. Registering A(5), B(8), C(5) gives the pool [B, A, C], and two
  assignments return C and then A. A name differing only in case is refused. A completed route
  of 30 and a pending one of 20 summarise to 2 routes, 1 completed, 50 minutes. An unknown id
  has no data.

Modelling choices:

- Java `int` fields (`id`, `experienceYears`, `estimatedTime`) are `int32`. The running total
  `totalTime += r.estimatedTime` wraps at 32 bits, as Java's does. `IntTimeSumIsWrappedSum`
  proves that this equals the exact sum reduced to 32 bits. It is the exact sum whenever that
  fits.
- `BasicHashMap` is a Dafny `map`. `put` overwrites and `get` returns `None` for a missing
  key. A Java `Route[]` history is a `seq<Route>`: the Java code never changes one in place, and
  `addRouteToDriver` builds a new array.
- `addDriver` on a full pool stores past the end of the array. Java throws
  `ArrayIndexOutOfBoundsException` there before anything is written, because the first store is
  always to index `driverCount`. The model returns `PoolFull` with the state unchanged.
- `addRouteToDriver` on an id with no history dereferences `null`. Java throws before anything
  is written. The model returns `ok == false` with the state unchanged.
- `addDriver` and `addRouteToDriver` return `void` in Java. Their outcome values
  (`AddOutcome`, `ok`) only name which of the paths above was taken.
- Ties in the pool: the shift condition is a strict `<`. So a new driver goes after every
  driver with the same experience. The tail is therefore the most recently registered of the
  least experienced drivers, and `assignDriver` returns it (`InsertLeastGoesToTail`,
  `AssignDriver`). This is not the earliest registered one.
- Re-registering an existing id under a new, unused name overwrites the id index and resets
  the history, as `put` does. The pool then holds both records, so a pooled record need not be
  the one stored under its id. The id-level fact does hold: the maps never lose a key, so every
  pooled driver's id is registered and has a history (part of `Valid()`). An assigned driver
  therefore stays retrievable by id with its history (`AssignDriver`).

## Model

| member | source | states |
|---|---|---|
| Int32.WrapAdd | src/adomlogistics/service/DispatcherService.java:117 | adding to a wrapped 32-bit accumulator gives the wrap of the exact sum |
| CaseFold.CharEqualsIgnoreCase | src/adomlogistics/service/DispatcherService.java:31 | Java's per-character rule (equal, equal upper cases, or equal lower cases of the upper cases) holds exactly when the ASCII lower cases are equal |
| CaseFold.EqualsIgnoreCase | src/adomlogistics/service/DispatcherService.java:31 | Java's `equalsIgnoreCase`: equal strings match, and matching strings have the same length |
| CaseFold.EqualsIgnoreCaseIffLower | src/adomlogistics/service/DispatcherService.java:31 | Java's char-by-char ignore-case rule holds exactly when the ASCII-lower-cased strings are equal (both directions) |
| CaseFold.Reflexive | src/adomlogistics/service/DispatcherService.java:31 | every string matches itself ignoring case |
| CaseFold.Symmetric | src/adomlogistics/service/DispatcherService.java:31 | ignore-case equality does not depend on argument order |
| CaseFold.Transitive | src/adomlogistics/service/DispatcherService.java:31 | ignore-case equality is transitive |
| CaseFold.CaseInsensitive | src/adomlogistics/service/DispatcherService.java:31 | a string matches its own lower-cased and upper-cased forms |
| CaseFold.CompletedAnyCase | src/adomlogistics/service/DispatcherService.java:114 | a status matches "Completed" exactly when it lower-cases to "completed" |
| CaseFold.CompletedExamples | src/adomlogistics/service/DispatcherService.java:114 | "COMPLETED" and "completed" match "Completed"; "Complete" and "Pending" do not |
| Pool.Position | src/adomlogistics/service/DispatcherService.java:38-42 | the freed slot is within the pool; every later entry has strictly less experience; the entry just before it has at least as much |
| Pool.PositionUnique | src/adomlogistics/service/DispatcherService.java:38-42 | any slot where the shifting loop's stop condition holds is `Position` |
| Pool.InsertShape | src/adomlogistics/service/DispatcherService.java:40-43 | a sequence that keeps the prefix, holds the driver in the slot and the shifted entries after it is the insertion |
| Pool.InsertTieOrder | src/adomlogistics/service/DispatcherService.java:38-43 | in a sorted pool an old entry stays ahead of the new driver exactly when its experience is at least the new driver's (both directions), so equals keep registration order |
| Pool.InsertKeepsSorted | src/adomlogistics/service/DispatcherService.java:37-44 | inserting into a pool sorted by experience descending keeps it sorted, one longer |
| Pool.InsertIsPermutation | src/adomlogistics/service/DispatcherService.java:38-44 | the new pool is the old pool plus the new driver as multisets; removing the driver from its slot gives back the old pool in its old order |
| Pool.InsertMembers | src/adomlogistics/service/DispatcherService.java:38-44 | every entry of the new pool is an old entry or the new driver |
| Pool.PopKeepsSorted | src/adomlogistics/service/DispatcherService.java:62-67 | removing the tail keeps a sorted pool sorted |
| Pool.TailIsLeastExperienced | src/adomlogistics/service/DispatcherService.java:62-64 | the tail of a sorted pool has the least experience in it |
| Pool.InsertLeastGoesToTail | src/adomlogistics/service/DispatcherService.java:38-43 | a driver with no more experience than anyone in the pool is appended at the tail |
| Pool.InsertScenario | src/adomlogistics/service/DispatcherService.java:37-44 | inserting A(5), B(8), C(5) in turn gives [A], then [B, A], then [B, A, C] |
| Performance.CompletedCount | src/adomlogistics/service/DispatcherService.java:113-116 | the number of completed routes never exceeds the history's length |
| Performance.Summarize | src/adomlogistics/service/DispatcherService.java:104-118 | "no data" exactly for a missing or empty history; otherwise completed is at most total |
| Performance.IntTimeSumIsWrappedSum | src/adomlogistics/service/DispatcherService.java:111-117 | the wrapping accumulator ends at the exact sum reduced to 32 bits, and at the exact sum when it fits in an int |
| Performance.CompletedCountAppend | src/adomlogistics/service/DispatcherService.java:113-116 | the completed count of a concatenation is the sum of the counts |
| Performance.TimeSumAppend | src/adomlogistics/service/DispatcherService.java:117 | the exact time total of a concatenation is the sum of the totals |
| Performance.AllCompletedIff | src/adomlogistics/service/DispatcherService.java:113-116 | the completed count equals the length exactly when every route is completed |
| Performance.NoneCompletedIff | src/adomlogistics/service/DispatcherService.java:113-116 | the completed count is zero exactly when no route is completed |
| Performance.LastStep | src/adomlogistics/service/DispatcherService.java:113-117 | one loop iteration: the count gains one for a completed route, and the totals gain the route's time |
| Performance.SummarizeAfterAppend | src/adomlogistics/service/DispatcherService.java:96-118 | after appending a route the summary has one more route, one more completed if the route is, and its time added with wrap-around |
| Performance.SummaryScenario | src/adomlogistics/service/DispatcherService.java:104-118 | a completed route of 30 and a pending route of 20 summarise to 2 routes, 1 completed, 50 minutes |
| Dispatcher.PutKeepsNamesUnique | src/adomlogistics/service/DispatcherService.java:29-35 | storing a driver whose name matches no stored name keeps names unique ignoring case, whether its id is new or overwritten |
| Dispatcher.DispatcherService.constructor | src/adomlogistics/service/DispatcherService.java:18-24 | a fresh 100-slot pool that is empty, and two empty maps |
| Dispatcher.DispatcherService.NameTaken | src/adomlogistics/service/DispatcherService.java:29-35 | true exactly when some stored driver's name equals the given one ignoring case |
| Dispatcher.DispatcherService.AddDriver | src/adomlogistics/service/DispatcherService.java:27-60 | a name in use changes nothing; a full pool changes nothing; otherwise the pool becomes `Insert(old pool, d)`, the count grows by 1, `d` is stored under its id with an empty history, `GetDriver(d.id)` is `d`, and the invariant (sorted pool, unique names, pooled ids registered) is kept |
| Dispatcher.DispatcherService.InsertIntoPool | src/adomlogistics/service/DispatcherService.java:37-44 | on a full pool nothing changes; otherwise the pool becomes `Insert(old pool, d)`, one longer, and stays sorted |
| Dispatcher.DispatcherService.ShiftTail | src/adomlogistics/service/DispatcherService.java:38-42 | the loop frees slot `Position(pool, e)`, keeps the entries before it and moves those after it one slot back |
| Dispatcher.DispatcherService.AssignDriver | src/adomlogistics/service/DispatcherService.java:62-67 | an empty pool gives `None` and changes nothing; otherwise it returns the old tail, which has the least experience, the count drops by 1, the rest of the pool is unchanged and stays sorted, both maps are unchanged, and the returned driver's id is still registered with a history |
| Dispatcher.DispatcherService.GetDriver | src/adomlogistics/service/DispatcherService.java:69-71 | a driver found under `id` has that id |
| Dispatcher.DispatcherService.GetDriverCount | src/adomlogistics/service/DispatcherService.java:73-75 | the pool's length, at most 100 |
| Dispatcher.DispatcherService.GetAvailableDrivers | src/adomlogistics/service/DispatcherService.java:77-81 | a freshly allocated array holding exactly the pool in pool order |
| Dispatcher.DispatcherService.GetAllDrivers | src/adomlogistics/service/DispatcherService.java:83-90 | a fresh array with one entry per registered id; each entry is a registered driver, and each registered driver appears |
| Dispatcher.DispatcherService.GetDriverRoutes | src/adomlogistics/service/DispatcherService.java:92-94 | an id has a history exactly when a driver is registered under it |
| Dispatcher.DispatcherService.AddRouteToDriver | src/adomlogistics/service/DispatcherService.java:96-102 | for an id with a history, that history becomes the old one followed by the route; an unknown id changes nothing; no other id's history changes |
| Dispatcher.DispatcherService.GetDriverPerformance | src/adomlogistics/service/DispatcherService.java:104-118 | the loop returns `Summarize` of the id's history: no data for a missing or empty history, otherwise its length, its completed count and its wrapped time total |

## Left out

- Persistence (`Database`, and `driverExists` and `saveDriver` in `addDriver` with the `SQLException` swallowed): JDBC I/O. It never changes registry state, so the model has no gateway parameter.
- Console output (`System.out.println`): I/O with no effect on state.
- The completion-rate percentage and the `String.format` report text: floating point and formatting. `Summary` carries the integer total, completed count and total time instead.
- `Driver.distanceFromPickup`: a `double` the registry never reads. `Driver.toString` and the 3-argument `Driver` constructor that leaves every field at its default are not used by the registry.
- The internals of `BasicHashMap` (hashing, collisions, resizing, the order of `values()`): the model is an abstract map. `GetAllDrivers` promises no order.
- The unused `nextDriverId` field.
- Object identity and aliasing: in Java, `Driver` and `Route` are mutable objects. The caller, the pool and `driverMap` share them by reference, and `getDriverRoutes` hands out the internal `Route[]` itself, not a copy. The model treats drivers, routes and returned histories as immutable values. So `Valid()` (sorted pool, unique names, drivers stored under their own ids, append-only histories) holds in Java only while callers do not mutate the objects they passed in or got back.
- `null` arguments: a `null` driver, name, or route status would throw or compare false in Java. They are not modelled.
- Unicode case folding: `equalsIgnoreCase` is modelled on ASCII letters only.
- Dispatcher.DispatcherService.InsertIntoPool: a full pool is checked before the shifting loop, not at the out-of-bounds store inside it. The state afterwards is the same, since that store is always the first write.
