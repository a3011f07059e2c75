/** A client of the registry that walks through its example scenarios using only
    the contracts of `DispatcherService`. */
module Scenario {
  import opened CaseFold
  import opened Model
  import opened Pool
  import opened Performance
  import opened Wrappers
  import opened Dispatcher

  /** Registers A(5) and then B(8). */
  method RegisterAB(a: Driver, b: Driver) returns (svc: DispatcherService)
    requires a == Driver(1, "A", 5, true) && b == Driver(2, "B", 8, true)
    ensures fresh(svc) && fresh(svc.availableDrivers) && svc.Valid()
    ensures svc.PoolContents() == [b, a] && svc.driverMap == map[1 := a, 2 := b]
  {
    svc := new DispatcherService();
    var o := svc.AddDriver(a);
    assert !svc.NameInUse("B") by {
      assert svc.driverMap.Values == {a};
      assert !EqualsIgnoreCase("A", "B") by {
        assert !CharEqualsIgnoreCase("A"[0], "B"[0]);
      }
    }
    o := svc.AddDriver(b);
    InsertScenario(a, b, Driver(3, "C", 5, true));
  }

  /** Registers A(5), B(8) and C(5) in that order: the pool is [B, A, C]. */
  method RegisterABC(a: Driver, b: Driver, c: Driver) returns (svc: DispatcherService)
    requires a == Driver(1, "A", 5, true) && b == Driver(2, "B", 8, true)
    requires c == Driver(3, "C", 5, true)
    ensures fresh(svc) && svc.Valid()
    ensures svc.PoolContents() == [b, a, c] && svc.GetDriver(3) == Some(c)
  {
    svc := RegisterAB(a, b);
    assert !svc.NameInUse("C") by {
      assert svc.driverMap.Values == {a, b} by {
        assert svc.driverMap[1] == a && svc.driverMap[2] == b;
      }
      assert !EqualsIgnoreCase("A", "C") && !EqualsIgnoreCase("B", "C") by {
        assert !CharEqualsIgnoreCase("A"[0], "C"[0]) && !CharEqualsIgnoreCase("B"[0], "C"[0]);
      }
    }
    InsertScenario(a, b, c);
    var o := svc.AddDriver(c);
  }

  /** Assignment takes the tail of [B, A, C]: C, then A; both stay registered. */
  method DispatchScenario() {
    var a := Driver(1, "A", 5, true);
    var b := Driver(2, "B", 8, true);
    var c := Driver(3, "C", 5, true);
    var svc := RegisterABC(a, b, c);
    var r := svc.AssignDriver();
    assert r == Some(c);
    r := svc.AssignDriver();
    assert r == Some(a);
    assert svc.PoolContents() == [b];
    assert svc.GetDriver(3) == Some(c);
  }

  /** A name that differs from a registered one only in case is refused and changes nothing. */
  method DuplicateScenario() {
    var svc := new DispatcherService();
    var a := Driver(1, "A", 5, true);
    var o := svc.AddDriver(a);
    assert svc.driverMap == map[1 := a];
    assert a in svc.driverMap.Values by {
      assert svc.driverMap[1] == a;
    }
    assert EqualsIgnoreCase("A", "a") by {
      assert CharEqualsIgnoreCase("A"[0], "a"[0]);
    }
    o := svc.AddDriver(Driver(4, "a", 9, true));
    assert o == DuplicateName;
    assert svc.PoolContents() == [a];
  }

  /** Two routes recorded against one driver, and the summaries that follow. */
  method PerformanceScenario() {
    var svc := new DispatcherService();
    var o := svc.AddDriver(Driver(1, "A", 5, true));
    assert o == Added;

    var ok := svc.AddRouteToDriver(1, Route("Completed", 30));
    assert ok;
    ok := svc.AddRouteToDriver(1, Route("Pending", 20));
    assert svc.driverRoutes[1] == [Route("Completed", 30), Route("Pending", 20)];
    var p := svc.GetDriverPerformance(1);
    SummaryScenario();
    assert p == Report(2, 1, 50);
  }

  /** An unknown id has no history to append to, and no data to summarise. */
  method UnknownIdScenario() {
    var svc := new DispatcherService();
    var o := svc.AddDriver(Driver(1, "A", 5, true));
    var ok := svc.AddRouteToDriver(99, Route("Completed", 10));
    assert !ok;
    var p := svc.GetDriverPerformance(99);
    assert p == NoData;
    p := svc.GetDriverPerformance(1);
    assert p == NoData;
  }
}
