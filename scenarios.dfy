/**
  Runs of the multiplexer on a fresh registry, with every engine call
  succeeding unless a scenario says otherwise. Each method's postcondition
  is what the run observably gives. GetPutCycle, PutPageDepths,
  DefaultInstance, CloseTwice, SameOptionsSameInstance,
  HeadlessSplitsInstances, CloseRemovesDefaultKey, RelaunchAfterClose,
  CloseDrainsPool and IdleTimeoutCloses follow the package's own test suite
  (browser_test.go). Succession, StaleTimerClosesEarly and
  OrphanCloseRemovesSuccessor go beyond it and show what the lifecycle
  allows. FreshInstance, Register, StaleRelaunch, ClosedWithPendingTimer,
  RelaunchAndClose and SwappedPairKey are steps shared by those runs.
 */
module Scenarios {
  import opened GoFormat
  import opened Config
  import opened PagePools
  import opened Browsers

  /**
    A fresh registry asked for the options opts, whose fields are s: the
    lookup misses, the instance is launched as session 1 at time 0 and filed
    under the options' key, which is also the key it closes under.
   */
  method FreshInstance(opts: seq<Option>, s: Settings) returns (reg: Registry, b: Browser)
    requires ApplyAll(InstanceDefaults, opts) == s && s.poolSize >= 0
    ensures fresh(reg) && fresh(b) && fresh(b.pool)
    ensures reg.Valid() && reg.browsers == map[GenerateKey(opts) := b]
    ensures b.Valid() && b.Fields() == s && b.Key() == GenerateKey(opts)
    ensures b.browser == Live(1) && b.pool != null && b.pool.queue == EmptySlots(s.poolSize)
    ensures b.lastUsed == 0 && b.timer == Timer(s.idleTimeout, true) && b.staleTimers == []
  {
    reg := new Registry();
    b := Register(reg, opts, s, 1, 0);
  }

  /**
    A registry without the options' key asked for them: the instance is
    launched as the given session at now and filed under the key, which is
    also the key it closes under.
   */
  method Register(reg: Registry, opts: seq<Option>, s: Settings, session: nat, now: int) returns (b: Browser)
    requires reg.Valid() && GenerateKey(opts) !in reg.browsers
    requires ApplyAll(InstanceDefaults, opts) == s && s.poolSize >= 0
    modifies reg
    ensures fresh(b) && fresh(b.pool)
    ensures reg.Valid() && reg.browsers == old(reg.browsers)[GenerateKey(opts) := b]
    ensures b.Valid() && b.Fields() == s && b.Key() == GenerateKey(opts)
    ensures b.browser == Live(session) && b.pool != null && b.pool.queue == EmptySlots(s.poolSize)
    ensures b.lastUsed == now && b.timer == Timer(now + s.idleTimeout, true) && b.staleTimers == []
  {
    var r := reg.GetBrowser(opts, Launched(session), now);
    b := r.b;
    DefaultsAgree();
    OwnOptionsKey(opts);
  }

  /**
    Get, put, get, get, put, put on a live instance whose pool of n >= 2
    slots is still fresh: the depth before the first step and after each one.
   */
  method GetPutCycle(b: Browser, n: nat) returns (depths: seq<int>)
    requires n >= 2
    requires b.Valid() && b.browser.Live? && b.pool != null
    requires b.pool.limit == n && b.pool.queue == EmptySlots(n)
    modifies b, b.pool
    ensures depths == [n, n - 1, n, n - 1, n - 2, n - 1, n]
    ensures b.Valid() && b.browser == old(b.browser) && b.pool == old(b.pool)
  {
    var d0 := |b.pool.queue|;
    var page := b.GetPage(Launched(2), Created(10), 1);
    assert page == GotPage(10) && b.pool.queue == EmptySlots(n)[1..];
    var d1 := |b.pool.queue|;
    b.PutPage(10, 2);
    assert b.pool.queue == EmptySlots(n)[1..] + [Page(10)];
    var d2 := |b.pool.queue|;
    page := b.GetPage(Launched(2), Created(11), 3);
    assert page == GotPage(11) && |b.pool.queue| == n - 1;
    var d3 := |b.pool.queue|;
    var page2 := b.GetPage(Launched(2), Created(12), 4);
    assert page2.GotPage? && |b.pool.queue| == n - 2;
    var d4 := |b.pool.queue|;
    b.PutPage(11, 5);
    var d5 := |b.pool.queue|;
    b.PutPage(page2.page, 6);
    var d6 := |b.pool.queue|;
    depths := [d0, d1, d2, d3, d4, d5, d6];
  }

  /**
    A registered instance with a pool of n >= 2 (five in the package's
    test): get, put, get, get, put, put moves the depth n, n-1, n, n-1,
    n-2, n-1, n; Close then succeeds and unregisters it.
   */
  method PutPageDepths(n: nat) returns (depths: seq<int>, closed: Status, registered: bool)
    requires n >= 2
    ensures depths == [n, n - 1, n, n - 1, n - 2, n - 1, n]
    ensures closed == Done && !registered
  {
    var opts := [WithPoolSize(n)];
    ApplyAllOne(InstanceDefaults, opts[0]);
    var reg, b := FreshInstance(opts, Settings("", true, n, 5 * Minute));
    depths := GetPutCycle(b, n);
    var pages;
    closed, pages := b.Close(reg, true);
    registered := GenerateKey(opts) in reg.browsers;
  }

  /** NewBrowser with no options: the documented defaults, a live session, and a clean Close. */
  method DefaultInstance() returns (fields: Settings, live: bool, closed: Status, liveAfter: bool)
    ensures fields == Settings("", true, 3, 5 * Minute) && live
    ensures closed == Done && !liveAfter
  {
    var reg := new Registry();
    var r := NewBrowser([], Launched(1), 0);
    var b := r.b;
    fields, live := b.Fields(), b.browser.Live?;
    var pages;
    closed, pages := b.Close(reg, true);
    liveAfter := b.browser.Live?;
  }

  /**
    Close on a live instance succeeds and closes the pool's live pages; a
    second Close succeeds without doing anything and closes no page.
   */
  method CloseTwice(b: Browser, reg: Registry)
    returns (first: Status, second: Status, firstPages: seq<nat>, secondPages: seq<nat>)
    requires b.Valid() && reg.Valid() && b.browser.Live?
    modifies b, b.pool, reg
    ensures first == Done && second == Done && b.browser == Nil
    ensures firstPages == LivePages(old(b.pool.queue)) && secondPages == []
    ensures reg.browsers == old(reg.browsers) - {b.Key()}
  {
    first, firstPages := b.Close(reg, true);
    second, secondPages := b.Close(reg, true);
  }

  /**
    A pool size and an idle timeout given in either order reach the same
    instance; closing it twice succeeds both times.
   */
  method SameOptionsSameInstance(n: nat, timeout: int)
    returns (same: bool, fields: Settings, first: Status, second: Status)
    ensures same
    ensures fields == Settings("", true, n, timeout)
    ensures first == Done && second == Done
  {
    var o1, o2 := WithPoolSize(n), WithIdleTimeout(timeout);
    SwappedPairKey(o1, o2);
    ApplyAllPair(InstanceDefaults, o1, o2);
    var reg, b := FreshInstance([o1, o2], Settings("", true, n, timeout));
    var r2 := reg.GetBrowser([o2, o1], Launched(2), 1);
    same := r2 == Made(b);
    fields := b.Fields();
    var firstPages, secondPages;
    first, second, firstPages, secondPages := CloseTwice(b, reg);
  }

  lemma SwappedPairKey(o1: Option, o2: Option)
    requires FieldOf(o1) != FieldOf(o2)
    ensures GenerateKey([o1, o2]) == GenerateKey([o2, o1])
  {
    SettersCommute([], o1, o2, []);
    assert [] + [o1, o2] + [] == [o1, o2] && [] + [o2, o1] + [] == [o2, o1];
  }

  /** Options that differ only in headless reach two different instances. */
  method HeadlessSplitsInstances() returns (distinct: bool)
    ensures distinct
  {
    var o1, o2 := WithHeadless(false), WithHeadless(true);
    ApplyAllOne(KeyBase, o1);
    ApplyAllOne(KeyBase, o2);
    HeadlessSeparates(ApplyAll(KeyBase, [o1]), ApplyAll(KeyBase, [o2]));
    ApplyAllOne(InstanceDefaults, o1);
    ApplyAllOne(InstanceDefaults, o2);
    var reg := new Registry();
    var r1 := reg.GetBrowser([o1], Launched(1), 0);
    var r2 := reg.GetBrowser([o2], Launched(2), 1);
    distinct := r1.b != r2.b;
  }

  /** Closing the default instance removes the default key from the registry. */
  method CloseRemovesDefaultKey() returns (closed: Status, registeredBefore: bool, registeredAfter: bool)
    ensures closed == Done && registeredBefore && !registeredAfter
  {
    var reg := new Registry();
    var r := reg.GetBrowser([], Launched(1), 0);
    registeredBefore := GenerateKey([]) in reg.browsers;
    var pages;
    closed, pages := r.b.Close(reg, true);
    OwnOptionsKey([]);
    registeredAfter := GenerateKey([]) in reg.browsers;
  }

  /**
    A standalone instance of six pages, closed and then asked for a page,
    relaunches with a new pool and hands out one slot of it; the registry is
    not involved.
   */
  method RelaunchAfterClose() returns (live: bool, depth: int, registrySize: int)
    ensures live && depth == 5 && registrySize == 0
  {
    var reg := new Registry();
    ApplyAllOne(InstanceDefaults, WithPoolSize(6));
    var r := NewBrowser([WithPoolSize(6)], Launched(1), 0);
    var b := r.b;
    var _, _ := b.Close(reg, true);
    var page := b.GetPage(Launched(2), Created(20), 1);
    live, depth, registrySize := b.browser.Live?, |b.pool.queue|, |reg.browsers|;
  }

  /** A page handed back to the pool is closed with it: Close closes exactly that page and empties the pool. */
  method CloseDrainsPool() returns (closed: seq<nat>, depth: int, live: bool)
    ensures closed == [10]
    ensures depth == 0 && !live
  {
    var reg, b := FreshInstance([], InstanceDefaults);
    var page := b.GetPage(Launched(2), Created(10), 1);
    b.PutPage(page.page, 2);
    assert b.pool.queue == EmptySlots(3)[1..] + [Page(10)];
    OnePageBack();
    var st;
    st, closed := b.Close(reg, true);
    depth, live := |b.pool.queue|, b.browser.Live?;
  }

  /** A default pool that lent one slot and got page 10 back holds page 10 as its only live page. */
  lemma OnePageBack()
    ensures LivePages(EmptySlots(3)[1..] + [Page(10)]) == [10]
  {
    var q := EmptySlots(3)[1..];
    assert q == [Empty, Empty];
    assert LivePages(q + [Page(10)]) == LivePages(q) + [10] by {
      assert (q + [Page(10)])[..2] == q;
    }
    assert LivePages(q) == [] by {
      assert q[..1] == [Empty];
      assert LivePages([Empty]) == LivePages([]) by { assert [Empty][..0] == []; }
    }
  }

  /**
    Idle eviction: an instance with a positive idle timeout, used at 1 and
    handed its page back at 2, is still live one tick before 2 + timeout and
    is closed and unregistered at 2 + timeout.
   */
  method IdleTimeoutCloses(timeout: int)
    returns (firedBefore: bool, liveBefore: bool, firedAt: bool, liveAfter: bool, registeredAfter: bool)
    requires timeout > 0
    ensures !firedBefore && liveBefore
    ensures firedAt && !liveAfter && !registeredAfter
  {
    var opts := [WithIdleTimeout(timeout), WithHeadless(false)];
    ApplyAllPair(InstanceDefaults, opts[0], opts[1]);
    var reg, b := FreshInstance(opts, Settings("", false, 3, timeout));
    var page := b.GetPage(Launched(2), Created(10), 1);
    b.PutPage(page.page, 2);
    var st, pages;
    firedBefore, st, pages := b.Tick(reg, 2 + timeout - 1, true);
    liveBefore := b.browser.Live?;
    firedAt, st, pages := b.Tick(reg, 2 + timeout, true);
    liveAfter := b.browser.Live?;
    registeredAfter := GenerateKey(opts) in reg.browsers;
  }

  /**
    An explicit Close leaves the idle timer pending, and the relaunch in
    GetPage arms a new one beside it. The old timer then closes the new
    session although it has been idle for less than its timeout.
   */
  method StaleTimerClosesEarly() returns (fired: bool, live: bool, idleFor: int, timeout: int)
    ensures fired && !live
    ensures idleFor < timeout
  {
    var reg, b := StaleRelaunch();
    assert Due(b.timer, b.staleTimers, 5 * Second) by {
      assert b.staleTimers[0] <= 5 * Second;
    }
    var st, pages;
    fired, st, pages := b.Tick(reg, 5 * Second, true);
    live, idleFor, timeout := b.browser.Live?, 5 * Second - b.lastUsed, b.idleTimeout;
  }

  /**
    A standalone instance with a five-second idle timeout, launched at 0,
    closed, and relaunched by GetPage at two seconds: the first timer is
    still pending beside the new one.
   */
  method StaleRelaunch() returns (reg: Registry, b: Browser)
    ensures fresh(reg) && fresh(b) && reg.Valid() && b.Valid() && b.browser.Live?
    ensures b.pool != null && fresh(b.pool)
    ensures b.staleTimers == [5 * Second] && b.timer == Timer(7 * Second, true)
    ensures b.lastUsed == 2 * Second && b.idleTimeout == 5 * Second
  {
    reg, b := ClosedWithPendingTimer();
    var page := b.GetPage(Launched(2), Created(10), 2 * Second);
  }

  /** A standalone instance with a five-second idle timeout, launched at 0 and closed at once. */
  method ClosedWithPendingTimer() returns (reg: Registry, b: Browser)
    ensures fresh(reg) && fresh(b) && reg.Valid() && b.Valid() && b.browser == Nil
    ensures b.pool != null && fresh(b.pool)
    ensures b.poolSize == 3 && b.idleTimeout == 5 * Second
    ensures b.timer == Timer(5 * Second, true) && b.staleTimers == []
  {
    reg := new Registry();
    ApplyAllOne(InstanceDefaults, WithIdleTimeout(5 * Second));
    var r := NewBrowser([WithIdleTimeout(5 * Second)], Launched(1), 0);
    b := r.b;
    var _, _ := b.Close(reg, true);
  }

  /**
    The default instance is registered, closed, and succeeded by a new
    registered instance; the first one is left closed and unregistered.
   */
  method Succession() returns (reg: Registry, first: Browser, successor: Browser)
    ensures fresh(reg) && reg.Valid() && reg.browsers == map[GenerateKey([]) := successor]
    ensures fresh(first) && first.pool != null && fresh(first.pool) && first.Valid() && first.browser == Nil
    ensures fresh(successor) && successor != first && successor.browser.Live?
    ensures first.Key() == GenerateKey([])
  {
    reg, first := FreshInstance([], InstanceDefaults);
    var _, _ := first.Close(reg, true);
    successor := Register(reg, [], InstanceDefaults, 2, 1);
  }

  /** The replaced instance relaunches through GetPage and then closes, deleting its own key. */
  method RelaunchAndClose(reg: Registry, first: Browser, successor: Browser, key: string)
    requires reg.Valid() && reg.browsers == map[key := successor]
    requires first.Valid() && first.browser == Nil && first.pool != null
    requires first.Key() == key && first != successor
    modifies reg, first, first.pool
    ensures reg.browsers == map[] && successor.browser == old(successor.browser)
  {
    var page := first.GetPage(Launched(3), Created(10), 2);
    var _, _ := first.Close(reg, true);
  }

  /**
    An instance whose registry entry was replaced still removes the key when
    it closes: here it takes the entry of the live instance that succeeded it.
   */
  method OrphanCloseRemovesSuccessor() returns (successorLive: bool, registered: bool)
    ensures successorLive && !registered
  {
    var reg, first, successor := Succession();
    RelaunchAndClose(reg, first, successor, GenerateKey([]));
    successorLive := successor.browser.Live?;
    registered := GenerateKey([]) in reg.browsers;
  }
}
