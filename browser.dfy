/**
  The browser multiplexer: a managed Browser instance (its session, page
  pool, last-use time and idle timer) and the process-wide registry that
  shares one instance per option key.

  Everything the browser engine does is a parameter: whether launching and
  connecting worked (Launch), what the page-creation callback produced
  (Creation), and whether closing the browser process worked (closeOk).
  Times are integer nanoseconds on a logical clock passed as `now`; the
  runtime's timers are modelled by their deadlines, and a timer fires only
  when Tick is called.
 */
module Browsers {
  import opened GoFormat
  import opened Config
  import opened PagePools

  /** What launching and connecting a browser process gave. */
  datatype Launch = Launched(session: nat) | LaunchPanicked | ConnectFailed

  datatype Error =
    | LaunchFailed        // the launcher panicked (MustLaunch)
    | ConnectError        // "failed to connect to browser"
    | PoolSizeOutOfRange  // a negative pool size makes the pool's channel allocation panic
    | PageCreationFailed  // the page-creation callback panicked (MustIncognito / MustPage)
    | CloseError          // "failed to close browser"

  datatype Status = Done | Failed(err: Error)

  /** createBrowser's outcome before it touches the instance: a session to install, or an error. */
  datatype Startup = Up(session: nat) | Down(err: Error)

  /** The instance's rod browser: nil, or a live session. */
  datatype Handle = Nil | Live(session: nat)

  /** A runtime timer: the moment it fires, and whether it is still pending. */
  datatype Timer = Timer(deadline: int, armed: bool)

  datatype PageResult = GotPage(page: nat) | PageError(err: Error) | WaitsForSlot

  datatype Construction = Made(b: Browser) | NotMade(err: Error)

  /** NewBrowser's struct literal: headless, three pages, five minutes, no proxy. */
  const InstanceDefaults: Settings := Settings("", true, 3, 5 * Minute)

  /** The defaults NewBrowser starts from are the ones generateKey starts from. */
  lemma DefaultsAgree()
    ensures InstanceDefaults == KeyBase
  {
  }

  /** The key an instance rebuilds from its own fields is the format of those fields. */
  lemma KeyIsFormat(b: Browser)
    ensures b.Key() == Format(b.Fields())
  {
    OwnOptionsRebuild(b.Fields(), KeyBase);
  }

  /**
    createBrowser's checks in order: the launcher may panic, the connection
    may fail, and a negative pool size panics when the pool is allocated.
   */
  function StartupOf(poolSize: int, launch: Launch): (r: Startup)
    ensures r.Up? <==> launch.Launched? && poolSize >= 0
    ensures r.Up? ==> r.session == launch.session
    ensures launch.ConnectFailed? ==> r == Down(ConnectError)
  {
    match launch
    case LaunchPanicked => Down(LaunchFailed)
    case ConnectFailed => Down(ConnectError)
    case Launched(id) => if poolSize < 0 then Down(PoolSizeOutOfRange) else Up(id)
  }

  /** What GetPage returns for what the pool's Get produced. */
  function Deliver(g: Got): (r: PageResult)
    ensures r.GotPage? <==> g.Reused? || g.Fresh?
    ensures r.GotPage? ==> r.page == g.page
    ensures g.CreateFailed? ==> r == PageError(PageCreationFailed)
    ensures r == WaitsForSlot <==> g == Blocked
  {
    match g
    case Reused(p) => GotPage(p)
    case Fresh(p) => GotPage(p)
    case CreateFailed => PageError(PageCreationFailed)
    case Blocked => WaitsForSlot
  }

  /** The deadline of a timer that a new timer replaces while it is still pending. */
  function Replaced(t: Timer): seq<int>
  {
    if t.armed then [t.deadline] else []
  }

  /** Index of the first deadline in ds that has been reached at now, or |ds| when none has. */
  function FirstDue(ds: seq<int>, now: int): (i: nat)
    ensures i <= |ds|
    ensures i < |ds| ==> ds[i] <= now
    ensures forall j :: 0 <= j < i ==> ds[j] > now
    decreases |ds|
  {
    if ds == [] then 0
    else if ds[0] <= now then 0
    else 1 + FirstDue(ds[1..], now)
  }

  /** Some pending timer has reached its deadline. */
  ghost predicate Due(t: Timer, stale: seq<int>, now: int)
  {
    (t.armed && t.deadline <= now) || exists i :: 0 <= i < |stale| && stale[i] <= now
  }

  class Browser {
    const proxy: string
    const headless: bool
    const poolSize: int
    const idleTimeout: int
    var browser: Handle
    var pool: PagePool?
    var lastUsed: int
    /** b.timer: the timer createBrowser armed last, reset by GetPage and PutPage. */
    var timer: Timer
    /** Deadlines of earlier timers that createBrowser replaced while they were still pending. */
    var staleTimers: seq<int>

    function Fields(): Settings
    {
      Settings(proxy, headless, poolSize, idleTimeout)
    }

    /** The key Close removes: generateKey over options rebuilt from the instance's own fields. */
    function Key(): string
    {
      GenerateKey(OwnOptions(Fields()))
    }

    ghost predicate Valid()
      reads this, pool
    {
      && (pool != null ==> pool.Valid() && pool.limit == poolSize)
      && (browser.Live? ==> pool != null)
      && (timer.armed ==> timer.deadline == lastUsed + idleTimeout)
    }

    /** The struct literal, with the options already applied; nothing is launched yet. */
    constructor (s: Settings)
      ensures Valid()
      ensures Fields() == s
      ensures browser == Nil && pool == null && !timer.armed && staleTimers == []
    {
      proxy, headless, poolSize, idleTimeout := s.proxy, s.headless, s.poolSize, s.idleTimeout;
      browser := Nil;
      pool := null;
      lastUsed := 0;
      timer := Timer(0, false);
      staleTimers := [];
    }

    /**
      createBrowser: launch and connect, then install the session, a new pool
      of poolSize empty slots, the last-use time and a new idle timer. The
      timer it replaces is not stopped.
     */
    method CreateBrowser(launch: Launch, now: int) returns (st: Status)
      requires Valid()
      modifies this
      ensures Valid()
      ensures StartupOf(poolSize, launch).Down? ==>
        st == Failed(StartupOf(poolSize, launch).err) && unchanged(this)
      ensures StartupOf(poolSize, launch).Up? ==>
        && st == Done
        && browser == Live(launch.session)
        && pool != null && fresh(pool) && pool.queue == EmptySlots(pool.limit)
        && lastUsed == now && timer == Timer(now + idleTimeout, true)
        && staleTimers == old(staleTimers) + Replaced(old(timer))
    {
      match StartupOf(poolSize, launch)
      case Down(e) =>
        st := Failed(e);
      case Up(id) =>
        pool := new PagePool(poolSize);
        browser := Live(id);
        lastUsed := now;
        staleTimers := staleTimers + Replaced(timer);
        timer := Timer(now + idleTimeout, true);
        st := Done;
    }

    /**
      GetPage: relaunch when the session is nil (without touching the
      registry), record the use, reset the idle timer, then take a slot from
      the pool.
     */
    method GetPage(launch: Launch, create: Creation, now: int) returns (r: PageResult)
      requires Valid()
      modifies this, pool
      ensures Valid()
      ensures old(browser).Nil? && StartupOf(poolSize, launch).Down? ==>
        && r == PageError(StartupOf(poolSize, launch).err)
        && unchanged(this) && (pool != null ==> unchanged(pool))
      ensures old(browser).Live? || StartupOf(poolSize, launch).Up? ==>
        && browser.Live? && pool != null
        && (old(browser).Nil? ==>
              browser == Live(launch.session) && fresh(pool)
              && staleTimers == old(staleTimers) + Replaced(old(timer)))
        && (old(browser).Live? ==>
              browser == old(browser) && pool == old(pool) && staleTimers == old(staleTimers))
        && lastUsed == now && timer == Timer(now + idleTimeout, true)
        && var taken := Take(if old(browser).Nil? then EmptySlots(pool.limit) else old(pool.queue), create);
           r == Deliver(taken.0) && pool.queue == taken.1
    {
      if browser.Nil? {
        var st := CreateBrowser(launch, now);
        if st.Failed? {
          return PageError(st.err);
        }
      }
      lastUsed := now;
      timer := Timer(now + idleTimeout, true);
      var got := pool.Get(create);
      r := Deliver(got);
    }

    /** PutPage: record the use, reset the idle timer, and hand the page back to the pool. */
    method PutPage(page: nat, now: int)
      requires Valid() && pool != null
      modifies this, pool
      ensures Valid()
      ensures browser == old(browser) && pool == old(pool) && staleTimers == old(staleTimers)
      ensures lastUsed == now && timer == Timer(now + idleTimeout, true)
      ensures pool.queue == Give(old(pool.queue), pool.limit, page).1
    {
      lastUsed := now;
      timer := Timer(now + idleTimeout, true);
      var _ := pool.Put(page);
    }

    /**
      Close: a no-op when the session is already nil. Otherwise drain the
      pool, closing every live page it held (closedPages, in queue order),
      close the browser process, and only when that worked nil the session
      and delete the instance's own key from the registry. The idle timer is
      left as it is.
     */
    method Close(reg: Registry, closeOk: bool) returns (st: Status, closedPages: seq<nat>)
      requires Valid() && reg.Valid()
      modifies this, pool, reg
      ensures Valid() && reg.Valid()
      ensures pool == old(pool) && lastUsed == old(lastUsed)
      ensures timer == old(timer) && staleTimers == old(staleTimers)
      ensures old(browser).Nil? ==>
        && st == Done && closedPages == [] && browser == Nil && reg.browsers == old(reg.browsers)
        && (pool != null ==> pool.queue == old(pool.queue))
      ensures old(browser).Live? ==>
        && pool != null && pool.queue == []
        && closedPages == LivePages(old(pool.queue))
      ensures old(browser).Live? && closeOk ==>
        st == Done && browser == Nil && reg.browsers == old(reg.browsers) - {Key()}
      ensures old(browser).Live? && !closeOk ==>
        st == Failed(CloseError) && browser == old(browser) && reg.browsers == old(reg.browsers)
    {
      closedPages := [];
      if browser.Live? {
        closedPages := pool.Cleanup();
        if !closeOk {
          return Failed(CloseError), closedPages;
        }
        browser := Nil;
        reg.browsers := reg.browsers - {Key()};
      }
      st := Done;
    }

    /**
      The runtime fires one timer whose deadline has been reached: b.timer if
      it is pending and due, otherwise the first due stale timer. Firing runs
      Close, which closes the pooled pages it reports; with nothing due,
      nothing happens and no page is closed.
     */
    method Tick(reg: Registry, now: int, closeOk: bool) returns (fired: bool, st: Status, closedPages: seq<nat>)
      requires Valid() && reg.Valid()
      modifies this, pool, reg
      ensures Valid() && reg.Valid()
      ensures fired <==> Due(old(timer), old(staleTimers), now)
      ensures !fired ==>
        st == Done && closedPages == [] && unchanged(this) && unchanged(reg) && (pool != null ==> unchanged(pool))
      ensures fired && old(timer).armed && old(timer).deadline <= now ==>
        && now >= old(lastUsed) + idleTimeout
        && timer == old(timer).(armed := false) && staleTimers == old(staleTimers)
      ensures fired && !(old(timer).armed && old(timer).deadline <= now) ==>
        && timer == old(timer)
        && exists i :: 0 <= i < |old(staleTimers)| && old(staleTimers)[i] <= now
                       && staleTimers == old(staleTimers)[..i] + old(staleTimers)[i + 1..]
      ensures fired ==> pool == old(pool) && lastUsed == old(lastUsed)
      ensures fired && old(browser).Nil? ==>
        st == Done && closedPages == [] && browser == Nil && reg.browsers == old(reg.browsers)
      ensures fired && old(browser).Live? ==>
        && pool != null && pool.queue == []
        && closedPages == LivePages(old(pool.queue))
        && (closeOk ==> st == Done && browser == Nil && reg.browsers == old(reg.browsers) - {Key()})
        && (!closeOk ==> st == Failed(CloseError) && browser == old(browser) && reg.browsers == old(reg.browsers))
    {
      if timer.armed && timer.deadline <= now {
        timer := timer.(armed := false);
        fired := true;
        st, closedPages := Close(reg, closeOk);
      } else {
        var i := FirstDue(staleTimers, now);
        if i < |staleTimers| {
          staleTimers := staleTimers[..i] + staleTimers[i + 1..];
          fired := true;
          st, closedPages := Close(reg, closeOk);
        } else {
          fired, st, closedPages := false, Done, [];
        }
      }
    }
  }

  /**
    NewBrowser: apply the options to the defaults, then createBrowser. The
    instance is returned only when the launch worked; it is not registered.
   */
  method NewBrowser(opts: seq<Option>, launch: Launch, now: int) returns (r: Construction)
    ensures r.Made? <==> StartupOf(ApplyAll(InstanceDefaults, opts).poolSize, launch).Up?
    ensures r.NotMade? ==> r.err == StartupOf(ApplyAll(InstanceDefaults, opts).poolSize, launch).err
    ensures r.Made? ==>
      && fresh(r.b) && r.b.Valid()
      && r.b.Fields() == ApplyAll(InstanceDefaults, opts)
      && r.b.browser == Live(launch.session)
      && r.b.pool != null && fresh(r.b.pool) && r.b.pool.queue == EmptySlots(r.b.pool.limit)
      && r.b.lastUsed == now && r.b.timer == Timer(now + r.b.idleTimeout, true)
      && r.b.staleTimers == []
  {
    var b := new Browser(ApplyAll(InstanceDefaults, opts));
    var st := b.CreateBrowser(launch, now);
    if st.Done? {
      r := Made(b);
    } else {
      r := NotMade(st.err);
    }
  }

  /** The process-wide map from option key to instance. */
  class Registry {
    var browsers: map<string, Browser>

    /** Every entry is filed under the key of its own instance's fields. */
    ghost predicate Valid()
      reads this
    {
      forall k | k in browsers :: browsers[k].Key() == k
    }

    constructor ()
      ensures Valid() && browsers == map[]
    {
      browsers := map[];
    }

    /**
      GetBrowser: return the instance filed under the options' key; on a miss
      build one with NewBrowser and file it, only if building worked.
     */
    method GetBrowser(opts: seq<Option>, launch: Launch, now: int) returns (r: Construction)
      requires Valid()
      modifies this
      ensures Valid()
      ensures GenerateKey(opts) in old(browsers) ==>
        && r == Made(old(browsers)[GenerateKey(opts)]) && browsers == old(browsers)
        && r.b.Fields() == ApplyAll(InstanceDefaults, opts)
      ensures GenerateKey(opts) !in old(browsers) ==>
        (r.Made? <==> StartupOf(ApplyAll(InstanceDefaults, opts).poolSize, launch).Up?)
      ensures GenerateKey(opts) !in old(browsers) && r.NotMade? ==>
        && r.err == StartupOf(ApplyAll(InstanceDefaults, opts).poolSize, launch).err
        && browsers == old(browsers)
      ensures GenerateKey(opts) !in old(browsers) && r.Made? ==>
        && browsers == old(browsers)[GenerateKey(opts) := r.b]
        && fresh(r.b) && r.b.Valid()
        && r.b.Fields() == ApplyAll(InstanceDefaults, opts)
        && r.b.browser == Live(launch.session)
        && r.b.pool != null && fresh(r.b.pool) && r.b.pool.queue == EmptySlots(r.b.pool.limit)
        && r.b.lastUsed == now && r.b.timer == Timer(now + r.b.idleTimeout, true)
        && r.b.staleTimers == []
    {
      var key := GenerateKey(opts);
      if key in browsers {
        var b := browsers[key];
        assert b.Key() == key;
        KeyIsFormat(b);
        FormatInjective(b.Fields(), ApplyAll(KeyBase, opts));
        DefaultsAgree();
        return Made(b);
      }
      r := NewBrowser(opts, launch, now);
      if r.Made? {
        OwnOptionsKey(opts);
        browsers := browsers[key := r.b];
      }
    }
  }
}
