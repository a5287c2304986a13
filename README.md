# Browser multiplexer model

A Dafny model of the bookkeeping in the `browser` Go package (`browser.go`). The package shares headless-browser sessions between callers, and the model covers four parts of it:

- **Configuration key.** Functional options set four fields: proxy, headless, pool size and idle timeout. `generateKey` folds the options over the defaults and prints the fields as `proxy-headless-poolSize-idleTimeout`. Booleans print as `%t`, integers as `%d`, and the timeout in Go's `time.Duration` form, for example `5m0s`.
- **Registry.** A process-wide map from key to instance. `GetBrowser` looks a key up, or builds an instance with `NewBrowser` and files it only when the build succeeds.
- **Instance lifecycle.** A `Browser` has a session handle (nil or live), a page pool, a last-use time and an idle timer.
  - `createBrowser` launches and installs a session.
  - `GetPage` relaunches a closed instance, resets the timer and takes a pool slot.
  - `PutPage` resets the timer and gives a page back.
  - `Close` drains the pool, closes the session and removes the instance's own key. It is a no-op on a closed instance.
- **Page pool.** A queue of capacity N that starts with N empty slots. Taking an empty slot creates a page; taking a live page reuses it.

`GetCookies` and the `WithCookies` conversion are modelled as field-by-field list transforms. `WithExtraHeaders` is modelled as the flattening of a header map into alternating name/value arguments.

The browser engine is a set of parameters. These are the outcome of launching and connecting, the outcome of the page-creation callback, whether closing the session worked, and what reading cookies gave. A panic in the engine is modelled as an error result. A `MustLaunch` panic leaves the instance unchanged. So does the panic Go raises when a negative pool size allocates the pool's channel. A `MustPage` panic does change state, as in the source: `GetPage` has already reset `lastUsed` and the timer, and the pool slot it popped is spent.

Time is a logical clock passed as `now`. Each timer is represented by its deadline, and `Browser.Tick` fires at most one due timer. `createBrowser` replaces `b.timer` without stopping the old one, so a timer still pending from before an explicit `Close` stays pending beside the new one. The model keeps such timers in `staleTimers`. `Scenarios.StaleTimerClosesEarly` shows the consequence: such a timer closes a relaunched session before that session has been idle for its timeout. `Scenarios.OrphanCloseRemovesSuccessor` shows a related effect. `Close` removes its key whether or not the registry still maps that key to the closing instance, so an instance that was replaced in the registry can remove its successor's entry.

Modules: `GoFormat` (fmt verbs and `Duration.String`), `Config` (options and `generateKey`), `PagePools` (the pool), `Browsers` (instance, `NewBrowser`, registry), `Cookies`, `PageOptions` (extra headers), `Scenarios` (runs following `browser_test.go`, and three that go beyond it).

## Model

| member | source | states |
|---|---|---|
| GoFormat.NatString | browser.go:388-393 | `%d` digits of a natural: at least one digit, all decimal, a single digit exactly below 10, no leading zero otherwise |
| GoFormat.IntString | browser.go:388-393 | `%d` of an int starts with a minus sign exactly when the value is negative |
| GoFormat.NatStringInjective | browser.go:388-393 | distinct naturals print differently (proved by induction on the digits) |
| GoFormat.IntStringInjective | browser.go:388-393 | distinct pool sizes print differently under `%d` |
| GoFormat.BoolString | browser.go:388-390 | `%t` prints `true` exactly for true; either word ends in `e` and holds no minus sign |
| GoFormat.FracDigits | browser.go:392 | the fraction digits of a duration never exceed the precision, and once printing has started all `prec` digits are written |
| GoFormat.DurationString | browser.go:392 | a printed duration has at least two characters and starts with a minus sign exactly for negative durations |
| GoFormat.MagnitudeWithoutDash | browser.go:392 | `Duration.String` of a non-negative duration holds no minus sign, in every unit branch |
| GoFormat.MagnitudeInjective | browser.go:392 | distinct non-negative durations print differently under `Duration.String` |
| GoFormat.DurationStringInjective | browser.go:392 | distinct durations, of either sign, print differently under `%s` |
| GoFormat.PeelSigned | browser.go:388-393 | a dash-joined string whose last part is an optionally signed dash-free word splits back into its prefix, sign and word |
| GoFormat.WholeHasNoFraction | browser.go:392 | a whole number of 10^prec units prints no fraction digits |
| GoFormat.FiveMinutesParts | browser.go:381 | five minutes prints as the minutes part 5, seconds 0 and no fraction |
| GoFormat.FiveMinutesString | browser.go:381 | the default idle timeout prints as `5m0s` |
| Config.Apply | browser.go:42-68 | each setter writes its own field to the value it carries |
| Config.ApplyFrame | browser.go:42-68 | a setter leaves every other field as it was |
| Config.ApplyAll | browser.go:199-201 | after the loop, re-applying the last option changes nothing: the last option's value is in place |
| Config.ApplyAllUntouched | browser.go:384-386 | a field no option sets keeps the value it had before the loop |
| Config.LastSetter | browser.go:384-386 | the index of the last option setting a field, or -1; no later option sets that field |
| Config.ApplyAllConcat | browser.go:384-386 | applying a + b is applying a, then b |
| Config.FinalSnoc | browser.go:384-386 | adding one option changes only its own field's last writer |
| Config.ApplyAllIsFinal | browser.go:384-386 | folding the options gives, field by field, the value of that field's last setter, or the default when none sets it |
| Config.KeyDependsOnlyOnFinal | browser.go:384-393 | option lists with the same final fields have the same key |
| Config.ApplyDistinctCommute | browser.go:39-68 | setters of different fields commute on the struct |
| Config.SettersCommute | browser.go:384-393 | swapping two adjacent setters of different fields anywhere in the list leaves the key unchanged |
| Config.LastWriterWins | browser.go:384-393 | of two adjacent setters of one field, only the second matters to the key |
| Config.KeyOrderIndependent | browser.go:384-393 | two lists that set each field at most once, holding the same options in any order, have the same key |
| Config.DefaultKey | browser.go:378-393 | with no options the key is `-true-3-5m0s`: empty proxy, `true`, `3`, `5m0s` |
| Config.ExplicitDefaultsKey | browser.go:378-382 | `WithHeadless(true), WithPoolSize(3), WithIdleTimeout(5m)` gives the same key as no options |
| Config.OwnOptions | browser.go:362-367 | the options Close rebuilds are four, one per field, and each re-sets its own field to the instance's value |
| Config.OwnOptionsRebuild | browser.go:362-367 | folding an instance's own options over any starting struct gives back exactly the instance's fields |
| Config.OwnOptionsKey | browser.go:362-367 | the key built from an instance's own four fields equals the key of the options it was built from, so Close removes the key GetBrowser filed it under |
| Config.FormatInjective | browser.go:388-393 | the `%s-%t-%d-%s` key of a settings struct determines all four fields: equal keys mean equal settings |
| Config.KeyInjective | browser.go:374-394 | generateKey gives two option lists the same key exactly when they fold to the same settings, so the key identifies an instance's options |
| Config.HeadlessSeparates | browser.go:388-393 | settings differing only in headless have different keys |
| PagePools.EmptySlots | browser.go:254 | a new pool of n holds exactly n empty slots |
| PagePools.Take | browser.go:295-306 | Get pops the head: a live page is reused as is, an empty slot becomes the created page (or an error, with the slot spent), and an empty queue blocks |
| PagePools.Give | browser.go:321 | Put appends while below capacity and otherwise leaves the queue unchanged, so the depth never exceeds capacity |
| PagePools.LivePages | browser.go:348-352 | the pages Cleanup closes are exactly the live pages in the queue |
| PagePools.TakeGiveRestoresDepth | browser.go:306 | a Get followed by a Put restores the depth |
| PagePools.PagePool.constructor | browser.go:254 | the pool starts with `limit` empty slots |
| PagePools.PagePool.Get | browser.go:306 | the pool's queue and result are Take of the old queue, and the depth stays within capacity |
| PagePools.PagePool.Put | browser.go:321 | the pool's queue is Give of the old queue |
| PagePools.PagePool.Cleanup | browser.go:348-352 | the queue is drained and the closed pages are the live pages it held, in order |
| Browsers.DefaultsAgree | browser.go:193-197 | NewBrowser's defaults are generateKey's defaults |
| Browsers.StartupOf | browser.go:244-254 | createBrowser succeeds exactly when launch and connect work and the pool size is non-negative; a connect failure is reported as such |
| Browsers.Deliver | browser.go:306-311 | GetPage returns a page exactly when the pool produced one, and it is that page; a failed create is reported as a page-creation error; it waits exactly when the pool is empty |
| Browsers.KeyIsFormat | browser.go:362-367 | the key Close rebuilds from an instance's fields is the formatted key of those fields |
| Browsers.FirstDue | browser.go:265-269 | the first pending deadline that has been reached, with every earlier one still in the future |
| Browsers.Browser.constructor | browser.go:193-201 | the struct has the given fields, no session, no pool and no timer |
| Browsers.Browser.CreateBrowser | browser.go:211-272 | on failure nothing changes; on success the session is live, the pool is fresh with poolSize empty slots, lastUsed is now, the timer is armed for now + idleTimeout, and the replaced timer stays pending |
| Browsers.Browser.GetPage | browser.go:278-312 | a nil session is relaunched (a failed relaunch changes nothing) without touching the registry; lastUsed and the timer are reset and the page comes from Take on the queue, a fresh one after a relaunch |
| Browsers.Browser.PutPage | browser.go:315-322 | lastUsed and the timer are reset and the queue becomes Give of the old queue |
| Browsers.Browser.Close | browser.go:340-372 | on a closed instance nothing changes and no page is closed; otherwise the pool is drained and the pages closed are exactly its live pages in queue order, and if closing the session works the handle is nil and the own key is removed, else the error is returned with the session and registry untouched |
| Browsers.Browser.Tick | browser.go:265-269 | a timer fires exactly when one is due; the current timer fires only after idleTimeout without use; firing runs Close, closing the pool's live pages of a live instance, and with nothing due no page is closed |
| Browsers.NewBrowser | browser.go:192-208 | an instance is returned exactly when createBrowser succeeds, with the options folded over the defaults, a live session and a fresh pool |
| Browsers.Registry.constructor | browser.go:154-157 | the registry starts empty |
| Browsers.Registry.GetBrowser | browser.go:162-186 | a present key returns the stored instance without building; a missing key builds once and files the instance under the key only on success, leaving the map unchanged on failure; every returned instance, hit or miss, has exactly the fields the options give over the defaults; every entry stays filed under its own instance's key |
| Cookies.Simplify | browser.go:135-143 | of the modelled page-cookie fields, GetCookies' field map keeps all but size and session: converting the result back and restoring those two gives the modelled page cookie |
| Cookies.ToParamInjective | browser.go:112-120 | distinct modelled cookies (expiry as whole Unix seconds) become distinct parameters |
| Cookies.SetThenGet | browser.go:113-119 | the field maps of WithCookies (browser.go:113-119) and GetCookies (browser.go:136-142) invert each other: a cookie converted, stored field for field and simplified comes back unchanged |
| Cookies.SimplifyForgets | browser.go:134-144 | two modelled page cookies simplify alike exactly when they agree on all their fields but size and session |
| Cookies.GetCookies | browser.go:126-147 | a read error is passed on; otherwise the result has one simplified cookie per page cookie, position by position |
| Cookies.ConvertCookies | browser.go:109-120 | one cookie parameter per cookie, position by position |
| PageOptions.PairsToMap | browser.go:103 | every name at an even position is a key of the rebuilt map, and every key comes from such a position |
| PageOptions.ExtraHeaderArgs | browser.go:96-105 | the arguments hold two entries per header and rebuild exactly the header map |
| Scenarios.GetPutCycle | browser_test.go:94-116 | on a fresh pool of n, get/put/get/get/put/put gives depths n, n-1, n, n-1, n-2, n-1, n |
| Scenarios.PutPageDepths | browser_test.go:88-121 | the same on a registered instance, after which Close succeeds and unregisters it |
| Scenarios.DefaultInstance | browser_test.go:36-47 | NewBrowser with no options has the documented defaults and a live session, and Close nils it |
| Scenarios.CloseTwice | browser_test.go:63-68 | closing a live instance twice succeeds both times, removes its key once, closes the pool's live pages the first time and no page the second |
| Scenarios.SameOptionsSameInstance | browser_test.go:49-69 | pool size and timeout given in either order return the same instance |
| Scenarios.HeadlessSplitsInstances | browser_test.go:148-171 | headless false and true give two different instances |
| Scenarios.CloseRemovesDefaultKey | browser_test.go:133-146 | after Close the default key is no longer registered |
| Scenarios.RelaunchAfterClose | browser_test.go:173-194 | a closed standalone instance of six relaunches on GetPage with depth 5 and stays unregistered |
| Scenarios.CloseDrainsPool | browser_test.go:196-211 | a page put back before Close is the one page Close closes, leaving depth 0 and a nil session |
| Scenarios.IdleTimeoutCloses | browser_test.go:213-239 | the instance is live one tick before lastUsed + timeout, and closed and unregistered at it |
| Scenarios.Succession | browser.go:162-186 | after closing the default instance, GetBrowser files a new instance under the same key |
| Scenarios.StaleTimerClosesEarly | browser.go:265-269 | a timer left pending by an explicit Close fires on the relaunched session before that session has been idle for its timeout |
| Scenarios.OrphanCloseRemovesSuccessor | browser.go:361-367 | Close of a replaced instance removes the live successor's registry entry |

## Left out

- Concurrency: the registry's `RWMutex`, the double-checked lookup and each instance's mutex. Every operation is one atomic step.
- Real timers and their goroutines: a timer fires only when `Tick` is called, and at most one per call. Races between a firing timer and other calls are not modelled.
- `context.WithCancel` and `cancel`: nothing uses the token.
- Launcher flags, proxy flag, `SlowMotion`, incognito contexts: these are engine details, not visible in the model.
- The page options that call the engine (`WithUserAgent`, `WithReferer`, `WithViewport`), and `BlockImageLoading` with its router goroutine.
- Applying page options to a freshly created page: only whether creation worked is modelled.
- Browsers.Browser.Close: `closedPages` lists the pages handed to `page.Close()`; a page whose close fails is only logged (browser.go:349-351), so the model does not record which closes worked.
- Logging, and the panic/recover path: a panic is modelled as an error result. The recover that closes the half-launched browser is not modelled.
- `rod.PagePool` internals are not part of this model. `Put` on a full pool is a channel send that would block; discarding the page instead is a choice of this model.
- `Get` on an empty pool returns `WaitsForSlot` instead of blocking. In the package no later `PutPage` or `Close` can end that wait: `GetPage` holds the instance's mutex while blocked in `Get` (browser.go:279-280, 306), and `PutPage` and `Close` both need that mutex (browser.go:316, 343). Only a `PutPage` that released the mutex (browser.go:319) before `GetPage` took it, and has yet to finish its send (browser.go:321), can still wake it; otherwise the instance deadlocks.
- Error message text: errors are constructors. `Cookies.GetCookies` passes the read error on unchanged.
- Cookies.NetworkCookie: the protocol records are reduced to the fields the package copies, plus size and session. The real page cookie also carries sameSite, priority, source scheme and port, and partition key, which `GetCookies` drops as well; the real cookie parameter also has url, sameSite, priority and more, which `WithCookies` leaves unset. So `Cookies.Simplify` and `Cookies.SimplifyForgets` speak of the modelled fields only.
- Cookies.Stored: assumes the page keeps every field of a cookie it sets exactly as given. A real page may normalise the domain or path; the package's own test checks only name and value (browser_test.go:340-346).
- `WithCookies` only converts the cookies: setting them on a page is engine work, represented in `Cookies.SetThenGet` by the cookie the page stores.
- Cookies.GetCookies: cookie expiry is a whole-second Unix time copied unchanged. The float `TimeSinceEpoch` and the truncating conversion to `time.Time` are not modelled. Nor is the sub-second part and location that `Expires.Unix()` (browser.go:117) drops, so `Cookies.ToParamInjective` and `Cookies.SetThenGet` hold for whole-second expiries only.
- `GetCookies` is a module-level method, because the source's method never uses its `Browser` receiver.
- PageOptions.ExtraHeaderArgs: Go's map iteration order is unspecified, so the contract does not fix the order of the pairs.
- Browsers.Registry.GetBrowser: the registry is an object passed explicitly rather than a package global.
- Browsers.Browser.PutPage: requires an existing pool, since every instance that a caller holds went through a successful `createBrowser`.
