/** Which library may verify packets for an OApp: a default per remote endpoint, an override per OApp,
    and a grace period for the library that was replaced. */
module ReceiveLibraries {
  import opened Common

  datatype MessageLibType = Send | Receive | SendAndReceive

  datatype Timeout = Timeout(messageLib: Pubkey, expiry: u64)

  datatype LibraryConfig = LibraryConfig(messageLib: Pubkey, timeout: Option<Timeout>)

  const DEFAULT_MESSAGE_LIB: Pubkey := 0

  /** The address of a message library is a derived address, never the zero key. */
  type LibraryKey = k: Pubkey | k != DEFAULT_MESSAGE_LIB witness 1

  predicate IsValidReceiveLibrary(actual: Pubkey, config: LibraryConfig, defaultConfig: LibraryConfig, slot: u64) {
    var isDefault := config.messageLib == DEFAULT_MESSAGE_LIB;
    var expected := if isDefault then defaultConfig.messageLib else config.messageLib;
    var timeout := if isDefault then defaultConfig.timeout else config.timeout;
    || actual == expected
    || (timeout.Some? && timeout.value.messageLib == actual && timeout.value.expiry > slot)
  }

  // ---------- specification of the setters ----------

  /** The account of a registered library that may receive. */
  function ReceiveLib(info: Option<MessageLibType>): Result<()> {
    var _ :- Require(info.Some?, AccountNotInitialized);
    Require(info.value != Send, OnlyReceiveLib)
  }

  /** The timeout that a switch away from `oldLib` leaves behind. */
  function GraceTimeout(oldLib: Pubkey, gracePeriod: u64, slot: u64): Result<Option<Timeout>> {
    if gracePeriod == 0 then Ok(None)
    else
      var _ :- Require(gracePeriod + slot <= U64_MAX, Abort);
      Ok(Some(Timeout(oldLib, gracePeriod + slot)))
  }

  function ExplicitTimeout(lib: Pubkey, expiry: u64, slot: u64): Result<Option<Timeout>> {
    if expiry == 0 then Ok(None)
    else
      var _ :- Require(expiry > slot, InvalidExpiry);
      Ok(Some(Timeout(lib, expiry)))
  }

  function SetReceiveLibrarySpec(c: LibraryConfig, newLib: Pubkey, gracePeriod: u64, info: Option<MessageLibType>,
                            slot: u64)
    : Result<LibraryConfig>
  {
    var _ :- Require(c.messageLib != newLib, SameValue);
    var _ :- Require(info != Some(Send), OnlyReceiveLib);
    var _ :- Require(newLib != DEFAULT_MESSAGE_LIB ==> info.Some?, AccountNotFound);
    var _ :- Require(gracePeriod > 0 ==> c.messageLib != DEFAULT_MESSAGE_LIB && newLib != DEFAULT_MESSAGE_LIB, OnlyNonDefaultLib);
    var timeout :- GraceTimeout(c.messageLib, gracePeriod, slot);
    Ok(LibraryConfig(newLib, timeout))
  }

  function SetReceiveLibraryTimeoutSpec(c: LibraryConfig, lib: Pubkey, expiry: u64, info: Option<MessageLibType>,
                            slot: u64)
    : Result<LibraryConfig>
  {
    var _ :- Require(c.messageLib != DEFAULT_MESSAGE_LIB, OnlyNonDefaultLib);
    var _ :- ReceiveLib(info);
    var timeout :- ExplicitTimeout(lib, expiry, slot);
    Ok(c.(timeout := timeout))
  }

  function SetDefaultReceiveLibrarySpec(c: LibraryConfig, newLib: Pubkey, gracePeriod: u64,
                            info: Option<MessageLibType>, slot: u64)
    : Result<LibraryConfig>
  {
    var _ :- Require(c.messageLib != newLib, SameValue);
    var _ :- ReceiveLib(info);
    var timeout :- GraceTimeout(c.messageLib, gracePeriod, slot);
    Ok(LibraryConfig(newLib, timeout))
  }

  function SetDefaultReceiveLibraryTimeoutSpec(c: LibraryConfig, lib: Pubkey, expiry: u64,
                            info: Option<MessageLibType>, slot: u64)
    : Result<LibraryConfig>
  {
    var _ :- ReceiveLib(info);
    var timeout :- ExplicitTimeout(lib, expiry, slot);
    Ok(c.(timeout := timeout))
  }

  // ---------- the setters, on the config account ----------

  class LibraryConfigAccount {
    var messageLib: Pubkey
    var timeout: Option<Timeout>

    /** `InitReceiveLibrary` starts on the default; `InitDefaultReceiveLibrary` names the default. */
    constructor (lib: Pubkey)
      ensures View() == LibraryConfig(lib, None)
    {
      messageLib, timeout := lib, None;
    }

    function View(): LibraryConfig
      reads this
    {
      LibraryConfig(messageLib, timeout)
    }

    method SetReceiveLibrary(newLib: Pubkey, gracePeriod: u64, info: Option<MessageLibType>,
                            slot: u64) returns (r: Result<()>)
      modifies this
      ensures Outcome(SetReceiveLibrarySpec(old(View()), newLib, gracePeriod, info, slot), old(View()), r, View())
    {
      if messageLib == newLib {
        return Err(SameValue);
      }
      if info == Some(Send) {
        return Err(OnlyReceiveLib);
      }
      if newLib != DEFAULT_MESSAGE_LIB && info.None? {
        return Err(AccountNotFound);
      }
      var oldLib := messageLib;
      var newTimeout := None;
      if gracePeriod > 0 {
        if oldLib == DEFAULT_MESSAGE_LIB || newLib == DEFAULT_MESSAGE_LIB {
          return Err(OnlyNonDefaultLib);
        }
        if gracePeriod + slot > U64_MAX {
          return Err(Abort);
        }
        newTimeout := Some(Timeout(oldLib, gracePeriod + slot));
      }
      messageLib := newLib;
      timeout := newTimeout;
      return Ok(());
    }

    method SetReceiveLibraryTimeout(lib: Pubkey, expiry: u64, info: Option<MessageLibType>,
                            slot: u64) returns (r: Result<()>)
      modifies this
      ensures Outcome(SetReceiveLibraryTimeoutSpec(old(View()), lib, expiry, info, slot), old(View()), r, View())
    {
      if messageLib == DEFAULT_MESSAGE_LIB {
        return Err(OnlyNonDefaultLib);
      }
      r := SetDefaultReceiveLibraryTimeout(lib, expiry, info, slot);
    }

    method SetDefaultReceiveLibrary(newLib: Pubkey, gracePeriod: u64, info: Option<MessageLibType>,
                            slot: u64) returns (r: Result<()>)
      modifies this
      ensures Outcome(SetDefaultReceiveLibrarySpec(old(View()), newLib, gracePeriod, info, slot), old(View()), r, View())
    {
      if messageLib == newLib {
        return Err(SameValue);
      }
      var receive := ReceiveLib(info);
      if receive.Err? {
        return receive;
      }
      var oldLib := messageLib;
      var newTimeout := None;
      if gracePeriod > 0 {
        if gracePeriod + slot > U64_MAX {
          return Err(Abort);
        }
        newTimeout := Some(Timeout(oldLib, gracePeriod + slot));
      }
      messageLib := newLib;
      timeout := newTimeout;
      return Ok(());
    }

    method SetDefaultReceiveLibraryTimeout(lib: Pubkey, expiry: u64, info: Option<MessageLibType>,
                            slot: u64) returns (r: Result<()>)
      modifies this
      ensures Outcome(SetDefaultReceiveLibraryTimeoutSpec(old(View()), lib, expiry, info, slot), old(View()), r, View())
    {
      var receive := ReceiveLib(info);
      if receive.Err? {
        return receive;
      }
      if expiry > 0 {
        if expiry <= slot {
          return Err(InvalidExpiry);
        }
        timeout := Some(Timeout(lib, expiry));
      } else {
        timeout := None;
      }
      return Ok(());
    }
  }

  // ---------- all configs of an endpoint ----------

  /** An OApp and a remote endpoint. */
  datatype Route = Route(receiver: seq<byte>, eid: u32)

  datatype Libraries = Libraries(
    registered: map<Pubkey, MessageLibType>,
    defaults: map<u32, LibraryConfig>,
    oapps: map<Route, LibraryConfig>,
    slot: u64)

  const NO_LIBRARIES := Libraries(map[], map[], map[], 0)

  datatype Change =
    | RegisterLibrary(key: LibraryKey, libType: MessageLibType)
    | InitDefaultReceiveLibrary(eid: u32, newLib: Pubkey)
    | SetDefaultReceiveLibrary(eid: u32, newLib: Pubkey, gracePeriod: u64)
    | SetDefaultReceiveLibraryTimeout(eid: u32, lib: Pubkey, expiry: u64)
    | InitReceiveLibrary(route: Route)
    | SetReceiveLibrary(route: Route, newLib: Pubkey, gracePeriod: u64)
    | SetReceiveLibraryTimeout(route: Route, lib: Pubkey, expiry: u64)
    | Tick(now: u64)

  function Lookup<K(==), V>(m: map<K, V>, k: K): Option<V> {
    if k in m then Some(m[k]) else None
  }

  function UpdateDefault(l: Libraries, eid: u32, config: Result<LibraryConfig>): Result<Libraries> {
    var c :- config;
    Ok(l.(defaults := l.defaults[eid := c]))
  }

  function UpdateOApp(l: Libraries, route: Route, config: Result<LibraryConfig>): Result<Libraries> {
    var c :- config;
    Ok(l.(oapps := l.oapps[route := c]))
  }

  /** One successful instruction, by whoever may sign it, or the passing of time. */
  function Apply(l: Libraries, change: Change): Result<Libraries> {
    match change
    case RegisterLibrary(key, libType) =>
      var _ :- Require(key !in l.registered, AccountInUse);
      Ok(l.(registered := l.registered[key := libType]))
    case InitDefaultReceiveLibrary(eid, newLib) =>
      var _ :- Require(eid !in l.defaults, AccountInUse);
      var _ :- ReceiveLib(Lookup(l.registered, newLib));
      Ok(l.(defaults := l.defaults[eid := LibraryConfig(newLib, None)]))
    case SetDefaultReceiveLibrary(eid, newLib, gracePeriod) =>
      var _ :- Require(eid in l.defaults, AccountNotInitialized);
      var info := Lookup(l.registered, newLib);
      UpdateDefault(l, eid, SetDefaultReceiveLibrarySpec(l.defaults[eid], newLib, gracePeriod, info, l.slot))
    case SetDefaultReceiveLibraryTimeout(eid, lib, expiry) =>
      var _ :- Require(eid in l.defaults, AccountNotInitialized);
      UpdateDefault(l, eid, SetDefaultReceiveLibraryTimeoutSpec(l.defaults[eid], lib, expiry, Lookup(l.registered, lib), l.slot))
    case InitReceiveLibrary(route) =>
      var _ :- Require(route !in l.oapps, AccountInUse);
      Ok(l.(oapps := l.oapps[route := LibraryConfig(DEFAULT_MESSAGE_LIB, None)]))
    case SetReceiveLibrary(route, newLib, gracePeriod) =>
      var _ :- Require(route in l.oapps, AccountNotInitialized);
      UpdateOApp(l, route, SetReceiveLibrarySpec(l.oapps[route], newLib, gracePeriod, Lookup(l.registered, newLib), l.slot))
    case SetReceiveLibraryTimeout(route, lib, expiry) =>
      var _ :- Require(route in l.oapps, AccountNotInitialized);
      UpdateOApp(l, route, SetReceiveLibraryTimeoutSpec(l.oapps[route], lib, expiry, Lookup(l.registered, lib), l.slot))
    case Tick(now) =>
      var _ :- Require(l.slot <= now, Abort);
      Ok(l.(slot := now))
  }

  /** May `lib` verify packets for this route now? Both config accounts must exist. */
  predicate Accepted(l: Libraries, route: Route, lib: Pubkey) {
    && route in l.oapps && route.eid in l.defaults
    && IsValidReceiveLibrary(lib, l.oapps[route], l.defaults[route.eid], l.slot)
  }

  // ---------- safety over all runs ----------

  predicate MayReceive(l: Libraries, lib: Pubkey) {
    lib in l.registered && l.registered[lib] != Send
  }

  predicate GoodConfig(l: Libraries, c: LibraryConfig) {
    && MayReceive(l, c.messageLib)
    && (c.timeout.Some? ==> MayReceive(l, c.timeout.value.messageLib))
  }

  ghost predicate GoodOApp(l: Libraries, c: LibraryConfig) {
    if c.messageLib == DEFAULT_MESSAGE_LIB then c.timeout == None else GoodConfig(l, c)
  }

  ghost predicate Inv(l: Libraries) {
    && DEFAULT_MESSAGE_LIB !in l.registered
    && (forall eid | eid in l.defaults :: GoodConfig(l, l.defaults[eid]))
    && (forall route | route in l.oapps :: GoodOApp(l, l.oapps[route]))
  }

  lemma RegistrationKeepsInv(l: Libraries, key: LibraryKey, libType: MessageLibType)
    requires Inv(l) && key !in l.registered
    ensures Inv(l.(registered := l.registered[key := libType]))
  {
    var m := l.(registered := l.registered[key := libType]);
    assert forall c: LibraryConfig | GoodConfig(l, c) :: GoodConfig(m, c);
  }

  lemma SettersKeepGood(l: Libraries, c: LibraryConfig, lib: Pubkey, slots: u64)
    requires DEFAULT_MESSAGE_LIB !in l.registered
    ensures var info := Lookup(l.registered, lib);
            && (GoodOApp(l, c) && SetReceiveLibrarySpec(c, lib, slots, info, l.slot).Ok? ==>
                  GoodOApp(l, SetReceiveLibrarySpec(c, lib, slots, info, l.slot).value))
            && (GoodOApp(l, c) && SetReceiveLibraryTimeoutSpec(c, lib, slots, info, l.slot).Ok? ==>
                  GoodOApp(l, SetReceiveLibraryTimeoutSpec(c, lib, slots, info, l.slot).value))
            && (GoodConfig(l, c) && SetDefaultReceiveLibrarySpec(c, lib, slots, info, l.slot).Ok? ==>
                  GoodConfig(l, SetDefaultReceiveLibrarySpec(c, lib, slots, info, l.slot).value))
            && (GoodConfig(l, c) && SetDefaultReceiveLibraryTimeoutSpec(c, lib, slots, info, l.slot).Ok? ==>
                  GoodConfig(l, SetDefaultReceiveLibraryTimeoutSpec(c, lib, slots, info, l.slot).value))
  {
  }

  lemma ChangeKeepsInv(l: Libraries, change: Change)
    requires Inv(l) && Apply(l, change).Ok?
    ensures Inv(Apply(l, change).value)
  {
    hide SetReceiveLibrarySpec, SetReceiveLibraryTimeoutSpec;
    hide SetDefaultReceiveLibrarySpec, SetDefaultReceiveLibraryTimeoutSpec;
    match change
    case RegisterLibrary(key, libType) => RegistrationKeepsInv(l, key, libType);
    case SetDefaultReceiveLibrary(eid, lib, grace) => SettersKeepGood(l, l.defaults[eid], lib, grace);
    case SetDefaultReceiveLibraryTimeout(eid, lib, expiry) => SettersKeepGood(l, l.defaults[eid], lib, expiry);
    case SetReceiveLibrary(route, lib, grace) => SettersKeepGood(l, l.oapps[route], lib, grace);
    case SetReceiveLibraryTimeout(route, lib, expiry) => SettersKeepGood(l, l.oapps[route], lib, expiry);
    case _ =>
  }

  ghost predicate Run(states: seq<Libraries>, changes: seq<Change>) {
    && |states| == |changes| + 1
    && states[0] == NO_LIBRARIES
    && forall k {:trigger changes[k]} | 0 <= k < |changes| :: Apply(states[k], changes[k]) == Ok(states[k + 1])
  }

  lemma {:induction false} Reachable(states: seq<Libraries>, changes: seq<Change>, k: nat)
    requires Run(states, changes) && k < |states|
    ensures Inv(states[k])
  {
    hide Apply;
    if k > 0 {
      Reachable(states, changes, k - 1);
      ChangeKeepsInv(states[k - 1], changes[k - 1]);
    }
  }

  /** Whatever was configured, an accepted library is registered and not send-only, among any three
      accepted libraries two are the same, and no OApp on the default has a timeout of its own. */
  lemma AcceptedLibrariesAreSafe(states: seq<Libraries>, changes: seq<Change>, k: nat, route: Route, a: Pubkey,
                            b: Pubkey, c: Pubkey)
    requires Run(states, changes) && k < |states|
    ensures Accepted(states[k], route, a) ==> MayReceive(states[k], a)
    ensures Accepted(states[k], route, a) && Accepted(states[k], route, b) && Accepted(states[k], route, c) ==>
              a == b || a == c || b == c
    ensures route in states[k].oapps && states[k].oapps[route].messageLib == DEFAULT_MESSAGE_LIB ==>
              states[k].oapps[route].timeout == None
  {
    hide Apply;
    Reachable(states, changes, k);
  }

  // ---------- grace periods ----------

  /** Changes that leave the library configs of a route alone. */
  predicate Spares(change: Change, route: Route, sparesDefault: bool) {
    match change
    case InitReceiveLibrary(r) => r != route
    case SetReceiveLibrary(r, _, _) => r != route
    case SetReceiveLibraryTimeout(r, _, _) => r != route
    case InitDefaultReceiveLibrary(eid, _) => sparesDefault ==> eid != route.eid
    case SetDefaultReceiveLibrary(eid, _, _) => sparesDefault ==> eid != route.eid
    case SetDefaultReceiveLibraryTimeout(eid, _, _) => sparesDefault ==> eid != route.eid
    case _ => true
  }

  lemma SparedConfigStays(l: Libraries, change: Change, route: Route, sparesDefault: bool)
    requires Apply(l, change).Ok? && Spares(change, route, sparesDefault)
    ensures Lookup(Apply(l, change).value.oapps, route) == Lookup(l.oapps, route)
    ensures sparesDefault ==> Lookup(Apply(l, change).value.defaults, route.eid) == Lookup(l.defaults, route.eid)
    ensures route.eid in l.defaults ==> route.eid in Apply(l, change).value.defaults
    ensures l.slot <= Apply(l, change).value.slot
  {
  }

  lemma {:induction false} SparedConfigStaysLong(states: seq<Libraries>, changes: seq<Change>, i: nat, k: nat,
                            route: Route, sparesDefault: bool)
    requires Run(states, changes) && i <= k < |states|
    requires forall j | i <= j < k :: Spares(changes[j], route, sparesDefault)
    ensures Lookup(states[k].oapps, route) == Lookup(states[i].oapps, route)
    ensures sparesDefault ==> Lookup(states[k].defaults, route.eid) == Lookup(states[i].defaults, route.eid)
    ensures route.eid in states[i].defaults ==> route.eid in states[k].defaults
    decreases k
  {
    hide Apply;
    if i < k {
      SparedConfigStaysLong(states, changes, i, k - 1, route, sparesDefault);
      SparedConfigStays(states[k - 1], changes[k - 1], route, sparesDefault);
    }
  }

  /** Who is accepted after a switch from `oldLib` to `newLib` with grace period `grace` at slot `start`:
      the new library always, the old one in the slots before the end of its grace period, no other. */
  predicate AcceptedAfterSwitch(lib: Pubkey, oldLib: Pubkey, newLib: Pubkey, start: u64, grace: u64, now: u64) {
    lib == newLib || (lib == oldLib && now < start + grace)
  }

  /** After an OApp switches libraries and until its config changes again, acceptance is exact in every
      later slot; changes of defaults and of other routes do not matter. */
  lemma GracePeriodIsExact(states: seq<Libraries>, changes: seq<Change>, i: nat, k: nat, lib: Pubkey)
    requires Run(states, changes) && i < k < |states| && changes[i].SetReceiveLibrary?
    requires changes[i].newLib != DEFAULT_MESSAGE_LIB && changes[i].route.eid in states[i].defaults
    requires forall j | i < j < k :: Spares(changes[j], changes[i].route, false)
    ensures var route := changes[i].route;
            && route in states[i].oapps
            && (Accepted(states[k], route, lib) <==>
                AcceptedAfterSwitch(lib, states[i].oapps[route].messageLib, changes[i].newLib,
                                    states[i].slot, changes[i].gracePeriod, states[k].slot))
  {
    var route := changes[i].route;
    assert Apply(states[i], changes[i]) == Ok(states[i + 1]);
    SwitchedConfig(states[i], changes[i]);
    hide Apply;
    SparedConfigStaysLong(states, changes, i + 1, k, route, false);
    SlotsGrow(states, changes, i, k);
    assert states[k].oapps[route] == states[i + 1].oapps[route];
  }

  lemma SwitchedConfig(l: Libraries, change: Change)
    requires change.SetReceiveLibrary? && Apply(l, change).Ok?
    ensures change.route in l.oapps && change.route in Apply(l, change).value.oapps
    ensures Apply(l, change).value.defaults == l.defaults
    ensures var c := Apply(l, change).value.oapps[change.route];
            var oldLib := l.oapps[change.route].messageLib;
            && c.messageLib == change.newLib
            && (if change.gracePeriod == 0 then c.timeout == None
                else change.gracePeriod + l.slot <= U64_MAX
                     && c.timeout == Some(Timeout(oldLib, change.gracePeriod + l.slot)))
  {
  }

  lemma {:induction false} SlotsGrow(states: seq<Libraries>, changes: seq<Change>, i: nat, k: nat)
    requires Run(states, changes) && i <= k < |states|
    ensures states[i].slot <= states[k].slot
    decreases k
  {
    if i < k {
      SlotsGrow(states, changes, i, k - 1);
      assert Apply(states[k - 1], changes[k - 1]) == Ok(states[k]);
    }
  }

  /** The same for a switch of the default library, as seen by an OApp that follows the default. */
  lemma DefaultGracePeriodIsExact(states: seq<Libraries>, changes: seq<Change>, i: nat, k: nat, route: Route,
                            lib: Pubkey)
    requires Run(states, changes) && i < k < |states|
    requires changes[i].SetDefaultReceiveLibrary? && changes[i].eid == route.eid
    requires route in states[i].oapps && states[i].oapps[route].messageLib == DEFAULT_MESSAGE_LIB
    requires forall j | i < j < k :: Spares(changes[j], route, true)
    ensures && route.eid in states[i].defaults
            && (Accepted(states[k], route, lib) <==>
                AcceptedAfterSwitch(lib, states[i].defaults[route.eid].messageLib, changes[i].newLib,
                                    states[i].slot, changes[i].gracePeriod, states[k].slot))
  {
    assert Apply(states[i], changes[i]) == Ok(states[i + 1]);
    SwitchedDefault(states[i], changes[i]);
    hide Apply;
    SparedConfigStaysLong(states, changes, i + 1, k, route, true);
    SlotsGrow(states, changes, i, k);
    assert states[k].oapps[route] == states[i].oapps[route];
    assert states[k].defaults[route.eid] == states[i + 1].defaults[route.eid];
  }

  lemma SwitchedDefault(l: Libraries, change: Change)
    requires change.SetDefaultReceiveLibrary? && Apply(l, change).Ok?
    ensures change.eid in l.defaults && change.eid in Apply(l, change).value.defaults
    ensures Apply(l, change).value.oapps == l.oapps
    ensures var c := Apply(l, change).value.defaults[change.eid];
            var oldLib := l.defaults[change.eid].messageLib;
            && c.messageLib == change.newLib
            && (if change.gracePeriod == 0 then c.timeout == None
                else change.gracePeriod + l.slot <= U64_MAX
                     && c.timeout == Some(Timeout(oldLib, change.gracePeriod + l.slot)))
  {
  }

  // ---------- explicit timeouts ----------

  /** After an OApp names a library with an expiry, and until its config changes again, acceptance is exact:
      its own library always, the named one in the slots before the expiry (in none if that is zero), no
      other. */
  lemma TimeoutIsExact(states: seq<Libraries>, changes: seq<Change>, i: nat, k: nat, lib: Pubkey)
    requires Run(states, changes) && i < k < |states| && changes[i].SetReceiveLibraryTimeout?
    requires changes[i].route.eid in states[i].defaults
    requires forall j | i < j < k :: Spares(changes[j], changes[i].route, false)
    ensures var route := changes[i].route;
            && route in states[i].oapps
            && (Accepted(states[k], route, lib) <==>
                || lib == states[i].oapps[route].messageLib
                || (lib == changes[i].lib && states[k].slot < changes[i].expiry))
  {
    var route := changes[i].route;
    assert Apply(states[i], changes[i]) == Ok(states[i + 1]);
    TimedConfig(states[i], changes[i]);
    hide Apply;
    SparedConfigStaysLong(states, changes, i + 1, k, route, false);
    assert states[k].oapps[route] == states[i + 1].oapps[route];
  }

  lemma TimedConfig(l: Libraries, change: Change)
    requires change.SetReceiveLibraryTimeout? && Apply(l, change).Ok?
    ensures change.route in l.oapps && change.route in Apply(l, change).value.oapps
    ensures Apply(l, change).value.defaults == l.defaults
    ensures var c := Apply(l, change).value.oapps[change.route];
            && c.messageLib == l.oapps[change.route].messageLib != DEFAULT_MESSAGE_LIB
            && c.timeout == if change.expiry == 0 then None else Some(Timeout(change.lib, change.expiry))
  {
  }

  /** The same for a default timeout, as seen by an OApp that follows the default. */
  lemma DefaultTimeoutIsExact(states: seq<Libraries>, changes: seq<Change>, i: nat, k: nat, route: Route, lib: Pubkey)
    requires Run(states, changes) && i < k < |states|
    requires changes[i].SetDefaultReceiveLibraryTimeout? && changes[i].eid == route.eid
    requires route in states[i].oapps && states[i].oapps[route].messageLib == DEFAULT_MESSAGE_LIB
    requires forall j | i < j < k :: Spares(changes[j], route, true)
    ensures && route.eid in states[i].defaults
            && (Accepted(states[k], route, lib) <==>
                || lib == states[i].defaults[route.eid].messageLib
                || (lib == changes[i].lib && states[k].slot < changes[i].expiry))
  {
    assert Apply(states[i], changes[i]) == Ok(states[i + 1]);
    TimedDefault(states[i], changes[i]);
    hide Apply;
    SparedConfigStaysLong(states, changes, i + 1, k, route, true);
    assert states[k].oapps[route] == states[i].oapps[route];
    assert states[k].defaults[route.eid] == states[i + 1].defaults[route.eid];
  }

  lemma TimedDefault(l: Libraries, change: Change)
    requires change.SetDefaultReceiveLibraryTimeout? && Apply(l, change).Ok?
    ensures change.eid in l.defaults && change.eid in Apply(l, change).value.defaults
    ensures Apply(l, change).value.oapps == l.oapps
    ensures var c := Apply(l, change).value.defaults[change.eid];
            && c.messageLib == l.defaults[change.eid].messageLib
            && c.timeout == if change.expiry == 0 then None else Some(Timeout(change.lib, change.expiry))
  {
  }

  // ---------- following the default ----------

  /** An OApp that is new, or has just gone back to the default, accepts what every other follower of the
      default accepts, and the first default is accepted alone. */
  lemma FollowersAgree(states: seq<Libraries>, changes: seq<Change>, i: nat, k: nat, other: Route, lib: Pubkey)
    requires Run(states, changes) && i < k < |states|
    requires changes[i].InitReceiveLibrary?
             || (changes[i].SetReceiveLibrary? && changes[i].newLib == DEFAULT_MESSAGE_LIB)
    requires forall j | i < j < k :: Spares(changes[j], changes[i].route, false)
    requires other.eid == changes[i].route.eid && other in states[k].oapps
    requires states[k].oapps[other].messageLib == DEFAULT_MESSAGE_LIB
    ensures Accepted(states[k], changes[i].route, lib) <==> Accepted(states[k], other, lib)
  {
    assert Apply(states[i], changes[i]) == Ok(states[i + 1]);
    assert changes[i].route in states[i + 1].oapps;
    assert states[i + 1].oapps[changes[i].route].messageLib == DEFAULT_MESSAGE_LIB;
    hide Apply;
    SparedConfigStaysLong(states, changes, i + 1, k, changes[i].route, false);
  }

  lemma FirstDefaultIsAlone(states: seq<Libraries>, changes: seq<Change>, i: nat, k: nat, route: Route, lib: Pubkey)
    requires Run(states, changes) && i < k < |states|
    requires changes[i].InitDefaultReceiveLibrary? && changes[i].eid == route.eid
    requires route in states[i].oapps && states[i].oapps[route].messageLib == DEFAULT_MESSAGE_LIB
    requires forall j | i < j < k :: Spares(changes[j], route, true)
    ensures Accepted(states[k], route, lib) <==> lib == changes[i].newLib
  {
    assert Apply(states[i], changes[i]) == Ok(states[i + 1]);
    assert route in states[i + 1].oapps && states[i + 1].oapps[route] == states[i].oapps[route];
    assert route.eid in states[i + 1].defaults
           && states[i + 1].defaults[route.eid] == LibraryConfig(changes[i].newLib, None);
    hide Apply;
    SparedConfigStaysLong(states, changes, i + 1, k, route, true);
    assert states[k].oapps[route] == states[i].oapps[route];
  }

  // ---------- which changes are accepted ----------

  /** A switch is accepted exactly if it is one, names a library that may receive (an OApp may also go back to
      the default), and gives a grace period that fits, and only between two libraries of its own. */
  lemma SwitchAcceptedExactly(states: seq<Libraries>, changes: seq<Change>, k: nat, change: Change)
    requires Run(states, changes) && k < |states|
    ensures var l := states[k];
            && (change.SetReceiveLibrary? ==>
                  (Apply(l, change).Ok? <==>
                   && change.route in l.oapps && change.newLib != l.oapps[change.route].messageLib
                   && (change.newLib != DEFAULT_MESSAGE_LIB ==> MayReceive(l, change.newLib))
                   && (change.gracePeriod > 0 ==>
                         && l.slot + change.gracePeriod <= U64_MAX
                         && change.newLib != DEFAULT_MESSAGE_LIB
                         && l.oapps[change.route].messageLib != DEFAULT_MESSAGE_LIB)))
            && (change.SetDefaultReceiveLibrary? ==>
                  (Apply(l, change).Ok? <==>
                   && change.eid in l.defaults && change.newLib != l.defaults[change.eid].messageLib
                   && MayReceive(l, change.newLib) && l.slot + change.gracePeriod <= U64_MAX))
  {
    Reachable(states, changes, k);
  }

  /** A timeout is accepted exactly for a library that may receive and an expiry to come (or none at all), and
      not on an OApp that follows the default. */
  lemma TimeoutAcceptedExactly(states: seq<Libraries>, changes: seq<Change>, k: nat, change: Change)
    requires Run(states, changes) && k < |states|
    ensures var l := states[k];
            && (change.SetReceiveLibraryTimeout? ==>
                  (Apply(l, change).Ok? <==>
                   && change.route in l.oapps && l.oapps[change.route].messageLib != DEFAULT_MESSAGE_LIB
                   && MayReceive(l, change.lib) && (change.expiry == 0 || l.slot < change.expiry)))
            && (change.SetDefaultReceiveLibraryTimeout? ==>
                  (Apply(l, change).Ok? <==>
                   && change.eid in l.defaults && MayReceive(l, change.lib) && (change.expiry == 0 || l.slot < change.expiry)))
  {
  }
}
