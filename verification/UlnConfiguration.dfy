/** DVN configuration in two layers: a default per remote endpoint and a custom one per OApp, whose
    fields may say DEFAULT (inherit) or NIL (a literal zero). */
module UlnConfiguration {
  import opened Common

  const DVN_MAX_LEN := 16
  const NIL_DVN_COUNT: u8 := 0xFF
  const NIL_CONFIRMATIONS: u64 := U64_MAX
  const DEFAULT: u8 := 0

  datatype UlnConfig = UlnConfig(
    confirmations: u64,
    requiredDvnCount: u8,
    optionalDvnCount: u8,
    optionalDvnThreshold: u8,
    requiredDvns: seq<Pubkey>,
    optionalDvns: seq<Pubkey>)

  /** What a freshly created account holds, and what an absent custom account stands for. */
  const ZERO_CONFIG := UlnConfig(0, 0, 0, 0, [], [])

  // ---------- specification ----------

  /** Strictly sorted and without the zero key; hence without duplicates. */
  ghost predicate Distinct(dvns: seq<Pubkey>) {
    StrictlySorted(dvns) && (dvns != [] ==> 0 < dvns[0])
  }

  ghost function CheckRequired(c: UlnConfig): Result<()> {
    if c.requiredDvnCount == NIL_DVN_COUNT || c.requiredDvnCount == DEFAULT then
      Require(c.requiredDvns == [], InvalidRequiredDVNCount)
    else
      var _ :- Require(|c.requiredDvns| == c.requiredDvnCount <= DVN_MAX_LEN, InvalidRequiredDVNCount);
      Require(Distinct(c.requiredDvns), Unsorted)
  }

  ghost function CheckOptional(c: UlnConfig): Result<()> {
    if c.optionalDvnCount == NIL_DVN_COUNT || c.optionalDvnCount == DEFAULT then
      var _ :- Require(c.optionalDvns == [], InvalidOptionalDVNCount);
      Require(c.optionalDvnThreshold == 0, InvalidOptionalDVNThreshold)
    else
      var _ :- Require(|c.optionalDvns| == c.optionalDvnCount <= DVN_MAX_LEN, InvalidOptionalDVNCount);
      var _ :- Require(0 < c.optionalDvnThreshold <= c.optionalDvnCount, InvalidOptionalDVNThreshold);
      Require(Distinct(c.optionalDvns), Unsorted)
  }

  /** What `set_config` stores, or why it refuses. */
  ghost function SetConfigSpec(c: UlnConfig): Result<UlnConfig> {
    var _ :- CheckRequired(c);
    var _ :- CheckOptional(c);
    Ok(c)
  }

  predicate AtLeastOneDvn(c: UlnConfig) {
    c.requiredDvnCount > 0 || c.optionalDvnThreshold > 0
  }

  ghost function SetDefaultConfigSpec(c: UlnConfig): Result<UlnConfig> {
    var _ :- Require(c.requiredDvnCount != NIL_DVN_COUNT, InvalidRequiredDVNCount);
    var _ :- Require(c.optionalDvnCount != NIL_DVN_COUNT, InvalidOptionalDVNCount);
    var _ :- Require(c.confirmations != NIL_CONFIRMATIONS, InvalidConfirmations);
    var _ :- Require(AtLeastOneDvn(c), AtLeastOneDVN);
    SetConfigSpec(c)
  }

  /** The custom layer over the default one, field by field. */
  function Layered(d: UlnConfig, c: UlnConfig): UlnConfig {
    UlnConfig(
      if c.confirmations == DEFAULT then d.confirmations
      else if c.confirmations == NIL_CONFIRMATIONS then 0 else c.confirmations,
      if c.requiredDvnCount == DEFAULT then d.requiredDvnCount
      else if c.requiredDvnCount == NIL_DVN_COUNT then 0 else c.requiredDvnCount,
      if c.optionalDvnCount == DEFAULT then d.optionalDvnCount
      else if c.optionalDvnCount == NIL_DVN_COUNT then 0 else c.optionalDvnCount,
      if c.optionalDvnCount == DEFAULT then (if d.optionalDvnCount > 0 then d.optionalDvnThreshold else 0)
      else if c.optionalDvnCount == NIL_DVN_COUNT then 0 else c.optionalDvnThreshold,
      if c.requiredDvnCount == DEFAULT then (if d.requiredDvnCount > 0 then d.requiredDvns else [])
      else if c.requiredDvnCount == NIL_DVN_COUNT then [] else c.requiredDvns,
      if c.optionalDvnCount == DEFAULT then (if d.optionalDvnCount > 0 then d.optionalDvns else [])
      else if c.optionalDvnCount == NIL_DVN_COUNT then [] else c.optionalDvns)
  }

  /** What `get_config` returns: the layered config, if it leaves at least one DVN. */
  function Resolve(d: UlnConfig, c: UlnConfig): Result<UlnConfig> {
    var u := Layered(d, c);
    var _ :- Require(AtLeastOneDvn(u), AtLeastOneDVN);
    Ok(u)
  }

  ghost predicate ValidDefault(c: UlnConfig) {
    SetDefaultConfigSpec(c).Ok?
  }

  ghost predicate ValidCustom(c: UlnConfig) {
    SetConfigSpec(c).Ok?
  }

  /** A config that can be enforced literally. */
  ghost predicate Sound(u: UlnConfig) {
    && u.confirmations != NIL_CONFIRMATIONS
    && |u.requiredDvns| == u.requiredDvnCount <= DVN_MAX_LEN
    && |u.optionalDvns| == u.optionalDvnCount <= DVN_MAX_LEN
    && Distinct(u.requiredDvns) && Distinct(u.optionalDvns)
    && (u.optionalDvnCount == 0 ==> u.optionalDvnThreshold == 0)
    && (u.optionalDvnCount > 0 ==> 0 < u.optionalDvnThreshold <= u.optionalDvnCount)
    && (u.requiredDvns != [] || u.optionalDvnThreshold > 0)
  }

  // ---------- the setters and the getter ----------

  method AssertNoDuplicates(dvns: seq<Pubkey>) returns (r: Result<()>)
    ensures r == Require(Distinct(dvns), Unsorted)
  {
    var lastDvn: Pubkey := 0;
    var i := 0;
    while i < |dvns|
      invariant 0 <= i <= |dvns|
      invariant StrictlySorted(dvns[..i])
      invariant lastDvn == if i == 0 then 0 else dvns[i - 1]
      invariant 0 < i ==> 0 < dvns[0]
    {
      if dvns[i] <= lastDvn {
        assert 0 < i ==> dvns[i - 1] >= dvns[i];
        return Err(Unsorted);
      }
      assert forall j | 0 <= j < i :: dvns[..i][j] <= dvns[i - 1];
      lastDvn := dvns[i];
      i := i + 1;
    }
    assert dvns[..i] == dvns;
    return Ok(());
  }

  /** The config inside a send or receive config account. */
  class UlnConfigAccount {
    var confirmations: u64
    var requiredDvnCount: u8
    var optionalDvnCount: u8
    var optionalDvnThreshold: u8
    var requiredDvns: seq<Pubkey>
    var optionalDvns: seq<Pubkey>

    constructor ()
      ensures View() == ZERO_CONFIG
    {
      confirmations, requiredDvnCount, optionalDvnCount, optionalDvnThreshold := 0, 0, 0, 0;
      requiredDvns, optionalDvns := [], [];
    }

    function View(): UlnConfig
      reads this
    {
      UlnConfig(confirmations, requiredDvnCount, optionalDvnCount, optionalDvnThreshold, requiredDvns, optionalDvns)
    }

    method SetConfig(config: UlnConfig) returns (r: Result<()>)
      modifies this
      ensures Outcome(SetConfigSpec(config), old(View()), r, View())
    {
      if config.requiredDvnCount == NIL_DVN_COUNT || config.requiredDvnCount == DEFAULT {
        if config.requiredDvns != [] {
          return Err(InvalidRequiredDVNCount);
        }
      } else {
        if !(|config.requiredDvns| == config.requiredDvnCount && config.requiredDvnCount <= DVN_MAX_LEN) {
          return Err(InvalidRequiredDVNCount);
        }
        r := AssertNoDuplicates(config.requiredDvns);
        if r.Err? {
          return;
        }
      }
      if config.optionalDvnCount == NIL_DVN_COUNT || config.optionalDvnCount == DEFAULT {
        if config.optionalDvns != [] {
          return Err(InvalidOptionalDVNCount);
        }
        if config.optionalDvnThreshold != 0 {
          return Err(InvalidOptionalDVNThreshold);
        }
      } else {
        if !(|config.optionalDvns| == config.optionalDvnCount && config.optionalDvnCount <= DVN_MAX_LEN) {
          return Err(InvalidOptionalDVNCount);
        }
        if !(config.optionalDvnThreshold > 0 && config.optionalDvnThreshold <= config.optionalDvnCount) {
          return Err(InvalidOptionalDVNThreshold);
        }
        r := AssertNoDuplicates(config.optionalDvns);
        if r.Err? {
          return;
        }
      }
      confirmations := config.confirmations;
      requiredDvnCount := config.requiredDvnCount;
      optionalDvnCount := config.optionalDvnCount;
      optionalDvnThreshold := config.optionalDvnThreshold;
      requiredDvns := config.requiredDvns;
      optionalDvns := config.optionalDvns;
      return Ok(());
    }

    method SetDefaultConfig(config: UlnConfig) returns (r: Result<()>)
      modifies this
      ensures Outcome(SetDefaultConfigSpec(config), old(View()), r, View())
    {
      if config.requiredDvnCount == NIL_DVN_COUNT {
        return Err(InvalidRequiredDVNCount);
      }
      if config.optionalDvnCount == NIL_DVN_COUNT {
        return Err(InvalidOptionalDVNCount);
      }
      if config.confirmations == NIL_CONFIRMATIONS {
        return Err(InvalidConfirmations);
      }
      if !AtLeastOneDvn(config) {
        return Err(AtLeastOneDVN);
      }
      r := SetConfig(config);
    }
  }

  /** Fills the returned config step by step. */
  method GetConfig(defaultConfig: UlnConfig, customConfig: UlnConfig) returns (r: Result<UlnConfig>)
    ensures r == Resolve(defaultConfig, customConfig)
  {
    var rtnConfig := ZERO_CONFIG;
    if customConfig.confirmations == DEFAULT {
      rtnConfig := rtnConfig.(confirmations := defaultConfig.confirmations);
    } else if customConfig.confirmations != NIL_CONFIRMATIONS {
      rtnConfig := rtnConfig.(confirmations := customConfig.confirmations);
    }
    if customConfig.requiredDvnCount == DEFAULT {
      if defaultConfig.requiredDvnCount > 0 {
        rtnConfig := rtnConfig.(requiredDvns := defaultConfig.requiredDvns,
                                requiredDvnCount := defaultConfig.requiredDvnCount);
      }
    } else if customConfig.requiredDvnCount != NIL_DVN_COUNT {
      rtnConfig := rtnConfig.(requiredDvns := customConfig.requiredDvns,
                              requiredDvnCount := customConfig.requiredDvnCount);
    }
    if customConfig.optionalDvnCount == DEFAULT {
      if defaultConfig.optionalDvnCount > 0 {
        rtnConfig := rtnConfig.(optionalDvns := defaultConfig.optionalDvns,
                                optionalDvnCount := defaultConfig.optionalDvnCount,
                                optionalDvnThreshold := defaultConfig.optionalDvnThreshold);
      }
    } else if customConfig.optionalDvnCount != NIL_DVN_COUNT {
      rtnConfig := rtnConfig.(optionalDvns := customConfig.optionalDvns,
                              optionalDvnCount := customConfig.optionalDvnCount,
                              optionalDvnThreshold := customConfig.optionalDvnThreshold);
    }
    if !AtLeastOneDvn(rtnConfig) {
      return Err(AtLeastOneDVN);
    }
    return Ok(rtnConfig);
  }

  // ---------- properties of resolution ----------

  /** Over accepted layers a resolved config is sound; resolution fails exactly if neither layer leaves
      a required DVN and neither leaves an optional threshold. */
  lemma ResolvedIsSound(d: UlnConfig, c: UlnConfig)
    requires ValidDefault(d) && ValidCustom(c)
    ensures Resolve(d, c).Ok? ==> Sound(Resolve(d, c).value)
    ensures Resolve(d, c).Err? <==>
            && (c.requiredDvnCount == NIL_DVN_COUNT || (c.requiredDvnCount == DEFAULT && d.requiredDvns == []))
            && (c.optionalDvnCount == NIL_DVN_COUNT || (c.optionalDvnCount == DEFAULT && d.optionalDvns == []))
  {
  }

  /** The two layers at their extremes: an absent custom config resolves to the default itself, and a
      custom config that inherits nothing resolves to the same result under every default. */
  lemma LayersAtTheirExtremes(d: UlnConfig, e: UlnConfig, c: UlnConfig)
    requires ValidDefault(d) && ValidDefault(e) && ValidCustom(c)
    ensures Resolve(d, ZERO_CONFIG) == Ok(d)
    ensures c.confirmations != DEFAULT && c.requiredDvnCount != DEFAULT && c.optionalDvnCount != DEFAULT ==>
              Resolve(d, c) == Resolve(e, c)
  {
  }

  /** A custom config that inherits nothing and says NIL nowhere is in force as it was written. */
  lemma CompleteCustomIsInForce(d: UlnConfig, c: UlnConfig)
    requires ValidDefault(d) && ValidCustom(c)
    requires c.confirmations != DEFAULT && c.confirmations != NIL_CONFIRMATIONS
    requires c.requiredDvnCount != DEFAULT && c.requiredDvnCount != NIL_DVN_COUNT
    requires c.optionalDvnCount != DEFAULT && c.optionalDvnCount != NIL_DVN_COUNT
    ensures Resolve(d, c) == Ok(c)
  {
  }

  /** The fields that are inherited together. */
  datatype Group = Group(count: u8, threshold: u8, dvns: seq<Pubkey>)

  const NO_DVNS := Group(0, 0, [])

  function Required(c: UlnConfig): Group {
    Group(c.requiredDvnCount, 0, c.requiredDvns)
  }

  function Optional(c: UlnConfig): Group {
    Group(c.optionalDvnCount, c.optionalDvnThreshold, c.optionalDvns)
  }

  /** Each of the three groups of a resolved config is the default's, empty, or the custom one, by its own
      sentinel alone. */
  lemma GroupsResolveAlone(d: UlnConfig, c: UlnConfig)
    requires ValidDefault(d) && ValidCustom(c) && Resolve(d, c).Ok?
    ensures var u := Resolve(d, c).value;
            && (c.confirmations == DEFAULT ==> u.confirmations == d.confirmations)
            && (c.confirmations == NIL_CONFIRMATIONS ==> u.confirmations == 0)
            && (c.confirmations != DEFAULT && c.confirmations != NIL_CONFIRMATIONS ==> u.confirmations == c.confirmations)
            && (c.requiredDvnCount == DEFAULT ==> Required(u) == Required(d))
            && (c.requiredDvnCount == NIL_DVN_COUNT ==> Required(u) == NO_DVNS)
            && (c.requiredDvnCount != DEFAULT && c.requiredDvnCount != NIL_DVN_COUNT ==> Required(u) == Required(c))
            && (c.optionalDvnCount == DEFAULT ==> Optional(u) == Optional(d))
            && (c.optionalDvnCount == NIL_DVN_COUNT ==> Optional(u) == NO_DVNS)
            && (c.optionalDvnCount != DEFAULT && c.optionalDvnCount != NIL_DVN_COUNT ==> Optional(u) == Optional(c))
  {
  }

  /** What is replaced in a custom config changes its own group of the result and no other. */
  lemma GroupsAreIndependent(d: UlnConfig, c: UlnConfig, e: UlnConfig)
    requires ValidDefault(d) && ValidCustom(c) && ValidCustom(e) && Resolve(d, c).Ok? && Resolve(d, e).Ok?
    ensures var u, v := Resolve(d, c).value, Resolve(d, e).value;
            && (c.confirmations == e.confirmations ==> u.confirmations == v.confirmations)
            && (Required(c) == Required(e) ==> Required(u) == Required(v))
            && (Optional(c) == Optional(e) ==> Optional(u) == Optional(v))
  {
    GroupsResolveAlone(d, c);
    GroupsResolveAlone(d, e);
    hide Resolve, ValidDefault, ValidCustom;
  }

  /** A count and its list belong together: a sentinel without DVNs, or one to sixteen distinct ones. */
  ghost predicate Counted(g: Group) {
    if g.count == DEFAULT || g.count == NIL_DVN_COUNT then g.dvns == [] && g.threshold == 0
    else |g.dvns| == g.count <= 16 && (forall k | k in g.dvns :: 0 < k) && StrictlySorted(g.dvns)
  }

  /** Which configs the two setters store. */
  lemma SettersAcceptExactly(c: UlnConfig)
    ensures SetConfigSpec(c) == Ok(c) <==>
            && Counted(Required(c)) && Counted(Optional(c))
            && (c.optionalDvns != [] ==> 1 <= c.optionalDvnThreshold <= |c.optionalDvns|)
    ensures SetConfigSpec(c).Ok? ==> SetConfigSpec(c) == Ok(c)
    ensures SetDefaultConfigSpec(c).Ok? <==>
            && SetConfigSpec(c).Ok? && (c.requiredDvns != [] || c.optionalDvns != [])
            && c.requiredDvnCount != NIL_DVN_COUNT && c.optionalDvnCount != NIL_DVN_COUNT
            && c.confirmations != NIL_CONFIRMATIONS
    ensures SetDefaultConfigSpec(c).Ok? ==> SetDefaultConfigSpec(c) == Ok(c)
  {
    PositiveKeys(c.requiredDvns);
    PositiveKeys(c.optionalDvns);
    hide StrictlySorted;
  }

  lemma PositiveKeys(dvns: seq<Pubkey>)
    ensures Distinct(dvns) <==> StrictlySorted(dvns) && forall k | k in dvns :: 0 < k
  {
    assert dvns != [] ==> dvns[0] in dvns;
    if Distinct(dvns) {
      forall k | k in dvns ensures 0 < k {
        var i :| 0 <= i < |dvns| && dvns[i] == k;
        assert 0 < i ==> dvns[0] < dvns[i];
      }
    }
  }

  // ---------- runs of the setters ----------

  datatype Layers = Layers(defaults: UlnConfig, custom: UlnConfig)

  datatype Setter = SetDefault(config: UlnConfig) | SetCustom(config: UlnConfig)

  /** Custom configs are resolved once more when they are set; a later default is not. */
  ghost function Apply(l: Layers, s: Setter): Result<Layers> {
    match s
    case SetDefault(config) =>
      var d :- SetDefaultConfigSpec(config);
      Ok(l.(defaults := d))
    case SetCustom(config) =>
      var c :- SetConfigSpec(config);
      var _ :- Resolve(l.defaults, c);
      Ok(l.(custom := c))
  }

  ghost predicate Run(layers: seq<Layers>, setters: seq<Setter>) {
    && |layers| == |setters| + 1
    && ValidDefault(layers[0].defaults) && layers[0].custom == ZERO_CONFIG
    && forall k {:trigger setters[k]} | 0 <= k < |setters| :: Apply(layers[k], setters[k]) == Ok(layers[k + 1])
  }

  lemma {:induction false} LayersStayValid(layers: seq<Layers>, setters: seq<Setter>, k: nat)
    requires Run(layers, setters) && k < |layers|
    ensures ValidDefault(layers[k].defaults) && ValidCustom(layers[k].custom)
  {
    hide Distinct;
    if k > 0 {
      LayersStayValid(layers, setters, k - 1);
      assert Apply(layers[k - 1], setters[k - 1]) == Ok(layers[k]);
    }
  }

  /** After any run of setters, resolution gives a sound config or reports that no DVN is left. */
  lemma EveryResolvedConfigIsSound(layers: seq<Layers>, setters: seq<Setter>, k: nat)
    requires Run(layers, setters) && k < |layers|
    ensures match Resolve(layers[k].defaults, layers[k].custom)
            case Ok(u) => Sound(u)
            case Err(e) => e == AtLeastOneDVN
  {
    LayersStayValid(layers, setters, k);
    ResolvedIsSound(layers[k].defaults, layers[k].custom);
  }

  /** The catch-all check of the custom setter does not last: a later, accepted default can leave an
      accepted custom config without any DVN. */
  lemma DefaultChangeCanUnresolve() returns (layers: seq<Layers>, setters: seq<Setter>)
    ensures Run(layers, setters)
    ensures |layers| == 3
    ensures Resolve(layers[1].defaults, layers[1].custom).Ok?
    ensures Resolve(layers[2].defaults, layers[2].custom) == Err(AtLeastOneDVN)
  {
    var both := UlnConfig(1, 1, 1, 1, [7], [8]);
    var requiredOnly := UlnConfig(1, 1, 0, 0, [7], []);
    var optionalOnly := UlnConfig(1, NIL_DVN_COUNT, DEFAULT, 0, [], []);
    setters := [SetCustom(optionalOnly), SetDefault(requiredOnly)];
    layers := [Layers(both, ZERO_CONFIG), Layers(both, optionalOnly), Layers(requiredOnly, optionalOnly)];
  }
}
