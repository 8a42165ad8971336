/** The proxy wrapper's configuration: which providers and backends to patch
    and which proxy address each of them gets (internal/pkg/proxy/config.go). */
module ProxyConfig {
  import opened Wrappers
  import opened Strings

  /** The two recognised kinds of target block. */
  const TypeProvider: string := "provider"
  const TypeBackend: string := "backend"

  /** Separator between kind and name in a target string. */
  const TargetSeparator: char := '/'

  /** One entry of the `providers` map: its kind and an optional proxy
      address (a nil `*string` in the source is `None`). */
  datatype ProviderConfig = ProviderConfig(typ: string, proxy: Option<string>)

  /** The decoded configuration document. */
  datatype Config = Config(defaultProxy: string, providers: map<string, ProviderConfig>)

  /** What reading and decoding the configuration file produced; the home
      directory lookup, the file read and the YAML decoder are outside the model. */
  datatype ConfigSource =
    | HomeDirUnknown(msg: string)   // no path given and the home directory is unknown
    | NotFound                      // the file does not exist
    | Unreadable(msg: string)       // any other read error
    | Undecodable(msg: string)      // the YAML decoder failed
    | Decoded(config: Config)       // the YAML decoder produced this document

  datatype ConfigError =
    | IoError(msg: string)
    | DecodeError(msg: string)
    | InvalidType(provider: string, cause: string)
  {
    /** The text this error is reported with. */
    function Message(): string
    {
      match this
      case IoError(msg) => msg
      case DecodeError(msg) => msg
      case InvalidType(provider, cause) => "invalid type for provider " + provider + ": " + cause
    }
  }

  /** `Provider.Validate`: only the two recognised kinds pass. */
  function Validate(p: string): (r: Outcome<string>)
    ensures r.Pass? <==> p == TypeProvider || p == TypeBackend
    ensures r.Fail? ==> r.error == "invalid provider type: " + p
  {
    if p == TypeProvider || p == TypeBackend then Pass else Fail("invalid provider type: " + p)
  }

  /** The built-in provider set used when none is configured. */
  function DefaultProviders(): map<string, ProviderConfig>
  {
    map["s3" := ProviderConfig(TypeBackend, None), "aws" := ProviderConfig(TypeProvider, None)]
  }

  /** An entry whose kind is left empty is a provider. */
  function WithDefaultType(pc: ProviderConfig): ProviderConfig
  {
    if pc.typ == "" then pc.(typ := TypeProvider) else pc
  }

  /** The providers map after the kind of every entry has been defaulted. */
  function Normalised(m: map<string, ProviderConfig>): map<string, ProviderConfig>
  {
    map k | k in m :: WithDefaultType(m[k])
  }

  /** The providers map that normalisation starts from. */
  function WithDefaultProviders(m: map<string, ProviderConfig>): map<string, ProviderConfig>
  {
    if |m| == 0 then DefaultProviders() else m
  }

  predicate AllTypesValid(m: map<string, ProviderConfig>)
  {
    forall k :: k in m ==> Validate(m[k].typ).Pass?
  }

  /** `name` is an entry of `m` whose defaulted kind fails validation, and
      `e` is the error reported for it. */
  predicate InvalidEntry(m: map<string, ProviderConfig>, name: string, e: ConfigError)
  {
    && name in m
    && Validate(WithDefaultType(m[name]).typ).Fail?
    && e == InvalidType(name, Validate(WithDefaultType(m[name]).typ).error)
  }

  /** `LoadConfig` from the point where the file has been read and decoded:
      the missing-file default, the default provider set, and the loop that
      defaults and validates every entry in map order (an arbitrary order
      here, as in Go), stopping at the first invalid entry. */
  method LoadConfig(src: ConfigSource) returns (r: Result<Config, ConfigError>)
    ensures src.HomeDirUnknown? || src.Unreadable? ==> r == Err(IoError(src.msg))
    ensures src.Undecodable? ==> r == Err(DecodeError(src.msg))
    ensures src.NotFound? ==> r == Ok(Config("", DefaultProviders()))
    ensures src.Decoded? ==>
      var m := WithDefaultProviders(src.config.providers);
      && (r.Ok? <==> AllTypesValid(Normalised(m)))
      && (r.Ok? ==> r.value == Config(src.config.defaultProxy, Normalised(m)))
      && (r.Err? ==> exists name :: InvalidEntry(m, name, r.error))
  {
    match src
    case HomeDirUnknown(msg) => r := Err(IoError(msg));
    case Unreadable(msg) => r := Err(IoError(msg));
    case Undecodable(msg) => r := Err(DecodeError(msg));
    case NotFound => r := Ok(Config("", DefaultProviders()));
    case Decoded(config) =>
      var providers := config.providers;
      if |providers| == 0 {
        providers := DefaultProviders();
      }
      var checked := NormaliseProviders(providers);
      match checked
      case Err(e) => r := Err(e);
      case Ok(normalised) => r := Ok(Config(config.defaultProxy, normalised));
  }

  /** The loop of `LoadConfig` over the entries, in map order (an arbitrary
      order here, as in Go): default each entry's kind and validate it,
      stopping at the first invalid entry. */
  method NormaliseProviders(m: map<string, ProviderConfig>) returns (r: Result<map<string, ProviderConfig>, ConfigError>)
    ensures r.Ok? <==> AllTypesValid(Normalised(m))
    ensures r.Ok? ==> r.value == Normalised(m)
    ensures r.Err? ==> exists name :: InvalidEntry(m, name, r.error)
  {
    var providers := m;
    var pending := providers.Keys;
    while pending != {}
      invariant pending <= m.Keys && providers.Keys == m.Keys
      invariant forall k :: k in pending ==> providers[k] == m[k]
      invariant forall k :: k in m && k !in pending ==>
        providers[k] == WithDefaultType(m[k]) && Validate(providers[k].typ).Pass?
      decreases pending
    {
      var name :| name in pending;
      var cfg := providers[name];
      if cfg.typ == "" {
        cfg := cfg.(typ := TypeProvider);
      }
      var outcome := Validate(cfg.typ);
      if outcome.Fail? {
        assert cfg == Normalised(m)[name];
        assert InvalidEntry(m, name, InvalidType(name, outcome.error));
        return Err(InvalidType(name, outcome.error));
      }
      providers := providers[name := cfg];
      pending := pending - {name};
    }
    assert providers == Normalised(m);
    r := Ok(providers);
  }

  /** `Config.GetProxyForProvider`: the entry's own proxy when it has one,
      otherwise the default address (also for names that are not configured). */
  function GetProxyForProvider(c: Config, name: string): (r: string)
    ensures name in c.providers && c.providers[name].proxy.Some? ==> r == c.providers[name].proxy.value
    ensures name !in c.providers || c.providers[name].proxy.None? ==> r == c.defaultProxy
  {
    if name in c.providers && c.providers[name].proxy.Some? then c.providers[name].proxy.value
    else c.defaultProxy
  }

  /** The target string `kind/name` of one entry. */
  function RenderTarget(typ: string, name: string): string
  {
    typ + [TargetSeparator] + name
  }

  /** `Config.GetProviders`: one target string per entry, in map order (an
      arbitrary order here; `order` is the sequence of names it followed). */
  method GetProviders(c: Config) returns (targets: seq<string>, ghost order: seq<string>)
    ensures |order| == |c.providers| && |targets| == |order|
    ensures forall k :: k in c.providers <==> k in order
    ensures forall i, j :: 0 <= i < j < |order| ==> order[i] != order[j]
    ensures forall i :: 0 <= i < |order| ==>
      order[i] in c.providers && targets[i] == RenderTarget(c.providers[order[i]].typ, order[i])
    ensures |targets| == |c.providers|
    ensures forall k :: k in c.providers ==> RenderTarget(c.providers[k].typ, k) in targets
  {
    targets, order := [], [];
    var pending := c.providers.Keys;
    while pending != {}
      invariant pending <= c.providers.Keys
      invariant |order| + |pending| == |c.providers| && |targets| == |order|
      invariant forall k :: k in c.providers ==> (k in order <==> k !in pending)
      invariant forall i, j :: 0 <= i < j < |order| ==> order[i] != order[j]
      invariant forall i :: 0 <= i < |order| ==>
        order[i] in c.providers && targets[i] == RenderTarget(c.providers[order[i]].typ, order[i])
      invariant forall k :: k in c.providers && k !in pending ==> RenderTarget(c.providers[k].typ, k) in targets
      decreases pending
    {
      var name :| name in pending;
      targets := targets + [RenderTarget(c.providers[name].typ, name)];
      order := order + [name];
      pending := pending - {name};
    }
  }

  /** Only `"provider"` and `"backend"` validate; the empty kind does not. */
  lemma ValidateRejectsEmpty()
    ensures Validate("").Fail?
    ensures Validate("").error == "invalid provider type: "
  {
  }

  /** The built-in provider set is `{s3: backend, aws: provider}`, already
      normalised and valid, so the missing-file path and the empty-document
      path produce the same providers. */
  lemma DefaultProvidersNormalised()
    ensures DefaultProviders().Keys == {"s3", "aws"}
    ensures DefaultProviders()["s3"].typ == TypeBackend && DefaultProviders()["aws"].typ == TypeProvider
    ensures Normalised(DefaultProviders()) == DefaultProviders()
    ensures AllTypesValid(DefaultProviders())
  {
    var d := DefaultProviders();
    assert Normalised(d).Keys == d.Keys;
    forall k | k in d ensures Normalised(d)[k] == d[k] {
    }
  }

  /** Normalisation keeps the key set and every proxy, turns an empty kind into
      `"provider"` and leaves every other kind as it was. */
  lemma NormalisedEntries(m: map<string, ProviderConfig>)
    ensures Normalised(m).Keys == m.Keys
    ensures forall k :: k in m ==>
      Normalised(m)[k].proxy == m[k].proxy &&
      Normalised(m)[k].typ == (if m[k].typ == "" then TypeProvider else m[k].typ)
  {
  }

  /** Normalising twice is normalising once. */
  lemma NormalisedIdempotent(m: map<string, ProviderConfig>)
    ensures Normalised(Normalised(m)) == Normalised(m)
  {
    var n := Normalised(m);
    assert Normalised(n).Keys == n.Keys;
    forall k | k in n ensures Normalised(n)[k] == n[k] {
    }
  }

  /** After a successful load every entry's kind is one of the two recognised
      kinds, so none holds a separator. */
  lemma ValidTypesHaveNoSeparator(m: map<string, ProviderConfig>, k: string)
    requires AllTypesValid(m) && k in m
    ensures m[k].typ == TypeProvider || m[k].typ == TypeBackend
    ensures TargetSeparator !in m[k].typ
  {
  }

  /** Normalisation does not change the proxy any name resolves to. */
  lemma ProxyUnchangedByNormalisation(defaultProxy: string, m: map<string, ProviderConfig>, name: string)
    ensures GetProxyForProvider(Config(defaultProxy, Normalised(m)), name)
         == GetProxyForProvider(Config(defaultProxy, m), name)
  {
  }

  /** With the built-in provider set every name resolves to the default proxy. */
  lemma DefaultProvidersUseDefaultProxy(defaultProxy: string, name: string)
    ensures GetProxyForProvider(Config(defaultProxy, DefaultProviders()), name) == defaultProxy
  {
  }

  /** A rendered target splits into exactly two parts iff neither the kind nor
      the name holds a separator, and those parts are then the kind and the name. */
  lemma SplitRenderedTarget(typ: string, name: string)
    ensures |Split(RenderTarget(typ, name), TargetSeparator)| == 2 <==>
      TargetSeparator !in typ && TargetSeparator !in name
    ensures TargetSeparator !in typ && TargetSeparator !in name ==>
      Split(RenderTarget(typ, name), TargetSeparator) == [typ, name]
  {
    SplitPair(typ, name, TargetSeparator);
  }

  /** When every kind is valid, the target strings of distinct entries are
      distinct, so `GetProviders` yields a permutation of the rendered entries. */
  lemma RenderedTargetsDistinct(m: map<string, ProviderConfig>, k1: string, k2: string)
    requires AllTypesValid(m) && k1 in m && k2 in m && k1 != k2
    ensures RenderTarget(m[k1].typ, k1) != RenderTarget(m[k2].typ, k2)
  {
    if RenderTarget(m[k1].typ, k1) == RenderTarget(m[k2].typ, k2) {
      ValidTypesHaveNoSeparator(m, k1);
      ValidTypesHaveNoSeparator(m, k2);
      SplitInjective(m[k1].typ, k1, m[k2].typ, k2, TargetSeparator);
    }
  }
}
