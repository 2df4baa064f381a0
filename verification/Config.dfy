/** Defaults and validation of the configuration: where the other components' preconditions come from. */
module Config {

  const ROLE_MAIN := "main"
  const ROLE_FALLBACK := "fallback"

  datatype UpstreamConfig = UpstreamConfig(name: string, rpcURL: string, wsURL: string, weight: int, role: string)

  datatype GroupConfig = GroupConfig(name: string, upstreams: seq<UpstreamConfig>)

  datatype CacheConfig = NoCache | CacheConfig(enabled: bool, ttl: int, size: int)

  datatype Settings = Settings(
    host: string, rpcPort: int, wsPort: int, logLevel: string, maxBodySize: int, requestTimeout: int,
    healthCheckInterval: int, statusLogInterval: int, statsLogInterval: int, lagRecoveryTimeout: int,
    upstreamMessageTimeout: int, upstreamReconnectInterval: int, dedupCacheSize: int,
    maxSubscriptionsPerClient: int, retryMaxAttempts: int)

  datatype Problem =
    | NoProblem
    | NoGroups
    | GroupNameMissing(i: nat)
    | DuplicateGroup(i: nat)
    | NoUpstreams(i: nat)
    | BadUpstream(i: nat, j: nat, reason: UpstreamProblem)
    | BadPort
    | BadLogLevel
    | NegativeSetting
    | BadCache

  datatype UpstreamProblem = NameMissing | DuplicateName | NoEndpoint | BadWeight | BadRole

  function Or(x: int, default: int): int { if x == 0 then default else x }

  function WithDefaults(s: Settings): Settings {
    Settings(
      if s.host == "" then "localhost" else s.host,
      Or(s.rpcPort, 8545), Or(s.wsPort, 8546), if s.logLevel == "" then "info" else s.logLevel,
      s.maxBodySize, Or(s.requestTimeout, 5000), Or(s.healthCheckInterval, 10000), Or(s.statusLogInterval, 5000),
      Or(s.statsLogInterval, 60000), Or(s.lagRecoveryTimeout, 2000), Or(s.upstreamMessageTimeout, 60000),
      Or(s.upstreamReconnectInterval, 5000), Or(s.dedupCacheSize, 10000), Or(s.maxSubscriptionsPerClient, 100),
      Or(s.retryMaxAttempts, 3))
  }

  function UpstreamDefaults(u: UpstreamConfig): UpstreamConfig {
    u.(weight := Or(u.weight, 1), role := if u.role == "" then ROLE_MAIN else u.role)
  }

  function GroupDefaults(g: GroupConfig): GroupConfig {
    g.(upstreams := seq(|g.upstreams|, j requires 0 <= j < |g.upstreams| => UpstreamDefaults(g.upstreams[j])))
  }

  // ----- What a valid configuration promises

  predicate UpstreamOk(us: seq<UpstreamConfig>, j: nat)
    requires j < |us|
  {
    && us[j].name != ""
    && (forall k :: 0 <= k < j ==> us[k].name != us[j].name)
    && (us[j].rpcURL != "" || us[j].wsURL != "")
    && us[j].weight > 0
    && us[j].role in {ROLE_MAIN, ROLE_FALLBACK}
  }

  predicate GroupOk(gs: seq<GroupConfig>, i: nat)
    requires i < |gs|
  {
    && gs[i].name != ""
    && (forall k :: 0 <= k < i ==> gs[k].name != gs[i].name)
    && gs[i].upstreams != []
    && forall j :: 0 <= j < |gs[i].upstreams| ==> UpstreamOk(gs[i].upstreams, j)
  }

  predicate SettingsOk(s: Settings) {
    && 1 <= s.rpcPort <= 65535 && 1 <= s.wsPort <= 65535
    && s.logLevel in {"debug", "info", "warn", "error"}
    && s.requestTimeout >= 0 && s.healthCheckInterval >= 0 && s.dedupCacheSize >= 0
    && s.maxSubscriptionsPerClient >= 0 && s.retryMaxAttempts >= 0
  }

  predicate CacheOk(c: CacheConfig) {
    c.CacheConfig? && c.enabled ==> c.ttl > 0 && c.size > 0
  }

  predicate ValidConfig(s: Settings, gs: seq<GroupConfig>, c: CacheConfig) {
    gs != [] && (forall i :: 0 <= i < |gs| ==> GroupOk(gs, i)) && SettingsOk(s) && CacheOk(c)
  }

  /** A reported problem is really there. */
  predicate Genuine(p: Problem, s: Settings, gs: seq<GroupConfig>, c: CacheConfig) {
    match p
    case NoProblem => ValidConfig(s, gs, c)
    case NoGroups => gs == []
    case GroupNameMissing(i) => i < |gs| && gs[i].name == ""
    case DuplicateGroup(i) => i < |gs| && exists k :: 0 <= k < i && gs[k].name == gs[i].name
    case NoUpstreams(i) => i < |gs| && gs[i].upstreams == []
    case BadUpstream(i, j, reason) => i < |gs| && j < |gs[i].upstreams| && Faulty(gs[i].upstreams, j, reason)
    case BadPort => !(1 <= s.rpcPort <= 65535 && 1 <= s.wsPort <= 65535)
    case BadLogLevel => s.logLevel !in {"debug", "info", "warn", "error"}
    case NegativeSetting =>
      s.requestTimeout < 0 || s.healthCheckInterval < 0 || s.dedupCacheSize < 0
      || s.maxSubscriptionsPerClient < 0 || s.retryMaxAttempts < 0
    case BadCache => !CacheOk(c)
  }

  predicate Faulty(us: seq<UpstreamConfig>, j: nat, reason: UpstreamProblem)
    requires j < |us|
  {
    match reason
    case NameMissing => us[j].name == ""
    case DuplicateName => exists k :: 0 <= k < j && us[k].name == us[j].name
    case NoEndpoint => us[j].rpcURL == "" && us[j].wsURL == ""
    case BadWeight => us[j].weight <= 0
    case BadRole => us[j].role !in {ROLE_MAIN, ROLE_FALLBACK}
  }

  class Config {
    var settings: Settings
    var groups: seq<GroupConfig>
    var cache: CacheConfig

    constructor (s: Settings, gs: seq<GroupConfig>, c: CacheConfig)
      ensures settings == s && groups == gs && cache == c
    {
      settings, groups, cache := s, gs, c;
    }

    method ApplyDefaults()
      modifies this
      ensures settings == WithDefaults(old(settings)) && cache == old(cache)
      ensures |groups| == |old(groups)| && forall i :: 0 <= i < |groups| ==> groups[i] == GroupDefaults(old(groups)[i])
    {
      settings := WithDefaults(settings);
      for i := 0 to |groups|
        invariant |groups| == |old(groups)|
        invariant settings == WithDefaults(old(settings)) && cache == old(cache)
        invariant forall k :: 0 <= k < |groups| ==>
          groups[k] == if k < i then GroupDefaults(old(groups)[k]) else old(groups)[k]
      {
        var us := groups[i].upstreams;
        for j := 0 to |us|
          invariant |us| == |groups[i].upstreams|
          invariant forall k :: 0 <= k < |us| ==>
            us[k] == if k < j then UpstreamDefaults(groups[i].upstreams[k]) else groups[i].upstreams[k]
        {
          var u := us[j];
          if u.weight == 0 {
            u := u.(weight := 1);
          }
          if u.role == "" {
            u := u.(role := ROLE_MAIN);
          }
          us := us[j := u];
        }
        assert us == GroupDefaults(groups[i]).upstreams;
        groups := groups[i := groups[i].(upstreams := us)];
      }
    }

    method ValidateUpstreams(i: nat) returns (p: Problem)
      requires i < |groups|
      ensures p == NoProblem <==> forall j :: 0 <= j < |groups[i].upstreams| ==> UpstreamOk(groups[i].upstreams, j)
      ensures p != NoProblem ==> p.BadUpstream? && Genuine(p, settings, groups, cache)
    {
      var us := groups[i].upstreams;
      var names: set<string> := {};
      for j := 0 to |us|
        invariant names == set k | 0 <= k < j :: us[k].name
        invariant forall k :: 0 <= k < j ==> UpstreamOk(us, k)
      {
        var u := us[j];
        if u.name == "" {
          assert !UpstreamOk(us, j);
          return BadUpstream(i, j, NameMissing);
        }
        if u.name in names {
          assert !UpstreamOk(us, j);
          return BadUpstream(i, j, DuplicateName);
        }
        names := names + {u.name};
        if u.rpcURL == "" && u.wsURL == "" {
          assert !UpstreamOk(us, j);
          return BadUpstream(i, j, NoEndpoint);
        }
        if u.weight <= 0 {
          assert !UpstreamOk(us, j);
          return BadUpstream(i, j, BadWeight);
        }
        if u.role != ROLE_MAIN && u.role != ROLE_FALLBACK {
          assert !UpstreamOk(us, j);
          return BadUpstream(i, j, BadRole);
        }
      }
      return NoProblem;
    }

    method ValidateGroups() returns (p: Problem)
      ensures p == NoProblem <==> forall i :: 0 <= i < |groups| ==> GroupOk(groups, i)
      ensures p != NoProblem ==> Genuine(p, settings, groups, cache)
    {
      var names: set<string> := {};
      for i := 0 to |groups|
        invariant names == set k | 0 <= k < i :: groups[k].name
        invariant forall k :: 0 <= k < i ==> GroupOk(groups, k)
      {
        var g := groups[i];
        if g.name == "" {
          assert !GroupOk(groups, i);
          return GroupNameMissing(i);
        }
        if g.name in names {
          assert !GroupOk(groups, i);
          return DuplicateGroup(i);
        }
        names := names + {g.name};
        if g.upstreams == [] {
          assert !GroupOk(groups, i);
          return NoUpstreams(i);
        }
        p := ValidateUpstreams(i);
        if p != NoProblem {
          assert !GroupOk(groups, i);
          return p;
        }
      }
      return NoProblem;
    }

    /** Accepts exactly the valid configurations, and only reports problems that are there. */
    method Validate() returns (p: Problem)
      ensures p == NoProblem <==> ValidConfig(settings, groups, cache)
      ensures Genuine(p, settings, groups, cache)
    {
      if groups == [] {
        return NoGroups;
      }
      p := ValidateGroups();
      if p != NoProblem {
        return p;
      }
      if settings.rpcPort < 1 || settings.rpcPort > 65535 || settings.wsPort < 1 || settings.wsPort > 65535 {
        return BadPort;
      }
      if settings.logLevel !in {"debug", "info", "warn", "error"} {
        return BadLogLevel;
      }
      if settings.requestTimeout < 0 || settings.healthCheckInterval < 0 || settings.dedupCacheSize < 0
         || settings.maxSubscriptionsPerClient < 0 || settings.retryMaxAttempts < 0 {
        return NegativeSetting;
      }
      if cache.CacheConfig? && cache.enabled && (cache.ttl <= 0 || cache.size <= 0) {
        return BadCache;
      }
      return NoProblem;
    }
  }

  /**
   A loaded configuration meets what the balancer, the executor, the deduplicator and the sessions
   rely on: positive weights and unique names in every group, and positive limits.
   */
  lemma LoadedConfigMeetsPreconditions(s: Settings, gs: seq<GroupConfig>, c: CacheConfig)
    requires ValidConfig(WithDefaults(s), gs, c)
    ensures forall i, j :: 0 <= i < |gs| && 0 <= j < |gs[i].upstreams| ==> gs[i].upstreams[j].weight > 0
    ensures forall i, j, k :: 0 <= i < |gs| && 0 <= j < k < |gs[i].upstreams| ==>
      gs[i].upstreams[j].name != gs[i].upstreams[k].name
    ensures WithDefaults(s).retryMaxAttempts >= 1 && WithDefaults(s).dedupCacheSize >= 1
    ensures WithDefaults(s).maxSubscriptionsPerClient >= 1
    ensures WithDefaults(s).lagRecoveryTimeout != 0
  {
    forall i, j | 0 <= i < |gs| && 0 <= j < |gs[i].upstreams| ensures gs[i].upstreams[j].weight > 0 {
      assert GroupOk(gs, i) && UpstreamOk(gs[i].upstreams, j);
    }
    forall i, j, k | 0 <= i < |gs| && 0 <= j < k < |gs[i].upstreams|
      ensures gs[i].upstreams[j].name != gs[i].upstreams[k].name
    {
      assert GroupOk(gs, i) && UpstreamOk(gs[i].upstreams, k);
    }
  }

  // ----- Which files are accepted, said of the file itself

  predicate AcceptedUpstream(us: seq<UpstreamConfig>, j: nat)
    requires j < |us|
  {
    && us[j].name != "" && (forall k :: 0 <= k < j ==> us[k].name != us[j].name)
    && (us[j].rpcURL != "" || us[j].wsURL != "")
    && us[j].weight >= 0 && us[j].role in {"", "main", "fallback"}
  }

  predicate AcceptedGroup(gs: seq<GroupConfig>, i: nat)
    requires i < |gs|
  {
    && gs[i].name != "" && (forall k :: 0 <= k < i ==> gs[k].name != gs[i].name)
    && gs[i].upstreams != [] && forall j :: 0 <= j < |gs[i].upstreams| ==> AcceptedUpstream(gs[i].upstreams, j)
  }

  /** Numbers are not negative and ports at most 65535; a cache that is switched on has a lifetime and room. */
  predicate AcceptedFile(s: Settings, gs: seq<GroupConfig>, c: CacheConfig) {
    && gs != [] && (forall i :: 0 <= i < |gs| ==> AcceptedGroup(gs, i))
    && 0 <= s.rpcPort <= 65535 && 0 <= s.wsPort <= 65535
    && s.logLevel in {"", "debug", "info", "warn", "error"}
    && s.requestTimeout >= 0 && s.healthCheckInterval >= 0 && s.dedupCacheSize >= 0
    && s.maxSubscriptionsPerClient >= 0 && s.retryMaxAttempts >= 0
    && (c.CacheConfig? && c.enabled ==> c.ttl > 0 && c.size > 0)
  }

  lemma AcceptedGroupsAreOk(gs: seq<GroupConfig>, ds: seq<GroupConfig>, i: nat)
    requires |ds| == |gs| && i < |gs| && forall k :: 0 <= k < |gs| ==> ds[k] == GroupDefaults(gs[k])
    ensures AcceptedGroup(gs, i) <==> GroupOk(ds, i)
  {
    forall j: nat | j < |gs[i].upstreams|
      ensures AcceptedUpstream(gs[i].upstreams, j) <==> UpstreamOk(ds[i].upstreams, j)
    {
      var us, vs := gs[i].upstreams, ds[i].upstreams;
      assert forall k :: 0 <= k <= j ==> vs[k] == UpstreamDefaults(us[k]);
    }
    assert forall k :: 0 <= k <= i ==> ds[k].name == gs[k].name;
  }

  /** Filled in and validated, a file passes exactly when it is acceptable as it stands. */
  lemma AcceptedFilesAreValid(s: Settings, gs: seq<GroupConfig>, ds: seq<GroupConfig>, c: CacheConfig)
    requires |ds| == |gs| && forall k :: 0 <= k < |gs| ==> ds[k] == GroupDefaults(gs[k])
    ensures ValidConfig(WithDefaults(s), ds, c) <==> AcceptedFile(s, gs, c)
  {
    forall i: nat | i < |gs| ensures AcceptedGroup(gs, i) <==> GroupOk(ds, i) {
      AcceptedGroupsAreOk(gs, ds, i);
    }
  }

  /** Nothing that has a default is left out or zero. */
  predicate Complete(s: Settings) {
    && s.host != "" && s.rpcPort != 0 && s.wsPort != 0 && s.logLevel != "" && s.requestTimeout != 0
    && s.healthCheckInterval != 0 && s.statusLogInterval != 0 && s.statsLogInterval != 0 && s.lagRecoveryTimeout != 0
    && s.upstreamMessageTimeout != 0 && s.upstreamReconnectInterval != 0 && s.dedupCacheSize != 0
    && s.maxSubscriptionsPerClient != 0 && s.retryMaxAttempts != 0
  }

  /**
   The values an empty file gets; the body size has no limit by default. Filling in completes any file and leaves a
   complete one alone.
   */
  lemma DefaultsAre(s: Settings)
    ensures WithDefaults(Settings("", 0, 0, "", 0, 0, 0, 0, 0, 0, 0, 0, 0, 0, 0)) ==
      Settings("localhost", 8545, 8546, "info", 0, 5000, 10000, 5000, 60000, 2000, 60000, 5000, 10000, 100, 3)
    ensures Complete(WithDefaults(s))
    ensures Complete(s) ==> WithDefaults(s) == s
  {
  }

  /** Defaults fill zero weights only: a negative weight survives them and is then rejected. */
  lemma NegativeWeightIsRejected(s: Settings, gs: seq<GroupConfig>, c: CacheConfig, i: nat, j: nat)
    requires i < |gs| && j < |gs[i].upstreams| && gs[i].upstreams[j].weight < 0
    ensures !ValidConfig(WithDefaults(s), seq(|gs|, k requires 0 <= k < |gs| => GroupDefaults(gs[k])), c)
  {
    var ds := seq(|gs|, k requires 0 <= k < |gs| => GroupDefaults(gs[k]));
    assert !UpstreamOk(ds[i].upstreams, j);
    assert !GroupOk(ds, i);
  }
}
