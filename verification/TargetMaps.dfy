/**
 Target maps: their validation in discovery/configuration.rs and the resolution of their
 conditions in application/project.rs.
 */
module TargetMaps {
  import opened Common
  import opened ParentChains

  datatype Target = Target(inherits: Option<string>, conditions: seq<string>)

  type TargetMap = map<string, Target>

  datatype ConfigurationError =
    | InvalidTargetName(name: string)
    | TargetProfileCycle(name: string)
    | UnknownTargetProfile(target: string, parent: string)

  datatype ScanError = ProfileCycle(name: string) | UnknownProfile(name: string)

  const BUILTINS: set<string> := {
    "node", "production", "worker", "browser", "bundler", "types", "cli", "test", "development"
  }

  /** The built-in targets that run on node. */
  const NODE_TARGETS: set<string> := {"production", "worker", "cli", "test", "development"}

  predicate ValidName(name: string) {
    (exists i :: 0 <= i < |name| && !IsWhitespace(name[i])) && forall i :: 0 <= i < |name| ==> !IsControl(name[i])
  }

  function ParentsOf(t: TargetMap): (p: Parents)
    ensures p.Keys == t.Keys
  {
    map n | n in t :: t[n].inherits
  }

  /** The inheritance of `name` is finite and ends in a target without a parent or in a built-in one. */
  ghost predicate IsResolvable(t: TargetMap, name: string) {
    HasChain(ParentsOf(t), BUILTINS, name)
  }

  ghost function Chain(t: TargetMap, name: string): seq<string>
    requires IsResolvable(t, name)
  {
    ChainOf(ParentsOf(t), BUILTINS, name)
  }

  // ----- validation -----

  /** Resolvable, with a proper name for every target that is inherited from. */
  ghost predicate IsAcceptable(t: TargetMap, name: string) {
    IsResolvable(t, name) && forall i :: 1 <= i < |Chain(t, name)| ==> ValidName(Chain(t, name)[i])
  }

  ghost predicate IsAccepted(t: TargetMap) {
    && (forall n :: n in t ==> ValidName(n) && IsAcceptable(t, n))
    && forall n, c :: n in t && c in t[n].conditions ==> ValidName(c)
  }

  ghost predicate Explains(t: TargetMap, e: ConfigurationError) {
    match e
    case InvalidTargetName(name) => !ValidName(name)
    case TargetProfileCycle(name) => name in t && !IsResolvable(t, name)
    case UnknownTargetProfile(target, parent) =>
      target in t && t[target].inherits == Some(parent) && parent !in t && parent !in BUILTINS
  }

  lemma AcceptableAlone(t: TargetMap, name: string)
    requires if name in t then t[name].inherits == None else name in BUILTINS
    ensures IsAcceptable(t, name)
  {
    ChainEnds(ParentsOf(t), BUILTINS, name);
  }

  lemma AcceptableExtends(t: TargetMap, name: string, parent: string)
    requires name in t && t[name].inherits == Some(parent)
    ensures IsAcceptable(t, name) <==> ValidName(parent) && IsAcceptable(t, parent)
    ensures IsResolvable(t, name) <==> IsResolvable(t, parent)
  {
    ChainExtends(ParentsOf(t), BUILTINS, name, parent);
    if IsResolvable(t, name) {
      var chain, rest := Chain(t, name), Chain(t, parent);
      assert chain[1] == rest[0] == parent;
      forall i | 1 <= i < |chain|
        ensures chain[i] == rest[i - 1]
      {
      }
      assert forall i :: 1 <= i < |rest| ==> rest[i] == chain[i + 1];
    }
  }

  method ValidateTargetChain(target: string, t: TargetMap, visiting: set<string>, resolved: set<string>,
                             ghost trail: seq<string>)
    returns (r: Option<ConfigurationError>, visitingAfter: set<string>, resolvedAfter: set<string>)
    requires target in t && forall n :: n in resolved ==> IsAcceptable(t, n)
    requires IsTrail(ParentsOf(t), trail, target) && visiting == Members(trail)
    ensures r.None? <==> IsAcceptable(t, target)
    ensures r.None? ==> visitingAfter == visiting
    ensures r.Some? ==> Explains(t, r.value)
    ensures forall n :: n in resolvedAfter ==> IsAcceptable(t, n)
    decreases t.Keys - visiting
  {
    visitingAfter, resolvedAfter := visiting, resolved;
    if target in resolved {
      return None, visiting, resolved;
    }
    if target in visiting {
      CycleHasNoChain(ParentsOf(t), BUILTINS, trail, target);
      return Some(TargetProfileCycle(target)), visiting, resolved;
    }
    visitingAfter := visiting + {target};
    if t[target].inherits.Some? {
      var parent := t[target].inherits.value;
      AcceptableExtends(t, target, parent);
      if !ValidName(parent) {
        r := Some(InvalidTargetName(parent));
        return;
      }
      if parent in t {
        TrailGrows(ParentsOf(t), trail, target, parent);
        r, visitingAfter, resolvedAfter := ValidateTargetChain(parent, t, visitingAfter, resolved, trail + [target]);
        if r.Some? {
          return;
        }
      } else if parent !in BUILTINS {
        UndefinedHasNoChain(ParentsOf(t), BUILTINS, parent);
        r := Some(UnknownTargetProfile(target, parent));
        return;
      } else {
        AcceptableAlone(t, parent);
      }
    } else {
      AcceptableAlone(t, target);
    }
    visitingAfter := visitingAfter - {target};
    resolvedAfter := resolvedAfter + {target};
    r := None;
  }

  method ValidateConditions(t: TargetMap) returns (r: Option<ConfigurationError>)
    ensures r.None? <==> forall n, c :: n in t && c in t[n].conditions ==> ValidName(c)
    ensures r.Some? ==> Explains(t, r.value)
  {
    var values := t.Keys;
    while values != {}
      invariant values <= t.Keys
      invariant forall n, c :: n in t && n !in values && c in t[n].conditions ==> ValidName(c)
      decreases values
    {
      var target :| target in values;
      for i := 0 to |t[target].conditions|
        invariant forall k :: 0 <= k < i ==> ValidName(t[target].conditions[k])
      {
        if !ValidName(t[target].conditions[i]) {
          return Some(InvalidTargetName(t[target].conditions[i]));
        }
      }
      values := values - {target};
    }
    return None;
  }

  /** Accepts exactly the maps all of whose names are proper and all of whose chains end. */
  method ValidateTargetMap(t: TargetMap) returns (r: Option<ConfigurationError>)
    ensures r.None? <==> IsAccepted(t)
    ensures r.Some? ==> Explains(t, r.value)
  {
    var resolved, visiting: set<string> := {}, {};
    var targets := t.Keys;
    assert Members([]) == {};
    while targets != {}
      invariant targets <= t.Keys && visiting == {} && forall n :: n in resolved ==> IsAcceptable(t, n)
      invariant forall n :: n in t && n !in targets ==> ValidName(n) && IsAcceptable(t, n)
      decreases targets
    {
      var target :| target in targets;
      if !ValidName(target) {
        return Some(InvalidTargetName(target));
      }
      r, visiting, resolved := ValidateTargetChain(target, t, visiting, resolved, []);
      if r.Some? {
        return;
      }
      targets := targets - {target};
    }
    r := ValidateConditions(t);
  }

  // ----- resolution -----

  function BuiltinConditions(profile: string): set<string> {
    if profile !in BUILTINS then {}
    else {profile} + (if profile in NODE_TARGETS then {"node"} else if profile == "bundler" then {"browser"} else {})
  }

  /** What a profile contributes by itself. */
  function OwnConditions(t: TargetMap, profile: string): set<string> {
    BuiltinConditions(profile) + if profile in t then set c | c in t[profile].conditions else {}
  }

  /** What the profile and all it inherits from contribute. */
  ghost function ConditionsOf(t: TargetMap, profile: string): set<string>
    requires IsResolvable(t, profile)
  {
    set i, c | 0 <= i < |Chain(t, profile)| && c in OwnConditions(t, Chain(t, profile)[i]) :: c
  }

  lemma ConditionsAlone(t: TargetMap, profile: string)
    requires if profile in t then t[profile].inherits == None else profile in BUILTINS
    ensures IsResolvable(t, profile) && ConditionsOf(t, profile) == OwnConditions(t, profile)
  {
    ChainEnds(ParentsOf(t), BUILTINS, profile);
    assert Chain(t, profile)[0] == profile;
  }

  lemma ConditionsExtend(t: TargetMap, profile: string, parent: string)
    requires profile in t && t[profile].inherits == Some(parent)
    ensures IsResolvable(t, profile) <==> IsResolvable(t, parent)
    ensures IsResolvable(t, parent) ==> ConditionsOf(t, profile) == ConditionsOf(t, parent) + OwnConditions(t, profile)
  {
    ChainExtends(ParentsOf(t), BUILTINS, profile, parent);
    if IsResolvable(t, parent) {
      var chain, rest := Chain(t, profile), Chain(t, parent);
      assert chain == [profile] + rest;
      forall c
        ensures c in ConditionsOf(t, profile) <==> c in ConditionsOf(t, parent) + OwnConditions(t, profile)
      {
        if i :| 0 <= i < |rest| && c in OwnConditions(t, rest[i]) {
          assert chain[i + 1] == rest[i];
        }
        if c in OwnConditions(t, profile) {
          assert chain[0] == profile;
        }
      }
    }
  }

  /** Every resolved profile has put all its conditions in. */
  ghost predicate IsMemo(t: TargetMap, resolved: set<string>, conditions: set<string>) {
    forall n :: n in resolved ==> IsResolvable(t, n) && ConditionsOf(t, n) <= conditions
  }

  ghost predicate ScanExplains(t: TargetMap, e: ScanError) {
    match e
    case ProfileCycle(name) => name in t && !IsResolvable(t, name)
    case UnknownProfile(name) => name !in t && name !in BUILTINS
  }

  /** The steps that collect the conditions of a profile add up to the conditions of its chain. */
  lemma ConditionsCollected(t: TargetMap, profile: string, before: set<string>, after: set<string>)
    requires profile in t || profile in BUILTINS
    requires var own := if profile in t then set c | c in t[profile].conditions else {};
             var withBuiltin := before + BuiltinConditions(profile);
             if profile in t && t[profile].inherits.Some? then
               IsResolvable(t, t[profile].inherits.value)
               && after == withBuiltin + ConditionsOf(t, t[profile].inherits.value) + own
             else after == withBuiltin + own
    ensures IsResolvable(t, profile) && after == before + ConditionsOf(t, profile)
  {
    if profile in t && t[profile].inherits.Some? {
      ConditionsExtend(t, profile, t[profile].inherits.value);
    } else {
      ConditionsAlone(t, profile);
    }
  }

  method ResolveTargetCondition(profile: string, t: TargetMap, visiting: set<string>, resolved: set<string>,
                                conditions: set<string>, ghost trail: seq<string>)
    returns (r: Option<ScanError>, visitingAfter: set<string>, resolvedAfter: set<string>, conditionsAfter: set<string>)
    requires IsMemo(t, resolved, conditions) && IsTrail(ParentsOf(t), trail, profile) && visiting == Members(trail)
    ensures r.None? <==> IsResolvable(t, profile)
    ensures r.None? ==> conditionsAfter == conditions + ConditionsOf(t, profile) && visitingAfter == visiting
    ensures r.None? ==> IsMemo(t, resolvedAfter, conditionsAfter)
    ensures r.Some? ==> ScanExplains(t, r.value)
    decreases t.Keys - visiting
  {
    visitingAfter, resolvedAfter, conditionsAfter := visiting, resolved, conditions;
    if profile in resolved {
      return None, visiting, resolved, conditions;
    }
    if profile in visiting {
      CycleHasNoChain(ParentsOf(t), BUILTINS, trail, profile);
      return Some(ProfileCycle(profile)), visiting, resolved, conditions;
    }
    visitingAfter := visiting + {profile};
    var builtIn := profile in BUILTINS;
    conditionsAfter := conditionsAfter + BuiltinConditions(profile);
    if profile in t {
      if t[profile].inherits.Some? {
        var parent := t[profile].inherits.value;
        ConditionsExtend(t, profile, parent);
        TrailGrows(ParentsOf(t), trail, profile, parent);
        r, visitingAfter, resolvedAfter, conditionsAfter :=
          ResolveTargetCondition(parent, t, visitingAfter, resolved, conditionsAfter, trail + [profile]);
        if r.Some? {
          return;
        }
      }
      conditionsAfter := conditionsAfter + set c | c in t[profile].conditions;
    } else if !builtIn {
      UndefinedHasNoChain(ParentsOf(t), BUILTINS, profile);
      r := Some(UnknownProfile(profile));
      return;
    }
    ConditionsCollected(t, profile, conditions, conditionsAfter);
    visitingAfter := visitingAfter - {profile};
    resolvedAfter := resolvedAfter + {profile};
    r := None;
  }

  ghost function UnionOf(t: TargetMap, profiles: set<string>): set<string>
    requires forall p :: p in profiles ==> IsResolvable(t, p)
  {
    set p, c | p in profiles && c in ConditionsOf(t, p) :: c
  }

  /** Depends on nothing but which profiles are listed: all must resolve, and their conditions are joined. */
  method ResolveConditionsForTargets(profiles: seq<string>, t: TargetMap) returns (r: Result<set<string>, ScanError>)
    ensures r.Ok? <==> forall p :: p in Members(profiles) ==> IsResolvable(t, p)
    ensures r.Ok? ==> r.value == UnionOf(t, Members(profiles))
    ensures r.Err? ==> ScanExplains(t, r.error)
  {
    var conditions, resolved, visiting: set<string> := {}, {}, {};
    assert Members([]) == {};
    for i := 0 to |profiles|
      invariant visiting == {} && IsMemo(t, resolved, conditions)
      invariant forall p :: p in Members(profiles[..i]) ==> IsResolvable(t, p)
      invariant conditions == UnionOf(t, Members(profiles[..i]))
    {
      var problem;
      ghost var before := conditions;
      problem, visiting, resolved, conditions :=
        ResolveTargetCondition(profiles[i], t, visiting, resolved, conditions, []);
      assert profiles[i] in Members(profiles);
      if problem.Some? {
        return Err(problem.value);
      }
      assert Members(profiles[..i + 1]) == Members(profiles[..i]) + {profiles[i]};
    }
    assert profiles[..|profiles|] == profiles;
    return Ok(conditions);
  }

  /** Once a map is accepted, every list of its own and of built-in profiles resolves. */
  lemma AcceptedMapResolves(t: TargetMap, profiles: seq<string>)
    requires IsAccepted(t) && forall p :: p in profiles ==> p in t || p in BUILTINS
    ensures forall p :: p in Members(profiles) ==> IsResolvable(t, p)
  {
    forall p | p in profiles
      ensures IsResolvable(t, p)
    {
      if p !in t {
        ConditionsAlone(t, p);
      }
    }
  }
}
