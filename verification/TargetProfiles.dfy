/** Target profile inheritance, domain/target.rs. */
module TargetProfiles {
  import opened Common
  import opened ParentChains

  datatype WorldMode = Open | Closed

  datatype TargetProfile = TargetProfile(name: string, conditions: set<string>, world: WorldMode)

  datatype Definition = Definition(inherits: Option<string>, conditions: set<string>, world: Option<WorldMode>)

  type Definitions = map<string, Definition>

  datatype Error = UnknownParent(name: string) | Cycle(name: string)

  function ParentsOf(d: Definitions): (p: Parents)
    ensures p.Keys == d.Keys
  {
    map n | n in d :: d[n].inherits
  }

  /** Every parent on the way is defined, and there is a last one. */
  ghost predicate IsDefined(d: Definitions, name: string) {
    HasChain(ParentsOf(d), {}, name)
  }

  function ChainConditions(d: Definitions, chain: seq<string>): set<string> {
    set i, c | 0 <= i < |chain| && chain[i] in d && c in d[chain[i]].conditions :: c
  }

  /** The world that the nearest profile on the chain declares. */
  function NearestWorld(d: Definitions, chain: seq<string>, fallback: WorldMode): WorldMode {
    if chain == [] then fallback
    else if chain[0] in d && d[chain[0]].world.Some? then d[chain[0]].world.value
    else NearestWorld(d, chain[1..], fallback)
  }

  /** All conditions along the chain, and the nearest declared world. */
  ghost function Resolved(d: Definitions, fallback: WorldMode, name: string): TargetProfile
    requires IsDefined(d, name)
  {
    var chain := ChainOf(ParentsOf(d), {}, name);
    TargetProfile(name, ChainConditions(d, chain), NearestWorld(d, chain, fallback))
  }

  /** An error names a real defect: a cycle, or a parent nobody defines. */
  ghost predicate Explains(d: Definitions, e: Error) {
    match e
    case Cycle(name) => name in d && !IsDefined(d, name)
    case UnknownParent(name) => name !in d && exists n :: n in d && d[n].inherits == Some(name)
  }

  ghost predicate IsMemo(d: Definitions, fallback: WorldMode, resolved: map<string, TargetProfile>) {
    forall n :: n in resolved ==> n in d && IsDefined(d, n) && resolved[n] == Resolved(d, fallback, n)
  }

  lemma ResolvedAlone(d: Definitions, fallback: WorldMode, name: string)
    requires name in d && d[name].inherits == None
    ensures IsDefined(d, name)
    ensures Resolved(d, fallback, name) == TargetProfile(name, d[name].conditions, d[name].world.UnwrapOr(fallback))
  {
    ChainEnds(ParentsOf(d), {}, name);
    assert ChainConditions(d, [name]) == d[name].conditions by {
      assert [name][0] == name;
    }
    assert [name][1..] == [] && NearestWorld(d, [], fallback) == fallback;
  }

  lemma ResolvedFromParent(d: Definitions, fallback: WorldMode, name: string, parent: string)
    requires name in d && d[name].inherits == Some(parent)
    ensures IsDefined(d, name) <==> IsDefined(d, parent)
    ensures IsDefined(d, parent) ==>
      var above := Resolved(d, fallback, parent);
      Resolved(d, fallback, name)
      == TargetProfile(name, above.conditions + d[name].conditions, d[name].world.UnwrapOr(above.world))
  {
    ChainExtends(ParentsOf(d), {}, name, parent);
    if IsDefined(d, parent) {
      var chain := ChainOf(ParentsOf(d), {}, parent);
      var longer := [name] + chain;
      assert longer[1..] == chain;
      forall c
        ensures c in ChainConditions(d, longer) <==> c in ChainConditions(d, chain) + d[name].conditions
      {
        if i :| 0 <= i < |chain| && chain[i] in d && c in d[chain[i]].conditions {
          assert longer[i + 1] == chain[i];
        }
      }
    }
  }

  /**
   Succeeds exactly when the chain of `name` is finite and defined.  The memo and the
   names being visited are passed along and handed back.
   */
  method ResolveProfile(name: string, d: Definitions, fallback: WorldMode, visiting: set<string>,
                        resolved: map<string, TargetProfile>, ghost trail: seq<string>)
    returns (r: Result<TargetProfile, Error>, visitingAfter: set<string>, resolvedAfter: map<string, TargetProfile>)
    requires name in d && IsMemo(d, fallback, resolved)
    requires IsTrail(ParentsOf(d), trail, name) && visiting == Members(trail)
    ensures r.Ok? <==> IsDefined(d, name)
    ensures r.Ok? ==> r.value == Resolved(d, fallback, name) && visitingAfter == visiting && name in resolvedAfter
    ensures r.Err? ==> Explains(d, r.error)
    ensures IsMemo(d, fallback, resolvedAfter) && resolved.Keys <= resolvedAfter.Keys
    decreases d.Keys - visiting
  {
    visitingAfter, resolvedAfter := visiting, resolved;
    if name in resolved {
      return Ok(resolved[name]), visiting, resolved;
    }
    if name in visiting {
      CycleHasNoChain(ParentsOf(d), {}, trail, name);
      return Err(Cycle(name)), visiting, resolved;
    }
    visitingAfter := visiting + {name};
    var definition := d[name];
    var conditions: set<string> := {};
    var world := fallback;
    if definition.inherits.Some? {
      var parentName := definition.inherits.value;
      ResolvedFromParent(d, fallback, name, parentName);
      if parentName !in d {
        UndefinedHasNoChain(ParentsOf(d), {}, parentName);
        r := Err(UnknownParent(parentName));
        return;
      }
      TrailGrows(ParentsOf(d), trail, name, parentName);
      var parent;
      parent, visitingAfter, resolvedAfter :=
        ResolveProfile(parentName, d, fallback, visitingAfter, resolved, trail + [name]);
      if parent.Err? {
        r := parent;
        return;
      }
      conditions, world := parent.value.conditions, parent.value.world;
    } else {
      ResolvedAlone(d, fallback, name);
    }
    conditions := conditions + definition.conditions;
    world := definition.world.UnwrapOr(world);
    visitingAfter := visitingAfter - {name};
    var profile := TargetProfile(name, conditions, world);
    resolvedAfter := resolvedAfter[name := profile];
    r := Ok(profile);
  }

  /**
   Whatever the order of the names, this succeeds exactly when all chains are finite and
   defined, and then the memoized answers are the plain unions over the chains.
   */
  method ResolveTargetProfiles(d: Definitions, fallback: WorldMode)
    returns (r: Result<map<string, TargetProfile>, Error>)
    ensures r.Ok? <==> forall n :: n in d ==> IsDefined(d, n)
    ensures r.Ok? ==> r.value.Keys == d.Keys && forall n :: n in d ==> r.value[n] == Resolved(d, fallback, n)
    ensures r.Err? ==> Explains(d, r.error)
  {
    var resolved: map<string, TargetProfile> := map[];
    var names := d.Keys;
    while names != {}
      invariant names <= d.Keys && IsMemo(d, fallback, resolved)
      invariant d.Keys - names <= resolved.Keys
      decreases names
    {
      var name :| name in names;
      assert Members([]) == {};
      var profile, visiting;
      profile, visiting, resolved := ResolveProfile(name, d, fallback, {}, resolved, []);
      if profile.Err? {
        return Err(profile.error);
      }
      names := names - {name};
    }
    assert resolved.Keys == d.Keys;
    return Ok(resolved);
  }
}
