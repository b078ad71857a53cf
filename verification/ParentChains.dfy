/**
 Inheritance chains of named profiles, shared by the resolvers of domain/target.rs,
 discovery/configuration.rs and application/project.rs.
 */
module ParentChains {
  import opened Common

  /** The parent that each defined name extends, if any. */
  type Parents = map<string, Option<string>>

  /** Each name extends the next; the last extends nothing, or is known without a definition. */
  ghost predicate IsChain(p: Parents, outside: set<string>, name: string, chain: seq<string>) {
    && chain != [] && chain[0] == name
    && (forall i :: 0 <= i < |chain| - 1 ==> chain[i] in p && p[chain[i]] == Some(chain[i + 1]))
    && var last := chain[|chain| - 1]; if last in p then p[last] == None else last in outside
  }

  /** The inheritance of `name` is finite and defined. */
  ghost predicate HasChain(p: Parents, outside: set<string>, name: string) {
    exists chain :: IsChain(p, outside, name, chain)
  }

  lemma ChainTail(p: Parents, outside: set<string>, name: string, chain: seq<string>)
    requires IsChain(p, outside, name, chain) && |chain| > 1
    ensures name in p && p[name] == Some(chain[1]) && IsChain(p, outside, chain[1], chain[1..])
  {
  }

  lemma {:induction false} ChainUnique(p: Parents, outside: set<string>, name: string, a: seq<string>, b: seq<string>)
    requires IsChain(p, outside, name, a) && IsChain(p, outside, name, b)
    ensures a == b
    decreases |a|
  {
    assert |a| == 1 ==> a[|a| - 1] == a[0];
    assert |b| == 1 ==> b[|b| - 1] == b[0];
    if |a| == 1 || |b| == 1 {
      // A name with a parent is no end, so neither chain is longer.
      if |a| > 1 {
        ChainTail(p, outside, name, a);
      }
      if |b| > 1 {
        ChainTail(p, outside, name, b);
      }
    } else {
      ChainTail(p, outside, name, a);
      ChainTail(p, outside, name, b);
      ChainUnique(p, outside, a[1], a[1..], b[1..]);
      assert a == [name] + a[1..] && b == [name] + b[1..];
    }
  }

  ghost function ChainOf(p: Parents, outside: set<string>, name: string): (chain: seq<string>)
    requires HasChain(p, outside, name)
    ensures IsChain(p, outside, name, chain)
  {
    var chain :| IsChain(p, outside, name, chain);
    chain
  }

  /** A name without a parent is its own chain. */
  lemma ChainEnds(p: Parents, outside: set<string>, name: string)
    requires if name in p then p[name] == None else name in outside
    ensures HasChain(p, outside, name) && ChainOf(p, outside, name) == [name]
  {
    assert IsChain(p, outside, name, [name]);
    ChainUnique(p, outside, name, [name], ChainOf(p, outside, name));
  }

  /** The chain of a name is the name and the chain of its parent. */
  lemma ChainExtends(p: Parents, outside: set<string>, name: string, parent: string)
    requires name in p && p[name] == Some(parent)
    ensures HasChain(p, outside, name) <==> HasChain(p, outside, parent)
    ensures HasChain(p, outside, name) ==> ChainOf(p, outside, name) == [name] + ChainOf(p, outside, parent)
  {
    if HasChain(p, outside, parent) {
      var chain := [name] + ChainOf(p, outside, parent);
      assert IsChain(p, outside, name, chain);
      ChainUnique(p, outside, name, chain, ChainOf(p, outside, name));
    } else if HasChain(p, outside, name) {
      var chain := ChainOf(p, outside, name);
      ChainTail(p, outside, name, chain);
    }
  }

  lemma UndefinedHasNoChain(p: Parents, outside: set<string>, name: string)
    requires name !in p && name !in outside
    ensures !HasChain(p, outside, name)
  {
    forall chain
      ensures !IsChain(p, outside, name, chain)
    {
      assert |chain| == 1 ==> chain[|chain| - 1] == chain[0];
    }
  }

  // ----- the names being visited -----

  /** The names being visited, each extended by the one before; the last extends `name`. */
  ghost predicate IsTrail(p: Parents, trail: seq<string>, name: string) {
    forall i :: 0 <= i < |trail| ==> trail[i] in p && p[trail[i]] == Some(NextOnTrail(trail, name, i))
  }

  function NextOnTrail(trail: seq<string>, name: string, i: nat): string {
    if i + 1 < |trail| then trail[i + 1] else name
  }

  function Members(trail: seq<string>): set<string> {
    set x | x in trail
  }

  lemma TrailGrows(p: Parents, trail: seq<string>, name: string, parent: string)
    requires IsTrail(p, trail, name) && name in p && p[name] == Some(parent)
    ensures IsTrail(p, trail + [name], parent) && Members(trail + [name]) == Members(trail) + {name}
  {
    var longer := trail + [name];
    forall i | 0 <= i < |longer|
      ensures longer[i] in p && p[longer[i]] == Some(NextOnTrail(longer, parent, i))
    {
      if i < |trail| {
        assert p[trail[i]] == Some(NextOnTrail(trail, name, i));
      }
    }
  }

  /** What the trail leads to has a chain, and a shorter one, if any name on the trail has. */
  lemma {:induction false} TrailLeads(p: Parents, outside: set<string>, trail: seq<string>, name: string, j: nat)
    requires IsTrail(p, trail, name) && j < |trail| && HasChain(p, outside, trail[j])
    ensures HasChain(p, outside, name)
    ensures |ChainOf(p, outside, name)| < |ChainOf(p, outside, trail[j])|
    decreases |trail| - j
  {
    ChainExtends(p, outside, trail[j], NextOnTrail(trail, name, j));
    if j + 1 < |trail| {
      TrailLeads(p, outside, trail, name, j + 1);
    }
  }

  /** A name that is visited again has no chain, and nor has any name on the way to it. */
  lemma CycleHasNoChain(p: Parents, outside: set<string>, trail: seq<string>, name: string)
    requires IsTrail(p, trail, name) && name in trail
    ensures !HasChain(p, outside, name)
  {
    var j :| 0 <= j < |trail| && trail[j] == name;
    if HasChain(p, outside, name) {
      TrailLeads(p, outside, trail, name, j);
    }
  }
}
