/** The generated access function: two recursive closures over group graphs that
    may contain cycles, a wildcard arm, an ownership arm, and a type check on each. */
module GrantTables {
  import opened Wrappers

  type Id = int

  /** (x, y): from x the query reaches y in one step. */
  type Edges = set<(Id, Id)>

  // ------------------------------------------------------------------ WITH RECURSIVE ... UNION

  function Heads(edges: Edges): (s: set<Id>) { set p | p in edges :: p.1 }

  /** The recursive term joined against the working table. */
  function OneStep(edges: Edges, working: set<Id>): (s: set<Id>) {
    set p | p in edges && p.0 in working :: p.1
  }

  /** The evaluation: rows already in the result are dropped, what is left becomes
      the next working table, until there is nothing left. It ends on every finite
      graph, cycles included. */
  function Iterate(edges: Edges, result: set<Id>, working: set<Id>): (all: set<Id>)
    decreases Heads(edges) - result, working
  {
    if working == {} then result
    else
      var more := OneStep(edges, working) - result;
      assert more != {} ==> Heads(edges) - (result + more) < Heads(edges) - result by {
        if more != {} {
          var x := Pick(more);
          assert x in Heads(edges) - result && x !in Heads(edges) - (result + more);
        }
      }
      assert more == {} ==> result + more == result;
      Iterate(edges, result + more, more)
  }

  function Closure(edges: Edges, seeds: set<Id>): (all: set<Id>) { Iterate(edges, seeds, seeds) }

  // ------------------------------------------------------------------ paths

  predicate IsPath(edges: Edges, path: seq<Id>) {
    |path| > 0 && forall i | 0 < i < |path| :: (path[i - 1], path[i]) in edges
  }

  predicate IsPathFromTo(edges: Edges, path: seq<Id>, x: Id, y: Id) {
    IsPath(edges, path) && path[0] == x && path[|path| - 1] == y
  }

  ghost predicate Reaches(edges: Edges, x: Id, y: Id) {
    exists path :: IsPathFromTo(edges, path, x, y)
  }

  lemma ReachesSelf(edges: Edges, x: Id)
    ensures Reaches(edges, x, x)
  {
    assert IsPathFromTo(edges, [x], x, x);
  }

  lemma ReachesStep(edges: Edges, x: Id, y: Id, z: Id)
    requires Reaches(edges, x, y) && (y, z) in edges
    ensures Reaches(edges, x, z)
  {
    var path :| IsPathFromTo(edges, path, x, y);
    assert IsPathFromTo(edges, path + [z], x, z);
  }

  ghost predicate ReachedFrom(edges: Edges, seeds: set<Id>, y: Id) {
    exists s :: s in seeds && Reaches(edges, s, y)
  }

  lemma ReachesMonotone(edges: Edges, edges': Edges, x: Id, y: Id)
    requires edges <= edges' && Reaches(edges, x, y)
    ensures Reaches(edges', x, y)
  {
    var path :| IsPathFromTo(edges, path, x, y);
    assert IsPathFromTo(edges', path, x, y);
  }

  // ------------------------------------------------------------------ the closure is reachability

  lemma {:induction false} IterateSound(edges: Edges, seeds: set<Id>, result: set<Id>, working: set<Id>, y: Id)
    requires working <= result && (forall x | x in result :: ReachedFrom(edges, seeds, x))
    requires y in Iterate(edges, result, working)
    ensures ReachedFrom(edges, seeds, y)
    decreases Heads(edges) - result, working
  {
    if working != {} {
      var more := OneStep(edges, working) - result;
      forall x | x in more ensures ReachedFrom(edges, seeds, x) {
        var p :| p in edges && p.0 in working && p.1 == x;
        var s :| s in seeds && Reaches(edges, s, p.0);
        ReachesStep(edges, s, p.0, x);
      }
      MeasureShrinks(edges, result, more);
      IterateSound(edges, seeds, result + more, more, y);
    }
  }

  lemma MeasureShrinks(edges: Edges, result: set<Id>, more: set<Id>)
    requires more <= Heads(edges) && more !! result
    ensures more != {} ==> Heads(edges) - (result + more) < Heads(edges) - result
    ensures more == {} ==> result + more == result
  {
    if more != {} {
      var x := Pick(more);
      assert x in Heads(edges) - result && x !in Heads(edges) - (result + more);
    }
  }

  /** Whatever has left the working table has had all its successors added. */
  predicate Expanded(edges: Edges, result: set<Id>, working: set<Id>) {
    forall p | p in edges && p.0 in result && p.0 !in working :: p.1 in result
  }

  lemma {:induction false} IterateClosed(edges: Edges, result: set<Id>, working: set<Id>)
    requires working <= result && Expanded(edges, result, working)
    ensures result <= Iterate(edges, result, working)
    ensures Expanded(edges, Iterate(edges, result, working), {})
    decreases Heads(edges) - result, working
  {
    if working != {} {
      var more := OneStep(edges, working) - result;
      MeasureShrinks(edges, result, more);
      IterateClosed(edges, result + more, more);
    }
  }

  lemma {:induction false} ClosedHoldsPaths(edges: Edges, all: set<Id>, path: seq<Id>)
    requires Expanded(edges, all, {}) && IsPath(edges, path) && path[0] in all
    ensures path[|path| - 1] in all
    decreases |path|
  {
    if |path| > 1 {
      var front := path[..|path| - 1];
      ClosedHoldsPaths(edges, all, front);
      assert (path[|path| - 2], path[|path| - 1]) in edges;
    }
  }

  /** The working-table iteration computes exactly what some path leads to. */
  lemma ClosureIsReachability(edges: Edges, seeds: set<Id>, y: Id)
    ensures y in Closure(edges, seeds) <==> ReachedFrom(edges, seeds, y)
  {
    if y in Closure(edges, seeds) {
      forall x | x in seeds ensures ReachedFrom(edges, seeds, x) {
        ReachesSelf(edges, x);
      }
      IterateSound(edges, seeds, seeds, seeds, y);
    }
    if ReachedFrom(edges, seeds, y) {
      var s :| s in seeds && Reaches(edges, s, y);
      var path :| IsPathFromTo(edges, path, s, y);
      IterateClosed(edges, seeds, seeds);
      ClosedHoldsPaths(edges, Closure(edges, seeds), path);
    }
  }

  // ------------------------------------------------------------------ types

  /** A row of types; rows are append-only and a parent is there before its child. */
  datatype TypeRow = TypeRow(slug: string, parent: Option<nat>)

  predicate ValidTypes(types: seq<TypeRow>) {
    forall i | 0 <= i < |types| :: types[i].parent.Some? ==> types[i].parent.value < i
  }

  /** type_is_or_descends_from, walking up the parents. */
  predicate DescendsFrom(types: seq<TypeRow>, t: nat, slug: string)
    requires ValidTypes(types)
  {
    && t < |types|
    && (types[t].slug == slug || (types[t].parent.Some? && DescendsFrom(types, types[t].parent.value, slug)))
  }

  function ParentEdges(types: seq<TypeRow>): (edges: Edges) {
    set i | 0 <= i < |types| && types[i].parent.Some? :: (i, types[i].parent.value)
  }

  lemma {:induction false} DescentIsReachability(types: seq<TypeRow>, t: nat, slug: string)
    requires ValidTypes(types) && t < |types|
    ensures DescendsFrom(types, t, slug) <==>
              exists a: nat :: a < |types| && types[a].slug == slug && Reaches(ParentEdges(types), t, a)
  {
    var edges := ParentEdges(types);
    if types[t].slug == slug {
      ReachesSelf(edges, t);
    }
    if types[t].parent.Some? {
      var parent := types[t].parent.value;
      DescentIsReachability(types, parent, slug);
      assert (t, parent) in edges;
      if DescendsFrom(types, parent, slug) {
        var a: nat :| a < |types| && types[a].slug == slug && Reaches(edges, parent, a);
        var path :| IsPathFromTo(edges, path, parent, a);
        PrependStep(edges, t, parent, path, a);
      }
    }
    if a: nat :| a < |types| && types[a].slug == slug && Reaches(edges, t, a) {
      var path :| IsPathFromTo(edges, path, t, a);
      if |path| > 1 {
        assert (path[0], path[1]) in edges;
        assert IsPathFromTo(edges, path[1..], path[1], a);
      }
    }
  }

  lemma PrependStep(edges: Edges, x: Id, y: Id, path: seq<Id>, z: Id)
    requires (x, y) in edges && IsPathFromTo(edges, path, y, z)
    ensures Reaches(edges, x, z)
  {
    assert IsPathFromTo(edges, [x] + path, x, z);
  }

  // ------------------------------------------------------------------ the access function

  datatype Entity = Entity(typ: nat, owner: Option<Id>)

  /** A grant without a target is a wildcard. */
  datatype Grant = Grant(actor: Id, operation: Id, target: Option<Id>)

  /** `above` holds (member, group) of the actor groups, `below` (group, member) of
      the target groups. */
  datatype World = World(types: seq<TypeRow>, entities: map<Id, Entity>, grants: set<Grant>, above: Edges, below: Edges)

  function ActorChain(w: World, actor: Id): (s: set<Id>) { Closure(w.above, {actor}) }

  predicate IsWildcardAdmin(w: World, actor: Id, operations: set<Id>) {
    exists g :: g in w.grants && g.actor in ActorChain(w, actor) && g.operation in operations && g.target.None?
  }

  function GrantedTarget(w: World, actor: Id, operations: set<Id>): (s: set<Id>) {
    set g | g in w.grants && g.actor in ActorChain(w, actor) && g.operation in operations && g.target.Some? :: g.target.value
  }

  function TargetChain(w: World, actor: Id, operations: set<Id>): (s: set<Id>) {
    Closure(w.below, GrantedTarget(w, actor, operations))
  }

  predicate OfType(w: World, e: Id, slug: string)
    requires ValidTypes(w.types) && e in w.entities
  {
    DescendsFrom(w.types, w.entities[e].typ, slug)
  }

  /** The three arms of the union, each with its own type check. */
  function Accessible(w: World, actor: Id, operations: set<Id>, slug: string): (ids: set<Id>)
    requires ValidTypes(w.types)
  {
    (set e | e in w.entities && OfType(w, e, slug) && IsWildcardAdmin(w, actor, operations))
    + (set e | e in w.entities && OfType(w, e, slug) && w.entities[e].owner == Some(actor))
    + (set e | e in w.entities && e in TargetChain(w, actor, operations) && OfType(w, e, slug))
  }

  // ------------------------------------------------------------------ what it means

  /** The actor, or a group above it, holds the grant for one of the operations. */
  ghost predicate Holds(w: World, actor: Id, operations: set<Id>, g: Grant) {
    g in w.grants && g.operation in operations && Reaches(w.above, actor, g.actor)
  }

  /** The grant covers the entity: it is a wildcard, or its target is the entity
      or a group with a downward path to it. */
  ghost predicate Covers(w: World, g: Grant, e: Id) {
    g.target.None? || Reaches(w.below, g.target.value, e)
  }

  ghost predicate Granted(w: World, actor: Id, operations: set<Id>, e: Id) {
    exists g :: Holds(w, actor, operations, g) && Covers(w, g, e)
  }

  lemma ChainMeaning(w: World, actor: Id, x: Id)
    ensures x in ActorChain(w, actor) <==> Reaches(w.above, actor, x)
  {
    ClosureIsReachability(w.above, {actor}, x);
  }

  lemma TargetMeaning(w: World, actor: Id, operations: set<Id>, e: Id)
    ensures e in TargetChain(w, actor, operations) <==>
              exists g :: Holds(w, actor, operations, g) && g.target.Some? && Reaches(w.below, g.target.value, e)
  {
    ClosureIsReachability(w.below, GrantedTarget(w, actor, operations), e);
    forall x ensures x in ActorChain(w, actor) <==> Reaches(w.above, actor, x) {
      ChainMeaning(w, actor, x);
    }
  }

  /** The type is the one called `slug`, or has it among its ancestors. */
  ghost predicate HasType(types: seq<TypeRow>, typ: nat, slug: string) {
    typ < |types| && exists a: nat :: a < |types| && types[a].slug == slug && Reaches(ParentEdges(types), typ, a)
  }

  lemma TypeMeaning(w: World, e: Id, slug: string)
    requires ValidTypes(w.types) && e in w.entities
    ensures OfType(w, e, slug) <==> HasType(w.types, w.entities[e].typ, slug)
  {
    if w.entities[e].typ < |w.types| {
      DescentIsReachability(w.types, w.entities[e].typ, slug);
    }
  }

  /** The function returns exactly the entities of the requested type that the
      actor itself owns or that some grant it holds covers. */
  lemma AccessExactlyWhen(w: World, actor: Id, operations: set<Id>, slug: string, e: Id)
    requires ValidTypes(w.types)
    ensures e in Accessible(w, actor, operations, slug) <==>
              && e in w.entities && HasType(w.types, w.entities[e].typ, slug)
              && (w.entities[e].owner == Some(actor) || Granted(w, actor, operations, e))
  {
    hide DescendsFrom, Closure, Reaches, HasType, OfType;
    if e in w.entities {
      TypeMeaning(w, e, slug);
    }
    TargetMeaning(w, actor, operations, e);
    forall x ensures x in ActorChain(w, actor) <==> Reaches(w.above, actor, x) {
      ChainMeaning(w, actor, x);
    }
    if g :| Holds(w, actor, operations, g) && Covers(w, g, e) {
      assert g.target.None? ==> IsWildcardAdmin(w, actor, operations);
    }
    if IsWildcardAdmin(w, actor, operations) {
      var g :| g in w.grants && g.actor in ActorChain(w, actor) && g.operation in operations && g.target.None?;
      assert Holds(w, actor, operations, g) && Covers(w, g, e);
    }
  }

  // ------------------------------------------------------------------ consequences

  ghost predicate Grows(w: World, w': World) {
    && w'.types == w.types && w.grants <= w'.grants && w.above <= w'.above && w.below <= w'.below
    && forall e | e in w.entities :: e in w'.entities && w'.entities[e] == w.entities[e]
  }

  /** Adding entities, grants or memberships takes no access away. */
  lemma AccessIsMonotone(w: World, w': World, actor: Id, operations: set<Id>, slug: string)
    requires ValidTypes(w.types) && Grows(w, w')
    ensures Accessible(w, actor, operations, slug) <= Accessible(w', actor, operations, slug)
  {
    hide DescendsFrom, Closure, Reaches, Accessible, HasType;
    forall e | e in Accessible(w, actor, operations, slug) ensures e in Accessible(w', actor, operations, slug) {
      AccessExactlyWhen(w, actor, operations, slug, e);
      AccessExactlyWhen(w', actor, operations, slug, e);
      if g :| Holds(w, actor, operations, g) && Covers(w, g, e) {
        ReachesMonotone(w.above, w'.above, actor, g.actor);
        if g.target.Some? {
          ReachesMonotone(w.below, w'.below, g.target.value, e);
        }
        assert Holds(w', actor, operations, g) && Covers(w', g, e);
      }
    }
  }

  /** A grant held by nobody on the actor's upward closure changes nothing for it. */
  lemma UnheldGrantChangesNothing(w: World, g: Grant, actor: Id, operations: set<Id>, slug: string)
    requires ValidTypes(w.types) && !Reaches(w.above, actor, g.actor)
    ensures Accessible(w.(grants := w.grants + {g}), actor, operations, slug) == Accessible(w, actor, operations, slug)
  {
    hide DescendsFrom, Closure, Reaches, Accessible, HasType;
    var w' := w.(grants := w.grants + {g});
    forall e ensures e in Accessible(w', actor, operations, slug) <==> e in Accessible(w, actor, operations, slug) {
      AccessExactlyWhen(w, actor, operations, slug, e);
      AccessExactlyWhen(w', actor, operations, slug, e);
      assert forall h :: Holds(w', actor, operations, h) <==> Holds(w, actor, operations, h);
      assert forall h :: Covers(w', h, e) <==> Covers(w, h, e);
    }
  }

  /** Ownership is never inherited: an actor that holds no grant for the operations
      sees exactly what it owns itself, whatever the groups it is in own. */
  lemma OwnershipIsNotInherited(w: World, actor: Id, operations: set<Id>, slug: string, e: Id)
    requires ValidTypes(w.types) && forall g | g in w.grants && g.operation in operations :: !Reaches(w.above, actor, g.actor)
    ensures e in Accessible(w, actor, operations, slug) <==>
              e in w.entities && HasType(w.types, w.entities[e].typ, slug) && w.entities[e].owner == Some(actor)
  {
    hide DescendsFrom, Closure, Reaches, Accessible, HasType;
    AccessExactlyWhen(w, actor, operations, slug, e);
  }

  /** A held wildcard makes every entity of the type accessible, and no other type. */
  lemma WildcardOpensTheType(w: World, actor: Id, operations: set<Id>, slug: string, g: Grant)
    requires ValidTypes(w.types) && Holds(w, actor, operations, g) && g.target.None?
    ensures Accessible(w, actor, operations, slug) == set e | e in w.entities && HasType(w.types, w.entities[e].typ, slug)
  {
    hide DescendsFrom, Closure, Reaches, Accessible, HasType;
    var all := set e | e in w.entities && HasType(w.types, w.entities[e].typ, slug);
    forall e ensures e in Accessible(w, actor, operations, slug) <==> e in all {
      AccessExactlyWhen(w, actor, operations, slug, e);
      assert Covers(w, g, e);
    }
    assert Accessible(w, actor, operations, slug) == all;
  }
}
