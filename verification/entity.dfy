/**
 An entity of the world: its active and visibility flags, its fixed table of
 component slots indexed by component type, and its place in the parent /
 child hierarchy.
 */
module Entities {
  import opened Options

  /** Number of component slots in every entity. */
  const COMPONENT_SLOTS: nat := 13

  /** Largest value of an unsigned 32-bit integer plus one. */
  const UINT32: nat := 0x1_0000_0000

  /** A component type, as the index of its slot. */
  type ComponentType = t: nat | t < COMPONENT_SLOTS

  /** A component object: its identity and the type it was given when added. */
  datatype Component = Component(id: nat, componentType: ComponentType)

  type EntityId = nat

  datatype Entity = Entity(
    active: bool,
    hierarchyVisible: bool,
    components: seq<Option<Component>>,   // one slot per component type
    parent: Option<EntityId>,
    children: seq<EntityId>)

  /** The table has one slot per type, and a component sits in the slot of its own type. */
  predicate Valid(e: Entity) {
    && |e.components| == COMPONENT_SLOTS
    && forall t :: 0 <= t < |e.components| && e.components[t].Some? ==> e.components[t].value.componentType == t
  }

  /** A new entity: active, visible, no components, no parent, no children. */
  function NewEntity(): (e: Entity)
    ensures Valid(e)
    ensures forall t: ComponentType :: GetComponent(e, t).None?
    ensures IsActive(e) && IsVisibleInHierarchy(e) && IsRoot(e) && !HasChildren(e)
  {
    Entity(true, true, seq(COMPONENT_SLOTS, _ => None), None, [])
  }

  function IsActive(e: Entity): bool { e.active }

  /** SetActive: only the active flag changes. */
  function SetActive(e: Entity, active: bool): (r: Entity)
    ensures IsActive(r) == active
    ensures r.(active := e.active) == e
  {
    e.(active := active)
  }

  function IsVisibleInHierarchy(e: Entity): bool { e.hierarchyVisible }

  /** SetHierarchyVisibility: only the visibility flag changes. */
  function SetHierarchyVisibility(e: Entity, visible: bool): (r: Entity)
    ensures IsVisibleInHierarchy(r) == visible
    ensures r.(hierarchyVisible := e.hierarchyVisible) == e
  {
    e.(hierarchyVisible := visible)
  }

  /** The two flags are independent: setting one leaves the other as it was. */
  lemma FlagsIndependent(e: Entity, active: bool, visible: bool)
    ensures IsVisibleInHierarchy(SetActive(e, active)) == IsVisibleInHierarchy(e)
    ensures IsActive(SetHierarchyVisibility(e, visible)) == IsActive(e)
    ensures SetActive(SetHierarchyVisibility(e, visible), active) == SetHierarchyVisibility(SetActive(e, active), visible)
  {
  }

  /** GetComponent: the content of the type's slot. */
  function GetComponent(e: Entity, t: ComponentType): (r: Option<Component>)
    requires Valid(e)
    ensures r.Some? ==> r.value.componentType == t
  {
    e.components[t]
  }

  /** What AddComponent leaves behind. */
  datatype Added = Added(entity: Entity, component: Component, resolveFired: bool)

  /**
   AddComponent. An occupied slot returns its component and changes nothing.
   Otherwise `created` is given type t and stored in exactly that slot, and
   a world resolve is requested.
   */
  function AddComponent(e: Entity, t: ComponentType, created: Component): (r: Added)
    requires Valid(e)
    ensures Valid(r.entity)
    ensures GetComponent(e, t).Some? ==> r == Added(e, GetComponent(e, t).value, false)
    ensures GetComponent(e, t).None? ==>
      && r.component == created.(componentType := t)
      && r.resolveFired
      && r.entity.components[t] == Some(r.component)
      && (forall u: ComponentType :: u != t ==> GetComponent(r.entity, u) == GetComponent(e, u))
      && r.entity == e.(components := r.entity.components)
  {
    match GetComponent(e, t)
    case Some(existing) => Added(e, existing, false)
    case None =>
      var component := created.(componentType := t);
      Added(e.(components := e.components[t := Some(component)]), component, true)
  }

  /** RemoveComponent: empties the type's slot, leaves every other slot, and requests a world resolve. */
  function RemoveComponent(e: Entity, t: ComponentType): (r: (Entity, bool))
    requires Valid(e)
    ensures Valid(r.0) && r.1
    ensures GetComponent(r.0, t).None?
    ensures forall u: ComponentType :: u != t ==> GetComponent(r.0, u) == GetComponent(e, u)
    ensures r.0 == e.(components := r.0.components)
  {
    (e.(components := e.components[t := None]), true)
  }

  /** After AddComponent, GetComponent returns what AddComponent returned. */
  lemma AddThenGet(e: Entity, t: ComponentType, created: Component)
    requires Valid(e)
    ensures var r := AddComponent(e, t, created); GetComponent(r.entity, t) == Some(r.component)
  {
  }

  /** Adding the same type twice returns the first component and leaves the entity as the first add did. */
  lemma AddIsIdempotent(e: Entity, t: ComponentType, first: Component, second: Component)
    requires Valid(e)
    ensures var r1 := AddComponent(e, t, first);
      var r2 := AddComponent(r1.entity, t, second);
      r2.entity == r1.entity && r2.component == r1.component && !r2.resolveFired
  {
  }

  /** Removing a component just added gives back the entity it was added to. */
  lemma RemoveUndoesAdd(e: Entity, t: ComponentType, created: Component)
    requires Valid(e) && GetComponent(e, t).None?
    ensures RemoveComponent(AddComponent(e, t, created).entity, t).0 == e
  {
    var after := RemoveComponent(AddComponent(e, t, created).entity, t).0;
    assert after.components == e.components;
  }

  /** Adding components of two different types gives the same entity in either order. */
  lemma AddsOfDifferentTypesCommute(e: Entity, t: ComponentType, u: ComponentType, a: Component, b: Component)
    requires Valid(e) && t != u
    ensures AddComponent(AddComponent(e, t, a).entity, u, b).entity ==
            AddComponent(AddComponent(e, u, b).entity, t, a).entity
  {
    var tu := AddComponent(AddComponent(e, t, a).entity, u, b).entity;
    var ut := AddComponent(AddComponent(e, u, b).entity, t, a).entity;
    assert tu.components == ut.components;
  }

  function IsRoot(e: Entity): bool { e.parent.None? }

  function HasParent(e: Entity): bool { e.parent.Some? }

  /** GetChildrenCount: the size of the child list, cast to an unsigned 32-bit integer. */
  function ChildrenCount(e: Entity): (n: nat)
    ensures n < UINT32
    ensures |e.children| < UINT32 ==> n == |e.children|
  {
    |e.children| % UINT32
  }

  function HasChildren(e: Entity): bool { ChildrenCount(e) > 0 }

  /**
   The hierarchy predicates agree: exactly one of IsRoot and HasParent holds,
   and HasChildren means a non-empty child list whenever the count fits in
   32 bits.
   */
  lemma HierarchyQueries(e: Entity)
    ensures IsRoot(e) <==> !HasParent(e)
    ensures |e.children| < UINT32 ==> (HasChildren(e) <==> e.children != [])
  {
  }

  /** The world's entities by id. */
  type World = map<EntityId, Entity>

  /**
   `rank` witnesses an acyclic hierarchy: every entity's parent is in the
   world and has a smaller rank.
   */
  predicate Ranked(world: World, rank: map<EntityId, nat>) {
    && (forall id :: id in world ==> id in rank)
    && (forall id :: id in world && world[id].parent.Some? ==>
          world[id].parent.value in world && rank[world[id].parent.value] < rank[id])
  }

  /** GetRoot: follow parents up to an entity without one. */
  function GetRoot(world: World, rank: map<EntityId, nat>, id: EntityId): (r: EntityId)
    requires Ranked(world, rank) && id in world
    ensures r in world && IsRoot(world[r])
    ensures IsRoot(world[id]) ==> r == id
    decreases rank[id]
  {
    if HasParent(world[id]) then GetRoot(world, rank, world[id].parent.value) else id
  }

  /** Any two acyclicity witnesses lead to the same root: the root depends on the hierarchy alone. */
  lemma {:induction false} RootIgnoresRank(world: World, rank: map<EntityId, nat>, rank': map<EntityId, nat>, id: EntityId)
    requires Ranked(world, rank) && Ranked(world, rank') && id in world
    ensures GetRoot(world, rank, id) == GetRoot(world, rank', id)
    decreases rank[id]
  {
    if HasParent(world[id]) {
      RootIgnoresRank(world, rank, rank', world[id].parent.value);
    }
  }

  /** The ancestors of an entity, nearest first, ending at its root. */
  function Ancestors(world: World, rank: map<EntityId, nat>, id: EntityId): (r: seq<EntityId>)
    requires Ranked(world, rank) && id in world
    ensures forall k :: 0 <= k < |r| ==> r[k] in world
    decreases rank[id]
  {
    if HasParent(world[id]) then [world[id].parent.value] + Ancestors(world, rank, world[id].parent.value) else []
  }

  /**
   GetRoot returns the last ancestor of a non-root entity, and every ancestor
   has the same root.
   */
  lemma {:induction false} RootIsLastAncestor(world: World, rank: map<EntityId, nat>, id: EntityId)
    requires Ranked(world, rank) && id in world
    ensures var a := Ancestors(world, rank, id);
      && (a == [] <==> IsRoot(world[id]))
      && (a != [] ==> GetRoot(world, rank, id) == a[|a| - 1])
      && forall k :: 0 <= k < |a| ==> GetRoot(world, rank, a[k]) == GetRoot(world, rank, id)
    decreases rank[id]
  {
    if HasParent(world[id]) {
      var p := world[id].parent.value;
      RootIsLastAncestor(world, rank, p);
      var a := Ancestors(world, rank, id);
      assert a == [p] + Ancestors(world, rank, p);
      forall k | 0 <= k < |a| ensures GetRoot(world, rank, a[k]) == GetRoot(world, rank, id) {
        if k > 0 { assert a[k] == Ancestors(world, rank, p)[k - 1]; }
      }
    }
  }

  /** The root of a root is itself. */
  lemma RootIsFixedPoint(world: World, rank: map<EntityId, nat>, id: EntityId)
    requires Ranked(world, rank) && id in world
    ensures GetRoot(world, rank, GetRoot(world, rank, id)) == GetRoot(world, rank, id)
  {
  }
}
