/** How many nodes preparing a schema visits, counted on the raw schema and the value: below the budget, the budget is
    not used up. */
module NodeCount {
  import opened JsonModel
  import opened Options
  import opened References
  import opened Resolution
  import Canonical

  // ----- the nodes of a head --------------------------------------------------------------------------------------

  /** The levels of metadata that flattening merges. */
  function Levels(nodes: seq<Json>): nat
    decreases Highest(nodes)
  {
    MetasLower(nodes);
    if Metas(nodes) == [] || !AllAt(Metas(nodes), []).isObject then 0 else 1 + Levels(Metas(nodes))
  }

  /** Flattening ends in a node that is hidden or has a dynamic reference. */
  predicate Stops(nodes: seq<Json>) {
    BadMetadata(nodes) || AllAt(Spread(nodes), []).dynamic
  }

  /** The raw nodes a resolved head stands for, also where it is hidden. */
  function Parts(nodes: seq<Json>, pointer: Pointer, visited: set<string>, depth: nat): seq<Json>
    decreases 129 - depth
  {
    if depth > 128 || AllAt(nodes, []).dynamic || Stops(nodes) then [HIDDEN]
    else
      match AllAt(Spread(nodes), []).reference
      case None => Spread(nodes)
      case Some(Str(name)) =>
        if pointer(name).None? || name in visited then [HIDDEN]
        else Spread(nodes) + Parts([pointer(name).value], pointer, visited + {name}, depth + 1)
      case Some(_) => [HIDDEN]
  }

  /** The nodes that resolving the head visits. */
  function HeadNodes(nodes: seq<Json>, pointer: Pointer, visited: set<string>, depth: nat): nat
    decreases 129 - depth
  {
    if depth > 128 || AllAt(nodes, []).dynamic then 0
    else if Stops(nodes) then 1 + Levels(nodes)
    else
      match AllAt(Spread(nodes), []).reference
      case Some(Str(name)) =>
        if pointer(name).None? || name in visited then 1 + Levels(nodes)
        else 1 + Levels(nodes) + HeadNodes([pointer(name).value], pointer, visited + {name}, depth + 1)
      case _ => 1 + Levels(nodes)
  }

  lemma {:induction false} FlattenCount(j: Json, remaining: nat, nodes: seq<Json>)
    requires StandsFor(j, nodes) && Levels(nodes) <= remaining
    ensures Flatten(j, remaining).1 == remaining - Levels(nodes)
    ensures if BadMetadata(nodes) then Flatten(j, remaining).0 == HIDDEN else !FlattenFails(j, remaining)
    decreases remaining
  {
    hide Merge, StandsFor, Metas;
    HasMetas(j, nodes);
    if Get(j, METADATA).Some? {
      MetadataStands(j, nodes);
      if Get(j, METADATA).value.Obj? {
        FlattenStep(j, nodes);
        BadOneOn(nodes);
        LevelsOneOn(nodes);
        FlattenCount(Merge(Bare(j), Get(j, METADATA).value), remaining - 1, Metas(nodes) + Bares(nodes));
      }
    }
  }

  lemma LevelsOneOn(nodes: seq<Json>)
    requires Metas(nodes) != []
    ensures Levels(Metas(nodes) + Bares(nodes)) == Levels(Metas(nodes))
  {
    hide Metas, Bares, AllAt;
    MetasConcat(Metas(nodes), Bares(nodes));
    BaresTwice(nodes);
    assert Metas(Metas(nodes)) + [] == Metas(Metas(nodes));
  }

  /** With enough budget, the head visits that many nodes and stands for those parts. */
  lemma {:induction false} HeadCount(j: Json, nodes: seq<Json>, pointer: Pointer, visited: set<string>, depth: nat,
                                     remaining: nat)
    requires StandsFor(j, nodes) && HeadNodes(nodes, pointer, visited, depth) <= remaining
    ensures ResolveHead(j, pointer, visited, depth, remaining).1
            == remaining - HeadNodes(nodes, pointer, visited, depth)
    ensures StandsFor(ResolveHead(j, pointer, visited, depth, remaining).0, Parts(nodes, pointer, visited, depth))
    decreases remaining
  {
    hide Merge, Flatten, FlattenFails, StandsFor, Spread, BadMetadata, AllAt, Levels;
    StandsHere(j, nodes);
    ItselfStands(HIDDEN);
    if depth <= 128 && !Dynamic(j) {
      FlattenCount(j, remaining - 1, nodes);
      var (prepared, left) := Flatten(j, remaining - 1);
      if BadMetadata(nodes) {
        HiddenHead();
      } else {
        FlattenStands(j, remaining - 1, nodes);
        StandsHere(prepared, Spread(nodes));
        match Get(prepared, "$ref") {
          case Some(Str(name)) =>
            if !Dynamic(prepared) && pointer(name).Some? && name !in visited {
              var target := pointer(name).value;
              ItselfStands(target);
              HeadCount(target, [target], pointer, visited + {name}, depth + 1, left);
              MergeStands(ResolveHead(target, pointer, visited + {name}, depth + 1, left).0, prepared,
                          Parts([target], pointer, visited + {name}, depth + 1), Spread(nodes));
            }
          case _ =>
        }
      }
    }
  }

  lemma HiddenHead()
    ensures !Dynamic(HIDDEN) && Get(HIDDEN, "$ref").None?
  {
  }

  // ----- the nodes below ------------------------------------------------------------------------------------------

  function NamesIn(j: Json): set<string> {
    if HasProperties(j) then j.fields["properties"].fields.Keys else {}
  }

  /** The names of the properties of the nodes. */
  function PropertyNames(nodes: seq<Json>): set<string> {
    if nodes == [] then {} else NamesIn(nodes[0]) + PropertyNames(nodes[1..])
  }

  /** A schema with those properties; it says which members of a value belong where. */
  function Shape(nodes: seq<Json>): Json {
    Obj(map["properties" := Obj(map k | k in PropertyNames(nodes) :: Null)])
  }

  /** The nodes visited at a position and below, as far as the values reach. */
  ghost function Nodes(nodes: seq<Json>, pointer: Pointer, values: set<Json>, depth: nat, bound: nat): nat
    requires AllDeep(values, bound)
    decreases bound, 3
  {
    var parts := Parts(nodes, pointer, {}, depth);
    HeadNodes(nodes, pointer, {}, depth)
    + if values == {} then 0
      else
        MembersAreDeep(Shape(parts), values, Item, bound);
        NodesNamed(parts, Canonical.Sorted(PropertyNames(parts)), pointer, values, depth, bound)
        + NodesUnder(parts, Item, pointer, values, depth, bound)
        + NodesUnder(parts, Additional, pointer, values, depth, bound)
  }

  ghost function NodesUnder(parts: seq<Json>, step: Step, pointer: Pointer, values: set<Json>, depth: nat, bound: nat)
    : nat
    requires AllDeep(values, bound) && bound > 0
    decreases bound, 2
  {
    MembersAreDeep(Shape(parts), values, step, bound);
    if IsResolved(step, Below(parts, step)) then
      Nodes(Below(parts, step), pointer, MembersAt(Shape(parts), values, step), depth + 1, bound - 1)
    else 0
  }

  ghost function NodesNamed(parts: seq<Json>, names: seq<string>, pointer: Pointer, values: set<Json>, depth: nat,
                            bound: nat): nat
    requires AllDeep(values, bound) && bound > 0
    decreases bound, 1, |names|
  {
    if names == [] then 0
    else
      var step := Property(names[|names| - 1]);
      MembersAreDeep(Shape(parts), values, step, bound);
      NodesNamed(parts, names[..|names| - 1], pointer, values, depth, bound)
      + Nodes(Below(parts, step), pointer, MembersAt(Shape(parts), values, step), depth + 1, bound - 1)
  }

  lemma {:induction false} NamesAreBelow(nodes: seq<Json>, name: string)
    ensures name in PropertyNames(nodes) <==> Below(nodes, Property(name)) != []
  {
    if nodes != [] { NamesAreBelow(nodes[1..], name); }
  }

  lemma ShapeHas(nodes: seq<Json>, name: string)
    ensures Down(Shape(nodes), Property(name)).Some? <==> name in PropertyNames(nodes)
  {
    hide PropertyNames;
  }

  /** The members of the values are told apart alike by a node and by the shape of the nodes it stands for. */
  lemma ShapeSorts(j: Json, nodes: seq<Json>, values: set<Json>, step: Step)
    requires StandsFor(j, nodes)
    ensures MembersAt(Shape(nodes), values, step) == MembersAt(j, values, step)
  {
    hide StandsFor, Shape, Down, PropertyNames, Below, MembersAt;
    forall name ensures Down(Shape(nodes), Property(name)).Some? <==> Down(j, Property(name)).Some? {
      ShapeHas(nodes, name);
      NamesAreBelow(nodes, name);
      BelowStands(j, nodes, Property(name));
    }
    MembersOfHead(Shape(nodes), j, values, step);
  }

  lemma NamesOfHead(j: Json, nodes: seq<Json>)
    requires StandsFor(j, nodes)
    ensures NamesIn(j) == PropertyNames(nodes)
  {
    hide StandsFor, PropertyNames, Below;
    forall name ensures name in NamesIn(j) <==> name in PropertyNames(nodes) {
      NamesAreBelow(nodes, name);
      BelowStands(j, nodes, Property(name));
    }
  }

  // ----- counting -------------------------------------------------------------------------------------------------

  /** With enough budget, resolving visits that many nodes. */
  lemma {:induction false} ResolvedCount(node: Json, nodes: seq<Json>, pointer: Pointer, values: set<Json>, depth: nat,
                                         remaining: nat, bound: nat)
    requires AllDeep(values, bound) && StandsFor(node, nodes)
    requires Nodes(nodes, pointer, values, depth, bound) <= remaining
    ensures Resolved(node, pointer, values, depth, remaining, bound).1
            == remaining - Nodes(nodes, pointer, values, depth, bound)
    decreases bound, 3
  {
    hide AllDeep, StandsFor, MembersAt, ResolveHead, ResolvedNamed, ResolvedUnder, NodesNamed, NodesUnder, Parts,
      HeadNodes, PropertyNames, Shape, Canonical.Sorted, Canonical.Leq;
    HeadCount(node, nodes, pointer, {}, depth, remaining);
    if values != {} {
      var parts := Parts(nodes, pointer, {}, depth);
      var (head, left) := ResolveHead(node, pointer, {}, depth, remaining);
      MembersAreDeep(Shape(parts), values, Item, bound);
      NamedCount(head, parts, pointer, values, depth, left, bound);
      var (named, l) := ResolvedNamed(head, head, pointer, values, depth, left, bound);
      NamedBeside(head, pointer, values, depth, left, bound);
      UnderCount(head, named, parts, Item, "items", pointer, values, depth, l, bound);
      var (listed, k) := ResolvedUnder(head, named, Item, "items", pointer, values, depth, l, bound);
      AdditionalBeside(head, named, pointer, values, depth, l, bound);
      UnderCount(head, listed, parts, Additional, "additionalProperties", pointer, values, depth, k, bound);
    }
  }

  lemma AdditionalBeside(head: Json, named: Json, pointer: Pointer, values: set<Json>, depth: nat, remaining: nat,
                         bound: nat)
    requires AllDeep(values, bound) && bound > 0
    ensures var listed := ResolvedUnder(head, named, Item, "items", pointer, values, depth, remaining, bound).0;
            Down(listed, Additional) == Down(named, Additional)
  {
    hide AllDeep, MembersAt, Resolved;
  }

  lemma UnderCount(head: Json, node: Json, parts: seq<Json>, step: Step, key: string, pointer: Pointer,
                   values: set<Json>, depth: nat, remaining: nat, bound: nat)
    requires AllDeep(values, bound) && bound > 0 && StandsFor(head, parts)
    requires (step == Item && key == "items") || (step == Additional && key == "additionalProperties")
    requires Down(node, step) == Down(head, step)
    requires NodesUnder(parts, step, pointer, values, depth, bound) <= remaining
    ensures ResolvedUnder(head, node, step, key, pointer, values, depth, remaining, bound).1
            == remaining - NodesUnder(parts, step, pointer, values, depth, bound)
    decreases bound, 2
  {
    hide AllDeep, StandsFor, MembersAt, Resolved, Nodes, Shape, Below;
    BelowStands(head, parts, step);
    ShapeSorts(head, parts, values, step);
    MembersAreDeep(head, values, step, bound);
    UnderIs(head, node, step, key, pointer, values, depth, remaining, bound);
    var below := Down(head, step);
    if below.Some? {
      StandsHere(below.value, Below(parts, step));
      if below.value.Obj? {
        ResolvedCount(below.value, Below(parts, step), pointer, MembersAt(head, values, step), depth + 1, remaining,
                      bound - 1);
      }
    }
  }

  lemma NamedCount(head: Json, parts: seq<Json>, pointer: Pointer, values: set<Json>, depth: nat, remaining: nat,
                   bound: nat)
    requires AllDeep(values, bound) && bound > 0 && StandsFor(head, parts)
    requires NodesNamed(parts, Canonical.Sorted(PropertyNames(parts)), pointer, values, depth, bound) <= remaining
    ensures ResolvedNamed(head, head, pointer, values, depth, remaining, bound).1
            == remaining - NodesNamed(parts, Canonical.Sorted(PropertyNames(parts)), pointer, values, depth, bound)
    decreases bound, 2
  {
    hide AllDeep, StandsFor, MembersAt, Resolved, ResolvedAll, Nodes, NodesNamed, PropertyNames, Canonical.Sorted,
      Canonical.Leq;
    NamesOfHead(head, parts);
    var names := Canonical.Sorted(PropertyNames(parts));
    if HasProperties(head) {
      AllCount(head, parts, head.fields["properties"].fields, names, pointer, values, depth, remaining, bound);
    } else {
      assert names == [];
      NoneNamed(parts, pointer, values, depth, bound);
    }
  }

  lemma NoneNamed(parts: seq<Json>, pointer: Pointer, values: set<Json>, depth: nat, bound: nat)
    requires AllDeep(values, bound) && bound > 0
    ensures NodesNamed(parts, [], pointer, values, depth, bound) == 0
  {
  }

  lemma OneMoreNamed(parts: seq<Json>, names: seq<string>, i: nat, pointer: Pointer, values: set<Json>, depth: nat,
                     bound: nat)
    requires AllDeep(values, bound) && bound > 0 && |names| == i + 1
    ensures AllDeep(MembersAt(Shape(parts), values, Property(names[i])), bound - 1)
    ensures NodesNamed(parts, names, pointer, values, depth, bound)
            == NodesNamed(parts, names[..i], pointer, values, depth, bound)
               + Nodes(Below(parts, Property(names[i])), pointer, MembersAt(Shape(parts), values, Property(names[i])),
                       depth + 1, bound - 1)
  {
    hide AllDeep, MembersAt, Nodes, Shape, Below;
    MembersAreDeep(Shape(parts), values, Property(names[i]), bound);
  }

  lemma {:induction false} AllCount(head: Json, parts: seq<Json>, properties: map<string, Json>, names: seq<string>,
                                    pointer: Pointer, values: set<Json>, depth: nat, remaining: nat, bound: nat)
    requires AllDeep(values, bound) && bound > 0 && StandsFor(head, parts)
    requires HasProperties(head) && properties == head.fields["properties"].fields
    requires forall i :: 0 <= i < |names| ==> names[i] in properties
    requires NodesNamed(parts, names, pointer, values, depth, bound) <= remaining
    ensures ResolvedAll(head, properties, names, pointer, values, depth, remaining, bound).1
            == remaining - NodesNamed(parts, names, pointer, values, depth, bound)
    decreases bound, 1, |names|
  {
    hide AllDeep, StandsFor, MembersAt, Resolved, ResolvedAll, Nodes, NodesNamed, Shape, Below;
    if names == [] {
      NoneNamed(parts, pointer, values, depth, bound);
      NoneResolved(head, properties, pointer, values, depth, remaining, bound);
    } else {
      var i := |names| - 1;
      var step := Property(names[i]);
      OneMoreNamed(parts, names, i, pointer, values, depth, bound);
      ShapeSorts(head, parts, values, step);
      AllCount(head, parts, properties, names[..i], pointer, values, depth, remaining, bound);
      AllOneMore(head, properties, names, i, pointer, values, depth, remaining, bound);
      assert names[..i + 1] == names;
      BelowStands(head, parts, step);
      var l := ResolvedAll(head, properties, names[..i], pointer, values, depth, remaining, bound).1;
      assert Down(head, step) == Some(properties[names[i]]);
      ResolvedCount(properties[names[i]], Below(parts, step), pointer, MembersAt(head, values, step), depth + 1, l,
                    bound - 1);
    }
  }

  // ----- the whole ------------------------------------------------------------------------------------------------

  /** The nodes that preparing the schema for the value visits. */
  ghost function NodesVisited(schema: Json, pointer: Pointer, value: Json): nat {
    if NeedsPreparation(schema, 0) then Nodes([schema], pointer, {value}, 0, BoundOf(value)) else 0
  }

  /** The budget lasts for a schema and a value that need no more nodes than it has, and what is left is the rest. */
  lemma BudgetLasts(schema: Json, pointer: Pointer, value: Json)
    requires NodesVisited(schema, pointer, value) <= BUDGET
    ensures BudgetLeft(schema, pointer, value) == BUDGET - NodesVisited(schema, pointer, value)
  {
    hide Resolved, NeedsPreparation, Deep, Nodes, StandsFor;
    if NeedsPreparation(schema, 0) {
      ItselfStands(schema);
      ResolvedCount(schema, [schema], pointer, {value}, 0, BUDGET, BoundOf(value));
    }
  }

  /** Beforehand: if secret references are declared alike, no two different references come together along the path and
      fewer nodes than the budget are visited, then the prepared schema protects a position that the value reaches if
      and only if the raw schema reaches a mark there or breaks off. */
  lemma ProtectedExactly(schema: Json, pointer: Pointer, value: Json, path: seq<Step>, mark: string, x: Json)
    requires mark in [SENSITIVE, URL_CREDENTIALS] && Clear([schema], pointer, 0, path)
    requires Agreed(schema, x) && AgreedPointer(pointer, x) && NodesVisited(schema, pointer, value) < BUDGET
    requires ReachedBy(PolicyOf(schema, pointer, value), {value}, path)
    ensures Protected(PolicyOf(schema, pointer, value), path, mark) <==>
              SomeReaches([schema], pointer, path, mark) || BreaksOff([schema], pointer, 0, path)
  {
    hide Clear, Agreed, ReachedBy, Protected, PolicyOf, SomeReaches, BreaksOff, NodesVisited;
    BudgetLasts(schema, pointer, value);
    ReachedExactly(schema, pointer, value, path, mark, x);
  }
}
