/** What the rewriting of scalar unions does to a schema, said without its functions: which unions come down to scalars,
    what takes their place, and at which positions of the schema. */
module UnionWalk {
  import opened JsonModel
  import opened Options
  import opened ScalarUnions

  // ----- the ways down from a node --------------------------------------------------------------------------------

  predicate HasRef(node: Json) {
    node.Obj? && "$ref" in node.fields && node.fields["$ref"].Str?
  }

  /** The node is a reference to the definition `name`, which is an object. */
  predicate Refers(node: Json, name: string, defs: map<string, Json>) {
    && HasRef(node)
    && (node.fields["$ref"].s == "#/$defs/" + name || node.fields["$ref"].s == "#/definitions/" + name)
    && name in defs && defs[name].Obj?
  }

  /** The node is no reference and has a list of alternatives. */
  predicate IsUnion(node: Json) {
    && node.Obj? && !HasRef(node)
    && if "anyOf" in node.fields then node.fields["anyOf"].Arr? else "oneOf" in node.fields && node.fields["oneOf"].Arr?
  }

  function Choices(node: Json): seq<Json>
    requires IsUnion(node)
  {
    if "anyOf" in node.fields then node.fields["anyOf"].items else node.fields["oneOf"].items
  }

  /** A scalar type, and beside it nothing but values and annotations. */
  predicate IsScalar(node: Json) {
    && node.Obj? && "type" in node.fields && node.fields["type"].Str?
    && node.fields["type"].s in ["string", "number", "integer", "boolean", "null"]
    && forall key :: key in node.fields ==>
         key == "type" || key == "enum" || key == "description" || key == "title" || "x-" <= key
  }

  /** One move down: to an alternative, or by a reference to its target with the other members of the node laid over
      it. */
  datatype Move = Move(via: Option<string>, next: Json)

  predicate Leads(node: Json, move: Move, defs: map<string, Json>) {
    match move.via
    case None => IsUnion(node) && move.next in Choices(node)
    case Some(name) =>
      Refers(node, name, defs) && move.next == Obj(defs[name].fields + (node.fields - {"$ref"}))
  }

  predicate IsWay(node: Json, way: seq<Move>, defs: map<string, Json>)
    decreases |way|
  {
    way == [] || (Leads(node, way[0], defs) && IsWay(way[0].next, way[1..], defs))
  }

  function End(node: Json, way: seq<Move>): Json
    decreases |way|
  {
    if way == [] then node else End(way[0].next, way[1..])
  }

  function Taken(move: Move): set<string> {
    if move.via.Some? then {move.via.value} else {}
  }

  function Followed(way: seq<Move>): set<string> {
    if way == [] then {} else Taken(way[0]) + Followed(way[1..])
  }

  /** A way may end here at a scalar, or go on by alternatives or a reference that was not followed before. */
  ghost predicate GoesOn(node: Json, defs: map<string, Json>, seen: set<string>) {
    || IsScalar(node)
    || IsUnion(node)
    || exists name :: Refers(node, name, defs) && name !in seen
  }

  /** Every way down, through unions and references, none of them followed in a circle, goes on until it ends at a
      scalar. */
  ghost predicate ComesDown(node: Json, defs: map<string, Json>, seen: set<string>) {
    forall way :: IsWay(node, way, defs) ==> GoesOn(End(node, way), defs, seen + Followed(way))
  }

  /** The scalar `x` is at the end of a way down. */
  ghost predicate ScalarBelow(node: Json, x: Json, defs: map<string, Json>) {
    IsScalar(x) && exists way :: IsWay(node, way, defs) && End(node, way) == x
  }

  lemma OneMove(node: Json, move: Move, way: seq<Move>, defs: map<string, Json>)
    ensures IsWay(node, [move] + way, defs) <==> Leads(node, move, defs) && IsWay(move.next, way, defs)
    ensures End(node, [move] + way) == End(move.next, way)
    ensures Followed([move] + way) == Taken(move) + Followed(way)
  {
    assert ([move] + way)[1..] == way;
  }

  lemma FirstMove(node: Json, way: seq<Move>, defs: map<string, Json>)
    requires way != []
    ensures IsWay(node, way, defs) <==> Leads(node, way[0], defs) && IsWay(way[0].next, way[1..], defs)
    ensures End(node, way) == End(way[0].next, way[1..])
    ensures Followed(way) == Taken(way[0]) + Followed(way[1..])
  {
  }

  lemma NoMove(node: Json, defs: map<string, Json>)
    ensures IsWay(node, [], defs) && End(node, []) == node && Followed([]) == {}
  {
  }

  /** A node comes down if it goes on itself and everything one move below it comes down. */
  lemma ComesDownStep(node: Json, defs: map<string, Json>, seen: set<string>)
    ensures ComesDown(node, defs, seen) <==>
              && GoesOn(node, defs, seen)
              && forall move :: Leads(node, move, defs) ==> ComesDown(move.next, defs, seen + Taken(move))
  {
    hide Leads, IsWay, End, Followed, GoesOn, Taken;
    NoMove(node, defs);
    assert seen + {} == seen;
    if ComesDown(node, defs, seen) {
      forall move | Leads(node, move, defs) ensures ComesDown(move.next, defs, seen + Taken(move)) {
        forall way: seq<Move> | IsWay(move.next, way, defs)
          ensures GoesOn(End(move.next, way), defs, seen + Taken(move) + Followed(way))
        {
          OneMove(node, move, way, defs);
          assert seen + Followed([move] + way) == seen + Taken(move) + Followed(way);
        }
      }
    }
    if && GoesOn(node, defs, seen)
       && forall move :: Leads(node, move, defs) ==> ComesDown(move.next, defs, seen + Taken(move))
    {
      forall way: seq<Move> | IsWay(node, way, defs) ensures GoesOn(End(node, way), defs, seen + Followed(way)) {
        if way != [] {
          FirstMove(node, way, defs);
          assert seen + Followed(way) == seen + Taken(way[0]) + Followed(way[1..]);
          assert ComesDown(way[0].next, defs, seen + Taken(way[0]));
        }
      }
    }
  }

  /** The scalars below a node are itself, or those below one move. */
  lemma ScalarStep(node: Json, x: Json, defs: map<string, Json>)
    ensures ScalarBelow(node, x, defs) <==>
              || (node == x && IsScalar(x))
              || exists move :: Leads(node, move, defs) && ScalarBelow(move.next, x, defs)
  {
    hide Leads, IsWay, End, IsScalar;
    NoMove(node, defs);
    if ScalarBelow(node, x, defs) {
      var way: seq<Move> :| IsWay(node, way, defs) && End(node, way) == x;
      if way != [] {
        FirstMove(node, way, defs);
        assert ScalarBelow(way[0].next, x, defs);
      }
    }
    if move :| Leads(node, move, defs) && ScalarBelow(move.next, x, defs) {
      var way: seq<Move> :| IsWay(move.next, way, defs) && End(move.next, way) == x;
      OneMove(node, move, way, defs);
    }
  }

  // ----- the branches are those scalars ---------------------------------------------------------------------------

  lemma ScalarMeans(node: Json)
    ensures IsScalar(node) <==> node.Obj? && IsLeaf(node.fields)
    ensures IsScalar(node) ==> !HasRef(node) && !IsUnion(node)
  {
  }

  lemma RefNameMeans(reference: string, name: string)
    ensures RefName(reference) == Some(name) <==>
              reference == "#/$defs/" + name || reference == "#/definitions/" + name
  {
    assert ("#/$defs/" + name)[8..] == name && ("#/definitions/" + name)[14..] == name;
    assert ("#/definitions/" + name)[2] == 'd' && ("#/$defs/" + name)[2] == '$';
  }

  lemma {:induction false} AllBranches(nodes: seq<Json>, defs: map<string, Json>, seen: set<string>)
    ensures BranchesOfAll(nodes, defs, seen).Some? <==> forall x :: x in nodes ==> Branches(x, defs, seen).Some?
  {
    hide Branches;
    if nodes != [] {
      var init, last := nodes[..|nodes| - 1], nodes[|nodes| - 1];
      AllBranches(init, defs, seen);
      assert nodes == init + [last];
      assert last in nodes && forall x :: x in nodes <==> x in init || x == last;
    }
  }

  lemma {:induction false} BranchMembers(nodes: seq<Json>, defs: map<string, Json>, seen: set<string>, b: Json)
    requires BranchesOfAll(nodes, defs, seen).Some?
    ensures b in BranchesOfAll(nodes, defs, seen).value <==>
              exists x :: x in nodes && Branches(x, defs, seen).Some? && b in Branches(x, defs, seen).value
  {
    hide Branches;
    if nodes != [] {
      var init, last := nodes[..|nodes| - 1], nodes[|nodes| - 1];
      BranchMembers(init, defs, seen, b);
      assert nodes == init + [last];
      assert last in nodes && forall x :: x in nodes <==> x in init || x == last;
    }
  }

  lemma RefMoves(node: Json, defs: map<string, Json>, seen: set<string>)
    requires HasRef(node)
    ensures var name := RefName(node.fields["$ref"].s);
            if name.Some? && name.value in defs && defs[name.value].Obj? then
              var next := Obj(Overlay(defs[name.value].fields, node.fields));
              && (forall move :: Leads(node, move, defs) <==> move == Move(name, next))
              && (GoesOn(node, defs, seen) <==> name.value !in seen)
            else !GoesOn(node, defs, seen)
  {
    hide RefName, IsScalar;
    ScalarMeans(node);
    forall name ensures RefName(node.fields["$ref"].s) == Some(name) <==>
              node.fields["$ref"].s == "#/$defs/" + name || node.fields["$ref"].s == "#/definitions/" + name
    {
      RefNameMeans(node.fields["$ref"].s, name);
    }
  }

  lemma UnionMoves(node: Json, defs: map<string, Json>, seen: set<string>)
    requires IsUnion(node)
    ensures Branches(node, defs, seen) == BranchesOfAll(Choices(node), defs, seen) && GoesOn(node, defs, seen)
    ensures forall move :: Leads(node, move, defs) <==> move.via.None? && move.next in Choices(node)
  {
  }

  lemma LastMoves(node: Json, defs: map<string, Json>, seen: set<string>)
    requires !HasRef(node) && !IsUnion(node)
    ensures GoesOn(node, defs, seen) <==> IsScalar(node)
    ensures forall move :: !Leads(node, move, defs)
    ensures node.Obj? ==> UnionOf(node.fields).None?
  {
  }

  lemma UnionComesDown(node: Json, defs: map<string, Json>, seen: set<string>)
    requires IsUnion(node)
    ensures ComesDown(node, defs, seen) <==> forall x :: x in Choices(node) ==> ComesDown(x, defs, seen)
  {
    hide ComesDown, GoesOn, Leads, Choices;
    ComesDownStep(node, defs, seen);
    UnionMoves(node, defs, seen);
    assert seen + {} == seen;
    if ComesDown(node, defs, seen) {
      forall x | x in Choices(node) ensures ComesDown(x, defs, seen) {
        var move: Move := Move(None, x);
        assert Leads(node, move, defs);
      }
    }
    if forall x :: x in Choices(node) ==> ComesDown(x, defs, seen) {
      forall move: Move | Leads(node, move, defs) ensures ComesDown(move.next, defs, seen + Taken(move)) {
        assert move.next in Choices(node);
      }
    }
  }

  lemma UnionScalars(node: Json, x: Json, defs: map<string, Json>)
    requires IsUnion(node)
    ensures ScalarBelow(node, x, defs) <==> exists y :: y in Choices(node) && ScalarBelow(y, x, defs)
  {
    hide ScalarBelow, Leads, Choices, IsScalar;
    ScalarStep(node, x, defs);
    ScalarMeans(node);
    UnionMoves(node, defs, {});
    if y :| y in Choices(node) && ScalarBelow(y, x, defs) {
      var move: Move := Move(None, y);
      assert Leads(node, move, defs);
    }
  }

  /** There are branches exactly for a node that comes down to scalars. */
  lemma {:induction false} BranchesComeDown(node: Json, defs: map<string, Json>, seen: set<string>)
    ensures Branches(node, defs, seen).Some? <==> ComesDown(node, defs, seen)
    decreases defs.Keys - seen, node
  {
    hide ComesDown, GoesOn, Leads, RefName, IsScalar, Overlay, UnionOf, IsLeaf;
    ComesDownStep(node, defs, seen);
    ScalarMeans(node);
    if HasRef(node) {
      RefMoves(node, defs, seen);
      var name := RefName(node.fields["$ref"].s);
      if name.Some? && name.value in defs && defs[name.value].Obj? && name.value !in seen {
        var next := Obj(Overlay(defs[name.value].fields, node.fields));
        BranchesComeDown(next, defs, seen + {name.value});
        assert Leads(node, Move(name, next), defs);
      }
    } else if IsUnion(node) {
      UnionMoves(node, defs, seen);
      UnionComesDown(node, defs, seen);
      AllBranches(Choices(node), defs, seen);
      forall x | x in Choices(node) ensures Branches(x, defs, seen).Some? <==> ComesDown(x, defs, seen) {
        BranchesComeDown(x, defs, seen);
      }
    } else {
      LastMoves(node, defs, seen);
    }
  }

  /** The branches are the scalars below the node. */
  lemma {:induction false} BranchesAreScalars(node: Json, defs: map<string, Json>, seen: set<string>, x: Json)
    requires Branches(node, defs, seen).Some?
    ensures x in Branches(node, defs, seen).value <==> ScalarBelow(node, x, defs)
    decreases defs.Keys - seen, node
  {
    hide ScalarBelow, GoesOn, Leads, RefName, IsScalar, Overlay, UnionOf, IsLeaf;
    ScalarStep(node, x, defs);
    ScalarMeans(node);
    if HasRef(node) {
      RefMoves(node, defs, seen);
      var name := RefName(node.fields["$ref"].s);
      var next := Obj(Overlay(defs[name.value].fields, node.fields));
      BranchesAreScalars(next, defs, seen + {name.value}, x);
      assert Leads(node, Move(name, next), defs);
    } else if IsUnion(node) {
      UnionMoves(node, defs, seen);
      UnionScalars(node, x, defs);
      AllBranches(Choices(node), defs, seen);
      BranchMembers(Choices(node), defs, seen, x);
      forall y | y in Choices(node) ensures x in Branches(y, defs, seen).value <==> ScalarBelow(y, x, defs) {
        BranchesAreScalars(y, defs, seen, x);
      }
    } else {
      LastMoves(node, defs, seen);
    }
  }

  // ----- what takes the place of a union --------------------------------------------------------------------------

  predicate OfKind(x: Json, kind: string) {
    x.Obj? && "type" in x.fields && x.fields["type"] == Str(kind)
  }

  predicate HasEnum(x: Json) {
    x.Obj? && "enum" in x.fields && x.fields["enum"].Arr?
  }

  /** Some scalar below has the type. */
  ghost predicate KindBelow(node: Json, kind: string, defs: map<string, Json>) {
    exists x :: ScalarBelow(node, x, defs) && OfKind(x, kind)
  }

  /** Some scalar below has the type and lists no values. */
  ghost predicate OpenBelow(node: Json, kind: string, defs: map<string, Json>) {
    exists x :: ScalarBelow(node, x, defs) && OfKind(x, kind) && !HasEnum(x)
  }

  /** Some scalar below has the type and lists the value. */
  ghost predicate ListedBelow(node: Json, kind: string, v: Json, defs: map<string, Json>) {
    exists x :: ScalarBelow(node, x, defs) && OfKind(x, kind) && HasEnum(x) && v in x.fields["enum"].items
  }

  predicate NoRepeats(values: seq<Json>) {
    forall i, j :: 0 <= i < j < |values| ==> values[i] != values[j]
  }

  /** The branch for one type: the type alone if a scalar below has no list of values, or else with the values of all of
      them, once each. */
  ghost predicate BranchFor(a: Json, kind: string, node: Json, defs: map<string, Json>) {
    && OfKind(a, kind) && KindBelow(node, kind, defs)
    && if OpenBelow(node, kind, defs) then a.fields.Keys == {"type"}
       else
         && a.fields.Keys == {"type", "enum"} && a.fields["enum"].Arr?
         && NoRepeats(a.fields["enum"].items)
         && forall v :: v in a.fields["enum"].items <==> ListedBelow(node, kind, v, defs)
  }

  ghost predicate IsBranch(a: Json, node: Json, defs: map<string, Json>) {
    exists kind :: BranchFor(a, kind, node, defs)
  }

  /** One branch for each type of the scalars below the node. */
  ghost predicate OneBranchAType(alternatives: seq<Json>, node: Json, defs: map<string, Json>) {
    && (forall i :: 0 <= i < |alternatives| ==> IsBranch(alternatives[i], node, defs))
    && (forall i, j, kind :: 0 <= i < j < |alternatives| ==>
          !(OfKind(alternatives[i], kind) && OfKind(alternatives[j], kind)))
    && (forall kind :: KindBelow(node, kind, defs) ==>
          exists i :: 0 <= i < |alternatives| && OfKind(alternatives[i], kind))
  }

  /** The groups by type, from the branches. */
  lemma {:induction false} GroupsFrom(branches: seq<Json>, kind: string)
    requires AllLeaves(branches)
    ensures var groups := GroupAll(branches);
            && (kind in groups <==> exists b :: b in branches && OfKind(b, kind))
            && (kind in groups ==>
                  (groups[kind].None? <==> exists b :: b in branches && OfKind(b, kind) && !HasEnum(b)))
  {
    if branches != [] {
      var init, last := branches[..|branches| - 1], branches[|branches| - 1];
      GroupsFrom(init, kind);
      assert branches == init + [last];
      assert last in branches && forall b :: b in branches <==> b in init || b == last;
    }
  }

  lemma {:induction false} GroupValues(branches: seq<Json>, kind: string, v: Json)
    requires AllLeaves(branches) && kind in GroupAll(branches) && GroupAll(branches)[kind].Some?
    ensures v in GroupAll(branches)[kind].value <==>
              exists b :: b in branches && OfKind(b, kind) && HasEnum(b) && v in b.fields["enum"].items
  {
    var init, last := branches[..|branches| - 1], branches[|branches| - 1];
    assert branches == init + [last];
    assert last in branches && forall b :: b in branches <==> b in init || b == last;
    GroupsFrom(init, kind);
    GroupsFrom(branches, kind);
    if kind in GroupAll(init) && GroupAll(init)[kind].Some? {
      GroupValues(init, kind, v);
    }
  }

  lemma {:induction false} UniqueValues(values: seq<Json>)
    ensures NoRepeats(Unique(values))
  {
    if values != [] { UniqueValues(values[..|values| - 1]); }
  }

  lemma GroupMeans(node: Json, defs: map<string, Json>, kind: string)
    requires Branches(node, defs, {}).Some?
    ensures var groups := GroupAll(Branches(node, defs, {}).value);
            && (kind in groups <==> KindBelow(node, kind, defs))
            && (kind in groups ==> (groups[kind].None? <==> OpenBelow(node, kind, defs)))
            && (kind in groups && groups[kind].Some? ==>
                  forall v :: v in groups[kind].value <==> ListedBelow(node, kind, v, defs))
  {
    hide Branches, GroupAll, ScalarBelow, OfKind, HasEnum;
    var branches := Branches(node, defs, {}).value;
    forall x ensures x in branches <==> ScalarBelow(node, x, defs) { BranchesAreScalars(node, defs, {}, x); }
    GroupsFrom(branches, kind);
    if kind in GroupAll(branches) && GroupAll(branches)[kind].Some? {
      forall v ensures v in GroupAll(branches)[kind].value <==> ListedBelow(node, kind, v, defs) {
        GroupValues(branches, kind, v);
      }
    }
  }

  lemma AlternativeIsBranch(node: Json, defs: map<string, Json>, kind: string)
    requires Branches(node, defs, {}).Some? && kind in GroupAll(Branches(node, defs, {}).value)
    ensures BranchFor(Alternative(kind, GroupAll(Branches(node, defs, {}).value)[kind]), kind, node, defs)
  {
    hide Branches, GroupAll, KindBelow, OpenBelow, ListedBelow, Unique;
    GroupMeans(node, defs, kind);
    var values := GroupAll(Branches(node, defs, {}).value)[kind];
    if values.Some? { UniqueValues(values.value); }
  }

  lemma EachIsBranch(node: Json, defs: map<string, Json>, i: nat)
    requires Branches(node, defs, {}).Some? && i < |Alternatives(GroupAll(Branches(node, defs, {}).value))|
    ensures var groups := GroupAll(Branches(node, defs, {}).value);
            var a := Alternatives(groups)[i];
            IsBranch(a, node, defs) && forall kind :: OfKind(a, kind) <==> kind == KindsOf(groups, |KINDS|)[i]
  {
    hide Branches, GroupAll, KindsOf, BranchFor, Alternative, OfKind;
    var groups := GroupAll(Branches(node, defs, {}).value);
    var kind := KindsOf(groups, |KINDS|)[i];
    AlternativeIsBranch(node, defs, kind);
    AlternativeKind(kind, groups[kind]);
  }

  lemma EachKind(node: Json, defs: map<string, Json>, kind: string)
    requires Branches(node, defs, {}).Some? && KindBelow(node, kind, defs)
    ensures kind in KindsOf(GroupAll(Branches(node, defs, {}).value), |KINDS|)
  {
    hide Branches, GroupAll, KindsOf, KindBelow;
    GroupMeans(node, defs, kind);
    assert KINDS[..|KINDS|] == KINDS;
  }

  /** The new alternatives are one branch for each type. */
  lemma AlternativesMeant(node: Json, defs: map<string, Json>)
    requires Branches(node, defs, {}).Some?
    ensures OneBranchAType(Alternatives(GroupAll(Branches(node, defs, {}).value)), node, defs)
  {
    hide Branches, GroupAll, KindsOf, IsBranch, KindBelow, Alternative, OfKind;
    var groups := GroupAll(Branches(node, defs, {}).value);
    var kinds, alternatives := KindsOf(groups, |KINDS|), Alternatives(groups);
    forall i | 0 <= i < |alternatives|
      ensures IsBranch(alternatives[i], node, defs)
      ensures forall kind :: OfKind(alternatives[i], kind) <==> kind == kinds[i]
    {
      EachIsBranch(node, defs, i);
    }
    forall kind | KindBelow(node, kind, defs)
      ensures exists i :: 0 <= i < |alternatives| && OfKind(alternatives[i], kind)
    {
      EachKind(node, defs, kind);
      var i :| 0 <= i < |kinds| && kinds[i] == kind;
      assert OfKind(alternatives[i], kind);
    }
  }

  lemma AlternativeKind(kind: string, values: Option<seq<Json>>)
    ensures forall k :: OfKind(Alternative(kind, values), k) <==> k == kind
  {
  }

  // ----- the positions of a schema --------------------------------------------------------------------------------

  /** One step from a node to a schema below it. */
  datatype Hop =
    | Named(key: string, name: string)
    | Listed(key: string, index: nat)
    | Single(key: string)

  function Below(j: Json, hop: Hop): Option<Json> {
    if !j.Obj? || hop.key !in j.fields then None
    else
      var x := j.fields[hop.key];
      match hop
      case Named(key, name) =>
        if && key in ["properties", "patternProperties", "$defs", "definitions"]
           && x.Obj? && name in x.fields
        then Some(x.fields[name]) else None
      case Listed(key, index) =>
        if && key in ["oneOf", "anyOf", "allOf", "prefixItems", "items"]
           && x.Arr? && index < |x.items|
        then Some(x.items[index]) else None
      case Single(key) =>
        if && key in ["items", "additionalProperties", "not", "contains", "if", "then", "else", "propertyNames"]
           && !x.Arr?
        then Some(x) else None
  }

  /** The schema at the end of a path. */
  function At(j: Json, path: seq<Hop>): Option<Json>
    decreases |path|
  {
    if path == [] then Some(j)
    else if Below(j, path[0]).None? then None
    else At(Below(j, path[0]).value, path[1..])
  }

  /** The node has an `anyOf` and comes down to scalars. */
  ghost predicate ScalarUnion(j: Json, defs: map<string, Json>) {
    j.Obj? && "anyOf" in j.fields && ComesDown(j, defs, {})
  }

  /** The hop leads into the alternatives of a union that is replaced. */
  ghost predicate IntoReplaced(j: Json, hop: Hop, defs: map<string, Json>) {
    ScalarUnion(j, defs) && hop.Listed? && (hop.key == "anyOf" || hop.key == "oneOf")
  }

  /** No hop of the path leads into the alternatives of a union that is replaced. */
  ghost predicate Survives(j: Json, path: seq<Hop>, defs: map<string, Json>)
    decreases |path|
  {
    path == []
    || (!IntoReplaced(j, path[0], defs)
        && (Below(j, path[0]).Some? ==> Survives(Below(j, path[0]).value, path[1..], defs)))
  }

  lemma RewrittenMeans(j: Json, defs: map<string, Json>)
    ensures j.Obj? ==> (Rewritten(j.fields, defs) <==> ScalarUnion(j, defs))
  {
    hide Branches, ComesDown;
    BranchesComeDown(j, defs, {});
  }

  /** The member holds schemas, to which the walk goes down. */
  predicate HoldsSchemas(key: string, x: Json) {
    || (key in ["properties", "patternProperties", "$defs", "definitions"] && x.Obj?)
    || (key in ["oneOf", "anyOf", "allOf", "prefixItems", "items"] && x.Arr?)
    || key in ["items", "additionalProperties", "not", "contains", "if", "then", "else", "propertyNames"]
  }

  /** `r` is the node `m` after the walk, as far as the node itself goes: a scalar union has a `oneOf` for its `anyOf`,
      with one branch a type; no other node gains or loses a member, and what holds no schemas stays. */
  ghost predicate NodeWalked(m: map<string, Json>, r: map<string, Json>, defs: map<string, Json>) {
    && (if ScalarUnion(Obj(m), defs) then
          && r.Keys == m.Keys - {"anyOf"} + {"oneOf"}
          && r["oneOf"].Arr? && OneBranchAType(r["oneOf"].items, Obj(m), defs)
        else r.Keys == m.Keys)
    && forall key ::
         (key in m && key in r && !HoldsSchemas(key, m[key]) && !(ScalarUnion(Obj(m), defs) && key == "oneOf"))
         ==> r[key] == m[key]
  }

  lemma WalkedNode(m: map<string, Json>, defs: map<string, Json>)
    ensures Pass(Obj(m), defs).Obj? && NodeWalked(m, Pass(Obj(m), defs).fields, defs)
  {
    hide Branches, GroupAll, Alternatives, OneBranchAType, ScalarUnion, PassChild, KindsOf;
    RewrittenMeans(Obj(m), defs);
    if Rewritten(m, defs) { AlternativesMeant(Obj(m), defs); }
    forall key | key in m && !HoldsSchemas(key, m[key]) ensures PassChild(m, key, defs) == m[key] {
      ChildKept(m, key, defs);
    }
  }

  lemma ChildKept(m: map<string, Json>, key: string, defs: map<string, Json>)
    requires key in m && !HoldsSchemas(key, m[key])
    ensures PassChild(m, key, defs) == m[key]
  {
    hide Pass;
  }

  /** One hop down: the schema below is walked too. */
  lemma WalkedBelow(j: Json, hop: Hop, defs: map<string, Json>)
    requires !IntoReplaced(j, hop, defs)
    ensures Below(Pass(j, defs), hop) ==
            match Below(j, hop) { case None => None case Some(x) => Some(Pass(x, defs)) }
  {
    hide Branches, ScalarUnion, Rewritten, PassChild, Alternatives;
    RewrittenMeans(j, defs);
    if j.Obj? {
      MemberWalked(j.fields, hop.key, defs);
      if hop.key in j.fields && hop.key in Pass(j, defs).fields { ChildBelow(j.fields, hop, defs); }
    }
  }

  /** The members of a walked node. */
  lemma MemberWalked(m: map<string, Json>, key: string, defs: map<string, Json>)
    ensures var p := Pass(Obj(m), defs);
            && p.Obj?
            && (key in m && !(Rewritten(m, defs) && (key == "anyOf" || key == "oneOf")) ==>
                  key in p.fields && p.fields[key] == PassChild(m, key, defs))
            && (key !in m && !(Rewritten(m, defs) && key == "oneOf") ==> key !in p.fields)
  {
    hide Rewritten, PassChild, Alternatives;
  }

  lemma ChildBelow(m: map<string, Json>, hop: Hop, defs: map<string, Json>)
    requires hop.key in m
    ensures Below(Obj(map[hop.key := PassChild(m, hop.key, defs)]), hop) ==
            match Below(Obj(m), hop) { case None => None case Some(x) => Some(Pass(x, defs)) }
  {
    hide Pass;
    PassKind(m[hop.key], defs);
  }

  /** What the walk makes of a schema, position by position: each position outside the replaced alternatives is there
      after it if and only if it was before, and its node is the walked one. */
  lemma {:induction false} WalkMeans(j: Json, path: seq<Hop>, defs: map<string, Json>)
    requires Survives(j, path, defs)
    ensures At(Pass(j, defs), path).Some? <==> At(j, path).Some?
    ensures At(j, path).Some? ==>
              match At(j, path).value {
                case Obj(m) =>
                  At(Pass(j, defs), path).value.Obj? && NodeWalked(m, At(Pass(j, defs), path).value.fields, defs)
                case other => At(Pass(j, defs), path).value == other
              }
    decreases |path|
  {
    hide Pass, NodeWalked, IntoReplaced, Below;
    if path == [] {
      NotObject(j, defs);
      if j.Obj? { WalkedNode(j.fields, defs); }
    } else {
      WalkedBelow(j, path[0], defs);
      if Below(j, path[0]).Some? {
        WalkMeans(Below(j, path[0]).value, path[1..], defs);
      }
    }
  }

  lemma NotObject(j: Json, defs: map<string, Json>)
    ensures !j.Obj? ==> Pass(j, defs) == j
  {
  }

  // ----- nothing is left ------------------------------------------------------------------------------------------

  /** No scalar union stands at any position. */
  ghost predicate NothingLeft(j: Json, defs: map<string, Json>) {
    forall path :: At(j, path).Some? ==> !ScalarUnion(At(j, path).value, defs)
  }

  /** No reference has a union beside it. */
  predicate PlainRef(node: Json) {
    HasRef(node) ==> "anyOf" !in node.fields && "oneOf" !in node.fields
  }

  ghost predicate PlainRefs(j: Json) {
    forall path :: At(j, path).Some? ==> PlainRef(At(j, path).value)
  }

  lemma AtBelow(j: Json, hop: Hop, path: seq<Hop>)
    requires Below(j, hop).Some?
    ensures At(j, [hop] + path) == At(Below(j, hop).value, path)
  {
    assert ([hop] + path)[1..] == path;
  }

  lemma PlainBelow(j: Json, hop: Hop)
    requires PlainRefs(j) && Below(j, hop).Some?
    ensures PlainRefs(Below(j, hop).value)
  {
    hide At, PlainRef, Below;
    forall path: seq<Hop> | At(Below(j, hop).value, path).Some? ensures PlainRef(At(Below(j, hop).value, path).value) {
      AtBelow(j, hop, path);
    }
  }

  lemma PlainHere(j: Json)
    requires PlainRefs(j)
    ensures PlainRef(j)
  {
    assert At(j, []) == Some(j);
  }

  /** The two nodes lead down alike: they have the same members, and the same reference, type and unions. */
  predicate LeadAlike(a: map<string, Json>, b: map<string, Json>) {
    && a.Keys == b.Keys
    && SameAt(a, b, "$ref") && SameAt(a, b, "type") && SameAt(a, b, "anyOf") && SameAt(a, b, "oneOf")
  }

  lemma {:induction false} AlikeBranches(a: map<string, Json>, b: map<string, Json>, defs: map<string, Json>,
                                         seen: set<string>)
    requires LeadAlike(a, b)
    ensures Branches(Obj(a), defs, seen).Some? <==> Branches(Obj(b), defs, seen).Some?
    decreases defs.Keys - seen
  {
    hide BranchesOfAll, RefName;
    if IsRef(a) {
      var name := RefName(a["$ref"].s);
      if name.Some? && name.value !in seen && name.value in defs && defs[name.value].Obj? {
        OverlayAlike(defs[name.value].fields, a, b);
        AlikeBranches(Overlay(defs[name.value].fields, a), Overlay(defs[name.value].fields, b), defs,
                      seen + {name.value});
      }
    } else if UnionOf(a).None? {
      LeafAlike(a, b);
    }
  }

  lemma OverlayAlike(target: map<string, Json>, a: map<string, Json>, b: map<string, Json>)
    requires LeadAlike(a, b)
    ensures LeadAlike(Overlay(target, a), Overlay(target, b))
  {
  }

  lemma LeafAlike(a: map<string, Json>, b: map<string, Json>)
    requires LeadAlike(a, b)
    ensures IsLeaf(a) <==> IsLeaf(b)
  {
  }

  lemma UnionBelow(j: Json, i: nat)
    requires IsUnion(j) && i < |Choices(j)|
    ensures var key := if "anyOf" in j.fields then "anyOf" else "oneOf"; Below(j, Listed(key, i)) == Some(Choices(j)[i])
  {
  }

  /** A node that is kept comes down no more than before. */
  lemma {:induction false} KeptStays(j: Json, defs: map<string, Json>)
    requires PlainRefs(j) && Branches(Pass(j, defs), defs, {}).Some?
    ensures Branches(j, defs, {}).Some?
    decreases j
  {
    hide Branches, BranchesOfAll, PassChild, PlainRefs, RefName;
    NotObject(j, defs);
    PlainHere(j);
    if j.Obj? && !Rewritten(j.fields, defs) {
      var m, p := j.fields, Pass(j, defs).fields;
      assert j == Obj(m);
      if IsUnion(j) {
        KeptUnion(m, defs);
        UnionMoves(j, defs, {});
        UnionMoves(Obj(p), defs, {});
        AllBranches(Choices(j), defs, {});
        AllBranches(Choices(Obj(p)), defs, {});
        forall x | x in Choices(j) ensures Branches(x, defs, {}).Some? {
          var i: nat :| i < |Choices(j)| && Choices(j)[i] == x;
          UnionBelow(j, i);
          PlainBelow(j, Listed(if "anyOf" in m then "anyOf" else "oneOf", i));
          assert Choices(Obj(p))[i] == Pass(x, defs);
          KeptStays(x, defs);
        }
      } else {
        KeptOther(m, defs);
        if LeadAlike(m, p) { AlikeBranches(m, p, defs, {}); } else { OddUnion(p, defs, {}); }
      }
    }
  }

  lemma KeptUnion(m: map<string, Json>, defs: map<string, Json>)
    requires !Rewritten(m, defs) && IsUnion(Obj(m))
    ensures var p := Pass(Obj(m), defs);
            && IsUnion(p) && |Choices(p)| == |Choices(Obj(m))|
            && forall i :: 0 <= i < |Choices(p)| ==> Choices(p)[i] == Pass(Choices(Obj(m))[i], defs)
  {
    hide Rewritten, Pass;
    KeptMembers(m, defs);
    KeptKeys(m, defs);
  }

  lemma KeptKeys(m: map<string, Json>, defs: map<string, Json>)
    requires !Rewritten(m, defs)
    ensures var p := Pass(Obj(m), defs);
            && p.Obj? && p.fields.Keys == m.Keys && SameAt(m, p.fields, "$ref") && SameAt(m, p.fields, "type")
            && ("anyOf" in m && !m["anyOf"].Arr? ==> p.fields["anyOf"] == m["anyOf"])
            && ("anyOf" !in m && "oneOf" in m && !m["oneOf"].Arr? ==> p.fields["oneOf"] == m["oneOf"])
  {
    hide Rewritten, Pass, PassChild;
    KeptMembers(m, defs);
    forall key | key in m && !HoldsSchemas(key, m[key]) ensures PassChild(m, key, defs) == m[key] {
      ChildKept(m, key, defs);
    }
  }

  /** A node that is neither a union nor a reference with a union beside it leads down as before. */
  lemma KeptOther(m: map<string, Json>, defs: map<string, Json>)
    requires !Rewritten(m, defs) && !IsUnion(Obj(m)) && PlainRef(Obj(m))
    ensures var p := Pass(Obj(m), defs);
            p.Obj? && (LeadAlike(m, p.fields) || ("anyOf" in p.fields && !p.fields["anyOf"].Arr? && !HasRef(p)))
  {
    hide Rewritten, Pass;
    KeptKeys(m, defs);
  }

  lemma OddUnion(p: map<string, Json>, defs: map<string, Json>, seen: set<string>)
    requires "anyOf" in p && !p["anyOf"].Arr? && !HasRef(Obj(p))
    ensures Branches(Obj(p), defs, seen).None?
  {
    assert !IsAnnotation("anyOf");
  }

  lemma KeptMembers(m: map<string, Json>, defs: map<string, Json>)
    requires !Rewritten(m, defs)
    ensures var p := Pass(Obj(m), defs);
            p.Obj? && p.fields.Keys == m.Keys && forall key :: key in m ==> p.fields[key] == PassChild(m, key, defs)
  {
    hide Rewritten, PassChild;
  }

  /** Where no reference has a union beside it, the walk leaves no scalar union at any position. */
  lemma {:induction false} WalkLeavesNothing(j: Json, defs: map<string, Json>)
    requires PlainRefs(j)
    ensures NothingLeft(Pass(j, defs), defs)
  {
    hide At, ScalarUnion, Pass, PlainRefs;
    forall path | At(Pass(j, defs), path).Some? ensures !ScalarUnion(At(Pass(j, defs), path).value, defs) {
      NothingAt(j, path, defs);
    }
  }

  lemma {:induction false} NothingAt(j: Json, path: seq<Hop>, defs: map<string, Json>)
    requires PlainRefs(j) && At(Pass(j, defs), path).Some?
    ensures !ScalarUnion(At(Pass(j, defs), path).value, defs)
    decreases |path|
  {
    hide Pass, PlainRefs, Below, ScalarUnion;
    if path == [] {
      NothingHere(j, defs);
    } else if IntoReplaced(j, path[0], defs) {
      NothingInside(j, path, defs);
    } else {
      WalkedBelow(j, path[0], defs);
      PlainBelow(j, path[0]);
      NothingAt(Below(j, path[0]).value, path[1..], defs);
    }
  }

  lemma NothingHere(j: Json, defs: map<string, Json>)
    requires PlainRefs(j)
    ensures !ScalarUnion(Pass(j, defs), defs)
  {
    hide Branches, PlainRefs, ComesDown, PassChild, Alternatives;
    RewrittenMeans(j, defs);
    NotObject(j, defs);
    if j.Obj? && "anyOf" in Pass(j, defs).fields {
      BranchesComeDown(Pass(j, defs), defs, {});
      if ComesDown(Pass(j, defs), defs, {}) { KeptStays(j, defs); }
    }
  }

  /** Below the new alternatives there is no schema, and they are no unions. */
  lemma NothingInside(j: Json, path: seq<Hop>, defs: map<string, Json>)
    requires path != [] && IntoReplaced(j, path[0], defs) && At(Pass(j, defs), path).Some?
    ensures !ScalarUnion(At(Pass(j, defs), path).value, defs)
  {
    hide Pass, ComesDown, OneBranchAType, IsBranch;
    WalkedNode(j.fields, defs);
    var r := Pass(j, defs).fields;
    assert path[0].key == "oneOf";
    var x := Below(Pass(j, defs), path[0]).value;
    NewBranch(r["oneOf"].items, j, defs, path[0].index);
    NoSchemaIn(x, path[1..]);
  }

  lemma NoSchemaIn(x: Json, path: seq<Hop>)
    requires x.Obj? && x.fields.Keys <= {"type", "enum"}
    ensures At(x, path).Some? ==> path == []
  {
  }

  lemma NewBranch(alternatives: seq<Json>, node: Json, defs: map<string, Json>, i: nat)
    requires OneBranchAType(alternatives, node, defs) && i < |alternatives|
    ensures alternatives[i].Obj? && alternatives[i].fields.Keys <= {"type", "enum"}
  {
    hide KindBelow, OpenBelow, ListedBelow;
    assert IsBranch(alternatives[i], node, defs);
  }

  lemma NothingBelow(j: Json, hop: Hop, defs: map<string, Json>)
    requires NothingLeft(j, defs) && Below(j, hop).Some?
    ensures NothingLeft(Below(j, hop).value, defs)
  {
    hide At, ScalarUnion, Below;
    forall path: seq<Hop> | At(Below(j, hop).value, path).Some?
      ensures !ScalarUnion(At(Below(j, hop).value, path).value, defs)
    {
      AtBelow(j, hop, path);
    }
  }

  lemma {:induction false} UnchangedAt(j: Json, path: seq<Hop>, defs: map<string, Json>)
    requires Pass(j, defs) == j && At(j, path).Some?
    ensures !ScalarUnion(At(j, path).value, defs)
    decreases |path|
  {
    hide Pass, Below, OneBranchAType, ComesDown;
    if j.Obj? { WalkedNode(j.fields, defs); }
    assert !ScalarUnion(j, defs);
    if path != [] {
      WalkedBelow(j, path[0], defs);
      UnchangedAt(Below(j, path[0]).value, path[1..], defs);
    }
  }

  lemma {:induction false} NothingToDo(j: Json, defs: map<string, Json>)
    requires NothingLeft(j, defs)
    ensures Pass(j, defs) == j
    decreases j, 1
  {
    hide Branches, NothingLeft, ComesDown, PassChild;
    RewrittenMeans(j, defs);
    NothingHereNow(j, defs);
    if j.Obj? {
      assert j == Obj(j.fields);
      forall key | key in j.fields ensures PassChild(j.fields, key, defs) == j.fields[key] {
        NothingInChild(j.fields, key, defs);
      }
    }
  }

  lemma NothingHereNow(j: Json, defs: map<string, Json>)
    requires NothingLeft(j, defs)
    ensures !ScalarUnion(j, defs)
  {
    assert At(j, []) == Some(j);
  }

  lemma {:induction false} NothingInChild(m: map<string, Json>, key: string, defs: map<string, Json>)
    requires NothingLeft(Obj(m), defs) && key in m
    ensures PassChild(m, key, defs) == m[key]
    decreases Obj(m), 0
  {
    hide Pass, NothingLeft;
    var x := m[key];
    if IsNamedKey(key) && x.Obj? {
      forall k | k in x.fields ensures Pass(x.fields[k], defs) == x.fields[k] {
        NothingBelow(Obj(m), Named(key, k), defs);
        NothingToDo(x.fields[k], defs);
      }
    } else if IsListKey(key) && x.Arr? {
      forall i | 0 <= i < |x.items| ensures Pass(x.items[i], defs) == x.items[i] {
        NothingBelow(Obj(m), Listed(key, i), defs);
        NothingToDo(x.items[i], defs);
      }
    } else if IsOneKey(key) && !x.Arr? {
      NothingBelow(Obj(m), Single(key), defs);
      NothingToDo(x, defs);
    } else if IsOneKey(key) {
      PassKind(x, defs);
    }
  }

  /** The walk changes a schema if and only if a scalar union stands at one of its positions; so it leaves nothing if
      and only if a second walk would change nothing. */
  lemma UnchangedExactly(j: Json, defs: map<string, Json>)
    ensures Pass(j, defs) == j <==> NothingLeft(j, defs)
    ensures NothingLeft(Pass(j, defs), defs) <==> Pass(Pass(j, defs), defs) == Pass(j, defs)
  {
    UnchangedIf(j, defs);
    UnchangedIf(Pass(j, defs), defs);
  }

  lemma UnchangedIf(j: Json, defs: map<string, Json>)
    ensures Pass(j, defs) == j <==> NothingLeft(j, defs)
  {
    hide Pass, At, ScalarUnion;
    if Pass(j, defs) == j {
      forall path | At(j, path).Some? ensures !ScalarUnion(At(j, path).value, defs) { UnchangedAt(j, path, defs); }
    }
    if NothingLeft(j, defs) { NothingToDo(j, defs); }
  }

  /** `normalize_scalar_unions` on a whole schema in which no reference has a union beside it: no scalar union is left,
      by the definitions it started from, and another walk with them changes nothing. */
  lemma NormalizeLeavesNothing(root: map<string, Json>)
    requires PlainRefs(Obj(root))
    ensures var defs := DefinitionsOf(root);
            var after := Pass(Obj(root), defs);
            NothingLeft(after, defs) && Pass(after, defs) == after
  {
    hide Pass, NothingLeft, PlainRefs;
    var defs := DefinitionsOf(root);
    WalkLeavesNothing(Obj(root), defs);
    UnchangedIf(Pass(Obj(root), defs), defs);
  }

  // ----- a union beside a reference -------------------------------------------------------------------------------

  /** `{"$ref": "#/definitions/X", "anyOf": [{"anyOf": [{"$ref": "#/definitions/X"}]}]}`, where X is a string: the outer
      union refers to X while X is being followed, so it is kept; the inner one is replaced, and then the outer one
      comes down. */
  const TEXT: map<string, Json> := map["type" := Str("string")]
  const TO_X: map<string, Json> := map["$ref" := Str("#/definitions/X")]
  const INNER: map<string, Json> := map["anyOf" := Arr([Obj(TO_X)])]
  const OUTER: map<string, Json> := map["$ref" := Str("#/definitions/X"), "anyOf" := Arr([Obj(INNER)])]
  const X_IS_TEXT: map<string, Json> := map["X" := Obj(TEXT)]

  lemma OneChoice(x: Json, defs: map<string, Json>, seen: set<string>)
    ensures BranchesOfAll([x], defs, seen) == Branches(x, defs, seen)
  {
    assert [x][..0] == [];
    assert [x][0] == x;
    if Branches(x, defs, seen).Some? { assert [] + Branches(x, defs, seen).value == Branches(x, defs, seen).value; }
  }

  lemma XIsFollowed(m: map<string, Json>, seen: set<string>)
    requires "$ref" in m && m["$ref"] == Str("#/definitions/X")
    ensures Branches(Obj(m), X_IS_TEXT, seen) ==
            if "X" in seen then None else Branches(Obj(Overlay(TEXT, m)), X_IS_TEXT, seen + {"X"})
  {
    assert "#/definitions/X" == "#/definitions/" + "X";
    RefNameMeans("#/definitions/X", "X");
  }

  /** A union that is the only member of its node. */
  lemma OnlyUnion(key: string, items: seq<Json>, defs: map<string, Json>, seen: set<string>)
    requires key == "anyOf" || key == "oneOf"
    ensures Branches(Obj(map[key := Arr(items)]), defs, seen) == BranchesOfAll(items, defs, seen)
  {
  }

  lemma InnerFollows(seen: set<string>)
    ensures Branches(Obj(INNER), X_IS_TEXT, seen).Some? <==> "X" !in seen
  {
    OnlyUnion("anyOf", [Obj(TO_X)], X_IS_TEXT, seen);
    OneChoice(Obj(TO_X), X_IS_TEXT, seen);
    XIsFollowed(TO_X, seen);
    assert Overlay(TEXT, TO_X) == TEXT;
    TextIsBranch(seen + {"X"});
  }

  lemma TextIsBranch(seen: set<string>)
    ensures Branches(Obj(TEXT), X_IS_TEXT, seen).Some?
  {
    ScalarMeans(Obj(TEXT));
  }

  lemma TypedUnion(o: map<string, Json>, items: seq<Json>)
    requires o == map["type" := Str("string"), "anyOf" := Arr(items)]
    ensures Branches(Obj(o), X_IS_TEXT, {"X"}) == BranchesOfAll(items, X_IS_TEXT, {"X"})
  {
  }

  /** The outer union comes down exactly when its inner node does, X being followed. */
  lemma OuterFollows(x: Json)
    ensures Branches(Obj(OUTER["anyOf" := Arr([x])]), X_IS_TEXT, {}).Some? <==> Branches(x, X_IS_TEXT, {"X"}).Some?
  {
    hide Branches, BranchesOfAll;
    var m := OUTER["anyOf" := Arr([x])];
    XIsFollowed(m, {});
    assert {} + {"X"} == {"X"};
    OneChoice(x, X_IS_TEXT, {"X"});
    var o := map["type" := Str("string"), "anyOf" := Arr([x])];
    assert Overlay(TEXT, m) == o;
    TypedUnion(o, [x]);
  }

  lemma NewInner()
    ensures exists items :: Pass(Obj(INNER), X_IS_TEXT) == Obj(map["oneOf" := Arr(items)])
                            && BranchesOfAll(items, X_IS_TEXT, {"X"}).Some?
  {
    hide Branches, BranchesOfAll, GroupAll, Alternatives, Alternative;
    InnerFollows({});
    assert Rewritten(INNER, X_IS_TEXT);
    var groups := GroupsOf(INNER, X_IS_TEXT);
    var items := Alternatives(groups);
    assert Pass(Obj(INNER), X_IS_TEXT).fields == map["oneOf" := Arr(items)];
    forall x | x in items ensures Branches(x, X_IS_TEXT, {"X"}).Some? {
      var i :| 0 <= i < |items| && items[i] == x;
      var kind := KindsOf(groups, |KINDS|)[i];
      LeafAlternative(kind, groups[kind]);
    }
    AllBranches(items, X_IS_TEXT, {"X"});
  }

  lemma LeafAlternative(kind: string, values: Option<seq<Json>>)
    requires kind in KINDS
    ensures Branches(Alternative(kind, values), X_IS_TEXT, {"X"}).Some?
  {
    ScalarMeans(Alternative(kind, values));
  }

  lemma OuterPassed()
    requires !Rewritten(OUTER, X_IS_TEXT)
    ensures Pass(Obj(OUTER), X_IS_TEXT) == Obj(OUTER["anyOf" := Arr([Pass(Obj(INNER), X_IS_TEXT)])])
  {
    hide Rewritten, Pass;
    KeptMembers(OUTER, X_IS_TEXT);
    ChildKept(OUTER, "$ref", X_IS_TEXT);
    assert PassChild(OUTER, "anyOf", X_IS_TEXT) == Arr([Pass(Obj(INNER), X_IS_TEXT)]);
  }

  /** Outside the condition: after the walk the outer union still has its `anyOf`, and comes down to scalars. */
  lemma UnionBesideReference()
    ensures !PlainRef(Obj(OUTER))
    ensures !ScalarUnion(Obj(OUTER), X_IS_TEXT) && ScalarUnion(Pass(Obj(OUTER), X_IS_TEXT), X_IS_TEXT)
    ensures !NothingLeft(Pass(Obj(OUTER), X_IS_TEXT), X_IS_TEXT)
  {
    hide Branches, BranchesOfAll, Pass, ComesDown;
    InnerFollows({"X"});
    OuterFollows(Obj(INNER));
    assert OUTER["anyOf" := Arr([Obj(INNER)])] == OUTER;
    RewrittenMeans(Obj(OUTER), X_IS_TEXT);
    NewInner();
    var x := Pass(Obj(INNER), X_IS_TEXT);
    var items :| x == Obj(map["oneOf" := Arr(items)]) && BranchesOfAll(items, X_IS_TEXT, {"X"}).Some?;
    OnlyUnion("oneOf", items, X_IS_TEXT, {"X"});
    OuterFollows(x);
    OuterPassed();
    RewrittenMeans(Pass(Obj(OUTER), X_IS_TEXT), X_IS_TEXT);
    assert At(Pass(Obj(OUTER), X_IS_TEXT), []) == Some(Pass(Obj(OUTER), X_IS_TEXT));
  }
}
