/** The rewriting of scalar unions in the schema generators: an `anyOf` whose branches all come down to scalar types is
    replaced by a `oneOf` with one branch a type. A schema is a JSON value; what it accepts is given by the keywords of
    JSON Schema draft-07, with regular expressions, references and the keywords the rewriting never touches as
    parameters. */
module ScalarUnions {
  import opened JsonModel
  import opened Options

  // ----- what a schema accepts ------------------------------------------------------------------------------------

  /** `ref(r, v)`: the reference `r` accepts `v`; `matches(p, s)`: the pattern `p` matches `s`; `rest(k, x, v)`: the
      keyword `k` with the value `x`, one of those not named below, accepts `v`. */
  datatype Semantics = Semantics(
    ref: (string, Json) -> bool, matches: (string, string) -> bool, rest: (string, Json, Json) -> bool)

  predicate IsAnnotation(key: string) {
    key == "description" || key == "title" || (|key| >= 2 && key[0] == 'x' && key[1] == '-')
  }

  predicate IsRef(m: map<string, Json>) {
    "$ref" in m && m["$ref"].Str?
  }

  predicate HasType(v: Json, kind: string) {
    match v
    case Null => kind == "null"
    case Bool(_) => kind == "boolean"
    case Int(_) => kind == "integer" || kind == "number"
    case Float(r) => kind == "number" || (kind == "integer" && r == r.Floor as real)
    case Str(_) => kind == "string"
    case Arr(_) => kind == "array"
    case Obj(_) => kind == "object"
  }

  ghost predicate TypeAccepts(x: Json, v: Json) {
    match x
    case Str(kind) => HasType(v, kind)
    case Arr(kinds) => exists i :: 0 <= i < |kinds| && kinds[i].Str? && HasType(v, kinds[i].s)
    case _ => true
  }

  ghost predicate EnumAccepts(x: Json, v: Json) {
    x.Arr? ==> exists i :: 0 <= i < |x.items| && Same(x.items[i], v)
  }

  ghost predicate Accepts(sem: Semantics, schema: Json, v: Json)
    decreases schema, 2
  {
    match schema
    case Bool(b) => b
    case Obj(m) =>
      if IsRef(m) then sem.ref(m["$ref"].s, v) else forall key :: key in m ==> Keyword(sem, m, key, v)
    case _ => true
  }

  ghost predicate ExactlyOne(sem: Semantics, schemas: seq<Json>, v: Json)
    decreases schemas, 2
  {
    exists i :: 0 <= i < |schemas| && Accepts(sem, schemas[i], v) && NoneBut(sem, schemas, i, v)
  }

  ghost predicate NoneBut(sem: Semantics, schemas: seq<Json>, i: nat, v: Json)
    decreases schemas, 1
  {
    forall j :: 0 <= j < |schemas| && j != i ==> !Accepts(sem, schemas[j], v)
  }

  ghost predicate AnyOf(sem: Semantics, schemas: seq<Json>, v: Json)
    decreases schemas, 2
  {
    exists i :: 0 <= i < |schemas| && Accepts(sem, schemas[i], v)
  }

  /** The property `name` is one that `properties` or `patternProperties` speaks about. */
  ghost predicate Named(sem: Semantics, m: map<string, Json>, name: string) {
    || ("properties" in m && m["properties"].Obj? && name in m["properties"].fields)
    || ("patternProperties" in m && m["patternProperties"].Obj?
        && exists p :: p in m["patternProperties"].fields && sem.matches(p, name))
  }

  /** The keywords that hold a list of schemas. */
  ghost predicate ListKeyword(sem: Semantics, key: string, schemas: seq<Json>, v: Json)
    decreases schemas, 3
  {
    match key
    case "anyOf" => AnyOf(sem, schemas, v)
    case "oneOf" => ExactlyOne(sem, schemas, v)
    case "allOf" => forall i :: 0 <= i < |schemas| ==> Accepts(sem, schemas[i], v)
    case _ => // "items", "prefixItems"
      v.Arr? ==> forall i :: 0 <= i < |schemas| && i < |v.items| ==> Accepts(sem, schemas[i], v.items[i])
  }

  /** The keywords that hold schemas under names. */
  ghost predicate NamedKeyword(sem: Semantics, key: string, named: map<string, Json>, v: Json)
    decreases Obj(named), 3
  {
    match key
    case "properties" => v.Obj? ==> forall k :: k in named && k in v.fields ==> Accepts(sem, named[k], v.fields[k])
    case "patternProperties" =>
      v.Obj? ==> forall p, k :: p in named && k in v.fields && sem.matches(p, k) ==> Accepts(sem, named[p], v.fields[k])
    case _ => true // "definitions", "$defs"
  }

  /** The keywords that hold one schema. */
  ghost predicate OneKeyword(sem: Semantics, m: map<string, Json>, key: string, v: Json)
    requires key in m
    decreases Obj(m), 0
  {
    match key
    case "not" => !Accepts(sem, m[key], v)
    case "contains" => v.Arr? ==> exists i :: 0 <= i < |v.items| && Accepts(sem, m[key], v.items[i])
    case "items" => v.Arr? ==> forall i :: 0 <= i < |v.items| ==> Accepts(sem, m[key], v.items[i])
    case "propertyNames" => v.Obj? ==> forall k :: k in v.fields ==> Accepts(sem, m[key], Str(k))
    case "additionalProperties" =>
      v.Obj? ==> forall k :: k in v.fields && !Named(sem, m, k) ==> Accepts(sem, m[key], v.fields[k])
    case "if" =>
      if Accepts(sem, m[key], v) then "then" in m ==> Accepts(sem, m["then"], v)
      else "else" in m ==> Accepts(sem, m["else"], v)
    case _ => true // "then", "else": see "if"
  }

  predicate IsListKey(key: string) {
    key in ["anyOf", "oneOf", "allOf", "prefixItems", "items"]
  }

  predicate IsNamedKey(key: string) {
    key in ["properties", "patternProperties", "$defs", "definitions"]
  }

  predicate IsOneKey(key: string) {
    key in ["items", "additionalProperties", "not", "contains", "if", "then", "else", "propertyNames"]
  }

  ghost predicate Keyword(sem: Semantics, m: map<string, Json>, key: string, v: Json)
    requires key in m
    decreases Obj(m), 1
  {
    if IsAnnotation(key) then true
    else if key == "type" then TypeAccepts(m[key], v)
    else if key == "enum" then EnumAccepts(m[key], v)
    else if key == "const" then Same(m[key], v)
    else if IsNamedKey(key) && m[key].Obj? then NamedKeyword(sem, key, m[key].fields, v)
    else if IsListKey(key) && m[key].Arr? then ListKeyword(sem, key, m[key].items, v)
    else if IsOneKey(key) then OneKeyword(sem, m, key, v)
    else sem.rest(key, m[key], v)
  }

  // ----- the scalar branches of a union ---------------------------------------------------------------------------

  function RefName(reference: string): Option<string> {
    if "#/$defs/" <= reference then Some(reference[8..])
    else if "#/definitions/" <= reference then Some(reference[14..])
    else None
  }

  /** The target of a reference, overlaid with the siblings of the reference. */
  function Overlay(target: map<string, Json>, node: map<string, Json>): map<string, Json> {
    target + (node - {"$ref"})
  }

  function UnionOf(m: map<string, Json>): Option<seq<Json>> {
    if "anyOf" in m then (if m["anyOf"].Arr? then Some(m["anyOf"].items) else None)
    else if "oneOf" in m && m["oneOf"].Arr? then Some(m["oneOf"].items)
    else None
  }

  const KINDS: seq<string> := ["boolean", "integer", "null", "number", "string"]

  predicate IsLeaf(m: map<string, Json>) {
    && "type" in m && m["type"].Str? && m["type"].s in KINDS
    && forall key :: key in m ==> key == "type" || key == "enum" || IsAnnotation(key)
  }

  predicate AllLeaves(branches: seq<Json>) {
    forall i :: 0 <= i < |branches| ==> branches[i].Obj? && IsLeaf(branches[i].fields)
  }

  /** `scalar_branches`: the scalar alternatives below `node`, if there is nothing else below it. `seen` are the
      references being followed. */
  function Branches(node: Json, defs: map<string, Json>, seen: set<string>): (r: Option<seq<Json>>)
    ensures r.Some? ==> AllLeaves(r.value)
    decreases defs.Keys - seen, node
  {
    match node
    case Obj(m) =>
      if IsRef(m) then
        var name := RefName(m["$ref"].s);
        if name.None? || name.value in seen || name.value !in defs || !defs[name.value].Obj? then None
        else Branches(Obj(Overlay(defs[name.value].fields, m)), defs, seen + {name.value})
      else if UnionOf(m).Some? then BranchesOfAll(UnionOf(m).value, defs, seen)
      else if IsLeaf(m) then Some([node])
      else None
    case _ => None
  }

  function BranchesOfAll(nodes: seq<Json>, defs: map<string, Json>, seen: set<string>): (r: Option<seq<Json>>)
    ensures r.Some? ==> AllLeaves(r.value)
    decreases defs.Keys - seen, nodes
  {
    if nodes == [] then Some([])
    else
      var first, last := BranchesOfAll(nodes[..|nodes| - 1], defs, seen), Branches(nodes[|nodes| - 1], defs, seen);
      if first.None? || last.None? then None else Some(first.value + last.value)
  }

  /** The recursion of the generator: it ends on every definitions graph, cyclic ones included, and a success gives
      back `seen` as it was. */
  method ScalarBranches(node: Json, defs: map<string, Json>, seen: set<string>)
    returns (result: Option<seq<Json>>, after: set<string>)
    ensures result == Branches(node, defs, seen)
    ensures result.Some? ==> after == seen
    ensures seen <= after
    decreases defs.Keys - seen, node
  {
    after := seen;
    if !node.Obj? {
      return None, after;
    }
    var m := node.fields;
    if IsRef(m) {
      var name := RefName(m["$ref"].s);
      if name.None? || name.value in after {
        return None, after;
      }
      after := after + {name.value};
      if name.value !in defs || !defs[name.value].Obj? {
        return None, after;
      }
      result, after := ScalarBranches(Obj(Overlay(defs[name.value].fields, m)), defs, after);
      after := after - {name.value};
      return result, after;
    }
    var union := UnionOf(m);
    if union.Some? {
      var nodes := union.value;
      var branches: seq<Json> := [];
      var i := 0;
      while i < |nodes|
        invariant i <= |nodes| && after == seen
        invariant BranchesOfAll(nodes[..i], defs, seen) == Some(branches)
      {
        var more: Option<seq<Json>>;
        more, after := ScalarBranches(nodes[i], defs, after);
        assert nodes[..i + 1][..i] == nodes[..i];
        if more.None? {
          NoBranches(nodes, i, defs, seen);
          return None, after;
        }
        branches := branches + more.value;
        i := i + 1;
      }
      assert nodes[..i] == nodes;
      return Some(branches), after;
    }
    if IsLeaf(m) {
      return Some([node]), after;
    }
    return None, after;
  }

  lemma {:induction false} NoBranches(nodes: seq<Json>, i: nat, defs: map<string, Json>, seen: set<string>)
    requires i < |nodes| && Branches(nodes[i], defs, seen).None?
    ensures BranchesOfAll(nodes, defs, seen).None?
  {
    if i < |nodes| - 1 { NoBranches(nodes[..|nodes| - 1], i, defs, seen); }
  }

  // ----- the meaning of the branches ------------------------------------------------------------------------------

  /** The interpretation of the references satisfies the definitions. */
  ghost predicate Consistent(sem: Semantics, defs: map<string, Json>) {
    forall name, v :: name in defs ==>
      && sem.ref("#/$defs/" + name, v) == Accepts(sem, defs[name], v)
      && sem.ref("#/definitions/" + name, v) == Accepts(sem, defs[name], v)
  }

  ghost predicate Disjoint(sem: Semantics, schemas: seq<Json>) {
    forall v, i, j :: 0 <= i < j < |schemas| ==> !(Accepts(sem, schemas[i], v) && Accepts(sem, schemas[j], v))
  }

  predicate OnlyBeside(m: map<string, Json>, key: string) {
    forall k :: k in m ==> k == key || IsAnnotation(k)
  }

  /** The shape the rewriting is meant for, below the union itself: references and nested unions have annotations for
      siblings, and a nested `oneOf` has branches that share no value. */
  ghost predicate Shaped(sem: Semantics, node: Json, defs: map<string, Json>, seen: set<string>)
    decreases defs.Keys - seen, node
  {
    match node
    case Obj(m) =>
      if IsRef(m) then
        var name := RefName(m["$ref"].s);
        && OnlyBeside(m, "$ref")
        && (name.Some? && name.value !in seen && name.value in defs && defs[name.value].Obj? ==>
              Shaped(sem, Obj(Overlay(defs[name.value].fields, m)), defs, seen + {name.value}))
      else if UnionOf(m).Some? then
        && (OnlyBeside(m, "anyOf") || (OnlyBeside(m, "oneOf") && Disjoint(sem, UnionOf(m).value)))
        && ShapedAll(sem, UnionOf(m).value, defs, seen)
      else true
    case _ => true
  }

  ghost predicate ShapedAll(sem: Semantics, nodes: seq<Json>, defs: map<string, Json>, seen: set<string>)
    decreases defs.Keys - seen, nodes
  {
    forall i :: 0 <= i < |nodes| ==> Shaped(sem, nodes[i], defs, seen)
  }

  /** The two nodes have the same keywords, annotations aside. */
  ghost predicate SameKeywords(m: map<string, Json>, other: map<string, Json>) {
    forall k :: !IsAnnotation(k) ==> (k in m <==> k in other) && (k in m ==> m[k] == other[k])
  }

  predicate SameAt(m: map<string, Json>, other: map<string, Json>, key: string) {
    (key in m <==> key in other) && (key in m ==> m[key] == other[key])
  }

  /** The two nodes agree on the keywords that others look at. */
  predicate SameContext(m: map<string, Json>, other: map<string, Json>) {
    && SameAt(m, other, "properties") && SameAt(m, other, "patternProperties")
    && SameAt(m, other, "then") && SameAt(m, other, "else")
  }

  lemma NamedAgrees(sem: Semantics, m: map<string, Json>, other: map<string, Json>, name: string)
    requires SameContext(m, other)
    ensures Named(sem, m, name) == Named(sem, other, name)
  {
  }

  lemma KeywordsAgree(sem: Semantics, m: map<string, Json>, other: map<string, Json>, key: string, v: Json)
    requires SameContext(m, other) && key in m && SameAt(m, other, key)
    ensures Keyword(sem, m, key, v) == Keyword(sem, other, key, v)
  {
    hide ListKeyword, NamedKeyword, TypeAccepts, EnumAccepts, OneKeyword;
    OneAgrees(sem, m, other, key, v);
  }

  lemma OneAgrees(sem: Semantics, m: map<string, Json>, other: map<string, Json>, key: string, v: Json)
    requires SameContext(m, other) && key in m && SameAt(m, other, key)
    ensures OneKeyword(sem, m, key, v) == OneKeyword(sem, other, key, v)
  {
    hide Named;
    forall name ensures Named(sem, m, name) == Named(sem, other, name) { NamedAgrees(sem, m, other, name); }
  }

  lemma ContextAgrees(m: map<string, Json>, other: map<string, Json>)
    requires SameKeywords(m, other)
    ensures SameContext(m, other) && IsRef(m) == IsRef(other) && SameAt(m, other, "$ref")
  {
    assert !IsAnnotation("$ref") && !IsAnnotation("properties") && !IsAnnotation("patternProperties");
    assert !IsAnnotation("then") && !IsAnnotation("else");
  }

  /** Annotations do not matter. */
  lemma AnnotationsIgnored(sem: Semantics, m: map<string, Json>, other: map<string, Json>, v: Json)
    requires SameKeywords(m, other)
    ensures Accepts(sem, Obj(m), v) == Accepts(sem, Obj(other), v)
  {
    hide Keyword, SameContext, IsAnnotation;
    ContextAgrees(m, other);
    AnnotationsHold(sem, m, v);
    AnnotationsHold(sem, other, v);
    forall key | key in m && !IsAnnotation(key) ensures Keyword(sem, m, key, v) == Keyword(sem, other, key, v) {
      KeywordsAgree(sem, m, other, key, v);
    }
  }

  lemma AnnotationsHold(sem: Semantics, m: map<string, Json>, v: Json)
    ensures forall key :: key in m && IsAnnotation(key) ==> Keyword(sem, m, key, v)
  {
    hide ListKeyword, NamedKeyword, TypeAccepts, EnumAccepts, OneKeyword;
  }

  lemma OverlayMeans(sem: Semantics, target: map<string, Json>, m: map<string, Json>, v: Json)
    requires OnlyBeside(m, "$ref")
    ensures Accepts(sem, Obj(Overlay(target, m)), v) == Accepts(sem, Obj(target), v)
  {
    AnnotationsIgnored(sem, Overlay(target, m), target, v);
  }

  /** A reference accepts what its target accepts. */
  lemma RefMeans(sem: Semantics, m: map<string, Json>, defs: map<string, Json>, v: Json)
    requires Consistent(sem, defs) && IsRef(m) && RefName(m["$ref"].s).Some? && RefName(m["$ref"].s).value in defs
    ensures Accepts(sem, Obj(m), v) == Accepts(sem, defs[RefName(m["$ref"].s).value], v)
  {
    var reference, name := m["$ref"].s, RefName(m["$ref"].s).value;
    assert reference == "#/$defs/" + name || reference == "#/definitions/" + name;
  }

  /** A node that is nothing but a union accepts what its list accepts. */
  lemma UnionMeans(sem: Semantics, m: map<string, Json>, key: string, v: Json)
    requires key == "anyOf" || key == "oneOf"
    requires key in m && m[key].Arr? && OnlyBeside(m, key) && !IsRef(m)
    ensures Accepts(sem, Obj(m), v) == ListKeyword(sem, key, m[key].items, v)
  {
    hide ListKeyword, NamedKeyword, TypeAccepts, EnumAccepts, OneKeyword;
    AnnotationsHold(sem, m, v);
    assert !IsAnnotation(key);
    assert Keyword(sem, m, key, v) == ListKeyword(sem, key, m[key].items, v);
  }

  lemma DisjointOneIsAny(sem: Semantics, schemas: seq<Json>, v: Json)
    requires Disjoint(sem, schemas)
    ensures ExactlyOne(sem, schemas, v) == AnyOf(sem, schemas, v)
  {
    hide Accepts;
    if i: nat :| i < |schemas| && Accepts(sem, schemas[i], v) {
      forall j | 0 <= j < |schemas| && j != i ensures !Accepts(sem, schemas[j], v) {
        assert i < j || j < i;
      }
      assert Accepts(sem, schemas[i], v) && NoneBut(sem, schemas, i, v);
    }
  }

  lemma NestedUnionMeans(sem: Semantics, m: map<string, Json>, v: Json)
    requires !IsRef(m) && UnionOf(m).Some?
    requires OnlyBeside(m, "anyOf") || (OnlyBeside(m, "oneOf") && Disjoint(sem, UnionOf(m).value))
    ensures Accepts(sem, Obj(m), v) == AnyOf(sem, UnionOf(m).value, v)
  {
    hide Accepts, AnyOf, ExactlyOne;
    assert !IsAnnotation("anyOf") && !IsAnnotation("oneOf");
    if OnlyBeside(m, "anyOf") {
      UnionMeans(sem, m, "anyOf", v);
    } else {
      UnionMeans(sem, m, "oneOf", v);
      DisjointOneIsAny(sem, UnionOf(m).value, v);
    }
  }

  /** The scalar alternatives of a shaped node accept together what the node accepts. */
  lemma {:induction false} BranchesMean(sem: Semantics, node: Json, defs: map<string, Json>, seen: set<string>, v: Json)
    requires Consistent(sem, defs) && Shaped(sem, node, defs, seen) && Branches(node, defs, seen).Some?
    ensures Accepts(sem, node, v) <==> AnyOf(sem, Branches(node, defs, seen).value, v)
    decreases defs.Keys - seen, node
  {
    hide Accepts, Consistent, OnlyBeside, Disjoint;
    var m := node.fields;
    if IsRef(m) {
      var name := RefName(m["$ref"].s).value;
      RefMeans(sem, m, defs, v);
      OverlayMeans(sem, defs[name].fields, m, v);
      BranchesMean(sem, Obj(Overlay(defs[name].fields, m)), defs, seen + {name}, v);
    } else if UnionOf(m).Some? {
      NestedUnionMeans(sem, m, v);
      BranchesOfAllMean(sem, UnionOf(m).value, defs, seen, v);
    } else {
      assert node == Obj(m);
      assert [node][0] == node;
    }
  }

  lemma {:induction false} BranchesOfAllMean(sem: Semantics, nodes: seq<Json>, defs: map<string, Json>,
                                             seen: set<string>, v: Json)
    requires Consistent(sem, defs) && ShapedAll(sem, nodes, defs, seen) && BranchesOfAll(nodes, defs, seen).Some?
    ensures AnyOf(sem, nodes, v) <==> AnyOf(sem, BranchesOfAll(nodes, defs, seen).value, v)
    decreases defs.Keys - seen, nodes
  {
    hide Accepts, Consistent, Shaped, Branches;
    if nodes != [] {
      var init, last := nodes[..|nodes| - 1], nodes[|nodes| - 1];
      assert nodes == init + [last];
      BranchesOfAllMean(sem, init, defs, seen, v);
      BranchesMean(sem, last, defs, seen, v);
      AnyOfConcat(sem, init, [last], v);
      AnyOfConcat(sem, BranchesOfAll(init, defs, seen).value, Branches(last, defs, seen).value, v);
    }
  }

  lemma AnyOfConcat(sem: Semantics, xs: seq<Json>, ys: seq<Json>, v: Json)
    ensures AnyOf(sem, xs + ys, v) <==> AnyOf(sem, xs, v) || AnyOf(sem, ys, v)
    ensures forall y :: AnyOf(sem, [y], v) == Accepts(sem, y, v)
  {
    hide Accepts;
    if i :| 0 <= i < |xs| && Accepts(sem, xs[i], v) { assert (xs + ys)[i] == xs[i]; }
    if i :| 0 <= i < |ys| && Accepts(sem, ys[i], v) { assert (xs + ys)[|xs| + i] == ys[i]; }
    forall y ensures AnyOf(sem, [y], v) == Accepts(sem, y, v) { assert [y][0] == y; }
  }

  // ----- the grouping ---------------------------------------------------------------------------------------------

  /** The alternatives by type: the values allowed, or `None` for every value of the type. */
  type Groups = map<string, Option<seq<Json>>>

  function KindOf(branch: Json): string
    requires branch.Obj? && IsLeaf(branch.fields)
  {
    branch.fields["type"].s
  }

  function EnumOf(branch: Json): Option<seq<Json>>
    requires branch.Obj?
  {
    if "enum" in branch.fields && branch.fields["enum"].Arr? then Some(branch.fields["enum"].items) else None
  }

  function AddBranch(groups: Groups, kind: string, values: Option<seq<Json>>): Groups {
    if kind !in groups then groups[kind := values]
    else if groups[kind].Some? && values.Some? then groups[kind := Some(groups[kind].value + values.value)]
    else groups[kind := None]
  }

  function GroupAll(branches: seq<Json>): (groups: Groups)
    requires AllLeaves(branches)
    ensures forall kind :: kind in groups ==> kind in KINDS
  {
    if branches == [] then map[]
    else
      var last := branches[|branches| - 1];
      AddBranch(GroupAll(branches[..|branches| - 1]), KindOf(last), EnumOf(last))
  }

  function Unique(values: seq<Json>): (unique: seq<Json>)
    ensures forall x :: x in unique <==> x in values
  {
    if values == [] then []
    else
      var unique, last := Unique(values[..|values| - 1]), values[|values| - 1];
      assert values == values[..|values| - 1] + [last];
      if last in unique then unique else unique + [last]
  }

  /** One branch of the new `oneOf`. */
  function Alternative(kind: string, values: Option<seq<Json>>): Json {
    var typed := map["type" := Str(kind)];
    Obj(if values.Some? then typed["enum" := Arr(Unique(values.value))] else typed)
  }

  /** The kinds of a group map, in the order of the map. */
  function KindsOf(groups: Groups, n: nat): (kinds: seq<string>)
    requires n <= |KINDS|
    ensures |kinds| <= n
    ensures forall kind :: kind in kinds <==> kind in groups && kind in KINDS[..n]
    ensures forall i :: 0 <= i < |kinds| ==> kinds[i] in groups
    ensures forall i, j :: 0 <= i < j < |kinds| ==> kinds[i] != kinds[j]
  {
    if n == 0 then []
    else
      var kinds := KindsOf(groups, n - 1);
      assert KINDS[..n] == KINDS[..n - 1] + [KINDS[n - 1]];
      assert KINDS[n - 1] !in KINDS[..n - 1];
      if KINDS[n - 1] in groups then kinds + [KINDS[n - 1]] else kinds
  }

  function Alternatives(groups: Groups): (alternatives: seq<Json>)
    ensures |alternatives| == |KindsOf(groups, |KINDS|)|
    ensures forall i :: 0 <= i < |alternatives| ==>
              var kind := KindsOf(groups, |KINDS|)[i]; alternatives[i] == Alternative(kind, groups[kind])
  {
    var kinds := KindsOf(groups, |KINDS|);
    seq(|kinds|, i requires 0 <= i < |kinds| => Alternative(kinds[i], groups[kinds[i]]))
  }

  ghost predicate GroupAccepts(kind: string, values: Option<seq<Json>>, v: Json) {
    && HasType(v, kind)
    && (values.Some? ==> exists i :: 0 <= i < |values.value| && Same(values.value[i], v))
  }

  ghost predicate In(groups: Groups, kind: string, v: Json) {
    kind in groups && GroupAccepts(kind, groups[kind], v)
  }

  ghost predicate InSome(groups: Groups, v: Json) {
    exists kind :: In(groups, kind, v)
  }

  /** A leaf accepts the values of its type that its `enum`, if any, lists. */
  lemma LeafMeans(sem: Semantics, branch: Json, v: Json)
    requires branch.Obj? && IsLeaf(branch.fields)
    ensures Accepts(sem, branch, v) <==> GroupAccepts(KindOf(branch), EnumOf(branch), v)
  {
    hide ListKeyword, NamedKeyword, OneKeyword, HasType, Same;
    var m := branch.fields;
    AnnotationsHold(sem, m, v);
    assert !IsAnnotation("type") && !IsAnnotation("enum") && !IsAnnotation("$ref");
    assert Keyword(sem, m, "type", v) == HasType(v, KindOf(branch));
    assert "enum" in m ==> Keyword(sem, m, "enum", v) == EnumAccepts(m["enum"], v);
  }

  lemma UniqueMeans(kind: string, values: seq<Json>, v: Json)
    ensures GroupAccepts(kind, Some(Unique(values)), v) <==> GroupAccepts(kind, Some(values), v)
  {
    hide Unique, Same, HasType;
    var unique := Unique(values);
    if i :| 0 <= i < |values| && Same(values[i], v) {
      assert values[i] in unique;
    }
    if i :| 0 <= i < |unique| && Same(unique[i], v) {
      assert unique[i] in values;
    }
  }

  lemma AlternativeMeans(sem: Semantics, kind: string, values: Option<seq<Json>>, v: Json)
    requires kind in KINDS
    ensures Accepts(sem, Alternative(kind, values), v) <==> GroupAccepts(kind, values, v)
  {
    hide Unique, GroupAccepts;
    LeafMeans(sem, Alternative(kind, values), v);
    if values.Some? { UniqueMeans(kind, values.value, v); }
  }

  lemma AddBranchMeans(groups: Groups, kind: string, values: Option<seq<Json>>, k: string, v: Json)
    ensures In(AddBranch(groups, kind, values), k, v) <==>
              In(groups, k, v) || (k == kind && GroupAccepts(kind, values, v))
  {
    hide HasType, Same;
    if k == kind && kind in groups && groups[kind].Some? && values.Some? {
      var xs, ys := groups[kind].value, values.value;
      if i :| 0 <= i < |xs| && Same(xs[i], v) { assert (xs + ys)[i] == xs[i]; }
      if i :| 0 <= i < |ys| && Same(ys[i], v) { assert (xs + ys)[|xs| + i] == ys[i]; }
    }
  }

  /** A value is accepted by a branch exactly when it is in a group. */
  lemma {:induction false} GroupsMean(sem: Semantics, branches: seq<Json>, v: Json)
    requires AllLeaves(branches)
    ensures AnyOf(sem, branches, v) <==> InSome(GroupAll(branches), v)
  {
    hide Accepts, AnyOf, In, GroupAccepts, AddBranch;
    if branches == [] {
      NoGroups(sem, v);
    } else {
      var init, last := branches[..|branches| - 1], branches[|branches| - 1];
      assert branches == init + [last];
      GroupsMean(sem, init, v);
      AnyOfConcat(sem, init, [last], v);
      LeafMeans(sem, last, v);
      var groups := GroupAll(init);
      var more := AddBranch(groups, KindOf(last), EnumOf(last));
      forall k ensures In(more, k, v) <==> In(groups, k, v) || (k == KindOf(last) && GroupAccepts(k, EnumOf(last), v)) {
        AddBranchMeans(groups, KindOf(last), EnumOf(last), k, v);
      }
      assert GroupAll(branches) == more;
      assert In(more, KindOf(last), v) <==> In(groups, KindOf(last), v) || Accepts(sem, last, v);
    }
  }

  lemma NoGroups(sem: Semantics, v: Json)
    ensures !AnyOf(sem, [], v) && !InSome(map[], v)
  {
  }

  /** Whether some value is both in the integer group and in the number group; every other two groups are disjoint. */
  predicate Overlaps(groups: Groups) {
    && "integer" in groups && "number" in groups
    && match (groups["integer"], groups["number"]) {
         case (None, None) => true
         case (None, Some(numbers)) => exists i :: 0 <= i < |numbers| && HasType(numbers[i], "integer")
         case (Some(integers), None) => exists i :: 0 <= i < |integers| && HasType(integers[i], "integer")
         case (Some(integers), Some(numbers)) =>
           exists i, j :: 0 <= i < |integers| && 0 <= j < |numbers|
                          && HasType(integers[i], "integer") && Same(integers[i], numbers[j])
       }
  }

  ghost predicate InBoth(groups: Groups, v: Json) {
    In(groups, "integer", v) && In(groups, "number", v)
  }

  lemma SharedOverlaps(groups: Groups, v: Json)
    requires InBoth(groups, v)
    ensures Overlaps(groups)
  {
    assert IsNumber(v);
  }

  lemma OverlapsShares(groups: Groups) returns (v: Json)
    requires Overlaps(groups)
    ensures InBoth(groups, v)
  {
    match (groups["integer"], groups["number"]) {
      case (None, None) => v := Int(0);
      case (None, Some(numbers)) =>
        var i :| 0 <= i < |numbers| && HasType(numbers[i], "integer");
        v := numbers[i];
      case (Some(integers), None) =>
        var i :| 0 <= i < |integers| && HasType(integers[i], "integer");
        v := integers[i];
      case (Some(integers), Some(numbers)) =>
        var i, j :| 0 <= i < |integers| && 0 <= j < |numbers|
                    && HasType(integers[i], "integer") && Same(integers[i], numbers[j]);
        v := numbers[j];
    }
  }

  lemma KindsAreDisjoint(groups: Groups, a: string, b: string, v: Json)
    requires In(groups, a, v) && In(groups, b, v) && a != b
    ensures InBoth(groups, v)
  {
  }

  /** The list `schemas` accepts at each index what the group of the kind at that index has. */
  ghost predicate Reads(sem: Semantics, schemas: seq<Json>, kinds: seq<string>, groups: Groups, v: Json) {
    && |schemas| == |kinds|
    && (forall i :: 0 <= i < |kinds| ==> (Accepts(sem, schemas[i], v) <==> In(groups, kinds[i], v)))
    && (forall i, j :: 0 <= i < j < |kinds| ==> kinds[i] != kinds[j])
    && (forall kind :: In(groups, kind, v) ==> kind in kinds)
  }

  lemma AlternativesRead(sem: Semantics, groups: Groups, v: Json)
    requires forall kind :: kind in groups ==> kind in KINDS
    ensures Reads(sem, Alternatives(groups), KindsOf(groups, |KINDS|), groups, v)
  {
    hide Accepts, GroupAccepts, KindsOf, Alternative, In;
    var kinds := KindsOf(groups, |KINDS|);
    assert KINDS[..|KINDS|] == KINDS;
    InKeys(groups, v);
    forall i | 0 <= i < |kinds| ensures Accepts(sem, Alternatives(groups)[i], v) <==> In(groups, kinds[i], v) {
      AlternativeMeans(sem, kinds[i], groups[kinds[i]], v);
      InGroup(groups, kinds[i], v);
    }
  }

  lemma OneIsNotBoth(sem: Semantics, schemas: seq<Json>, kinds: seq<string>, groups: Groups, v: Json)
    requires Reads(sem, schemas, kinds, groups, v) && InBoth(groups, v)
    ensures !ExactlyOne(sem, schemas, v)
  {
    hide Accepts, In;
    var i :| 0 <= i < |kinds| && kinds[i] == "integer";
    var j :| 0 <= j < |kinds| && kinds[j] == "number";
    assert i != j && Accepts(sem, schemas[i], v) && Accepts(sem, schemas[j], v);
  }

  lemma NotBothIsOne(sem: Semantics, schemas: seq<Json>, kinds: seq<string>, groups: Groups, kind: string, v: Json)
    requires Reads(sem, schemas, kinds, groups, v) && In(groups, kind, v) && !InBoth(groups, v)
    ensures ExactlyOne(sem, schemas, v)
  {
    hide Accepts, In, InBoth;
    var i: nat :| i < |kinds| && kinds[i] == kind;
    forall j | 0 <= j < |kinds| && j != i ensures !Accepts(sem, schemas[j], v) {
      assert i < j || j < i;
      if In(groups, kinds[j], v) { KindsAreDisjoint(groups, kind, kinds[j], v); }
    }
    assert Accepts(sem, schemas[i], v) && NoneBut(sem, schemas, i, v);
  }

  /** The alternatives accept a value exactly when some group has it and not both number groups do. */
  lemma AlternativesMean(sem: Semantics, groups: Groups, v: Json)
    requires forall kind :: kind in groups ==> kind in KINDS
    ensures ExactlyOne(sem, Alternatives(groups), v) <==> InSome(groups, v) && !InBoth(groups, v)
  {
    hide Accepts, In, InBoth, Alternatives, KindsOf;
    var kinds, schemas := KindsOf(groups, |KINDS|), Alternatives(groups);
    AlternativesRead(sem, groups, v);
    if InBoth(groups, v) { OneIsNotBoth(sem, schemas, kinds, groups, v); }
    if kind :| In(groups, kind, v) && !InBoth(groups, v) { NotBothIsOne(sem, schemas, kinds, groups, kind, v); }
  }

  lemma InGroup(groups: Groups, kind: string, v: Json)
    requires kind in groups
    ensures In(groups, kind, v) == GroupAccepts(kind, groups[kind], v)
  {
  }

  lemma InKeys(groups: Groups, v: Json)
    ensures forall kind :: In(groups, kind, v) ==> kind in groups
  {
  }

  // ----- the rewriting of one node --------------------------------------------------------------------------------

  /** Whether the node is rewritten. */
  predicate Rewritten(m: map<string, Json>, defs: map<string, Json>) {
    "anyOf" in m && Branches(Obj(m), defs, {}).Some?
  }

  function GroupsOf(m: map<string, Json>, defs: map<string, Json>): Groups
    requires Rewritten(m, defs)
  {
    GroupAll(Branches(Obj(m), defs, {}).value)
  }

  function Rewrite(m: map<string, Json>, defs: map<string, Json>): map<string, Json> {
    if Rewritten(m, defs) then (m - {"anyOf"})["oneOf" := Arr(Alternatives(GroupsOf(m, defs)))] else m
  }

  /** The union keyword before and after: the rewritten `oneOf` accepts what the `anyOf` accepted, for every value,
      exactly when the integer and the number group share no value. */
  lemma UnionExact(sem: Semantics, nodes: seq<Json>, defs: map<string, Json>)
    requires Consistent(sem, defs) && ShapedAll(sem, nodes, defs, {}) && BranchesOfAll(nodes, defs, {}).Some?
    ensures var groups := GroupAll(BranchesOfAll(nodes, defs, {}).value);
            (forall v :: AnyOf(sem, nodes, v) <==> ExactlyOne(sem, Alternatives(groups), v)) <==> !Overlaps(groups)
  {
    hide Accepts, AnyOf, ExactlyOne, In, InBoth, Alternatives, Overlaps, Consistent, ShapedAll, GroupAll;
    var branches := BranchesOfAll(nodes, defs, {}).value;
    var groups := GroupAll(branches);
    forall v
      ensures ExactlyOne(sem, Alternatives(groups), v) <==> AnyOf(sem, nodes, v) && !InBoth(groups, v)
      ensures InBoth(groups, v) ==> AnyOf(sem, nodes, v)
    {
      UnionMeaning(sem, nodes, defs, v);
    }
    if Overlaps(groups) {
      var v := OverlapsShares(groups);
      assert AnyOf(sem, nodes, v) && !ExactlyOne(sem, Alternatives(groups), v);
    } else {
      forall v ensures !InBoth(groups, v) {
        if InBoth(groups, v) { SharedOverlaps(groups, v); }
      }
    }
  }

  /** The rewritten `oneOf` accepts a value of the `anyOf` unless both number groups have it. */
  lemma UnionMeaning(sem: Semantics, nodes: seq<Json>, defs: map<string, Json>, v: Json)
    requires Consistent(sem, defs) && ShapedAll(sem, nodes, defs, {}) && BranchesOfAll(nodes, defs, {}).Some?
    ensures var groups := GroupAll(BranchesOfAll(nodes, defs, {}).value);
            && (ExactlyOne(sem, Alternatives(groups), v) <==> AnyOf(sem, nodes, v) && !InBoth(groups, v))
            && (InBoth(groups, v) ==> AnyOf(sem, nodes, v))
  {
    hide Accepts, AnyOf, ExactlyOne, In, Alternatives, Overlaps, Consistent, ShapedAll, GroupAll;
    var branches := BranchesOfAll(nodes, defs, {}).value;
    BranchesOfAllMean(sem, nodes, defs, {}, v);
    GroupsMean(sem, branches, v);
    AlternativesMean(sem, GroupAll(branches), v);
  }

  /** The shape of a node that is rewritten: it has no `oneOf` of its own, what is below its union is shaped, and no
      value is both an integer and a number alternative. A reference hides its siblings. */
  ghost predicate NodeShaped(sem: Semantics, m: map<string, Json>, defs: map<string, Json>) {
    Rewritten(m, defs) && !IsRef(m) ==>
      && "oneOf" !in m
      && ShapedAll(sem, m["anyOf"].items, defs, {})
      && !Overlaps(GroupsOf(m, defs))
  }

  lemma RewrittenUnion(m: map<string, Json>, defs: map<string, Json>)
    requires Rewritten(m, defs) && !IsRef(m)
    ensures m["anyOf"].Arr? && BranchesOfAll(m["anyOf"].items, defs, {}) == Branches(Obj(m), defs, {})
  {
    assert !IsAnnotation("anyOf");
  }

  lemma OtherKeywordsKept(sem: Semantics, m: map<string, Json>, other: map<string, Json>, key: string, v: Json)
    requires other - {"anyOf", "oneOf"} == m - {"anyOf", "oneOf"} && key in m && key != "anyOf" && key != "oneOf"
    ensures key in other && Keyword(sem, m, key, v) == Keyword(sem, other, key, v)
  {
    hide Keyword;
    forall k | k != "anyOf" && k != "oneOf" ensures SameAt(m, other, k) {
      assert k in m <==> k in m - {"anyOf", "oneOf"};
      assert k in other <==> k in other - {"anyOf", "oneOf"};
    }
    KeywordsAgree(sem, m, other, key, v);
  }

  /** A rewritten node accepts what it accepted. */
  lemma RewriteMeans(sem: Semantics, m: map<string, Json>, defs: map<string, Json>, v: Json)
    requires Consistent(sem, defs) && NodeShaped(sem, m, defs)
    ensures Accepts(sem, Obj(Rewrite(m, defs)), v) == Accepts(sem, Obj(m), v)
  {
    hide Keyword, AnyOf, ExactlyOne, InBoth, Alternatives, Overlaps, Consistent, ShapedAll, Branches, BranchesOfAll,
      GroupAll;
    var r := Rewrite(m, defs);
    if Rewritten(m, defs) && !IsRef(m) {
      RewrittenUnion(m, defs);
      var nodes, groups := m["anyOf"].items, GroupsOf(m, defs);
      UnionMeaning(sem, nodes, defs, v);
      if InBoth(groups, v) { SharedOverlaps(groups, v); }
      UnionKeywords(sem, m, r, nodes, Alternatives(groups), v);
      assert r - {"anyOf", "oneOf"} == m - {"anyOf", "oneOf"};
      forall key | key in m && key != "anyOf" ensures Keyword(sem, m, key, v) == Keyword(sem, r, key, v) {
        OtherKeywordsKept(sem, m, r, key, v);
      }
    }
  }

  lemma UnionKeywords(sem: Semantics, m: map<string, Json>, r: map<string, Json>, nodes: seq<Json>,
                      alternatives: seq<Json>, v: Json)
    requires "anyOf" in m && m["anyOf"] == Arr(nodes) && "oneOf" in r && r["oneOf"] == Arr(alternatives)
    ensures Keyword(sem, m, "anyOf", v) == AnyOf(sem, nodes, v)
    ensures Keyword(sem, r, "oneOf", v) == ExactlyOne(sem, alternatives, v)
  {
    hide AnyOf, ExactlyOne;
  }

  /** A schema node, rewritten in place. */
  class SchemaNode {
    var fields: map<string, Json>

    constructor (m: map<string, Json>)
      ensures fields == m
    {
      fields := m;
    }

    /** The closure of `normalize_scalar_unions`. */
    method Normalize(defs: map<string, Json>)
      modifies this
      ensures fields == Rewrite(old(fields), defs)
    {
      if "anyOf" in fields {
        var branches, after := ScalarBranches(Obj(fields), defs, {});
        if branches.Some? {
          var groups := Group(branches.value);
          fields := fields - {"anyOf"};
          var alternatives := Collect(groups);
          fields := fields["oneOf" := Arr(alternatives)];
        }
      }
    }
  }

  lemma NoBranch()
    ensures GroupAll([]) == map[]
  {
  }

  lemma GroupStep(branches: seq<Json>, i: nat)
    requires AllLeaves(branches) && i < |branches|
    ensures GroupAll(branches[..i + 1])
            == AddBranch(GroupAll(branches[..i]), KindOf(branches[i]), EnumOf(branches[i]))
  {
    hide AddBranch;
    assert branches[..i + 1][..i] == branches[..i];
  }

  /** The loop over the branches. */
  method Group(branches: seq<Json>) returns (groups: Groups)
    requires AllLeaves(branches)
    ensures groups == GroupAll(branches)
  {
    hide GroupAll, KindOf, EnumOf;
    groups := map[];
    NoBranch();
    var i := 0;
    while i < |branches|
      invariant i <= |branches| && groups == GroupAll(branches[..i])
    {
      var kind, values := KindOf(branches[i]), EnumOf(branches[i]);
      GroupStep(branches, i);
      if kind !in groups {
        groups := groups[kind := values];
      } else if groups[kind].Some? && values.Some? {
        groups := groups[kind := Some(groups[kind].value + values.value)];
      } else {
        groups := groups[kind := None];
      }
      i := i + 1;
    }
    assert branches[..i] == branches;
  }

  /** The loop over the groups, which drops repeated values. */
  method Collect(groups: Groups) returns (alternatives: seq<Json>)
    ensures alternatives == Alternatives(groups)
  {
    hide KindsOf, Unique;
    alternatives := [];
    var kinds := KindsOf(groups, |KINDS|);
    assert KINDS[..|KINDS|] == KINDS;
    var i := 0;
    while i < |kinds|
      invariant i <= |kinds| && alternatives == Alternatives(groups)[..i]
    {
      var branch := map["type" := Str(kinds[i])];
      if groups[kinds[i]].Some? {
        var unique := DropRepeats(groups[kinds[i]].value);
        branch := branch["enum" := Arr(unique)];
      }
      alternatives := alternatives + [Obj(branch)];
      i := i + 1;
    }
  }

  method DropRepeats(values: seq<Json>) returns (unique: seq<Json>)
    ensures unique == Unique(values)
  {
    unique := [];
    var i := 0;
    while i < |values|
      invariant i <= |values| && unique == Unique(values[..i])
    {
      assert values[..i + 1][..i] == values[..i];
      if values[i] !in unique {
        unique := unique + [values[i]];
      }
      i := i + 1;
    }
    assert values[..i] == values;
  }

  // ----- the whole schema -----------------------------------------------------------------------------------------

  /** `each_schema` with that closure: a node is rewritten first, then the schemas below it. The new alternatives hold
      no union, so the walk leaves them as they are (`PassKeepsAlternative`). */
  function Pass(j: Json, defs: map<string, Json>): Json
    decreases j, 1
  {
    match j
    case Obj(m) =>
      var r := Rewrite(m, defs);
      Obj(map key | key in r :: if Rewritten(m, defs) && key == "oneOf" then r[key] else PassChild(m, key, defs))
    case _ => j
  }

  function PassChild(m: map<string, Json>, key: string, defs: map<string, Json>): Json
    requires key in m
    decreases Obj(m), 0
  {
    var x := m[key];
    if IsNamedKey(key) && x.Obj? then Obj(map k | k in x.fields :: Pass(x.fields[k], defs))
    else if IsListKey(key) && x.Arr? then Arr(seq(|x.items|, i requires 0 <= i < |x.items| => Pass(x.items[i], defs)))
    else if IsOneKey(key) then Pass(x, defs)
    else x
  }

  /** Every node of the schema that the walk reaches has the shape. */
  ghost predicate TreeShaped(sem: Semantics, j: Json, defs: map<string, Json>)
    decreases j, 1
  {
    j.Obj? ==>
      && NodeShaped(sem, j.fields, defs)
      && forall key :: key in j.fields ==> ChildShaped(sem, j.fields, key, defs)
  }

  ghost predicate ChildShaped(sem: Semantics, m: map<string, Json>, key: string, defs: map<string, Json>)
    requires key in m
    decreases Obj(m), 0
  {
    var x := m[key];
    && (IsNamedKey(key) && x.Obj? ==> forall k :: k in x.fields ==> TreeShaped(sem, x.fields[k], defs))
    && (IsListKey(key) && x.Arr? ==> forall i :: 0 <= i < |x.items| ==> TreeShaped(sem, x.items[i], defs))
    && (IsOneKey(key) && !x.Arr? ==> TreeShaped(sem, x, defs))
  }

  ghost predicate Equivalent(sem: Semantics, a: Json, b: Json) {
    forall v :: Accepts(sem, a, v) == Accepts(sem, b, v)
  }

  /** `b` is `a` with equivalent schemas in the places where the keyword `key` holds schemas. */
  ghost predicate Corresponds(sem: Semantics, key: string, a: Json, b: Json) {
    || a == b
    || (IsNamedKey(key) && a.Obj? && b.Obj? && a.fields.Keys == b.fields.Keys
        && forall k :: k in a.fields ==> Equivalent(sem, a.fields[k], b.fields[k]))
    || (IsListKey(key) && a.Arr? && b.Arr? && |a.items| == |b.items|
        && forall i :: 0 <= i < |a.items| ==> Equivalent(sem, a.items[i], b.items[i]))
    || (IsOneKey(key) && !a.Arr? && !b.Arr? && Equivalent(sem, a, b))
  }

  lemma ListCongruence(sem: Semantics, key: string, xs: seq<Json>, ys: seq<Json>, v: Json)
    requires |xs| == |ys| && forall i :: 0 <= i < |xs| ==> Equivalent(sem, xs[i], ys[i])
    ensures ListKeyword(sem, key, xs, v) ==> ListKeyword(sem, key, ys, v)
  {
    hide Accepts, AnyOf, ExactlyOne, Equivalent;
    forall i, w | 0 <= i < |xs| ensures Accepts(sem, xs[i], w) == Accepts(sem, ys[i], w) {
      EquivalentAt(sem, xs[i], ys[i], w);
    }
    SelectionsAgree(sem, xs, ys, v);
  }

  lemma EquivalentAt(sem: Semantics, a: Json, b: Json, v: Json)
    requires Equivalent(sem, a, b)
    ensures Accepts(sem, a, v) == Accepts(sem, b, v)
  {
  }

  lemma SelectionsAgree(sem: Semantics, xs: seq<Json>, ys: seq<Json>, v: Json)
    requires |xs| == |ys| && forall i :: 0 <= i < |xs| ==> Accepts(sem, xs[i], v) == Accepts(sem, ys[i], v)
    ensures AnyOf(sem, xs, v) ==> AnyOf(sem, ys, v)
    ensures ExactlyOne(sem, xs, v) ==> ExactlyOne(sem, ys, v)
  {
    hide Accepts;
    if i :| 0 <= i < |xs| && Accepts(sem, xs[i], v) && NoneBut(sem, xs, i, v) {
      assert Accepts(sem, ys[i], v) && NoneBut(sem, ys, i, v);
    }
    if i: nat :| i < |xs| && Accepts(sem, xs[i], v) {
      assert Accepts(sem, ys[i], v);
    }
  }

  lemma NamedCongruence(sem: Semantics, key: string, xs: map<string, Json>, ys: map<string, Json>, v: Json)
    requires xs.Keys == ys.Keys && forall k :: k in xs ==> Equivalent(sem, xs[k], ys[k])
    ensures NamedKeyword(sem, key, xs, v) == NamedKeyword(sem, key, ys, v)
  {
    hide Accepts;
    forall k, w | k in xs ensures Accepts(sem, xs[k], w) == Accepts(sem, ys[k], w) {
      assert Equivalent(sem, xs[k], ys[k]);
    }
  }

  /** Node `b` is node `a` with equivalent schemas below it. */
  ghost predicate NodeCorresponds(sem: Semantics, a: map<string, Json>, b: map<string, Json>) {
    a.Keys == b.Keys && forall key :: key in a ==> Corresponds(sem, key, a[key], b[key])
  }

  lemma NamedCorresponds(sem: Semantics, a: map<string, Json>, b: map<string, Json>, name: string)
    requires NodeCorresponds(sem, a, b)
    ensures Named(sem, a, name) == Named(sem, b, name)
  {
    hide Equivalent;
    if "properties" in a { assert Corresponds(sem, "properties", a["properties"], b["properties"]); }
    if "patternProperties" in a {
      assert Corresponds(sem, "patternProperties", a["patternProperties"], b["patternProperties"]);
    }
  }

  lemma OneCongruence(sem: Semantics, a: map<string, Json>, b: map<string, Json>, key: string, v: Json)
    requires NodeCorresponds(sem, a, b) && key in a && Equivalent(sem, a[key], b[key])
    requires forall k :: k in ["then", "else"] && k in a ==> Equivalent(sem, a[k], b[k])
    ensures OneKeyword(sem, a, key, v) == OneKeyword(sem, b, key, v)
  {
    hide Accepts, Corresponds, Named;
    forall name ensures Named(sem, a, name) == Named(sem, b, name) { NamedCorresponds(sem, a, b, name); }
    forall w ensures Accepts(sem, a[key], w) == Accepts(sem, b[key], w) {}
    if "then" in a { assert "then" in ["then", "else"] && Equivalent(sem, a["then"], b["then"]); }
    if "else" in a { assert "else" in ["then", "else"] && Equivalent(sem, a["else"], b["else"]); }
  }

  lemma BranchCorresponds(sem: Semantics, a: map<string, Json>, b: map<string, Json>, key: string)
    requires NodeCorresponds(sem, a, b) && key in ["then", "else"] && key in a
    ensures Equivalent(sem, a[key], b[key])
  {
    hide Accepts;
    assert Corresponds(sem, key, a[key], b[key]);
  }

  lemma Symmetric(sem: Semantics, xs: seq<Json>, ys: seq<Json>)
    requires |xs| == |ys| && forall i :: 0 <= i < |xs| ==> Equivalent(sem, xs[i], ys[i])
    ensures forall i :: 0 <= i < |ys| ==> Equivalent(sem, ys[i], xs[i])
  {
    hide Accepts;
  }

  lemma KeywordCongruence(sem: Semantics, a: map<string, Json>, b: map<string, Json>, key: string, v: Json)
    requires NodeCorresponds(sem, a, b) && key in a
    ensures Keyword(sem, a, key, v) == Keyword(sem, b, key, v)
  {
    hide Accepts, Equivalent, ListKeyword, NamedKeyword, OneKeyword, TypeAccepts, EnumAccepts, NodeCorresponds;
    hide IsNamedKey, IsListKey, IsOneKey, Same;
    KeysAreExclusive(key);
    CorrespondsAt(sem, a, b, key);
    var x, y := a[key], b[key];
    if IsNamedKey(key) && x.Obj? && x != y {
      NamedCongruence(sem, key, x.fields, y.fields, v);
    } else if IsListKey(key) && x.Arr? && x != y {
      ListCongruence(sem, key, x.items, y.items, v);
      Symmetric(sem, x.items, y.items);
      ListCongruence(sem, key, y.items, x.items, v);
    } else if IsOneKey(key) {
      if x == y { Reflexive(sem, x); }
      OneKeyCongruence(sem, a, b, key, v);
    }
  }

  lemma KeysAreExclusive(key: string)
    ensures !(IsNamedKey(key) && IsListKey(key)) && !(IsNamedKey(key) && IsOneKey(key))
    ensures IsNamedKey(key) || IsListKey(key) || IsOneKey(key) ==> key != "const" && key != "type" && key != "enum"
  {
  }

  lemma CorrespondsAt(sem: Semantics, a: map<string, Json>, b: map<string, Json>, key: string)
    requires NodeCorresponds(sem, a, b) && key in a
    ensures key in b && Corresponds(sem, key, a[key], b[key])
  {
  }

  lemma Reflexive(sem: Semantics, a: Json)
    ensures Equivalent(sem, a, a)
  {
  }

  lemma OneKeyCongruence(sem: Semantics, a: map<string, Json>, b: map<string, Json>, key: string, v: Json)
    requires NodeCorresponds(sem, a, b) && key in a && Equivalent(sem, a[key], b[key])
    ensures OneKeyword(sem, a, key, v) == OneKeyword(sem, b, key, v)
  {
    hide Accepts, Equivalent, OneKeyword;
    forall k | k in ["then", "else"] && k in a ensures Equivalent(sem, a[k], b[k]) { BranchCorresponds(sem, a, b, k); }
    OneCongruence(sem, a, b, key, v);
  }

  /** Equivalent schemas below make equivalent nodes. */
  lemma NodeCongruence(sem: Semantics, a: map<string, Json>, b: map<string, Json>)
    requires NodeCorresponds(sem, a, b)
    ensures Equivalent(sem, Obj(a), Obj(b))
  {
    hide Keyword, Corresponds;
    RefCorresponds(sem, a, b);
    forall v ensures Accepts(sem, Obj(a), v) == Accepts(sem, Obj(b), v) {
      forall key | key in a ensures Keyword(sem, a, key, v) == Keyword(sem, b, key, v) {
        KeywordCongruence(sem, a, b, key, v);
      }
    }
  }

  lemma RefCorresponds(sem: Semantics, a: map<string, Json>, b: map<string, Json>)
    requires NodeCorresponds(sem, a, b)
    ensures a.Keys == b.Keys && SameAt(a, b, "$ref")
  {
    hide Equivalent;
    if "$ref" in a { assert Corresponds(sem, "$ref", a["$ref"], b["$ref"]); }
  }

  /** The walk keeps the meaning of every shaped schema. */
  lemma {:induction false} PassMeans(sem: Semantics, j: Json, defs: map<string, Json>)
    requires Consistent(sem, defs) && TreeShaped(sem, j, defs)
    ensures Equivalent(sem, j, Pass(j, defs))
    decreases j, 1
  {
    hide Accepts, Consistent, NodeShaped, Rewrite, Rewritten, PassChild;
    if j.Obj? {
      var m := j.fields;
      var r, p := Rewrite(m, defs), Pass(j, defs).fields;
      assert j == Obj(m);
      forall v ensures Accepts(sem, Obj(r), v) == Accepts(sem, j, v) { RewriteMeans(sem, m, defs, v); }
      RewriteKeys(m, defs);
      forall key | key in r ensures Corresponds(sem, key, r[key], p[key]) {
        if !(Rewritten(m, defs) && key == "oneOf") {
          ChildMeans(sem, m, key, defs);
        }
      }
      NodeCongruence(sem, r, p);
    }
  }

  lemma RewriteKeys(m: map<string, Json>, defs: map<string, Json>)
    ensures forall key :: key in Rewrite(m, defs) && !(Rewritten(m, defs) && key == "oneOf") ==>
              key in m && Rewrite(m, defs)[key] == m[key]
  {
    hide Rewritten, Alternatives;
  }

  lemma {:induction false} ChildMeans(sem: Semantics, m: map<string, Json>, key: string, defs: map<string, Json>)
    requires Consistent(sem, defs) && key in m && ChildShaped(sem, m, key, defs)
    ensures Corresponds(sem, key, m[key], PassChild(m, key, defs))
    decreases Obj(m), 0
  {
    hide Equivalent, Consistent, TreeShaped, Pass;
    var x := m[key];
    if IsNamedKey(key) && x.Obj? {
      forall k | k in x.fields ensures Equivalent(sem, x.fields[k], Pass(x.fields[k], defs)) {
        PassMeans(sem, x.fields[k], defs);
      }
    } else if IsListKey(key) && x.Arr? {
      forall i | 0 <= i < |x.items| ensures Equivalent(sem, x.items[i], Pass(x.items[i], defs)) {
        PassMeans(sem, x.items[i], defs);
      }
    } else if IsOneKey(key) && !x.Arr? {
      PassMeans(sem, x, defs);
      PassKind(x, defs);
    } else if IsOneKey(key) {
      PassKind(x, defs);
    }
  }

  lemma PassKind(x: Json, defs: map<string, Json>)
    ensures !x.Arr? ==> !Pass(x, defs).Arr?
    ensures x.Arr? ==> Pass(x, defs) == x
  {
    hide Rewrite, PassChild;
  }

  /** The walk leaves the new alternatives as they are. */
  lemma PassKeepsAlternative(kind: string, values: Option<seq<Json>>, defs: map<string, Json>)
    ensures Pass(Alternative(kind, values), defs) == Alternative(kind, values)
  {
    hide Rewrite, Rewritten, PassChild;
    var m := Alternative(kind, values).fields;
    NotRewritten(m, defs);
    forall key | key in m ensures PassChild(m, key, defs) == m[key] { NoSchemaBelow(m, key, defs); }
  }

  lemma NoSchemaBelow(m: map<string, Json>, key: string, defs: map<string, Json>)
    requires key in m && (key == "type" || key == "enum")
    ensures PassChild(m, key, defs) == m[key]
  {
    hide Pass;
  }

  lemma NotRewritten(m: map<string, Json>, defs: map<string, Json>)
    requires "anyOf" !in m
    ensures !Rewritten(m, defs) && Rewrite(m, defs) == m
  {
  }

  function DefinitionsOf(root: map<string, Json>): map<string, Json> {
    if "definitions" in root && root["definitions"].Obj? then root["definitions"].fields else map[]
  }

  /** `normalize_scalar_unions` on a whole schema: every interpretation of the references that satisfies the
      definitions satisfies the rewritten ones, and under it the schema accepts the same values as before. */
  lemma NormalizeKeepsMeaning(sem: Semantics, root: map<string, Json>)
    requires var defs := DefinitionsOf(root); Consistent(sem, defs) && TreeShaped(sem, Obj(root), defs)
    ensures var defs := DefinitionsOf(root);
            var after := Pass(Obj(root), defs);
            && Equivalent(sem, Obj(root), after)
            && DefinitionsOf(after.fields).Keys == defs.Keys
            && Consistent(sem, DefinitionsOf(after.fields))
  {
    hide Accepts, NodeShaped, ListKeyword;
    var defs := DefinitionsOf(root);
    PassMeans(sem, Obj(root), defs);
    DefinitionsPassed(sem, root);
  }

  lemma DefinitionsPassed(sem: Semantics, root: map<string, Json>)
    requires var defs := DefinitionsOf(root); Consistent(sem, defs) && TreeShaped(sem, Obj(root), defs)
    ensures var defs := DefinitionsOf(root);
            var after := DefinitionsOf(Pass(Obj(root), defs).fields);
            after.Keys == defs.Keys && forall name :: name in defs ==> Equivalent(sem, defs[name], after[name])
  {
    hide Accepts, Equivalent, NodeShaped, Consistent, Rewritten, TreeShaped;
    var defs := DefinitionsOf(root);
    ShapedChild(sem, Obj(root), "definitions", defs);
    RewriteKeepsOthers(root, "definitions", defs);
    if "definitions" in root && root["definitions"].Obj? {
      forall name | name in defs ensures Equivalent(sem, defs[name], Pass(defs[name], defs)) {
        PassMeans(sem, defs[name], defs);
      }
    }
  }

  lemma ShapedChild(sem: Semantics, j: Json, key: string, defs: map<string, Json>)
    requires TreeShaped(sem, j, defs) && j.Obj?
    ensures key in j.fields ==> ChildShaped(sem, j.fields, key, defs)
  {
  }

  lemma RewriteKeepsOthers(m: map<string, Json>, key: string, defs: map<string, Json>)
    requires key != "anyOf" && key != "oneOf"
    ensures SameAt(m, Rewrite(m, defs), key)
  {
    hide Alternatives, Rewritten;
  }

  // ----- outside the shape ----------------------------------------------------------------------------------------

  /** A union of an integer and a number accepts 0; the rewritten one does not. */
  lemma IntegerAndNumber(sem: Semantics)
    requires Consistent(sem, map[])
    ensures var nodes := [Alternative("integer", None), Alternative("number", None)];
            && BranchesOfAll(nodes, map[], {}) == Some(nodes)
            && AnyOf(sem, nodes, Int(0))
            && !ExactlyOne(sem, Alternatives(GroupAll(nodes)), Int(0))
  {
    hide Accepts, AnyOf, ExactlyOne, Alternatives, Consistent, BranchesOfAll, GroupAll, ShapedAll;
    var a, b := Alternative("integer", None), Alternative("number", None);
    LeafBranches(a, b);
    LeavesShaped(sem, a, b);
    UnionMeaning(sem, [a, b], map[], Int(0));
    TwoGroups(a, b);
  }

  lemma TwoGroups(a: Json, b: Json)
    requires a == Alternative("integer", None) && b == Alternative("number", None)
    ensures GroupAll([a, b]) == map["integer" := None, "number" := None]
  {
    NoBranch();
    assert [a, b][..2] == [a, b] && [a, b][..0] == [];
    GroupStep([a, b], 0);
    GroupStep([a, b], 1);
  }

  lemma LeafBranches(a: Json, b: Json)
    requires a.Obj? && b.Obj? && IsLeaf(a.fields) && IsLeaf(b.fields)
    ensures BranchesOfAll([a, b], map[], {}) == Some([a, b])
  {
    hide Branches;
    LeafBranch(a);
    LeafBranch(b);
    OneMore([], a, map[], {});
    OneMore([a], b, map[], {});
    assert [] + [a] == [a] && [a] + [b] == [a, b];
  }

  lemma OneMore(nodes: seq<Json>, last: Json, defs: map<string, Json>, seen: set<string>)
    ensures BranchesOfAll([], defs, seen) == Some([])
    ensures BranchesOfAll(nodes, defs, seen).Some? && Branches(last, defs, seen).Some? ==>
              BranchesOfAll(nodes + [last], defs, seen)
              == Some(BranchesOfAll(nodes, defs, seen).value + Branches(last, defs, seen).value)
  {
    hide Branches;
    assert (nodes + [last])[..|nodes|] == nodes;
  }

  lemma LeafBranch(a: Json)
    requires a.Obj? && IsLeaf(a.fields)
    ensures Branches(a, map[], {}) == Some([a]) && !IsRef(a.fields) && UnionOf(a.fields).None?
  {
    assert !IsAnnotation("$ref") && !IsAnnotation("anyOf") && !IsAnnotation("oneOf");
  }

  lemma LeavesShaped(sem: Semantics, a: Json, b: Json)
    requires a.Obj? && b.Obj? && IsLeaf(a.fields) && IsLeaf(b.fields)
    ensures ShapedAll(sem, [a, b], map[], {})
  {
    LeafBranch(a);
    LeafBranch(b);
  }
}
