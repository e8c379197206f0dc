/** Two smaller rewritings of the schema generators: a `const` becomes a one-value `enum`, and an `enum` of several JSON
    types becomes a `oneOf` with one branch a type. */
module SchemaConstants {
  import opened JsonModel
  import opened ScalarUnions
  import opened Options

  // ----- const ----------------------------------------------------------------------------------------------------

  function PinnedType(c: Json): Option<string> {
    match c
    case Bool(_) => Some("boolean")
    case Str(_) => Some("string")
    case Int(_) => Some("integer")
    case Float(_) => Some("number")
    case _ => None
  }

  predicate Pinned(m: map<string, Json>) {
    "const" in m && PinnedType(m["const"]).Some?
  }

  /** `pin_const`. */
  function PinConst(m: map<string, Json>): map<string, Json> {
    if !Pinned(m) then m
    else
      var pinned := (m - {"const"})["enum" := Arr([m["const"]])];
      if "type" in m then pinned else pinned["type" := Str(PinnedType(m["const"]).value)]
  }

  ghost predicate TypeAllows(m: map<string, Json>, v: Json) {
    "type" in m ==> TypeAccepts(m["type"], v)
  }

  ghost predicate EnumAllows(m: map<string, Json>, v: Json) {
    "enum" in m ==> EnumAccepts(m["enum"], v)
  }

  /** The node says no more than its type and its values. */
  predicate OnlyValues(m: map<string, Json>) {
    forall key :: key in m ==> key == "const" || key == "enum" || key == "type" || IsAnnotation(key)
  }

  /** Equal instances have the same types. */
  lemma SameType(a: Json, b: Json, kind: string)
    requires Same(a, b)
    ensures HasType(a, kind) == HasType(b, kind)
  {
  }

  lemma SameTypes(a: Json, b: Json, x: Json)
    requires Same(a, b)
    ensures TypeAccepts(x, a) == TypeAccepts(x, b)
  {
    hide HasType, Same;
    if x.Str? {
      SameType(a, b, x.s);
    } else if x.Arr? {
      forall i | 0 <= i < |x.items| && x.items[i].Str? ensures HasType(a, x.items[i].s) == HasType(b, x.items[i].s) {
        SameType(a, b, x.items[i].s);
      }
    }
  }

  /** For a scalar `c`, the values equal to `c` are interchangeable. */
  lemma SameScalar(e: Json, c: Json, v: Json)
    requires PinnedType(c).Some? && Same(c, v)
    ensures Same(e, v) <==> Same(e, c)
    ensures Same(c, c)
  {
  }

  lemma SameEnum(x: Json, c: Json, v: Json)
    requires PinnedType(c).Some? && Same(c, v)
    ensures EnumAccepts(x, v) <==> EnumAccepts(x, c)
  {
    hide Same, PinnedType;
    if x.Arr? {
      forall i | 0 <= i < |x.items| ensures Same(x.items[i], v) <==> Same(x.items[i], c) {
        SameScalar(x.items[i], c, v);
      }
    }
  }

  lemma PinnedTypeAccepts(c: Json, v: Json)
    requires PinnedType(c).Some? && Same(c, v)
    ensures HasType(v, PinnedType(c).value)
  {
  }

  lemma NotAnnotations()
    ensures !IsAnnotation("const") && !IsAnnotation("enum") && !IsAnnotation("type") && !IsAnnotation("$ref")
    ensures !IsAnnotation("oneOf")
  {
  }

  lemma ValueKeywords(sem: Semantics, m: map<string, Json>, v: Json)
    ensures "type" in m ==> Keyword(sem, m, "type", v) == TypeAccepts(m["type"], v)
    ensures "enum" in m ==> Keyword(sem, m, "enum", v) == EnumAccepts(m["enum"], v)
    ensures "const" in m ==> Keyword(sem, m, "const", v) == Same(m["const"], v)
  {
    hide TypeAccepts, EnumAccepts, Same, ListKeyword, NamedKeyword, OneKeyword;
    NotAnnotations();
  }

  /** What a node accepts, with its type and its values taken apart from the rest. */
  ghost predicate OthersAccept(sem: Semantics, m: map<string, Json>, v: Json) {
    forall key :: key in m && key !in {"const", "enum", "type"} ==> Keyword(sem, m, key, v)
  }

  lemma AcceptsParts(sem: Semantics, m: map<string, Json>, v: Json)
    requires !IsRef(m)
    ensures Accepts(sem, Obj(m), v) <==>
              && OthersAccept(sem, m, v) && TypeAllows(m, v) && EnumAllows(m, v)
              && ("const" in m ==> Same(m["const"], v))
  {
    hide Keyword, TypeAccepts, EnumAccepts, Same;
    ValueKeywords(sem, m, v);
  }

  lemma OthersKept(sem: Semantics, m: map<string, Json>, other: map<string, Json>, v: Json)
    requires forall key :: key !in {"const", "enum", "type"} ==> SameAt(m, other, key)
    ensures OthersAccept(sem, m, v) == OthersAccept(sem, other, v) && IsRef(m) == IsRef(other)
  {
    hide Keyword;
    assert SameContext(m, other) && SameAt(m, other, "$ref");
    forall key | key !in {"const", "enum", "type"}
      ensures SameAt(m, other, key) && (key in m ==> Keyword(sem, m, key, v) == Keyword(sem, other, key, v))
    {
      assert SameAt(m, other, key);
      if key in m {
        KeywordsAgree(sem, m, other, key, v);
      }
    }
  }

  /** The pinned node accepts the constant's equals that the other keywords and the type accept; its own `enum` is
      forgotten. */
  lemma PinnedMeans(sem: Semantics, m: map<string, Json>, v: Json)
    requires Pinned(m) && !IsRef(m)
    ensures Accepts(sem, Obj(PinConst(m)), v) <==>
              OthersAccept(sem, m, v) && TypeAllows(m, v) && Same(m["const"], v)
  {
    hide Accepts, OthersAccept, Same, TypeAccepts, PinnedType;
    var c, p := m["const"], PinConst(m);
    OthersKept(sem, m, p, v);
    AcceptsParts(sem, p, v);
    assert [c][0] == c;
    assert EnumAccepts(Arr([c]), v) == Same(c, v);
    if Same(c, v) {
      PinnedTypeAccepts(c, v);
      assert "type" !in m ==> TypeAccepts(p["type"], v) by { PinnedTypeIsAccepted(PinnedType(c).value, v); }
    }
  }

  lemma PinnedTypeIsAccepted(kind: string, v: Json)
    requires HasType(v, kind)
    ensures TypeAccepts(Str(kind), v)
  {
  }

  /** Whether pinning the constant loses nothing: an `enum` beside it has the constant too, or the type refuses it. */
  ghost predicate PinSafe(m: map<string, Json>)
    requires "const" in m
  {
    TypeAllows(m, m["const"]) ==> EnumAllows(m, m["const"])
  }

  /** `pin_const` keeps the accepted values of a node exactly when the constant is among the values of an `enum` beside
      it (or the type refuses the constant). */
  lemma PinExact(sem: Semantics, m: map<string, Json>)
    requires Pinned(m)
    ensures PinSafe(m) || IsRef(m) ==> Equivalent(sem, Obj(PinConst(m)), Obj(m))
    ensures OnlyValues(m) && Equivalent(sem, Obj(PinConst(m)), Obj(m)) ==> PinSafe(m)
  {
    hide Accepts, OthersAccept, Same, TypeAccepts, EnumAccepts, PinConst, PinnedType, OnlyValues;
    var c := m["const"];
    forall v | PinSafe(m) ensures Accepts(sem, Obj(PinConst(m)), v) == Accepts(sem, Obj(m), v) {
      PinKeeps(sem, m, v);
    }
    if IsRef(m) {
      forall v ensures Accepts(sem, Obj(PinConst(m)), v) == Accepts(sem, Obj(m), v) { PinKeepsRef(sem, m, v); }
    }
    if OnlyValues(m) && Accepts(sem, Obj(PinConst(m)), c) == Accepts(sem, Obj(m), c) {
      PinNeeds(sem, m);
    }
  }

  lemma PinKeeps(sem: Semantics, m: map<string, Json>, v: Json)
    requires Pinned(m) && PinSafe(m)
    ensures Accepts(sem, Obj(PinConst(m)), v) == Accepts(sem, Obj(m), v)
  {
    hide Accepts, OthersAccept, Same, TypeAccepts, EnumAccepts, PinConst, PinnedType;
    var c := m["const"];
    if IsRef(m) {
      PinKeepsRef(sem, m, v);
    } else {
      PinnedMeans(sem, m, v);
      AcceptsParts(sem, m, v);
      if Same(c, v) {
        if "type" in m { SameTypes(c, v, m["type"]); }
        if "enum" in m { SameEnum(m["enum"], c, v); }
      }
    }
  }

  lemma PinKeepsRef(sem: Semantics, m: map<string, Json>, v: Json)
    requires IsRef(m)
    ensures Accepts(sem, Obj(PinConst(m)), v) == Accepts(sem, Obj(m), v)
  {
    hide Keyword, PinnedType;
  }

  lemma PinNeeds(sem: Semantics, m: map<string, Json>)
    requires Pinned(m) && OnlyValues(m)
    requires Accepts(sem, Obj(PinConst(m)), m["const"]) == Accepts(sem, Obj(m), m["const"])
    ensures PinSafe(m)
  {
    hide Accepts, Keyword, TypeAccepts, EnumAccepts, PinConst;
    var c := m["const"];
    NotAnnotations();
    PinnedMeans(sem, m, c);
    AcceptsParts(sem, m, c);
    AnnotationsHold(sem, m, c);
    SameIsReflexive(c);
  }

  /** A node no value meets, whose pinned form accepts its constant. */
  lemma PinForgetsEnum(sem: Semantics)
    ensures var m := map["const" := Str("a"), "enum" := Arr([Str("b")])];
            Accepts(sem, Obj(PinConst(m)), Str("a")) && !Accepts(sem, Obj(m), Str("a"))
  {
    hide Accepts, OthersAccept;
    var m := map["const" := Str("a"), "enum" := Arr([Str("b")])];
    PinnedMeans(sem, m, Str("a"));
    AcceptsParts(sem, m, Str("a"));
    NothingElse(sem, m, Str("a"));
  }

  lemma NothingElse(sem: Semantics, m: map<string, Json>, v: Json)
    requires OnlyValues(m)
    ensures OthersAccept(sem, m, v)
  {
    hide Keyword;
    AnnotationsHold(sem, m, v);
  }

  /** The type the engine's generator gives a constant; it refuses to go on for the constants without one. */
  function OverType(c: Json): Option<string> {
    if IsNumber(c) then Some("number") else PinnedType(c)
  }

  /** The engine's pinning of a constant, which puts its type in place of the one that is there. */
  function PinOver(m: map<string, Json>): Option<map<string, Json>> {
    if "const" !in m then Some(m)
    else
      match OverType(m["const"])
      case None => None
      case Some(kind) => Some((m - {"const"})["type" := Str(kind)]["enum" := Arr([m["const"]])])
  }

  /** Whether that loses nothing: the type and the `enum` beside the constant allow it. */
  ghost predicate OverSafe(m: map<string, Json>)
    requires "const" in m
  {
    TypeAllows(m, m["const"]) && EnumAllows(m, m["const"])
  }

  lemma OverTypeAccepts(c: Json, v: Json)
    requires OverType(c).Some? && Same(c, v)
    ensures TypeAccepts(Str(OverType(c).value), v)
  {
  }

  /** The pinned node accepts the constant's equals that the other keywords accept. */
  lemma OverMeans(sem: Semantics, m: map<string, Json>, v: Json)
    requires "const" in m && PinOver(m).Some? && !IsRef(m)
    ensures Accepts(sem, Obj(PinOver(m).value), v) <==> OthersAccept(sem, m, v) && Same(m["const"], v)
  {
    hide Accepts, OthersAccept, Same, TypeAccepts, OverType;
    var c, p := m["const"], PinOver(m).value;
    OthersKept(sem, m, p, v);
    AcceptsParts(sem, p, v);
    assert [c][0] == c;
    assert EnumAccepts(Arr([c]), v) == Same(c, v);
    if Same(c, v) { OverTypeAccepts(c, v); }
  }

  /** The engine's pinning keeps the accepted values of a node exactly when the type and the `enum` beside the constant
      allow it. */
  lemma OverExact(sem: Semantics, m: map<string, Json>)
    requires "const" in m && PinOver(m).Some?
    ensures OverSafe(m) || IsRef(m) ==> Equivalent(sem, Obj(PinOver(m).value), Obj(m))
    ensures OnlyValues(m) && Equivalent(sem, Obj(PinOver(m).value), Obj(m)) ==> OverSafe(m)
  {
    hide Accepts, OthersAccept, Same, TypeAccepts, EnumAccepts, PinOver, OverType, OnlyValues;
    var c, p := m["const"], Obj(PinOver(m).value);
    forall v | OverSafe(m) || IsRef(m) ensures Accepts(sem, p, v) == Accepts(sem, Obj(m), v) {
      OverKeeps(sem, m, v);
    }
    if OnlyValues(m) && Accepts(sem, p, c) == Accepts(sem, Obj(m), c) {
      OverNeeds(sem, m);
    }
  }

  lemma OverKeeps(sem: Semantics, m: map<string, Json>, v: Json)
    requires "const" in m && PinOver(m).Some? && (OverSafe(m) || IsRef(m))
    ensures Accepts(sem, Obj(PinOver(m).value), v) == Accepts(sem, Obj(m), v)
  {
    hide Accepts, OthersAccept, Same, TypeAccepts, EnumAccepts, PinOver, OverType, PinnedType;
    var c := m["const"];
    OverIsScalar(m);
    if IsRef(m) {
      OverKeepsRef(sem, m, v);
    } else {
      OverMeans(sem, m, v);
      AcceptsParts(sem, m, v);
      if Same(c, v) {
        if "type" in m { SameTypes(c, v, m["type"]); }
        if "enum" in m { SameEnum(m["enum"], c, v); }
      }
    }
  }

  lemma OverIsScalar(m: map<string, Json>)
    requires "const" in m && PinOver(m).Some?
    ensures PinnedType(m["const"]).Some?
  {
  }

  lemma OverKeepsRef(sem: Semantics, m: map<string, Json>, v: Json)
    requires PinOver(m).Some? && IsRef(m)
    ensures Accepts(sem, Obj(PinOver(m).value), v) == Accepts(sem, Obj(m), v)
  {
    hide Keyword, OverType;
  }

  lemma OverNeeds(sem: Semantics, m: map<string, Json>)
    requires "const" in m && PinOver(m).Some? && OnlyValues(m)
    requires Accepts(sem, Obj(PinOver(m).value), m["const"]) == Accepts(sem, Obj(m), m["const"])
    ensures OverSafe(m)
  {
    hide Accepts, Keyword, TypeAccepts, EnumAccepts, PinOver;
    var c := m["const"];
    NotAnnotations();
    OverMeans(sem, m, c);
    AcceptsParts(sem, m, c);
    AnnotationsHold(sem, m, c);
    SameIsReflexive(c);
  }

  /** A constant beside a type that refuses it: no value is accepted, and the engine's form accepts the constant. */
  lemma OverForgetsType(sem: Semantics)
    ensures var m := map["const" := Int(1), "type" := Str("string")];
            PinOver(m).Some? && Accepts(sem, Obj(PinOver(m).value), Int(1)) && !Accepts(sem, Obj(m), Int(1))
  {
    hide Accepts, OthersAccept;
    var m := map["const" := Int(1), "type" := Str("string")];
    OverMeans(sem, m, Int(1));
    AcceptsParts(sem, m, Int(1));
    NothingElse(sem, m, Int(1));
  }

  // ----- mixed enums ----------------------------------------------------------------------------------------------

  /** The JSON type an `enum` value is grouped under; arrays and objects are passed over. */
  function EnumKind(v: Json): Option<string> {
    match v
    case Bool(_) => Some("boolean")
    case Str(_) => Some("string")
    case Int(_) => Some("number")
    case Float(_) => Some("number")
    case Null => Some("null")
    case _ => None
  }

  function ValueGroups(values: seq<Json>): map<string, seq<Json>> {
    if values == [] then map[]
    else
      var groups, last := ValueGroups(values[..|values| - 1]), values[|values| - 1];
      match EnumKind(last)
      case None => groups
      case Some(kind) => Grouped(groups, kind, last)
  }

  function Grouped(groups: map<string, seq<Json>>, kind: string, value: Json): map<string, seq<Json>> {
    groups[kind := (if kind in groups then groups[kind] else []) + [value]]
  }

  /** The loop over the values of the `enum`. */
  method GroupValues(values: seq<Json>) returns (groups: map<string, seq<Json>>)
    ensures groups == ValueGroups(values)
  {
    groups := map[];
    var i := 0;
    while i < |values|
      invariant i <= |values| && groups == ValueGroups(values[..i])
    {
      assert values[..i + 1][..i] == values[..i];
      var kind := EnumKind(values[i]);
      if kind.Some? {
        if kind.value !in groups {
          groups := groups[kind.value := []];
        }
        groups := groups[kind.value := groups[kind.value] + [values[i]]];
      }
      i := i + 1;
    }
    assert values[..i] == values;
  }

  function Branch(kind: string, values: seq<Json>): Json {
    Obj(map["type" := Str(kind), "enum" := Arr(values)])
  }

  function AsGroups(groups: map<string, seq<Json>>): Groups {
    map kind | kind in groups :: Some(groups[kind])
  }

  /** One branch a group, in the order of the map. */
  function Split(groups: map<string, seq<Json>>): (branches: seq<Json>)
  {
    var kinds := KindsOf(AsGroups(groups), |KINDS|);
    seq(|kinds|, i requires 0 <= i < |kinds| => Branch(kinds[i], groups[kinds[i]]))
  }

  predicate Mixed(m: map<string, Json>) {
    "enum" in m && m["enum"].Arr? && |ValueGroups(m["enum"].items)| > 1
  }

  /** The last rewriting of `prepare`. */
  function SplitEnum(m: map<string, Json>): map<string, Json> {
    if Mixed(m) then (m - {"type", "enum"})["oneOf" := Arr(Split(ValueGroups(m["enum"].items)))] else m
  }

  lemma {:induction false} ValueGroupsMean(values: seq<Json>)
    ensures forall kind :: kind in ValueGroups(values) ==> kind in ["boolean", "number", "null", "string"]
    ensures forall e, kind :: kind in ValueGroups(values) && e in ValueGroups(values)[kind] ==>
              e in values && EnumKind(e) == Some(kind)
    ensures forall e :: e in values && EnumKind(e).Some? ==>
              var kind := EnumKind(e).value; kind in ValueGroups(values) && e in ValueGroups(values)[kind]
  {
    if values != [] {
      ValueGroupsMean(values[..|values| - 1]);
      assert values == values[..|values| - 1] + [values[|values| - 1]];
    }
  }

  lemma EnumKindType(e: Json, v: Json)
    requires Same(e, v)
    ensures EnumKind(e) == EnumKind(v) && (EnumKind(v).Some? ==> HasType(v, EnumKind(v).value))
  {
  }

  /** A value has a listed equal that is a scalar. */
  ghost predicate ListedScalar(values: seq<Json>, v: Json) {
    exists i :: 0 <= i < |values| && EnumKind(values[i]).Some? && Same(values[i], v)
  }

  lemma ListedIsGrouped(values: seq<Json>, v: Json)
    requires ListedScalar(values, v)
    ensures InSome(AsGroups(ValueGroups(values)), v)
  {
    hide HasType, Same, EnumKind, ValueGroups;
    var groups := ValueGroups(values);
    ValueGroupsMean(values);
    var i :| 0 <= i < |values| && EnumKind(values[i]).Some? && Same(values[i], v);
    var kind := EnumKind(values[i]).value;
    EnumKindType(values[i], v);
    assert values[i] in groups[kind];
    assert In(AsGroups(groups), kind, v);
  }

  lemma GroupedIsListed(values: seq<Json>, kind: string, v: Json)
    requires In(AsGroups(ValueGroups(values)), kind, v)
    ensures ListedScalar(values, v) && kind in ["boolean", "number", "null", "string"]
  {
    hide HasType, Same, EnumKind, ValueGroups;
    var groups := ValueGroups(values);
    ValueGroupsMean(values);
    var j :| 0 <= j < |groups[kind]| && Same(groups[kind][j], v);
    assert groups[kind][j] in values;
  }

  lemma SplitGroups(values: seq<Json>, v: Json)
    ensures InSome(AsGroups(ValueGroups(values)), v) <==> ListedScalar(values, v)
    ensures !InBoth(AsGroups(ValueGroups(values)), v)
  {
    hide In, ListedScalar, ValueGroups;
    if ListedScalar(values, v) { ListedIsGrouped(values, v); }
    forall kind | In(AsGroups(ValueGroups(values)), kind, v)
      ensures ListedScalar(values, v) && kind in ["boolean", "number", "null", "string"]
    {
      GroupedIsListed(values, kind, v);
    }
  }

  lemma SplitReads(sem: Semantics, groups: map<string, seq<Json>>, v: Json)
    requires forall kind :: kind in groups ==> kind in KINDS
    ensures Reads(sem, Split(groups), KindsOf(AsGroups(groups), |KINDS|), AsGroups(groups), v)
  {
    hide Accepts, GroupAccepts, KindsOf, In;
    var kinds := KindsOf(AsGroups(groups), |KINDS|);
    assert KINDS[..|KINDS|] == KINDS;
    InKeys(AsGroups(groups), v);
    forall i | 0 <= i < |kinds| ensures Accepts(sem, Split(groups)[i], v) <==> In(AsGroups(groups), kinds[i], v) {
      LeafMeans(sem, Branch(kinds[i], groups[kinds[i]]), v);
      InGroup(AsGroups(groups), kinds[i], v);
    }
  }

  /** The branches accept the equals of the listed scalars. */
  lemma SplitMeans(sem: Semantics, values: seq<Json>, v: Json)
    ensures ExactlyOne(sem, Split(ValueGroups(values)), v) <==> ListedScalar(values, v)
  {
    hide Accepts, In, InBoth, ExactlyOne, Split, ValueGroups, KindsOf, ListedScalar;
    var groups := ValueGroups(values);
    ValueGroupsMean(values);
    SplitReads(sem, groups, v);
    SplitGroups(values, v);
    if kind :| In(AsGroups(groups), kind, v) {
      NotBothIsOne(sem, Split(groups), KindsOf(AsGroups(groups), |KINDS|), AsGroups(groups), kind, v);
    }
    OneIsSome(sem, Split(groups), KindsOf(AsGroups(groups), |KINDS|), AsGroups(groups), v);
  }

  lemma OneIsSome(sem: Semantics, schemas: seq<Json>, kinds: seq<string>, groups: Groups, v: Json)
    requires Reads(sem, schemas, kinds, groups, v)
    ensures ExactlyOne(sem, schemas, v) ==> InSome(groups, v)
  {
    hide Accepts, In;
  }

  /** Whether the split loses and gains nothing: the type beside the `enum` allows its scalars, and its arrays and
      objects, which the split drops, are ones the type refuses. */
  ghost predicate SplitSafe(m: map<string, Json>)
    requires Mixed(m)
  {
    forall i :: 0 <= i < |m["enum"].items| ==> SafeAt(m, i)
  }

  ghost predicate SafeAt(m: map<string, Json>, i: nat)
    requires Mixed(m) && i < |m["enum"].items|
  {
    EnumKind(m["enum"].items[i]).Some? <==> TypeAllows(m, m["enum"].items[i])
  }

  /** What a node accepts by the keywords the split leaves as they are. */
  ghost predicate KeptAccept(sem: Semantics, m: map<string, Json>, v: Json) {
    forall key :: key in m && key !in {"enum", "type", "oneOf"} ==> Keyword(sem, m, key, v)
  }

  ghost predicate OneOfAllows(sem: Semantics, m: map<string, Json>, v: Json) {
    "oneOf" in m ==> Keyword(sem, m, "oneOf", v)
  }

  lemma KeptAgree(sem: Semantics, m: map<string, Json>, other: map<string, Json>, v: Json)
    requires forall key :: key !in {"enum", "type", "oneOf"} ==> SameAt(m, other, key)
    ensures KeptAccept(sem, m, v) == KeptAccept(sem, other, v) && IsRef(m) == IsRef(other)
  {
    hide Keyword;
    assert SameContext(m, other) && SameAt(m, other, "$ref");
    forall key | key !in {"enum", "type", "oneOf"}
      ensures SameAt(m, other, key) && (key in m ==> Keyword(sem, m, key, v) == Keyword(sem, other, key, v))
    {
      assert SameAt(m, other, key);
      if key in m {
        KeywordsAgree(sem, m, other, key, v);
      }
    }
  }

  lemma SplitAgrees(m: map<string, Json>)
    requires Mixed(m)
    ensures forall key :: key !in {"enum", "type", "oneOf"} ==> SameAt(m, SplitEnum(m), key)
    ensures "enum" !in SplitEnum(m) && "type" !in SplitEnum(m)
    ensures "oneOf" in SplitEnum(m) && SplitEnum(m)["oneOf"] == Arr(Split(ValueGroups(m["enum"].items)))
  {
    hide Split, ValueGroups;
  }

  lemma AcceptsKept(sem: Semantics, m: map<string, Json>, v: Json)
    requires !IsRef(m)
    ensures Accepts(sem, Obj(m), v) <==>
              KeptAccept(sem, m, v) && TypeAllows(m, v) && EnumAllows(m, v) && OneOfAllows(sem, m, v)
  {
    hide Keyword, TypeAccepts, EnumAccepts;
    ValueKeywords(sem, m, v);
  }

  /** What the split node accepts: the listed scalars that the keywords beside type and values accept, save a `oneOf` of
      its own, which is overwritten. */
  lemma SplitNodeMeans(sem: Semantics, m: map<string, Json>, v: Json)
    requires Mixed(m) && !IsRef(m)
    ensures Accepts(sem, Obj(SplitEnum(m)), v) <==> KeptAccept(sem, m, v) && ListedScalar(m["enum"].items, v)
  {
    hide Accepts, Keyword, KeptAccept, Split, ListedScalar, ValueGroups, ExactlyOne, SplitEnum;
    var values, r := m["enum"].items, SplitEnum(m);
    SplitAgrees(m);
    KeptAgree(sem, m, r, v);
    AcceptsKept(sem, r, v);
    SplitMeans(sem, values, v);
    SplitKeyword(sem, r, Split(ValueGroups(values)), v);
  }

  /** A `oneOf` the node has already makes no difference to its split form. */
  lemma SplitForgetsOneOf(m: map<string, Json>)
    requires Mixed(m)
    ensures Mixed(m - {"oneOf"}) && SplitEnum(m) == SplitEnum(m - {"oneOf"})
  {
    hide Split, ValueGroups;
    assert SplitEnum(m) == SplitEnum(m - {"oneOf"});
  }

  lemma SplitKeyword(sem: Semantics, r: map<string, Json>, branches: seq<Json>, v: Json)
    requires "oneOf" in r && r["oneOf"] == Arr(branches)
    ensures Keyword(sem, r, "oneOf", v) == ExactlyOne(sem, branches, v)
  {
    hide ExactlyOne;
  }

  lemma MixedEnum(m: map<string, Json>)
    requires Mixed(m)
    ensures "enum" in m && m["enum"].Arr?
  {
  }

  /** The split keeps the accepted values if the type beside the `enum` allows its scalars and none of its arrays and
      objects, and there is no `oneOf` to overwrite; for nodes of nothing but type and `enum`, only then. */
  lemma SplitExact(sem: Semantics, m: map<string, Json>)
    requires Mixed(m)
    ensures (SplitSafe(m) && "oneOf" !in m) || IsRef(m) ==> Equivalent(sem, Obj(SplitEnum(m)), Obj(m))
    ensures OnlyValues(m) && "const" !in m && Equivalent(sem, Obj(SplitEnum(m)), Obj(m)) ==> SplitSafe(m)
  {
    hide Accepts, SplitEnum, Mixed, OnlyValues, SplitSafe;
    if (SplitSafe(m) && "oneOf" !in m) || IsRef(m) {
      forall v ensures Accepts(sem, Obj(SplitEnum(m)), v) == Accepts(sem, Obj(m), v) {
        SplitKeeps(sem, m, v);
      }
    }
    if OnlyValues(m) && "const" !in m && Equivalent(sem, Obj(SplitEnum(m)), Obj(m)) {
      SplitNeeds(sem, m);
    }
  }

  lemma SplitKeeps(sem: Semantics, m: map<string, Json>, v: Json)
    requires Mixed(m) && ((SplitSafe(m) && "oneOf" !in m) || IsRef(m))
    ensures Accepts(sem, Obj(SplitEnum(m)), v) == Accepts(sem, Obj(m), v)
  {
    hide Accepts, TypeAllows, EnumAccepts, KeptAccept, ListedScalar, SplitEnum, Mixed, SplitSafe, EnumKind;
    MixedEnum(m);
    if IsRef(m) {
      SplitKeepsRef(sem, m, v);
    } else {
      SplitNodeMeans(sem, m, v);
      AcceptsKept(sem, m, v);
      SafeValue(m, v);
    }
  }

  lemma SplitKeepsRef(sem: Semantics, m: map<string, Json>, v: Json)
    requires IsRef(m)
    ensures Accepts(sem, Obj(SplitEnum(m)), v) == Accepts(sem, Obj(m), v)
  {
    hide Keyword, Split, ValueGroups;
  }

  lemma SplitNeeds(sem: Semantics, m: map<string, Json>)
    requires Mixed(m) && OnlyValues(m) && "const" !in m && Equivalent(sem, Obj(SplitEnum(m)), Obj(m))
    ensures SplitSafe(m)
  {
    hide Accepts, TypeAllows, EnumAccepts, KeptAccept, ListedScalar, SplitEnum, Mixed, EnumKind, Keyword;
    MixedEnum(m);
    var values := m["enum"].items;
    forall i | 0 <= i < |values| ensures SafeAt(m, i) {
      EquivalentAt(sem, Obj(SplitEnum(m)), Obj(m), values[i]);
      OnlyEnum(sem, m, values[i]);
      SplitNodeMeans(sem, m, values[i]);
      AcceptsKept(sem, m, values[i]);
      ListedItself(m, i);
    }
  }

  lemma OnlyEnum(sem: Semantics, m: map<string, Json>, v: Json)
    requires OnlyValues(m) && "const" !in m
    ensures KeptAccept(sem, m, v) && !IsRef(m) && "oneOf" !in m
  {
    hide Keyword;
    NotAnnotations();
    AnnotationsHold(sem, m, v);
  }

  /** A listed array is lost. */
  lemma SplitForgetsArrays(sem: Semantics)
    ensures var m := map["enum" := Arr([Str("a"), Int(1), Arr([])])];
            Mixed(m) && Accepts(sem, Obj(m), Arr([])) && !Accepts(sem, Obj(SplitEnum(m)), Arr([]))
  {
    hide Accepts, KeptAccept, SplitEnum, Keyword;
    var m := map["enum" := Arr([Str("a"), Int(1), Arr([])])];
    TwoKinds(Arr([]));
    OnlyEnum(sem, m, Arr([]));
    SplitNodeMeans(sem, m, Arr([]));
    AcceptsKept(sem, m, Arr([]));
    assert m["enum"].items[2] == Arr([]) && Same(Arr([]), Arr([]));
  }

  /** A node whose `oneOf` accepts nothing; its split form accepts the listed values. */
  lemma SplitOverwritesOneOf(sem: Semantics)
    ensures var m := map["enum" := Arr([Str("a"), Int(1)]), "oneOf" := Arr([])];
            Mixed(m) && !Accepts(sem, Obj(m), Str("a")) && Accepts(sem, Obj(SplitEnum(m)), Str("a"))
  {
    hide Accepts, KeptAccept, SplitEnum;
    var m := map["enum" := Arr([Str("a"), Int(1)]), "oneOf" := Arr([])];
    var without := map["enum" := Arr([Str("a"), Int(1)])];
    TwoKinds(Arr([]));
    SplitNodeMeans(sem, m, Str("a"));
    AcceptsKept(sem, m, Str("a"));
    OnlyEnum(sem, without, Str("a"));
    KeptAgree(sem, m, without, Str("a"));
    SplitKeyword(sem, m, [], Str("a"));
    assert m["enum"].items[0] == Str("a");
  }

  lemma TwoKinds(last: Json)
    requires EnumKind(last).None?
    ensures |ValueGroups([Str("a"), Int(1)])| == 2 && |ValueGroups([Str("a"), Int(1), last])| == 2
  {
    OneMore([], Str("a"));
    OneMore([Str("a")], Int(1));
    OneMore([Str("a"), Int(1)], last);
    assert [] + [Str("a")] == [Str("a")] && [Str("a")] + [Int(1)] == [Str("a"), Int(1)];
    assert [Str("a"), Int(1)] + [last] == [Str("a"), Int(1), last];
    assert ValueGroups([Str("a"), Int(1)]).Keys == {"string", "number"};
  }

  lemma OneMore(values: seq<Json>, last: Json)
    ensures ValueGroups(values + [last]) == match EnumKind(last)
                                            case None => ValueGroups(values)
                                            case Some(kind) => Grouped(ValueGroups(values), kind, last)
  {
    hide EnumKind;
    assert (values + [last])[..|values|] == values;
  }

  lemma TypeAllowsSame(m: map<string, Json>, a: Json, b: Json)
    requires Same(a, b)
    ensures TypeAllows(m, a) == TypeAllows(m, b)
  {
    hide TypeAccepts, Same;
    if "type" in m { SameTypes(a, b, m["type"]); }
  }

  lemma SafeValue(m: map<string, Json>, v: Json)
    requires Mixed(m) && SplitSafe(m)
    ensures ListedScalar(m["enum"].items, v) <==> TypeAllows(m, v) && EnumAccepts(m["enum"], v)
  {
    hide TypeAllows, Same, EnumKind, ValueGroups;
    var values := m["enum"].items;
    forall i | 0 <= i < |values| && Same(values[i], v) ensures EnumKind(values[i]).Some? <==> TypeAllows(m, v) {
      assert SafeAt(m, i);
      TypeAllowsSame(m, values[i], v);
    }
  }

  lemma ListedItself(m: map<string, Json>, i: nat)
    requires Mixed(m) && i < |m["enum"].items|
    ensures var e := m["enum"].items[i];
            EnumAccepts(m["enum"], e) && (ListedScalar(m["enum"].items, e) <==> EnumKind(e).Some?)
  {
    hide Same, EnumKind, ValueGroups;
    var values := m["enum"].items;
    SameIsReflexive(values[i]);
    forall j | 0 <= j < |values| && Same(values[j], values[i]) ensures EnumKind(values[j]) == EnumKind(values[i]) {
      EnumKindType(values[j], values[i]);
    }
  }

  /** A schema node whose constants are rewritten in place. */
  class ConstantNode {
    var fields: map<string, Json>

    constructor (m: map<string, Json>)
      ensures fields == m
    {
      fields := m;
    }

    method Pin()
      modifies this
      ensures fields == PinConst(old(fields))
    {
      if "const" !in fields {
        return;
      }
      var c := fields["const"];
      var kind := PinnedType(c);
      if kind.None? {
        return;
      }
      fields := fields - {"const"};
      fields := fields["enum" := Arr([c])];
      if "type" !in fields {
        fields := fields["type" := Str(kind.value)];
      }
    }

    /** The engine's form; `false` where the generator stops. */
    method PinEngine() returns (ok: bool)
      modifies this
      ensures PinOver(old(fields)) == if ok then Some(fields) else None
    {
      if "const" !in fields {
        return true;
      }
      var c := fields["const"];
      fields := fields - {"const"};
      var kind := OverType(c);
      if kind.None? {
        return false;
      }
      fields := fields["type" := Str(kind.value)];
      fields := fields["enum" := Arr([c])];
      return true;
    }

    method SplitMixed()
      modifies this
      ensures fields == SplitEnum(old(fields))
    {
      hide ValueGroups, Split;
      if "enum" in fields && fields["enum"].Arr? {
        var groups := GroupValues(fields["enum"].items);
        if |groups| > 1 {
          fields := fields - {"type", "enum"};
          fields := fields["oneOf" := Arr(Split(groups))];
        }
      }
    }
  }
}
