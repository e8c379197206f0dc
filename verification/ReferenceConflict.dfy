/** A schema in which two different references come together at one property: the mark behind the inner one is not in
    the prepared schema, and the property is shown. */
module ReferenceConflict {
  import opened JsonModel
  import opened Options
  import opened References
  import opened Resolution
  import Canonical
  import PolicyRedaction
  import Redaction

  const BASE_REF := "#/$defs/base"
  const SECRET_REF := "#/$defs/secret"
  const OPEN_REF := "#/$defs/open"

  function ReferenceTo(name: string): Json {
    Obj(map["$ref" := Str(name)])
  }

  function WithProperty(schema: Json): Json {
    Obj(map["properties" := Obj(map["x" := schema])])
  }

  /** `x` is secret. */
  const BASE := WithProperty(ReferenceTo(SECRET_REF))

  const OPEN := Obj(map["type" := Str("string")])

  /** The base with its own word on `x`. */
  const SCHEMA := Obj(map["$ref" := Str(BASE_REF), "properties" := Obj(map["x" := ReferenceTo(OPEN_REF)]),
                          "$defs" := Obj(map["base" := BASE, "secret" := HIDDEN, "open" := OPEN])])

  predicate Resolves(pointer: Pointer) {
    pointer(BASE_REF) == Some(BASE) && pointer(SECRET_REF) == Some(HIDDEN) && pointer(OPEN_REF) == Some(OPEN)
  }

  /** No text is a reference to a secret. */
  function NoSecrets(policy: Json): Redaction.Matcher {
    Redaction.Matcher((value, schema) => false, schema => false)
  }

  function ValueOf(text: string): Json {
    Obj(map["x" := Str(text)])
  }

  const PATH: seq<Step> := [Property("x")]

  lemma SecretIsReached(pointer: Pointer)
    requires Resolves(pointer)
    ensures Reaches(SCHEMA, pointer, PATH, SENSITIVE, 2)
  {
    var inner := ReferenceTo(SECRET_REF);
    MarkReaches(HIDDEN, pointer, [], SENSITIVE);
    LeadsReaches(inner, pointer, [], SENSITIVE, 0);
    assert PATH[1..] == [];
    assert Down(BASE, PATH[0]) == Some(inner);
    DownReaches(BASE, pointer, PATH, SENSITIVE, 1);
    LeadsReaches(SCHEMA, pointer, PATH, SENSITIVE, 1);
  }

  /** A node with nothing but a reference or a property: no metadata, no marks, no secret references. */
  predicate IsPlain(j: Json) {
    && j.Obj? && Get(j, METADATA).None? && !Dynamic(j)
    && Get(j, SECRET_REFERENCE).None? && Get(j, SENSITIVE).None? && Get(j, URL_CREDENTIALS).None?
    && Get(j, UNKNOWN).None?
  }

  lemma PlainHead(j: Json, pointer: Pointer, visited: set<string>, depth: nat, remaining: nat)
    requires IsPlain(j) && Get(j, "$ref").None? && depth <= 128 && remaining > 0
    ensures ResolveHead(j, pointer, visited, depth, remaining) == (j, remaining - 1)
  {
  }

  lemma ReferenceHead(j: Json, pointer: Pointer, depth: nat, remaining: nat, name: string, target: Json)
    requires IsPlain(j) && Get(j, "$ref") == Some(Str(name)) && pointer(name) == Some(target)
    requires IsPlain(target) && Get(target, "$ref").None? && depth < 128 && remaining > 1
    ensures ResolveHead(j, pointer, {}, depth, remaining) == (Merge(target, j), remaining - 2)
  {
    hide Merge, IsPlain;
    PlainHead(target, pointer, {name}, depth + 1, remaining - 1);
    PlainParts(j);
  }

  lemma PlainParts(j: Json)
    requires IsPlain(j)
    ensures j.Obj? && Get(j, METADATA).None? && !Dynamic(j)
  {
  }

  /** Merging plain nodes is merging their members. */
  lemma PlainMerge(target: Json, wrapper: Json)
    requires IsPlain(target) && IsPlain(wrapper)
    ensures Merge(target, wrapper) == Obj(MergedMembers(target.fields, wrapper.fields, wrapper.fields.Keys))
    ensures IsPlain(Merge(target, wrapper))
    ensures forall name ::
              Get(Merge(target, wrapper), name).Some? <==> Get(target, name).Some? || Get(wrapper, name).Some?
  {
    hide Merge, MergedMembers, MergedMember, Conflict, Clash, Either;
    MergeIs(target, wrapper);
    PlainConflict(target, wrapper);
    var t, w := target.fields, wrapper.fields;
    NothingToGuard(MergedMembers(t, w, w.Keys), target, wrapper);
    assert MergedMembers(t, w, w.Keys).Keys == t.Keys + w.Keys by { MembersOfPlain(t, w); }
  }

  lemma MembersOfPlain(t: map<string, Json>, w: map<string, Json>)
    requires !Clash(t, w)
    ensures MergedMembers(t, w, w.Keys).Keys == t.Keys + w.Keys
  {
    hide MergedMember, Clash;
  }

  lemma NothingToGuard(m: map<string, Json>, target: Json, wrapper: Json)
    requires !Conflict(target, wrapper) && !Either(target, wrapper, SENSITIVE, Bool(true))
    requires !Either(target, wrapper, URL_CREDENTIALS, Bool(true))
    requires !Either(target, wrapper, UNKNOWN, Str("sensitive"))
    ensures Guard(m, target, wrapper) == m
  {
    hide Conflict, Either;
  }

  lemma PlainConflict(target: Json, wrapper: Json)
    requires IsPlain(target) && IsPlain(wrapper)
    ensures !Conflict(target, wrapper) && !Clash(target.fields, wrapper.fields)
    ensures forall name, value | name in [SENSITIVE, URL_CREDENTIALS, UNKNOWN] :: !Either(target, wrapper, name, value)
  {
  }

  lemma PlainLabels(target: Json, wrapper: Json)
    requires IsPlain(target) && IsPlain(wrapper)
    ensures Get(Merge(target, wrapper), "type") == Or(Get(wrapper, "type"), Get(target, "type"))
    ensures Get(Merge(target, wrapper), "$ref") == Or(Get(wrapper, "$ref"), Get(target, "$ref"))
  {
    hide Merge, MergedMembers;
    PlainMerge(target, wrapper);
    MergedLabel(target.fields, wrapper.fields, "type");
    MergedLabel(target.fields, wrapper.fields, "$ref");
  }

  // ----- the prepared schema --------------------------------------------------------------------------------------

  ghost function Head(): Json {
    Merge(BASE, SCHEMA)
  }

  /** What comes together at `x`. */
  ghost function Inner(): Json {
    Merge(ReferenceTo(SECRET_REF), ReferenceTo(OPEN_REF))
  }

  ghost function Leaf(): Json {
    Merge(OPEN, Inner())
  }

  lemma RawIsPlain()
    ensures IsPlain(SCHEMA) && IsPlain(BASE) && IsPlain(OPEN)
    ensures IsPlain(ReferenceTo(SECRET_REF)) && IsPlain(ReferenceTo(OPEN_REF))
  {
  }

  lemma HeadIs(pointer: Pointer)
    requires Resolves(pointer)
    ensures ResolveHead(SCHEMA, pointer, {}, 0, BUDGET) == (Head(), BUDGET - 2)
  {
    hide Merge, IsPlain, ResolveHead;
    RawIsPlain();
    ReferenceHead(SCHEMA, pointer, 0, BUDGET, BASE_REF, BASE);
  }

  lemma HeadParts()
    ensures Head().Obj? && Get(Head(), "properties") == Some(Obj(map["x" := Inner()])) && IsPlain(Head())
    ensures Get(Head(), "items").None? && Get(Head(), "additionalProperties").None? && Get(Head(), "type").None?
  {
    hide Merge, IsPlain, MergedMembers;
    RawIsPlain();
    PlainMerge(BASE, SCHEMA);
    HeadProperties();
    assert Get(Head(), "properties").Some?;
  }

  lemma HeadProperties()
    ensures var m := MergedMembers(BASE.fields, SCHEMA.fields, SCHEMA.fields.Keys);
            "properties" in m && m["properties"] == Obj(map["x" := Inner()])
  {
    hide Merge, MergedMembers, MergedMember;
    MergedAt(BASE.fields, SCHEMA.fields, "properties");
    var m := MergedMember(BASE.fields, SCHEMA.fields, "properties");
    PropertiesMember(BASE.fields, SCHEMA.fields, "x");
    forall name
      ensures m.Obj? && (name in m.fields <==> name == "x") && (name in m.fields ==> m.fields[name] == Inner())
    {
      PropertiesMember(BASE.fields, SCHEMA.fields, name);
    }
    assert m.fields == map["x" := Inner()];
  }

  lemma LeafParts()
    ensures IsPlain(Leaf()) && Get(Leaf(), "type") == Some(Str("string"))
    ensures Get(Leaf(), "properties").None? && Get(Leaf(), "items").None? && Get(Leaf(), "additionalProperties").None?
  {
    hide Merge, IsPlain;
    RawIsPlain();
    PlainMerge(ReferenceTo(SECRET_REF), ReferenceTo(OPEN_REF));
    PlainMerge(OPEN, Inner());
    PlainLabels(OPEN, Inner());
  }

  lemma LeafIsResolved(pointer: Pointer, values: set<Json>, remaining: nat, bound: nat)
    requires Resolves(pointer) && AllDeep(values, bound) && remaining > 1
    ensures Resolved(Inner(), pointer, values, 1, remaining, bound) == (Leaf(), remaining - 2)
  {
    hide Merge, IsPlain, ResolveHead, AllDeep;
    RawIsPlain();
    PlainMerge(ReferenceTo(SECRET_REF), ReferenceTo(OPEN_REF));
    PlainLabels(ReferenceTo(SECRET_REF), ReferenceTo(OPEN_REF));
    ReferenceHead(Inner(), pointer, 1, remaining, OPEN_REF, OPEN);
    LeafParts();
  }

  lemma OnlyX()
    ensures Canonical.Sorted({"x"}) == ["x"]
  {
    var s := Canonical.Sorted({"x"});
    assert |s| == 1 && s[0] in s;
  }

  lemma NamedIs(pointer: Pointer, values: set<Json>, bound: nat)
    requires Resolves(pointer) && AllDeep(values, bound) && bound > 0
    ensures ResolvedNamed(Head(), Head(), pointer, values, 0, BUDGET - 2, bound)
            == (Obj(Head().fields["properties" := Obj(map["x" := Leaf()])]), BUDGET - 4)
  {
    hide Head, Inner, Leaf, AllDeep, MembersAt, Resolved, ResolvedAll, IsPlain, Canonical.Sorted;
    HeadParts();
    OnlyX();
    var properties := map["x" := Inner()];
    assert properties.Keys == {"x"};
    assert ["x"][..0] == [] && ["x"][..1] == ["x"];
    MembersAreDeep(Head(), values, Property("x"), bound);
    NoneResolved(Head(), properties, pointer, values, 0, BUDGET - 2, bound);
    AllOneMore(Head(), properties, ["x"], 0, pointer, values, 0, BUDGET - 2, bound);
    LeafIsResolved(pointer, MembersAt(Head(), values, Property("x")), BUDGET - 2, bound - 1);
    assert properties["x" := Leaf()] == map["x" := Leaf()];
  }

  lemma UnderNone(head: Json, node: Json, step: Step, key: string, pointer: Pointer, values: set<Json>, depth: nat,
                  remaining: nat, bound: nat)
    requires AllDeep(values, bound) && bound > 0 && Get(node, key).None?
    ensures ResolvedUnder(head, node, step, key, pointer, values, depth, remaining, bound) == (node, remaining)
  {
    hide AllDeep, MembersAt, Resolved;
  }

  ghost function Policy(): Json {
    if Head().Obj? then Obj(Head().fields["properties" := Obj(map["x" := Leaf()])]) else Null
  }

  lemma PolicyParts()
    ensures Head().Obj? && Policy() == Obj(Head().fields["properties" := Obj(map["x" := Leaf()])])
    ensures IsPlain(Policy()) && Get(Policy(), "properties") == Some(Obj(map["x" := Leaf()]))
    ensures Get(Policy(), "items").None? && Get(Policy(), "additionalProperties").None? && Get(Policy(), "type").None?
  {
    hide Head, Leaf;
    HeadParts();
  }

  lemma ResolvedIs(pointer: Pointer, value: Json, bound: nat)
    requires Resolves(pointer) && AllDeep({value}, bound)
    ensures Resolved(SCHEMA, pointer, {value}, 0, BUDGET, bound) == (Policy(), BUDGET - 4)
  {
    hide Head, Leaf, Policy, AllDeep, MembersAt, ResolveHead, ResolvedNamed, ResolvedUnder, IsPlain;
    HeadIs(pointer);
    PolicyParts();
    MembersAreDeep(Head(), {value}, Item, bound);
    NamedIs(pointer, {value}, bound);
    UnderNone(Head(), Policy(), Item, "items", pointer, {value}, 0, BUDGET - 4, bound);
    UnderNone(Head(), Policy(), Additional, "additionalProperties", pointer, {value}, 0, BUDGET - 4, bound);
  }

  /** The prepared schema: the head, and at `x` the open schema under both references, without a mark. */
  lemma PolicyIs(pointer: Pointer, value: Json)
    requires Resolves(pointer)
    ensures PolicyOf(SCHEMA, pointer, value) == Policy() && BudgetLeft(SCHEMA, pointer, value) > 0
  {
    hide Policy, AllDeep, Resolved, Deep;
    var bound := BoundOf(value);
    OneIsDeep(value, bound);
    ResolvedIs(pointer, value, bound);
    assert Get(SCHEMA, "$ref").Some?;
  }

  lemma OneIsDeep(value: Json, bound: nat)
    requires Deep(value, bound)
    ensures AllDeep({value}, bound)
  {
  }

  /** Both references reach `x`, the secret one behind the base; the open one, outermost, is followed, and the secret
      text is shown. */
  lemma SecondReferenceLost(pointer: Pointer, text: string)
    requires Resolves(pointer)
    ensures Reaches(SCHEMA, pointer, PATH, SENSITIVE, 2)
    ensures !Follows([SCHEMA], pointer, 0, PATH, SENSITIVE) && !Clear([SCHEMA], pointer, 0, PATH)
    ensures !Protected(PolicyOf(SCHEMA, pointer, ValueOf(text)), PATH, SENSITIVE)
    ensures PolicyRedaction.Redacted(SCHEMA, pointer, NoSecrets, ValueOf(text)) == ValueOf(text)
  {
    hide Policy, Follows, Clear, Reaches, PolicyOf, IsOpen, Protected, ReachedBy;
    var value := ValueOf(text);
    SecretIsReached(pointer);
    PolicyIs(pointer, value);
    NotMarked();
    ReachesX(Policy(), value);
    if Follows([SCHEMA], pointer, 0, PATH, SENSITIVE) {
      PolicyProtects(SCHEMA, pointer, value, PATH, SENSITIVE);
    }
    if Clear([SCHEMA], pointer, 0, PATH) {
      ReachedIsProtected(SCHEMA, pointer, value, PATH, SENSITIVE, 2);
    }
    ShownAsIs(Policy(), text);
  }

  /** A schema that is plain, and at `x` plain and for a text. */
  ghost predicate IsOpen(policy: Json) {
    && IsPlain(policy) && Get(policy, "type").None? && Get(policy, "properties") == Some(Obj(map["x" := Leaf()]))
    && IsPlain(Leaf()) && Get(Leaf(), "type") == Some(Str("string"))
  }

  lemma NotMarked()
    ensures IsOpen(Policy()) && !Protected(Policy(), PATH, SENSITIVE)
  {
    hide Leaf, Policy, Protected;
    PolicyParts();
    LeafParts();
    assert PATH[1..] == [];
    ProtectedParts(Policy(), PATH, SENSITIVE);
    ProtectedParts(Leaf(), [], SENSITIVE);
  }

  lemma ReachesX(policy: Json, value: Json)
    ensures ReachedBy(policy, {value}, PATH)
  {
    assert PATH[1..] == [];
  }

  lemma ShownAsIs(policy: Json, text: string)
    requires IsOpen(policy)
    ensures Redaction.Project(Redaction.Display, NoSecrets(policy), ValueOf(text), policy, Redaction.NO_FLAGS)
            == ValueOf(text)
  {
    hide Leaf, Redaction.FlagsAt, Redaction.Property, Redaction.HomogeneousMap;
    var m := NoSecrets(policy);
    var flags := Redaction.FlagsAt(m, policy, Redaction.NO_FLAGS);
    NoFlagsAt(policy, Redaction.NO_FLAGS);
    LeafShown(m, text, flags);
    PropertyX(policy);
    var shown := Redaction.ProjectFields(Redaction.Display, m, ValueOf(text), policy, flags, {"x"});
    assert shown == map["x" := Str(text)];
    assert ValueOf(text).fields.Keys == {"x"};
  }

  lemma PropertyX(policy: Json)
    requires IsOpen(policy)
    ensures Redaction.Property(policy, "x") == Leaf()
  {
    hide Leaf;
  }

  lemma NoFlagsAt(schema: Json, inherited: Redaction.Flags)
    requires IsPlain(schema) && Get(schema, "type") in [None, Some(Str("string"))]
    requires !inherited.sensitive && !inherited.urlCredentials
    ensures var flags := Redaction.FlagsAt(NoSecrets(schema), schema, inherited);
            && !flags.sensitive && !flags.urlCredentials
            && (Get(schema, "type").Some? ==> !flags.unclassified)
  {
    hide Redaction.ItemSchema;
    assert !Redaction.HomogeneousMap(schema);
  }

  lemma LeafShown(m: Redaction.Matcher, text: string, flags: Redaction.Flags)
    requires IsPlain(Leaf()) && Get(Leaf(), "type") == Some(Str("string"))
    requires m == NoSecrets(Null) && !flags.sensitive && !flags.urlCredentials
    ensures Redaction.Project(Redaction.Display, m, Str(text), Leaf(), flags) == Str(text)
  {
    hide Leaf, Redaction.FlagsAt;
    NoFlagsAt(Leaf(), flags);
  }
}
