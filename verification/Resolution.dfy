/** Preparing a policy schema: local references and metadata overlays are merged into the nodes that use them, under a
    budget, and no protection mark is lost on the way. */
module Resolution {
  import opened JsonModel
  import opened Options
  import Canonical
  import opened Sequences
  import opened Texts

  const SENSITIVE := "x-sensitive"
  const URL_CREDENTIALS := "x-url-credentials"
  const UNKNOWN := "x-unknown-members"
  const SECRET_REFERENCE := "x-secret-reference"
  const METADATA := "x-value-schema"

  /** The schema that stands for anything that cannot be resolved. */
  const HIDDEN := Obj(map[SENSITIVE := Bool(true)])

  // ----- marks at positions ---------------------------------------------------------------------------------------

  /** A step down a schema. */
  datatype Step = Property(name: string) | Item | Additional

  function Down(j: Json, step: Step): (r: Option<Json>)
    ensures r.Some? ==> r.value < j
  {
    match step
    case Property(name) =>
      if j.Obj? && "properties" in j.fields && j.fields["properties"].Obj? && name in j.fields["properties"].fields then
        Some(j.fields["properties"].fields[name])
      else None
    case Item => if j.Obj? && "items" in j.fields then Some(j.fields["items"]) else None
    case Additional =>
      if j.Obj? && "additionalProperties" in j.fields then Some(j.fields["additionalProperties"]) else None
  }

  predicate Own(j: Json, name: string) {
    Get(j, name) == Some(Bool(true))
  }

  /** The position `path` below the schema is protected by the mark `name`, there or in the metadata on the way, or by
      `x-sensitive` on any node of the way: sensitivity is inherited. */
  predicate Protected(j: Json, path: seq<Step>, name: string)
    decreases j
  {
    && j.Obj?
    && (|| Own(j, SENSITIVE)
        || (path == [] && Own(j, name))
        || (path != [] && Down(j, path[0]).Some? && Protected(Down(j, path[0]).value, path[1..], name))
        || (METADATA in j.fields && Protected(j.fields[METADATA], path, name)))
  }

  // ----- merge ----------------------------------------------------------------------------------------------------

  predicate Protection(j: Json, name: string, value: Json) {
    || Get(j, name) == Some(value)
    || (Get(j, METADATA).Some? && Get(Get(j, METADATA).value, name) == Some(value))
  }

  function Declaration(j: Json, name: string): Option<Json> {
    if Get(j, METADATA).Some? && Get(Get(j, METADATA).value, name).Some? then Get(Get(j, METADATA).value, name)
    else Get(j, name)
  }

  /** The member `name` of the merge, the wrapper having it. */
  function MergedMember(target: map<string, Json>, wrapper: map<string, Json>, name: string): Json
    requires name in wrapper
    decreases Obj(wrapper), 0
  {
    var value := wrapper[name];
    if name == "properties" then
      var base := if name in target && target[name].Obj? then target[name].fields else map[];
      Obj(if value.Obj? then MergedProperties(base, value.fields, value.fields.Keys) else base)
    else if name in [SENSITIVE, URL_CREDENTIALS] && name in target && target[name] == Bool(true) then target[name]
    else if name == UNKNOWN && name in target && target[name] == Str("sensitive") then target[name]
    else if name == SECRET_REFERENCE && name in target && target[name] != value then Bool(false)
    else if name in [METADATA, "items", "additionalProperties"] && name in target then Merge(target[name], value)
    else value
  }

  /** The properties merged, those in `done` of the wrapper having been seen. */
  function MergedProperties(base: map<string, Json>, extra: map<string, Json>, done: set<string>)
    : (m: map<string, Json>)
    requires done <= extra.Keys
    ensures m.Keys == base.Keys + done
    decreases Obj(extra), 0
  {
    map k | k in base.Keys + done ::
      if k !in done then base[k] else if k in base then Merge(base[k], extra[k]) else extra[k]
  }

  function MergedEach(target: map<string, Json>, wrapper: map<string, Json>, done: set<string>): (m: map<string, Json>)
    requires done <= wrapper.Keys
    decreases Obj(wrapper), 1
  {
    map k | k in target.Keys + done :: if k in done then MergedMember(target, wrapper, k) else target[k]
  }

  /** Both sides have a `x-secret-reference`, and they differ. */
  predicate Clash(target: map<string, Json>, wrapper: map<string, Json>) {
    SECRET_REFERENCE in target && SECRET_REFERENCE in wrapper && target[SECRET_REFERENCE] != wrapper[SECRET_REFERENCE]
  }

  /** The members merged, the names in `done` of the wrapper having been seen. */
  function MergedMembers(target: map<string, Json>, wrapper: map<string, Json>, done: set<string>)
    : (m: map<string, Json>)
    requires done <= wrapper.Keys
    decreases Obj(wrapper), 2
  {
    var merged := MergedEach(target, wrapper, done);
    if SECRET_REFERENCE in done && Clash(target, wrapper) then merged[SENSITIVE := Bool(true)] else merged
  }

  /** Sets a member, in the metadata of the node too. */
  function Set(m: map<string, Json>, name: string, value: Json): map<string, Json> {
    var with := m[name := value];
    if METADATA in with && with[METADATA].Obj? then
      with[METADATA := Obj(with[METADATA].fields[name := value])]
    else with
  }

  function SetIf(m: map<string, Json>, condition: bool, name: string, value: Json): map<string, Json> {
    if condition then Set(m, name, value) else m
  }

  predicate Conflict(target: Json, wrapper: Json) {
    && Declaration(target, SECRET_REFERENCE).Some? && Declaration(wrapper, SECRET_REFERENCE).Some?
    && Declaration(target, SECRET_REFERENCE) != Declaration(wrapper, SECRET_REFERENCE)
  }

  predicate Either(target: Json, wrapper: Json, name: string, value: Json) {
    Protection(target, name, value) || Protection(wrapper, name, value)
  }

  /** The protection of either side, put on the merged members. */
  function Guard(m: map<string, Json>, target: Json, wrapper: Json): map<string, Json> {
    var a := SetIf(m, Either(target, wrapper, SENSITIVE, Bool(true)), SENSITIVE, Bool(true));
    var b := SetIf(a, Either(target, wrapper, URL_CREDENTIALS, Bool(true)), URL_CREDENTIALS, Bool(true));
    var c := SetIf(b, Either(target, wrapper, UNKNOWN, Str("sensitive")), UNKNOWN, Str("sensitive"));
    var conflict := Conflict(target, wrapper);
    SetIf(SetIf(c, conflict, SENSITIVE, Bool(true)), conflict, SECRET_REFERENCE, Bool(false))
  }

  /** `merge`. */
  function Merge(target: Json, wrapper: Json): Json
    decreases wrapper, 3
  {
    if !target.Obj? then wrapper
    else if !wrapper.Obj? then target
    else Obj(Guard(MergedMembers(target.fields, wrapper.fields, wrapper.fields.Keys), target, wrapper))
  }

  /** The loops of `merge`, in any order of the members. */
  method MergeNodes(target: Json, wrapper: Json) returns (r: Json)
    ensures r == Merge(target, wrapper)
    decreases wrapper, 2
  {
    if !target.Obj? {
      return wrapper;
    }
    if !wrapper.Obj? {
      return target;
    }
    var output, rest := target.fields, wrapper.fields.Keys;
    ghost var done: set<string> := {};
    NothingMerged(target.fields, wrapper.fields);
    while rest != {}
      invariant rest <= wrapper.fields.Keys && done == wrapper.fields.Keys - rest
      invariant output == MergedMembers(target.fields, wrapper.fields, done)
      decreases |rest|
    {
      var name :| name in rest;
      output := MergeOne(target.fields, wrapper.fields, output, name, done);
      rest, done := rest - {name}, done + {name};
    }
    assert done == wrapper.fields.Keys;
    return Obj(Guard(output, target, wrapper));
  }

  lemma NothingMerged(target: map<string, Json>, wrapper: map<string, Json>)
    ensures MergedMembers(target, wrapper, {}) == target
  {
  }

  lemma OneMoreEach(target: map<string, Json>, wrapper: map<string, Json>, done: set<string>, name: string)
    requires done <= wrapper.Keys && name in wrapper && name !in done
    ensures var before := MergedEach(target, wrapper, done);
            && SameMember(target, before, name)
            && MergedEach(target, wrapper, done + {name}) == before[name := MergedMember(target, wrapper, name)]
  {
    hide MergedMember;
  }

  lemma SpecialMembers(target: map<string, Json>, wrapper: map<string, Json>)
    ensures SENSITIVE in wrapper ==>
              MergedMember(target, wrapper, SENSITIVE)
              == (if SENSITIVE in target && target[SENSITIVE] == Bool(true) then target[SENSITIVE]
                  else wrapper[SENSITIVE])
    ensures Clash(target, wrapper) ==> MergedMember(target, wrapper, SECRET_REFERENCE) == Bool(false)
  {
    hide Merge, MergedProperties;
  }

  /** One more member: only a clash of references touches another one. */
  lemma OneMoreMember(target: map<string, Json>, wrapper: map<string, Json>, done: set<string>, name: string)
    requires done <= wrapper.Keys && name in wrapper && name !in done
    ensures var before, after := MergedMembers(target, wrapper, done), MergedMembers(target, wrapper, done + {name});
            && (name != SENSITIVE ==> SameMember(target, before, name))
            && (if name == SECRET_REFERENCE && Clash(target, wrapper) then
                  after == before[SENSITIVE := Bool(true)][name := Bool(false)]
                else if name == SENSITIVE then
                  after == (if name in before && before[name] == Bool(true) then before
                            else before[name := wrapper[name]])
                else after == before[name := MergedMember(target, wrapper, name)])
  {
    hide MergedMember, MergedEach, Clash;
    OneMoreEach(target, wrapper, done, name);
    SpecialMembers(target, wrapper);
    if name == SENSITIVE {
      var before := MergedMembers(target, wrapper, done);
      assert SENSITIVE in before && before[SENSITIVE] == Bool(true) ==> before[SENSITIVE := Bool(true)] == before;
    }
  }

  predicate SameMember(a: map<string, Json>, b: map<string, Json>, name: string) {
    (name in a <==> name in b) && (name in a ==> a[name] == b[name])
  }

  /** One member of the wrapper. */
  method MergeOne(target: map<string, Json>, wrapper: map<string, Json>, before: map<string, Json>, name: string,
                  ghost done: set<string>)
    returns (output: map<string, Json>)
    requires done <= wrapper.Keys && name in wrapper && name !in done && before == MergedMembers(target, wrapper, done)
    ensures output == MergedMembers(target, wrapper, done + {name})
    decreases Obj(wrapper), 1
  {
    hide Merge, MergedProperties, MergedMembers;
    OneMoreMember(target, wrapper, done, name);
    var value := wrapper[name];
    output := before;
    if name == "properties" {
      var base := if name in output && output[name].Obj? then output[name].fields else map[];
      if value.Obj? {
        base := MergeChildren(base, value.fields);
      }
      output := output[name := Obj(base)];
    } else if name in [SENSITIVE, URL_CREDENTIALS] && name in output && output[name] == Bool(true) {
      assert name == URL_CREDENTIALS ==> output[name := output[name]] == output;
    } else if name == UNKNOWN && name in output && output[name] == Str("sensitive") {
      assert output[name := output[name]] == output;
    } else if name == SECRET_REFERENCE && name in output && output[name] != value {
      output := output[SENSITIVE := Bool(true)][name := Bool(false)];
    } else if name in [METADATA, "items", "additionalProperties"] && name in output {
      var merged := MergeNodes(output[name], value);
      output := output[name := merged];
    } else {
      output := output[name := value];
    }
  }

  lemma OneMoreProperty(base: map<string, Json>, extra: map<string, Json>, done: set<string>, k: string)
    requires done <= extra.Keys && k in extra && k !in done
    ensures var m := MergedProperties(base, extra, done);
            && SameMember(base, m, k)
            && MergedProperties(base, extra, done + {k})
               == m[k := if k in m then Merge(m[k], extra[k]) else extra[k]]
  {
    hide Merge;
  }

  /** The loop over the properties of the wrapper. */
  method MergeChildren(base: map<string, Json>, extra: map<string, Json>) returns (properties: map<string, Json>)
    ensures properties == MergedProperties(base, extra, extra.Keys)
    decreases Obj(extra), 1
  {
    hide Merge, MergedProperties;
    properties := base;
    NoProperties(base, extra);
    var done: set<string> := {};
    while extra.Keys - done != {}
      invariant done <= extra.Keys && properties == MergedProperties(base, extra, done)
      decreases extra.Keys - done
    {
      var k :| k in extra.Keys - done;
      OneMoreProperty(base, extra, done, k);
      var child := extra[k];
      if k in properties {
        child := MergeNodes(properties[k], child);
      }
      properties, done := properties[k := child], done + {k};
    }
    assert done == extra.Keys;
  }

  lemma NoProperties(base: map<string, Json>, extra: map<string, Json>)
    ensures MergedProperties(base, extra, {}) == base
  {
  }

  predicate IsMember(name: string) {
    name !in ["properties", "items", "additionalProperties", METADATA]
  }

  /** Setting a mark, or a member that is no mark, protects no less. */
  lemma SetKeeps(m: map<string, Json>, name: string, value: Json, path: seq<Step>, mark: string)
    requires IsMember(name) && Protected(Obj(m), path, mark)
    requires mark in [SENSITIVE, URL_CREDENTIALS] && (name in [SENSITIVE, URL_CREDENTIALS] ==> value == Bool(true))
    ensures Protected(Obj(Set(m, name, value)), path, mark)
  {
    InsertKeeps(m, name, value, path, mark);
    var inserted := m[name := value];
    if METADATA in inserted && inserted[METADATA].Obj? {
      var meta := inserted[METADATA].fields;
      if Protected(inserted[METADATA], path, mark) {
        assert inserted[METADATA] == Obj(meta);
        InsertKeeps(meta, name, value, path, mark);
      }
      ReplaceMetadata(inserted, Obj(meta[name := value]), path, mark);
    }
  }

  lemma InsertKeeps(m: map<string, Json>, name: string, value: Json, path: seq<Step>, mark: string)
    requires IsMember(name) && Protected(Obj(m), path, mark)
    requires mark in [SENSITIVE, URL_CREDENTIALS] && (name in [SENSITIVE, URL_CREDENTIALS] ==> value == Bool(true))
    ensures Protected(Obj(m[name := value]), path, mark)
  {
    assert path != [] ==> Down(Obj(m[name := value]), path[0]) == Down(Obj(m), path[0]);
  }

  lemma ReplaceMetadata(m: map<string, Json>, meta: Json, path: seq<Step>, mark: string)
    requires METADATA in m && Protected(Obj(m), path, mark) && mark in [SENSITIVE, URL_CREDENTIALS]
    requires Protected(m[METADATA], path, mark) ==> Protected(meta, path, mark)
    ensures Protected(Obj(m[METADATA := meta]), path, mark)
  {
    assert path != [] ==> Down(Obj(m[METADATA := meta]), path[0]) == Down(Obj(m), path[0]);
  }

  lemma SetIfKeeps(m: map<string, Json>, condition: bool, name: string, value: Json, path: seq<Step>, mark: string)
    requires IsMember(name) && Protected(Obj(m), path, mark)
    requires mark in [SENSITIVE, URL_CREDENTIALS] && (name in [SENSITIVE, URL_CREDENTIALS] ==> value == Bool(true))
    ensures Protected(Obj(SetIf(m, condition, name, value)), path, mark)
  {
    hide Protected, Set;
    if condition { SetKeeps(m, name, value, path, mark); }
  }

  /** Putting the protection on takes none away. */
  lemma GuardKeeps(m: map<string, Json>, target: Json, wrapper: Json, path: seq<Step>, mark: string)
    requires Protected(Obj(m), path, mark) && mark in [SENSITIVE, URL_CREDENTIALS]
    ensures Protected(Obj(Guard(m, target, wrapper)), path, mark)
  {
    hide Protected, SetIf, Either, Conflict;
    var a := SetIf(m, Either(target, wrapper, SENSITIVE, Bool(true)), SENSITIVE, Bool(true));
    var b := SetIf(a, Either(target, wrapper, URL_CREDENTIALS, Bool(true)), URL_CREDENTIALS, Bool(true));
    var c := SetIf(b, Either(target, wrapper, UNKNOWN, Str("sensitive")), UNKNOWN, Str("sensitive"));
    var conflict := Conflict(target, wrapper);
    SetIfKeeps(m, Either(target, wrapper, SENSITIVE, Bool(true)), SENSITIVE, Bool(true), path, mark);
    SetIfKeeps(a, Either(target, wrapper, URL_CREDENTIALS, Bool(true)), URL_CREDENTIALS, Bool(true), path, mark);
    SetIfKeeps(b, Either(target, wrapper, UNKNOWN, Str("sensitive")), UNKNOWN, Str("sensitive"), path, mark);
    SetIfKeeps(c, conflict, SENSITIVE, Bool(true), path, mark);
    SetIfKeeps(SetIf(c, conflict, SENSITIVE, Bool(true)), conflict, SECRET_REFERENCE, Bool(false), path, mark);
  }

  /** A mark of either side is on the result. */
  lemma GuardMarks(m: map<string, Json>, target: Json, wrapper: Json, mark: string)
    requires mark in [SENSITIVE, URL_CREDENTIALS] && Either(target, wrapper, mark, Bool(true))
    ensures Own(Obj(Guard(m, target, wrapper)), mark)
  {
    hide Either, Conflict;
  }

  lemma MergedAt(target: map<string, Json>, wrapper: map<string, Json>, name: string)
    requires name != SENSITIVE
    ensures var m := MergedMembers(target, wrapper, wrapper.Keys);
            && (name in m <==> name in target || name in wrapper)
            && (name in wrapper ==> m[name] == MergedMember(target, wrapper, name))
            && (name !in wrapper && name in target ==> m[name] == target[name])
  {
    hide MergedMember;
  }

  /** What is below the merged members: the child of one side, or the merge of both. */
  lemma MergedDown(target: map<string, Json>, wrapper: map<string, Json>, step: Step)
    ensures var t, w := Down(Obj(target), step), Down(Obj(wrapper), step);
            var m := Down(Obj(MergedMembers(target, wrapper, wrapper.Keys)), step);
            && (t.Some? && w.Some? ==> m == Some(Merge(t.value, w.value)))
            && (t.Some? && w.None? ==> m == t)
            && (t.None? && w.Some? ==> m == w)
            && (t.None? && w.None? ==> m.None?)
  {
    hide Merge, MergedMembers, MergedMember, MergedProperties;
    match step {
      case Property(name) =>
        MergedAt(target, wrapper, "properties");
        if "properties" in wrapper { PropertiesMember(target, wrapper, name); }
      case Item =>
        MergedAt(target, wrapper, "items");
        if "items" in wrapper { SchemaMember(target, wrapper, "items"); }
      case Additional =>
        MergedAt(target, wrapper, "additionalProperties");
        if "additionalProperties" in wrapper { SchemaMember(target, wrapper, "additionalProperties"); }
    }
  }

  lemma SchemaMember(target: map<string, Json>, wrapper: map<string, Json>, name: string)
    requires name in wrapper && name in [METADATA, "items", "additionalProperties"]
    ensures MergedMember(target, wrapper, name)
            == if name in target then Merge(target[name], wrapper[name]) else wrapper[name]
  {
    hide Merge;
  }

  lemma PropertiesMember(target: map<string, Json>, wrapper: map<string, Json>, name: string)
    requires "properties" in wrapper
    ensures MergedMember(target, wrapper, "properties").Obj?
    ensures var m := MergedMember(target, wrapper, "properties").fields;
            var base :=
              if "properties" in target && target["properties"].Obj? then target["properties"].fields else map[];
            var extra := if wrapper["properties"].Obj? then wrapper["properties"].fields else map[];
            && (name in m <==> name in base || name in extra)
            && (name in base && name in extra ==> m[name] == Merge(base[name], extra[name]))
            && (name in base && name !in extra ==> m[name] == base[name])
            && (name !in base && name in extra ==> m[name] == extra[name])
  {
    hide Merge;
  }

  lemma MergedMetadata(target: map<string, Json>, wrapper: map<string, Json>)
    ensures var m := MergedMembers(target, wrapper, wrapper.Keys);
            && (METADATA in target && METADATA in wrapper ==>
                  METADATA in m && m[METADATA] == Merge(target[METADATA], wrapper[METADATA]))
            && (METADATA in target && METADATA !in wrapper ==> METADATA in m && m[METADATA] == target[METADATA])
            && (METADATA !in target && METADATA in wrapper ==> METADATA in m && m[METADATA] == wrapper[METADATA])
            && (METADATA !in target && METADATA !in wrapper ==> METADATA !in m)
  {
    hide Merge, MergedMembers, MergedMember;
    MergedAt(target, wrapper, METADATA);
    if METADATA in wrapper { SchemaMember(target, wrapper, METADATA); }
  }

  lemma ProtectedBelow(m: map<string, Json>, path: seq<Step>, mark: string)
    requires || (path != [] && Down(Obj(m), path[0]).Some? && Protected(Down(Obj(m), path[0]).value, path[1..], mark))
             || (METADATA in m && Protected(m[METADATA], path, mark))
    ensures Protected(Obj(m), path, mark)
  {
  }

  lemma ProtectedHere(j: Json, path: seq<Step>, mark: string)
    requires j.Obj? && (Own(j, SENSITIVE) || (path == [] && Own(j, mark)))
    ensures Protected(j, path, mark)
  {
  }

  /** The marks of a merge: `x-url-credentials` exactly when either side has it, there or in its metadata, and
      `x-sensitive` then too, or when the two declare different secret references. */
  lemma MergeMarks(target: Json, wrapper: Json)
    requires target.Obj? && wrapper.Obj?
    ensures Own(Merge(target, wrapper), URL_CREDENTIALS) <==> Either(target, wrapper, URL_CREDENTIALS, Bool(true))
    ensures Own(Merge(target, wrapper), SENSITIVE) <==>
              || Either(target, wrapper, SENSITIVE, Bool(true))
              || Clash(target.fields, wrapper.fields) || Conflict(target, wrapper)
  {
    hide MergedMembers, Merge, Either, Conflict;
    MergeIs(target, wrapper);
    var m := MergedMembers(target.fields, wrapper.fields, wrapper.fields.Keys);
    MergedOwn(target, wrapper);
    GuardOwn(m, target, wrapper);
  }

  lemma MergedOwn(target: Json, wrapper: Json)
    requires target.Obj? && wrapper.Obj?
    ensures var m := Obj(MergedMembers(target.fields, wrapper.fields, wrapper.fields.Keys));
            && (Own(m, URL_CREDENTIALS) <==> Own(target, URL_CREDENTIALS) || Own(wrapper, URL_CREDENTIALS))
            && (Own(m, SENSITIVE) <==>
                  Own(target, SENSITIVE) || Own(wrapper, SENSITIVE) || Clash(target.fields, wrapper.fields))
            && (Own(target, URL_CREDENTIALS) || Own(wrapper, URL_CREDENTIALS) ==>
                  Either(target, wrapper, URL_CREDENTIALS, Bool(true)))
            && (Own(target, SENSITIVE) || Own(wrapper, SENSITIVE) ==> Either(target, wrapper, SENSITIVE, Bool(true)))
  {
    hide MergedMember;
    var t, w := target.fields, wrapper.fields;
    if SENSITIVE in w { MergedMark(t, w, SENSITIVE); }
    if URL_CREDENTIALS in w { MergedMark(t, w, URL_CREDENTIALS); }
    var each := MergedEach(t, w, w.Keys);
    assert URL_CREDENTIALS in each <==> URL_CREDENTIALS in t || URL_CREDENTIALS in w;
    assert SENSITIVE in each <==> SENSITIVE in t || SENSITIVE in w;
  }

  lemma MergedMark(target: map<string, Json>, wrapper: map<string, Json>, name: string)
    requires name in [SENSITIVE, URL_CREDENTIALS] && name in wrapper
    ensures MergedMember(target, wrapper, name)
            == if name in target && target[name] == Bool(true) then target[name] else wrapper[name]
  {
    hide Merge, MergedProperties;
  }

  lemma GuardOwn(m: map<string, Json>, target: Json, wrapper: Json)
    ensures var g := Obj(Guard(m, target, wrapper));
            && (Own(g, URL_CREDENTIALS) <==>
                  Own(Obj(m), URL_CREDENTIALS) || Either(target, wrapper, URL_CREDENTIALS, Bool(true)))
            && (Own(g, SENSITIVE) <==>
                  || Own(Obj(m), SENSITIVE) || Either(target, wrapper, SENSITIVE, Bool(true))
                  || Conflict(target, wrapper))
  {
    hide Either, Conflict;
  }

  /** A merge protects every position that either side protects. */
  lemma {:induction false} MergeKeeps(target: Json, wrapper: Json, path: seq<Step>, mark: string)
    requires mark in [SENSITIVE, URL_CREDENTIALS]
    requires Protected(target, path, mark) || Protected(wrapper, path, mark)
    ensures Protected(Merge(target, wrapper), path, mark)
    decreases wrapper
  {
    hide MergedMembers, Guard, Merge;
    MergeIs(target, wrapper);
    if target.Obj? && wrapper.Obj? {
      var t, w := target.fields, wrapper.fields;
      var m := MergedMembers(t, w, w.Keys);
      if OwnMark(target, path, mark) || OwnMark(wrapper, path, mark) {
        MarkHere(m, target, wrapper, path, mark);
      } else {
        if path != [] {
          MergedDown(t, w, path[0]);
          var dt, dw := Down(target, path[0]), Down(wrapper, path[0]);
          if dt.Some? && dw.Some? && (Protected(dt.value, path[1..], mark) || Protected(dw.value, path[1..], mark)) {
            MergeKeeps(dt.value, dw.value, path[1..], mark);
          }
        }
        MergedMetadata(t, w);
        if && METADATA in t && METADATA in w
           && (Protected(t[METADATA], path, mark) || Protected(w[METADATA], path, mark)) {
          MergeKeeps(t[METADATA], w[METADATA], path, mark);
        }
        ProtectedBelow(m, path, mark);
        GuardKeeps(m, target, wrapper, path, mark);
      }
    }
  }

  predicate OwnMark(j: Json, path: seq<Step>, mark: string) {
    Own(j, SENSITIVE) || (path == [] && Own(j, mark))
  }

  lemma MarkHere(m: map<string, Json>, target: Json, wrapper: Json, path: seq<Step>, mark: string)
    requires mark in [SENSITIVE, URL_CREDENTIALS] && (OwnMark(target, path, mark) || OwnMark(wrapper, path, mark))
    ensures Protected(Obj(Guard(m, target, wrapper)), path, mark)
  {
    hide Guard, Protected;
    if Own(target, SENSITIVE) || Own(wrapper, SENSITIVE) {
      GuardMarks(m, target, wrapper, SENSITIVE);
    } else {
      GuardMarks(m, target, wrapper, mark);
    }
    ProtectedHere(Obj(Guard(m, target, wrapper)), path, mark);
  }

  lemma MergeIs(target: Json, wrapper: Json)
    ensures target.Obj? && wrapper.Obj? ==>
              Merge(target, wrapper)
              == Obj(Guard(MergedMembers(target.fields, wrapper.fields, wrapper.fields.Keys), target, wrapper))
    ensures !target.Obj? ==> Merge(target, wrapper) == wrapper
    ensures target.Obj? && !wrapper.Obj? ==> Merge(target, wrapper) == target
  {
  }

  // ----- metadata and references ----------------------------------------------------------------------------------

  /** `flatten_metadata`: the metadata of the node, of that metadata, and so on, merged into it. */
  function Flatten(node: Json, remaining: nat): (r: (Json, nat))
    ensures r.1 <= remaining
    ensures r.0.Obj? ==> METADATA !in r.0.fields
    decreases remaining
  {
    if Get(node, METADATA).None? then (node, remaining)
    else
      var metadata := Get(node, METADATA).value;
      if !metadata.Obj? || remaining == 0 then (HIDDEN, remaining)
      else Flatten(Merge(Obj(node.fields - {METADATA}), metadata), remaining - 1)
  }

  /** The loop of `flatten_metadata`. */
  method FlattenMetadata(start: Json, budget: nat) returns (node: Json, remaining: nat)
    ensures (node, remaining) == Flatten(start, budget)
  {
    node, remaining := start, budget;
    while Get(node, METADATA).Some?
      invariant Flatten(node, remaining) == Flatten(start, budget)
      decreases remaining
    {
      var metadata := Get(node, METADATA).value;
      if !metadata.Obj? || remaining == 0 {
        return HIDDEN, remaining;
      }
      remaining := remaining - 1;
      node := Merge(Obj(node.fields - {METADATA}), metadata);
    }
  }

  lemma HiddenProtects(path: seq<Step>, mark: string)
    ensures Protected(HIDDEN, path, mark)
  {
  }

  lemma WithoutMetadata(m: map<string, Json>, path: seq<Step>, mark: string)
    requires mark in [SENSITIVE, URL_CREDENTIALS]
    requires Protected(Obj(m), path, mark)
    ensures Protected(Obj(m - {METADATA}), path, mark) || (METADATA in m && Protected(m[METADATA], path, mark))
  {
    assert path != [] ==> Down(Obj(m - {METADATA}), path[0]) == Down(Obj(m), path[0]);
  }

  /** Flattening protects every position that the node or its metadata protects. */
  lemma {:induction false} FlattenKeeps(node: Json, remaining: nat, path: seq<Step>, mark: string)
    requires mark in [SENSITIVE, URL_CREDENTIALS] && Protected(node, path, mark)
    ensures Protected(Flatten(node, remaining).0, path, mark)
    decreases remaining
  {
    hide Protected, Merge;
    HiddenProtects(path, mark);
    if Get(node, METADATA).Some? && Get(node, METADATA).value.Obj? && remaining > 0 {
      var m := node.fields;
      assert node == Obj(m);
      WithoutMetadata(m, path, mark);
      MergeKeeps(Obj(m - {METADATA}), m[METADATA], path, mark);
      FlattenKeeps(Merge(Obj(m - {METADATA}), m[METADATA]), remaining - 1, path, mark);
    }
  }

  /** A smaller budget gives the same node, or hides it. */
  lemma {:induction false} FlattenBudget(node: Json, less: nat, more: nat)
    requires less <= more
    ensures Flatten(node, less).0 == Flatten(node, more).0 || Flatten(node, less).0 == HIDDEN
    decreases less
  {
    hide Merge;
    if Get(node, METADATA).Some? && Get(node, METADATA).value.Obj? && less > 0 {
      FlattenBudget(Merge(Obj(node.fields - {METADATA}), Get(node, METADATA).value), less - 1, more - 1);
    }
  }

  predicate Dynamic(node: Json) {
    Get(node, "$dynamicRef").Some? || Get(node, "$recursiveRef").Some?
  }

  /** Where the references of a schema lead. */
  type Pointer = string -> Option<Json>

  /** `resolve_head`: the node with its metadata, merged over the target of its reference, and what is left of the
      budget. */
  function ResolveHead(node: Json, pointer: Pointer, visited: set<string>, depth: nat, remaining: nat): (r: (Json, nat))
    ensures r.1 <= remaining
    decreases remaining
  {
    if depth > 128 || remaining == 0 || Dynamic(node) then (HIDDEN, remaining)
    else
      var (prepared, left) := Flatten(node, remaining - 1);
      if Dynamic(prepared) then (HIDDEN, left)
      else
        match Get(prepared, "$ref")
        case None => (prepared, left)
        case Some(Str(reference)) =>
          var target := pointer(reference);
          if target.None? || reference in visited then (HIDDEN, left)
          else
            var (resolved, rest) := ResolveHead(target.value, pointer, visited + {reference}, depth + 1, left);
            (Merge(resolved, prepared), rest)
        case Some(_) => (HIDDEN, left)
  }

  /** The recursion of `resolve_head`, with the references on the way in and out of the set. */
  method ResolveNode(node: Json, pointer: Pointer, visited: set<string>, depth: nat, remaining: nat)
    returns (resolved: Json, left: nat, after: set<string>)
    ensures (resolved, left) == ResolveHead(node, pointer, visited, depth, remaining)
    ensures after == visited
    decreases remaining
  {
    after := visited;
    if depth > 128 || remaining == 0 || Dynamic(node) {
      return HIDDEN, remaining, after;
    }
    var prepared;
    prepared, left := FlattenMetadata(node, remaining - 1);
    if Dynamic(prepared) {
      return HIDDEN, left, after;
    }
    var reference := Get(prepared, "$ref");
    if reference.None? {
      return prepared, left, after;
    }
    if !reference.value.Str? {
      return HIDDEN, left, after;
    }
    var name := reference.value.s;
    var target := pointer(name);
    if target.None? || name in after {
      return HIDDEN, left, after;
    }
    after := after + {name};
    resolved, left, after := ResolveNode(target.value, pointer, after, depth + 1, left);
    after := after - {name};
    resolved := Merge(resolved, prepared);
  }

  const BUDGET: nat := 10_000

  /** The target of the reference of a node, if it has one. */
  function TargetOf(node: Json, pointer: Pointer): Option<Json> {
    match Get(Flatten(node, BUDGET).0, "$ref")
    case Some(Str(reference)) => pointer(reference)
    case _ => None
  }

  /** The position is protected by the node, or by a target reached from it in at most `steps` references. */
  predicate OnRoute(node: Json, pointer: Pointer, path: seq<Step>, mark: string, steps: nat)
    decreases steps
  {
    || Protected(node, path, mark)
    || (steps > 0 && TargetOf(node, pointer).Some?
        && OnRoute(TargetOf(node, pointer).value, pointer, path, mark, steps - 1))
  }

  /** Whatever is protected on the way of the references is protected on the resolved head. */
  lemma {:induction false} HeadKeeps(node: Json, pointer: Pointer, visited: set<string>, depth: nat, remaining: nat,
                                     path: seq<Step>, mark: string, steps: nat)
    requires mark in [SENSITIVE, URL_CREDENTIALS] && remaining <= BUDGET
    requires OnRoute(node, pointer, path, mark, steps)
    ensures Protected(ResolveHead(node, pointer, visited, depth, remaining).0, path, mark)
    decreases remaining
  {
    hide Protected, Merge, Flatten;
    HiddenProtects(path, mark);
    if depth <= 128 && remaining > 0 && !Dynamic(node) {
      var (prepared, left) := Flatten(node, remaining - 1);
      FlattenBudget(node, remaining - 1, BUDGET);
      if Protected(node, path, mark) { FlattenKeeps(node, remaining - 1, path, mark); }
      var reference := Get(prepared, "$ref");
      if !Dynamic(prepared) && reference.Some? && reference.value.Str? {
        var name := reference.value.s;
        var target := pointer(name);
        if target.Some? && name !in visited {
          var resolved := ResolveHead(target.value, pointer, visited + {name}, depth + 1, left).0;
          if !Protected(node, path, mark) {
            HeadKeeps(target.value, pointer, visited + {name}, depth + 1, left, path, mark, steps - 1);
          }
          MergeKeeps(resolved, prepared, path, mark);
        }
      }
    }
  }

  /** A resolved head has no metadata of its own: its marks are its members. */
  lemma {:induction false} HeadIsFlat(node: Json, pointer: Pointer, visited: set<string>, depth: nat, remaining: nat)
    ensures var head := ResolveHead(node, pointer, visited, depth, remaining).0;
            head.Obj? ==> METADATA !in head.fields
    decreases remaining
  {
    hide Merge, Flatten;
    if depth <= 128 && remaining > 0 && !Dynamic(node) {
      var (prepared, left) := Flatten(node, remaining - 1);
      match Get(prepared, "$ref") {
        case Some(Str(name)) =>
          if !Dynamic(prepared) && pointer(name).Some? && name !in visited {
            HeadIsFlat(pointer(name).value, pointer, visited + {name}, depth + 1, left);
            MergeIsFlat(ResolveHead(pointer(name).value, pointer, visited + {name}, depth + 1, left).0, prepared);
          }
        case _ =>
      }
    }
  }

  lemma MergeIsFlat(target: Json, wrapper: Json)
    requires target.Obj? ==> METADATA !in target.fields
    requires wrapper.Obj? ==> METADATA !in wrapper.fields
    ensures Merge(target, wrapper).Obj? ==> METADATA !in Merge(target, wrapper).fields
  {
    hide MergedMembers;
    MergeIs(target, wrapper);
    if target.Obj? && wrapper.Obj? { MergedAt(target.fields, wrapper.fields, METADATA); }
  }

  /** A mark on the node, in its metadata, or on a target reached from it is a member of the resolved head; or the head
      is sensitive. */
  lemma HeadIsMarked(node: Json, pointer: Pointer, depth: nat, remaining: nat, mark: string, steps: nat)
    requires mark in [SENSITIVE, URL_CREDENTIALS] && remaining <= BUDGET
    requires OnRoute(node, pointer, [], mark, steps)
    ensures var head := ResolveHead(node, pointer, {}, depth, remaining).0; Own(head, mark) || Own(head, SENSITIVE)
  {
    hide ResolveHead;
    HeadKeeps(node, pointer, {}, depth, remaining, [], mark, steps);
    HeadIsFlat(node, pointer, {}, depth, remaining);
  }

  /** Of two references that a merge brings together, the wrapper's stays. */
  lemma MergedReference(target: Json, wrapper: Json)
    requires target.Obj? && wrapper.Obj?
    ensures Get(Merge(target, wrapper), "$ref")
            == if Get(wrapper, "$ref").Some? then Get(wrapper, "$ref") else Get(target, "$ref")
  {
    hide MergedMembers, Merge, Either, Conflict;
    MergeIs(target, wrapper);
    MergedAt(target.fields, wrapper.fields, "$ref");
    if "$ref" in wrapper.fields { MergedOrdinary(target.fields, wrapper.fields, "$ref"); }
  }

  lemma MergedOrdinary(target: map<string, Json>, wrapper: map<string, Json>, name: string)
    requires name in wrapper
    requires name !in ["properties", "items", "additionalProperties", METADATA]
    requires name !in [SENSITIVE, URL_CREDENTIALS, UNKNOWN, SECRET_REFERENCE]
    ensures MergedMember(target, wrapper, name) == wrapper[name]
  {
    hide Merge, MergedProperties;
  }

  // ----- the whole schema -----------------------------------------------------------------------------------------

  /** Every position that `a` protects, `b` protects. */
  ghost predicate Covers(a: Json, b: Json) {
    forall path, mark :: mark in [SENSITIVE, URL_CREDENTIALS] && Protected(a, path, mark) ==> Protected(b, path, mark)
  }

  /** No value is nested deeper than `bound`. */
  ghost predicate Deep(v: Json, bound: nat) {
    match v
    case Arr(xs) => bound > 0 && forall i :: 0 <= i < |xs| ==> Deep(xs[i], bound - 1)
    case Obj(m) => bound > 0 && forall k :: k in m ==> Deep(m[k], bound - 1)
    case _ => bound > 0
  }

  ghost predicate AllDeep(values: set<Json>, bound: nat) {
    forall v :: v in values ==> Deep(v, bound)
  }

  lemma {:induction false} DeepIsMonotone(v: Json, a: nat, b: nat)
    requires Deep(v, a) && a <= b
    ensures Deep(v, b)
  {
    match v
    case Arr(xs) => forall i | 0 <= i < |xs| ensures Deep(xs[i], b - 1) { DeepIsMonotone(xs[i], a - 1, b - 1); }
    case Obj(m) => forall k | k in m ensures Deep(m[k], b - 1) { DeepIsMonotone(m[k], a - 1, b - 1); }
    case _ =>
  }

  /** Every value has a depth. */
  lemma {:induction false} DepthOf(v: Json) returns (bound: nat)
    ensures Deep(v, bound)
  {
    bound := 0;
    match v {
      case Arr(xs) =>
        var i := 0;
        while i < |xs|
          invariant i <= |xs| && forall k :: 0 <= k < i ==> Deep(xs[k], bound)
        {
          var more := DepthOf(xs[i]);
          var both := if more < bound then bound else more;
          forall k | 0 <= k < i ensures Deep(xs[k], both) { DeepIsMonotone(xs[k], bound, both); }
          DeepIsMonotone(xs[i], more, both);
          bound, i := both, i + 1;
        }
      case Obj(m) =>
        var rest := m.Keys;
        while rest != {}
          invariant rest <= m.Keys && forall k :: k in m && k !in rest ==> Deep(m[k], bound)
          decreases |rest|
        {
          var k :| k in rest;
          var more := DepthOf(m[k]);
          var both := if more < bound then bound else more;
          forall x | x in m && x !in rest ensures Deep(m[x], both) { DeepIsMonotone(m[x], bound, both); }
          DeepIsMonotone(m[k], more, both);
          bound, rest := both, rest - {k};
        }
      case _ =>
    }
    bound := bound + 1;
  }

  // --- which values are at which part of the schema ---

  /** The members among `names` that belong to the step: named ones to their property, the others to the additional
      ones, and those with a numeric name to the items too. */
  ghost function FieldsAt(output: Json, fields: map<string, Json>, names: set<string>, step: Step): set<Json> {
    match step
    case Property(n) => if n in names && n in fields && Down(output, step).Some? then {fields[n]} else {}
    case Item => set k | k in names && k in fields && IsIndex(k) :: fields[k]
    case Additional => set k | k in names && k in fields && Down(output, Property(k)).None? :: fields[k]
  }

  ghost function MembersOf(output: Json, v: Json, step: Step): set<Json> {
    match v
    case Obj(fields) => FieldsAt(output, fields, fields.Keys, step)
    case Arr(xs) => if step.Property? then {} else Elements(xs)
    case _ => {}
  }

  /** The members of the values that belong to the step. */
  ghost function MembersAt(output: Json, values: set<Json>, step: Step): set<Json> {
    set v, x | v in values && x in MembersOf(output, v, step) :: x
  }

  lemma MembersAreDeep(output: Json, values: set<Json>, step: Step, bound: nat)
    requires AllDeep(values, bound)
    ensures bound > 0 ==> AllDeep(MembersAt(output, values, step), bound - 1)
    ensures values != {} ==> bound > 0
  {
    if v: Json :| v in values { assert Deep(v, bound); }
    forall v, x | v in values && x in MembersOf(output, v, step) ensures bound > 0 && Deep(x, bound - 1) {
      assert Deep(v, bound);
    }
  }

  // --- resolving ---

  /** `resolve`, as far as the values reach: the head, then its properties in the order of their names, its items and
      its additional properties. The values are finite, so it ends on cyclic schemas too. */
  ghost function Resolved(node: Json, pointer: Pointer, values: set<Json>, depth: nat, remaining: nat, bound: nat)
    : (r: (Json, nat))
    requires AllDeep(values, bound)
    ensures r.1 <= remaining
    decreases bound, 3
  {
    var (head, left) := ResolveHead(node, pointer, {}, depth, remaining);
    if values == {} then (head, left)
    else
      MembersAreDeep(head, values, Item, bound);
      var (named, l) := ResolvedNamed(head, head, pointer, values, depth, left, bound);
      var (listed, k) := ResolvedUnder(head, named, Item, "items", pointer, values, depth, l, bound);
      ResolvedUnder(head, listed, Additional, "additionalProperties", pointer, values, depth, k, bound)
  }

  /** The schema under `items` or `additionalProperties`. */
  ghost function ResolvedUnder(head: Json, node: Json, step: Step, key: string, pointer: Pointer, values: set<Json>,
                               depth: nat, remaining: nat, bound: nat): (r: (Json, nat))
    requires AllDeep(values, bound) && bound > 0
    ensures r.1 <= remaining
    decreases bound, 2
  {
    if node.Obj? && key in node.fields && node.fields[key].Obj? then
      MembersAreDeep(head, values, step, bound);
      var (child, left) :=
        Resolved(node.fields[key], pointer, MembersAt(head, values, step), depth + 1, remaining, bound - 1);
      (Obj(node.fields[key := child]), left)
    else (node, remaining)
  }

  predicate HasProperties(node: Json) {
    node.Obj? && "properties" in node.fields && node.fields["properties"].Obj?
  }

  /** The schemas under `properties`. */
  ghost function ResolvedNamed(head: Json, node: Json, pointer: Pointer, values: set<Json>, depth: nat, remaining: nat,
                               bound: nat): (r: (Json, nat))
    requires AllDeep(values, bound) && bound > 0
    ensures r.1 <= remaining
    decreases bound, 2
  {
    if HasProperties(node) then
      var properties := node.fields["properties"].fields;
      var (resolved, left) := ResolvedAll(head, properties, Canonical.Sorted(properties.Keys), pointer, values, depth,
                                          remaining, bound);
      (Obj(node.fields["properties" := Obj(resolved)]), left)
    else (node, remaining)
  }

  /** The properties `names`, one after another. */
  ghost function ResolvedAll(head: Json, properties: map<string, Json>, names: seq<string>, pointer: Pointer,
                             values: set<Json>, depth: nat, remaining: nat, bound: nat): (r: (map<string, Json>, nat))
    requires AllDeep(values, bound) && bound > 0 && forall i :: 0 <= i < |names| ==> names[i] in properties
    ensures r.0.Keys == properties.Keys && r.1 <= remaining
    decreases bound, 1, |names|
  {
    if names == [] then (properties, remaining)
    else
      var init, last := names[..|names| - 1], names[|names| - 1];
      var (before, l) := ResolvedAll(head, properties, init, pointer, values, depth, remaining, bound);
      MembersAreDeep(head, values, Property(last), bound);
      var (child, left) :=
        Resolved(properties[last], pointer, MembersAt(head, values, Property(last)), depth + 1, l, bound - 1);
      (before[last := child], left)
  }

  lemma AllOneMore(head: Json, properties: map<string, Json>, names: seq<string>, i: nat, pointer: Pointer,
                   values: set<Json>, depth: nat, remaining: nat, bound: nat)
    requires AllDeep(values, bound) && bound > 0 && i < |names|
    requires forall k :: 0 <= k < |names| ==> names[k] in properties
    requires AllDeep(MembersAt(head, values, Property(names[i])), bound - 1)
    ensures var (before, l) := ResolvedAll(head, properties, names[..i], pointer, values, depth, remaining, bound);
            var (child, left) := Resolved(properties[names[i]], pointer, MembersAt(head, values, Property(names[i])),
                                          depth + 1, l, bound - 1);
            ResolvedAll(head, properties, names[..i + 1], pointer, values, depth, remaining, bound)
            == (before[names[i] := child], left)
  {
    hide AllDeep, MembersAt, Resolved;
    assert names[..i + 1][..i] == names[..i];
  }

  lemma NoneResolved(head: Json, properties: map<string, Json>, pointer: Pointer, values: set<Json>, depth: nat,
                     remaining: nat, bound: nat)
    requires AllDeep(values, bound) && bound > 0
    ensures ResolvedAll(head, properties, [], pointer, values, depth, remaining, bound) == (properties, remaining)
  {
  }

  // --- the loops ---

  /** The children of the values, by the part of the schema they belong to. */
  class Members {
    var named: map<string, seq<Json>>
    var items: seq<Json>
    var additional: seq<Json>

    constructor ()
      ensures forall step :: Listed(step) == {}
    {
      named, items, additional := map[], [], [];
    }

    function Of(name: string): seq<Json>
      reads this
    {
      if name in named then named[name] else []
    }

    ghost function Listed(step: Step): set<Json>
      reads this
    {
      match step
      case Property(name) => Elements(Of(name))
      case Item => Elements(items)
      case Additional => Elements(additional)
    }

    lemma ListedNamed(name: string)
      ensures Listed(Property(name)) == Elements(Of(name))
    {
    }

    /** One member of an object. */
    method AddField(output: Json, fields: map<string, Json>, name: string)
      requires name in fields
      modifies this
      ensures forall step :: Listed(step) == old(Listed(step)) + FieldsAt(output, fields, {name}, step)
    {
      hide Down, IsIndex, FieldsAt, Elements;
      var child := fields[name];
      if Down(output, Property(name)).Some? {
        ElementsSnoc(Of(name), child);
        named := named[name := Of(name) + [child]];
      } else {
        ElementsSnoc(additional, child);
        additional := additional + [child];
      }
      if IsIndex(name) {
        ElementsSnoc(items, child);
        items := items + [child];
      }
      forall step { FieldAt(output, fields, name, step); }
    }

    method AddFields(output: Json, fields: map<string, Json>)
      modifies this
      ensures forall step :: Listed(step) == old(Listed(step)) + FieldsAt(output, fields, fields.Keys, step)
    {
      hide FieldsAt, Listed;
      var rest := fields.Keys;
      ghost var done: set<string> := {};
      forall step { NoFieldsAt(output, fields, step); }
      while rest != {}
        invariant done + rest == fields.Keys
        invariant forall step :: Listed(step) == old(Listed(step)) + FieldsAt(output, fields, done, step)
        decreases |rest|
      {
        var name :| name in rest;
        rest := rest - {name};
        AddField(output, fields, name);
        forall step { OneMoreFieldAt(output, fields, done, name, step); }
        done := done + {name};
      }
      assert done == fields.Keys;
    }

    method AddValue(output: Json, value: Json)
      modifies this
      ensures forall step :: Listed(step) == old(Listed(step)) + MembersOf(output, value, step)
    {
      hide FieldsAt;
      match value {
        case Obj(fields) => AddFields(output, fields);
        case Arr(xs) => items, additional := items + xs, additional + xs;
        case _ =>
      }
    }
  }

  lemma ElementsSnoc(xs: seq<Json>, x: Json)
    ensures Elements(xs + [x]) == Elements(xs) + {x}
  {
  }

  lemma FieldAt(output: Json, fields: map<string, Json>, name: string, step: Step)
    requires name in fields
    ensures FieldsAt(output, fields, {name}, step)
            == match step {
                 case Property(n) => if n == name && Down(output, Property(name)).Some? then {fields[name]} else {}
                 case Item => if IsIndex(name) then {fields[name]} else {}
                 case Additional => if Down(output, Property(name)).None? then {fields[name]} else {}
               }
  {
    hide Down, IsIndex;
  }

  lemma NoFieldsAt(output: Json, fields: map<string, Json>, step: Step)
    ensures FieldsAt(output, fields, {}, step) == {}
  {
  }

  lemma OneMoreFieldAt(output: Json, fields: map<string, Json>, done: set<string>, name: string, step: Step)
    ensures FieldsAt(output, fields, done + {name}, step)
            == FieldsAt(output, fields, done, step) + FieldsAt(output, fields, {name}, step)
  {
    hide Down, IsIndex;
  }

  /** The partition of the values: each member is listed where it belongs. */
  method Partition(output: Json, values: seq<Json>) returns (members: Members)
    ensures fresh(members)
    ensures forall step :: members.Listed(step) == MembersAt(output, Elements(values), step)
  {
    hide MembersOf;
    members := new Members();
    var i := 0;
    while i < |values|
      invariant i <= |values| && fresh(members)
      invariant forall step :: members.Listed(step) == MembersAt(output, Elements(values[..i]), step)
    {
      members.AddValue(output, values[i]);
      assert Elements(values[..i + 1]) == Elements(values[..i]) + {values[i]};
      i := i + 1;
    }
    assert values[..i] == values;
  }

  /** `resolve`. */
  method Resolve(node: Json, pointer: Pointer, values: seq<Json>, depth: nat, remaining: nat, ghost bound: nat)
    returns (output: Json, left: nat)
    requires AllDeep(Elements(values), bound)
    ensures (output, left) == Resolved(node, pointer, Elements(values), depth, remaining, bound)
    decreases bound, 3
  {
    hide Deep, AllDeep, Down, ResolveHead, MembersAt, ResolvedNamed, ResolvedUnder;
    ghost var after;
    output, left, after := ResolveNode(node, pointer, {}, depth, remaining);
    if values == [] {
      assert Elements(values) == {};
      return;
    }
    assert values[0] in Elements(values);
    MembersAreDeep(output, Elements(values), Item, bound);
    var members := Partition(output, values);
    ghost var head := output;
    output, left := ResolveProperties(output, pointer, members, Elements(values), depth, left, bound);
    output, left := ResolveSchema(head, output, Item, "items", pointer, members.items, Elements(values), depth, left,
                                  bound);
    output, left := ResolveSchema(head, output, Additional, "additionalProperties", pointer, members.additional,
                                  Elements(values), depth, left, bound);
  }

  method ResolveSchema(ghost head: Json, node: Json, ghost step: Step, key: string, pointer: Pointer,
                       children: seq<Json>, ghost values: set<Json>, depth: nat, remaining: nat, ghost bound: nat)
    returns (output: Json, left: nat)
    requires AllDeep(values, bound) && bound > 0 && Elements(children) == MembersAt(head, values, step)
    ensures (output, left) == ResolvedUnder(head, node, step, key, pointer, values, depth, remaining, bound)
    decreases bound, 2
  {
    hide Deep, AllDeep, MembersAt, Resolved;
    output, left := node, remaining;
    MembersAreDeep(head, values, step, bound);
    if node.Obj? && key in node.fields && node.fields[key].Obj? {
      var child;
      child, left := Resolve(node.fields[key], pointer, children, depth + 1, remaining, bound - 1);
      output := Obj(node.fields[key := child]);
    }
  }

  method ResolveProperties(head: Json, pointer: Pointer, members: Members, ghost values: set<Json>, depth: nat,
                           remaining: nat, ghost bound: nat)
    returns (output: Json, left: nat)
    requires AllDeep(values, bound) && bound > 0
    requires forall step :: members.Listed(step) == MembersAt(head, values, step)
    ensures (output, left) == ResolvedNamed(head, head, pointer, values, depth, remaining, bound)
    decreases bound, 2
  {
    hide Deep, AllDeep, MembersAt, Resolved, ResolvedAll, Canonical.Sorted, Canonical.Leq;
    output, left := head, remaining;
    if HasProperties(head) {
      var properties := head.fields["properties"].fields;
      var resolved;
      resolved, left := ResolveEach(head, properties, Canonical.Sorted(properties.Keys), pointer, members, values,
                                    depth, remaining, bound);
      output := Obj(head.fields["properties" := Obj(resolved)]);
    }
  }

  method ResolveEach(ghost head: Json, properties: map<string, Json>, names: seq<string>, pointer: Pointer,
                     members: Members, ghost values: set<Json>, depth: nat, remaining: nat, ghost bound: nat)
    returns (resolved: map<string, Json>, left: nat)
    requires AllDeep(values, bound) && bound > 0
    requires (forall i :: 0 <= i < |names| ==> names[i] in properties) && Distinct(names)
    requires forall step :: members.Listed(step) == MembersAt(head, values, step)
    ensures (resolved, left) == ResolvedAll(head, properties, names, pointer, values, depth, remaining, bound)
    decreases bound, 1
  {
    hide Deep, AllDeep, MembersAt, Resolved, ResolvedAll, Elements;
    resolved, left := properties, remaining;
    NoneResolved(head, properties, pointer, values, depth, remaining, bound);
    var i := 0;
    while i < |names|
      invariant i <= |names| && resolved.Keys == properties.Keys
      invariant (resolved, left) == ResolvedAll(head, properties, names[..i], pointer, values, depth, remaining, bound)
      invariant forall k :: i <= k < |names| ==> resolved[names[k]] == properties[names[k]]
    {
      var name := names[i];
      var child;
      MembersAreDeep(head, values, Property(name), bound);
      members.ListedNamed(name);
      AllOneMore(head, properties, names, i, pointer, values, depth, remaining, bound);
      child, left := Resolve(resolved[name], pointer, members.Of(name), depth + 1, left, bound - 1);
      resolved := resolved[name := child];
      i := i + 1;
    }
    assert names[..i] == names;
  }

  // ----- what resolving keeps -------------------------------------------------------------------------------------

  lemma UnderIs(head: Json, node: Json, step: Step, key: string, pointer: Pointer, values: set<Json>, depth: nat,
                remaining: nat, bound: nat)
    requires AllDeep(values, bound) && bound > 0
    requires (step == Item && key == "items") || (step == Additional && key == "additionalProperties")
    requires AllDeep(MembersAt(head, values, step), bound - 1)
    ensures var r := ResolvedUnder(head, node, step, key, pointer, values, depth, remaining, bound).0;
            && (r.Obj? <==> node.Obj?)
            && (forall name :: name != key ==> Get(r, name) == Get(node, name))
            && (forall other :: other != step ==> Down(r, other) == Down(node, other))
            && match Down(node, step) {
                 case None => Down(r, step).None?
                 case Some(child) =>
                   Down(r, step)
                   == Some(if child.Obj? then
                             Resolved(child, pointer, MembersAt(head, values, step), depth + 1, remaining, bound - 1).0
                           else child)
               }
    ensures var left := ResolvedUnder(head, node, step, key, pointer, values, depth, remaining, bound).1;
            match Down(node, step) {
              case None => left == remaining
              case Some(child) =>
                left == if child.Obj? then
                          Resolved(child, pointer, MembersAt(head, values, step), depth + 1, remaining, bound - 1).1
                        else remaining
            }
  {
    hide Resolved, MembersAt, AllDeep;
  }

  lemma {:induction false} AllIs(head: Json, properties: map<string, Json>, names: seq<string>, pointer: Pointer,
                                 values: set<Json>, depth: nat, remaining: nat, bound: nat, name: string)
    returns (l: nat)
    requires AllDeep(values, bound) && bound > 0
    requires (forall i :: 0 <= i < |names| ==> names[i] in properties) && Distinct(names) && name in properties
    requires AllDeep(MembersAt(head, values, Property(name)), bound - 1)
    ensures l <= remaining
    ensures ResolvedAll(head, properties, names, pointer, values, depth, remaining, bound).0[name]
            == if name in names then
                 Resolved(properties[name], pointer, MembersAt(head, values, Property(name)), depth + 1, l, bound - 1).0
               else properties[name]
    ensures name in names ==>
              ResolvedAll(head, properties, names, pointer, values, depth, remaining, bound).1
              <= Resolved(properties[name], pointer, MembersAt(head, values, Property(name)), depth + 1, l, bound - 1).1
    decreases |names|
  {
    hide Resolved, MembersAt, AllDeep, ResolvedAll;
    l := remaining;
    if names == [] {
      NoneResolved(head, properties, pointer, values, depth, remaining, bound);
    } else {
      var i := |names| - 1;
      MembersAreDeep(head, values, Property(names[i]), bound);
      AllOneMore(head, properties, names, i, pointer, values, depth, remaining, bound);
      assert names[..i + 1] == names;
      if name == names[i] {
        l := ResolvedAll(head, properties, names[..i], pointer, values, depth, remaining, bound).1;
      } else {
        l := AllIs(head, properties, names[..i], pointer, values, depth, remaining, bound, name);
      }
    }
  }

  lemma NamedIs(head: Json, pointer: Pointer, values: set<Json>, depth: nat, remaining: nat, bound: nat, step: Step)
    returns (l: nat)
    requires AllDeep(values, bound) && bound > 0
    requires AllDeep(MembersAt(head, values, step), bound - 1)
    ensures l <= remaining
    ensures var r := ResolvedNamed(head, head, pointer, values, depth, remaining, bound).0;
            && (r.Obj? <==> head.Obj?)
            && (forall name :: name != "properties" ==> Get(r, name) == Get(head, name))
            && Down(r, Item) == Down(head, Item) && Down(r, Additional) == Down(head, Additional)
    ensures step.Property? ==> NamedAt(head, pointer, values, depth, remaining, bound, step, l)
  {
    hide Resolved, MembersAt, AllDeep, ResolvedNamed, NamedAt;
    l := remaining;
    NamedBeside(head, pointer, values, depth, remaining, bound);
    if step.Property? {
      l := NamedBelow(head, pointer, values, depth, remaining, bound, step);
    }
  }

  /** The property of the resolved schema is that of the head, resolved with the budget `l`. */
  ghost predicate NamedAt(head: Json, pointer: Pointer, values: set<Json>, depth: nat, remaining: nat, bound: nat,
                          step: Step, l: nat)
    requires AllDeep(values, bound) && bound > 0 && AllDeep(MembersAt(head, values, step), bound - 1)
  {
    var (r, left) := ResolvedNamed(head, head, pointer, values, depth, remaining, bound);
    match Down(head, step)
    case None => Down(r, step).None?
    case Some(child) =>
      var below := Resolved(child, pointer, MembersAt(head, values, step), depth + 1, l, bound - 1);
      Down(r, step) == Some(below.0) && left <= below.1
  }

  lemma NamedBeside(head: Json, pointer: Pointer, values: set<Json>, depth: nat, remaining: nat, bound: nat)
    requires AllDeep(values, bound) && bound > 0
    ensures var r := ResolvedNamed(head, head, pointer, values, depth, remaining, bound).0;
            && (r.Obj? <==> head.Obj?)
            && (forall name :: name != "properties" ==> Get(r, name) == Get(head, name))
            && Down(r, Item) == Down(head, Item) && Down(r, Additional) == Down(head, Additional)
  {
    hide Resolved, AllDeep, ResolvedAll, Canonical.Sorted, Canonical.Leq;
  }

  lemma NamedBelow(head: Json, pointer: Pointer, values: set<Json>, depth: nat, remaining: nat, bound: nat, step: Step)
    returns (l: nat)
    requires AllDeep(values, bound) && bound > 0 && step.Property?
    requires AllDeep(MembersAt(head, values, step), bound - 1)
    ensures l <= remaining
    ensures NamedAt(head, pointer, values, depth, remaining, bound, step, l)
  {
    hide Resolved, MembersAt, AllDeep, ResolvedAll, Canonical.Sorted, Canonical.Leq;
    l := remaining;
    if HasProperties(head) {
      var properties := head.fields["properties"].fields;
      if step.name in properties {
        l := AllIs(head, properties, Canonical.Sorted(properties.Keys), pointer, values, depth, remaining, bound,
                   step.name);
      }
    }
  }

  predicate IsStructural(name: string) {
    name in ["properties", "items", "additionalProperties"]
  }

  /** The resolved schema, part by part: its own members are those of the head, and below each step is the schema below
      the head, resolved for the members that belong there. */
  lemma ResolvedParts(node: Json, pointer: Pointer, values: set<Json>, depth: nat, remaining: nat, bound: nat,
                      step: Step)
    returns (l: nat)
    requires AllDeep(values, bound) && values != {}
    ensures bound > 0 && l <= remaining
    ensures var head := ResolveHead(node, pointer, {}, depth, remaining).0;
            AllDeep(MembersAt(head, values, step), bound - 1)
    ensures var head := ResolveHead(node, pointer, {}, depth, remaining).0;
            var output := Resolved(node, pointer, values, depth, remaining, bound).0;
            && (output.Obj? <==> head.Obj?)
            && (forall name :: !IsStructural(name) ==> Get(output, name) == Get(head, name))
            && match Down(head, step) {
                 case None => Down(output, step).None?
                 case Some(child) =>
                   Down(output, step)
                   == Some(if step.Property? || child.Obj? then
                             Resolved(child, pointer, MembersAt(head, values, step), depth + 1, l, bound - 1).0
                           else child)
               }
    ensures Resolved(node, pointer, values, depth, remaining, bound).1
            <= ResolveHead(node, pointer, {}, depth, remaining).1
    ensures var below := Down(ResolveHead(node, pointer, {}, depth, remaining).0, step);
            below.Some? && (step.Property? || below.value.Obj?) ==>
              Resolved(node, pointer, values, depth, remaining, bound).1
              <= Resolved(below.value, pointer,
                          MembersAt(ResolveHead(node, pointer, {}, depth, remaining).0, values, step), depth + 1, l,
                          bound - 1).1
  {
    hide MembersAt, AllDeep, ResolvedNamed, ResolvedUnder, ResolveHead, Down, Get;
    var (head, left) := ResolveHead(node, pointer, {}, depth, remaining);
    MembersAreDeep(head, values, step, bound);
    MembersAreDeep(head, values, Item, bound);
    MembersAreDeep(head, values, Additional, bound);
    var n := NamedIs(head, pointer, values, depth, left, bound, step);
    var (named, after) := ResolvedNamed(head, head, pointer, values, depth, left, bound);
    UnderIs(head, named, Item, "items", pointer, values, depth, after, bound);
    var (listed, last) := ResolvedUnder(head, named, Item, "items", pointer, values, depth, after, bound);
    UnderIs(head, listed, Additional, "additionalProperties", pointer, values, depth, last, bound);
    l := match step
         case Property(_) => n
         case Item => after
         case Additional => last;
  }

  lemma ResolvedIsFlat(node: Json, pointer: Pointer, values: set<Json>, depth: nat, remaining: nat, bound: nat)
    requires AllDeep(values, bound)
    ensures Get(Resolved(node, pointer, values, depth, remaining, bound).0, METADATA).None?
  {
    hide MembersAt, AllDeep, ResolvedNamed, ResolvedUnder, ResolveHead, Down;
    HeadIsFlat(node, pointer, {}, depth, remaining);
    if values != {} {
      var l := ResolvedParts(node, pointer, values, depth, remaining, bound, Item);
    }
  }

  lemma ProtectedParts(j: Json, path: seq<Step>, mark: string)
    requires Get(j, METADATA).None?
    ensures Protected(j, path, mark) <==>
              || Own(j, SENSITIVE)
              || (path == [] && Own(j, mark))
              || (path != [] && Down(j, path[0]).Some? && Protected(Down(j, path[0]).value, path[1..], mark))
  {
  }

  /** Whatever the head protects, the resolved schema protects. */
  lemma {:induction false} HeadIsKept(node: Json, pointer: Pointer, values: set<Json>, depth: nat, remaining: nat,
                                      bound: nat, path: seq<Step>, mark: string)
    requires AllDeep(values, bound) && remaining <= BUDGET && mark in [SENSITIVE, URL_CREDENTIALS]
    requires Protected(ResolveHead(node, pointer, {}, depth, remaining).0, path, mark)
    ensures Protected(Resolved(node, pointer, values, depth, remaining, bound).0, path, mark)
    decreases |path|
  {
    hide MembersAt, AllDeep, Resolved, ResolveHead, Down, Protected;
    var head := ResolveHead(node, pointer, {}, depth, remaining).0;
    var output := Resolved(node, pointer, values, depth, remaining, bound).0;
    if values == {} {
      NoValues(node, pointer, depth, remaining, bound);
    } else {
      HeadIsFlat(node, pointer, {}, depth, remaining);
      ResolvedIsFlat(node, pointer, values, depth, remaining, bound);
      ProtectedParts(head, path, mark);
      ProtectedParts(output, path, mark);
      var step := if path == [] then Item else path[0];
      var l := ResolvedParts(node, pointer, values, depth, remaining, bound, step);
      if !Own(head, SENSITIVE) && path != [] {
        var child, members := Down(head, step).value, MembersAt(head, values, step);
        ProtectedIsObject(child, path[1..], mark);
        HeadKeeps(child, pointer, {}, depth + 1, l, path[1..], mark, 0);
        HeadIsKept(child, pointer, members, depth + 1, l, bound - 1, path[1..], mark);
      }
    }
  }

  lemma ProtectedIsObject(j: Json, path: seq<Step>, mark: string)
    requires Protected(j, path, mark)
    ensures j.Obj?
  {
  }

  lemma NoValues(node: Json, pointer: Pointer, depth: nat, remaining: nat, bound: nat)
    ensures AllDeep({}, bound)
    ensures Resolved(node, pointer, {}, depth, remaining, bound) == ResolveHead(node, pointer, {}, depth, remaining)
  {
  }

  /** The values have members all along the path. */
  ghost predicate ReachedBy(output: Json, values: set<Json>, path: seq<Step>)
    decreases |path|
  {
    path != [] ==>
      && values != {}
      && (Down(output, path[0]).Some? ==>
            ReachedBy(Down(output, path[0]).value, MembersAt(output, values, path[0]), path[1..]))
  }

  lemma MembersOfHead(a: Json, b: Json, values: set<Json>, step: Step)
    requires forall name :: Down(a, Property(name)).Some? <==> Down(b, Property(name)).Some?
    ensures MembersAt(a, values, step) == MembersAt(b, values, step)
  {
    hide Down, IsIndex;
    forall v | v in values ensures MembersOf(a, v, step) == MembersOf(b, v, step) {
    }
  }

  lemma SameProperties(node: Json, pointer: Pointer, values: set<Json>, depth: nat, remaining: nat, bound: nat)
    requires AllDeep(values, bound) && values != {}
    ensures var head := ResolveHead(node, pointer, {}, depth, remaining).0;
            var output := Resolved(node, pointer, values, depth, remaining, bound).0;
            forall name :: Down(output, Property(name)).Some? <==> Down(head, Property(name)).Some?
  {
    hide MembersAt, AllDeep, Resolved, ResolveHead, Down;
    forall name
      ensures Down(Resolved(node, pointer, values, depth, remaining, bound).0, Property(name)).Some?
              <==> Down(ResolveHead(node, pointer, {}, depth, remaining).0, Property(name)).Some?
    {
      var l := ResolvedParts(node, pointer, values, depth, remaining, bound, Property(name));
    }
  }

  // ----- the entry point ------------------------------------------------------------------------------------------

  predicate NeedsBelow(node: Json, key: string, depth: nat)
    decreases node, 0
  {
    node.Obj? && key in node.fields && NeedsPreparation(node.fields[key], depth)
  }

  /** `needs_preparation`. */
  predicate NeedsPreparation(node: Json, depth: nat)
    decreases node, 1
  {
    || depth > 128
    || Get(node, "$ref").Some? || Dynamic(node) || Get(node, METADATA).Some?
    || (&& node.Obj? && "properties" in node.fields && node.fields["properties"].Obj?
        && exists k :: k in node.fields["properties"].fields
                       && NeedsPreparation(node.fields["properties"].fields[k], depth + 1))
    || NeedsBelow(node, "items", depth + 1)
    || NeedsBelow(node, "additionalProperties", depth + 1)
    || NeedsBelow(node, METADATA, depth + 1)
  }

  /** `policy_schema`. */
  ghost function PolicyOf(schema: Json, pointer: Pointer, value: Json): Json {
    if NeedsPreparation(schema, 0) then Resolved(schema, pointer, {value}, 0, BUDGET, BoundOf(value)).0 else schema
  }

  ghost function BoundOf(v: Json): (bound: nat)
    ensures Deep(v, bound)
  {
    HasBound(v);
    var bound: nat :| Deep(v, bound);
    bound
  }

  lemma HasBound(v: Json)
    ensures exists bound: nat :: Deep(v, bound)
  {
    var bound := DepthOf(v);
  }

  lemma PlainParts(node: Json, depth: nat, step: Step)
    requires !NeedsPreparation(node, depth)
    ensures Get(node, METADATA).None? && Get(node, "$ref").None? && !Dynamic(node)
    ensures Down(node, step).Some? ==> !NeedsPreparation(Down(node, step).value, depth + 1)
  {
  }

  /** The prepared schema protects every position that the schema protects. */
  lemma PolicyCovers(schema: Json, pointer: Pointer, value: Json)
    ensures Covers(schema, PolicyOf(schema, pointer, value))
  {
    hide Protected, Resolved, NeedsPreparation, Deep;
    if NeedsPreparation(schema, 0) {
      var bound := BoundOf(value);
      forall path, mark | mark in [SENSITIVE, URL_CREDENTIALS] && Protected(schema, path, mark)
        ensures Protected(PolicyOf(schema, pointer, value), path, mark)
      {
        HeadKeeps(schema, pointer, {}, 0, BUDGET, path, mark, 0);
        HeadIsKept(schema, pointer, {value}, 0, BUDGET, bound, path, mark);
      }
    }
  }

  method PolicySchema(schema: Json, pointer: Pointer, value: Json) returns (prepared: Json)
    ensures prepared == PolicyOf(schema, pointer, value)
  {
    hide Deep;
    prepared := schema;
    if NeedsPreparation(schema, 0) {
      var left;
      assert Elements([value]) == {value};
      prepared, left := Resolve(schema, pointer, [value], 0, BUDGET, BoundOf(value));
    }
  }
}
