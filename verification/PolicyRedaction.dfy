/** Redaction as a whole: the policy schema is prepared for the value, and the value is projected with it. What the
    schema protects, openly or behind references, does not show; and redacting twice is redacting once. */
module PolicyRedaction {
  import opened JsonModel
  import opened Options
  import Canonical
  import Redaction
  import References
  import Resolution
  import Texts
  import UrlMask

  datatype Key = Name(name: string) | Index(index: nat)

  /** The child of a value under a key. */
  function ChildOf(v: Json, key: Key): Option<Json> {
    match key
    case Name(k) => if v.Obj? && k in v.fields then Some(v.fields[k]) else None
    case Index(i) => if v.Arr? && i < |v.items| then Some(v.items[i]) else None
  }

  function ValueAt(v: Json, path: seq<Key>): Option<Json> {
    if path == [] then Some(v)
    else match ChildOf(v, path[0]) case None => None case Some(child) => ValueAt(child, path[1..])
  }

  // ----- the schema along a path of the value ---------------------------------------------------------------------

  /** The part of the schema that the projection uses for the items of an array. */
  function ItemStep(schema: Json): Resolution.Step {
    if Redaction.Field(schema, "items").None? && Redaction.HomogeneousMap(schema) then Resolution.Additional
    else Resolution.Item
  }

  /** The part of the schema that the projection uses for a key. */
  function StepAt(schema: Json, key: Key): Resolution.Step {
    match key
    case Name(k) =>
      if Redaction.Through(Get(schema, "properties"), k).Some? then Resolution.Property(k)
      else if Redaction.Field(schema, "type") == Some(Str("array")) && Texts.IsIndex(k) then ItemStep(schema)
      else Resolution.Additional
    case Index(_) => ItemStep(schema)
  }

  function Next(schema: Json, key: Key): Json {
    match key
    case Name(k) => Redaction.Property(schema, k)
    case Index(_) => Redaction.ItemSchema(schema)
  }

  function Steps(schema: Json, path: seq<Key>): seq<Resolution.Step>
    decreases |path|
  {
    if path == [] then [] else [StepAt(schema, path[0])] + Steps(Next(schema, path[0]), path[1..])
  }

  /** The schemas along the path carry no `x-value-schema`. */
  predicate FlatAlong(schema: Json, path: seq<Key>)
    decreases |path|
  {
    Get(schema, Resolution.METADATA).None? && (path != [] ==> FlatAlong(Next(schema, path[0]), path[1..]))
  }

  lemma FlatField(schema: Json, name: string)
    requires Get(schema, Resolution.METADATA).None?
    ensures Redaction.Field(schema, name) == Get(schema, name)
  {
  }

  /** The projection goes on with the schema that is below the step, if it is an object. */
  lemma NextIsBelow(schema: Json, key: Key)
    requires Get(schema, Resolution.METADATA).None?
    ensures var below := Resolution.Down(schema, StepAt(schema, key));
            && (below.Some? && (below.value.Obj? || StepAt(schema, key).Property?) ==> Next(schema, key) == below.value)
            && (below.None? || !(below.value.Obj? || StepAt(schema, key).Property?) ==> Next(schema, key) == Null)
  {
    hide Redaction.HomogeneousMap;
    FlatField(schema, "items");
    FlatField(schema, "type");
    FlatField(schema, "additionalProperties");
    if Redaction.HomogeneousMap(schema) { MapIsNoArray(schema); }
  }

  lemma MapIsNoArray(schema: Json)
    requires Redaction.HomogeneousMap(schema)
    ensures Redaction.Field(schema, "type") == Some(Str("object"))
  {
  }

  lemma NullIsFlat(path: seq<Key>)
    ensures FlatAlong(Null, path)
    decreases |path|
  {
    if path != [] {
      NextIsBelow(Null, path[0]);
      NullIsFlat(path[1..]);
    }
  }

  // ----- what is protected is hidden ------------------------------------------------------------------------------

  /** No value on the way is a reference that is kept. */
  predicate NoReference(m: Redaction.Matcher, v: Json, schema: Json, inherited: Redaction.Flags, path: seq<Key>)
    decreases |path|
  {
    && !Redaction.KeptReference(m, v, schema, inherited)
    && (path != [] && ChildOf(v, path[0]).Some? ==>
          NoReference(m, ChildOf(v, path[0]).value, Next(schema, path[0]), Redaction.FlagsAt(m, schema, inherited),
                      path[1..]))
  }

  /** The flags hide what has the mark. */
  predicate Hides(flags: Redaction.Flags, mark: string) {
    flags.sensitive || (mark == Resolution.URL_CREDENTIALS && flags.urlCredentials)
  }

  /** What is left of a text under a mark: the mask; for an endpoint perhaps the URL without its credentials. */
  predicate Masked(text: string, shown: Json, mark: string) {
    || shown == Str(Redaction.MASK)
    || (mark == Resolution.URL_CREDENTIALS && shown == Str(UrlMask.Mask(text, Redaction.MASK)))
  }

  lemma MarksAreFlags(m: Redaction.Matcher, schema: Json, inherited: Redaction.Flags)
    ensures var flags := Redaction.FlagsAt(m, schema, inherited);
            && (inherited.sensitive || Resolution.Own(schema, Resolution.SENSITIVE) ==> flags.sensitive)
            && (inherited.urlCredentials || Resolution.Own(schema, Resolution.URL_CREDENTIALS) ==> flags.urlCredentials)
  {
    hide Redaction.ItemSchema, Redaction.Modeled, Redaction.HomogeneousMap;
  }

  lemma ShownText(m: Redaction.Matcher, text: string, schema: Json, inherited: Redaction.Flags, mark: string)
    requires text != [] && !Redaction.KeptReference(m, Str(text), schema, inherited)
    requires mark in [Resolution.SENSITIVE, Resolution.URL_CREDENTIALS]
    requires Hides(Redaction.FlagsAt(m, schema, inherited), mark)
    ensures Masked(text, Redaction.Project(Redaction.Display, m, Str(text), schema, inherited), mark)
  {
    hide Redaction.FlagsAt, Redaction.KeptReference, Redaction.WrongStringShape, UrlMask.Mask;
  }

  lemma ProjectedChild(m: Redaction.Matcher, v: Json, schema: Json, inherited: Redaction.Flags, key: Key)
    requires !Redaction.KeptReference(m, v, schema, inherited) && ChildOf(v, key).Some?
    ensures ChildOf(Redaction.Project(Redaction.Display, m, v, schema, inherited), key)
            == Some(Redaction.Project(Redaction.Display, m, ChildOf(v, key).value, Next(schema, key),
                                      Redaction.FlagsAt(m, schema, inherited)))
  {
    hide Redaction.FlagsAt, Redaction.KeptReference, Redaction.Property, Redaction.ItemSchema, Redaction.Project,
      Redaction.Judge, Redaction.ReferenceHere;
    Redaction.SecretMeans(m, v, schema, inherited);
    Redaction.DescendsAlike(m, v, schema, inherited);
    if v.Arr? {
      Redaction.ArrayProjection(Redaction.Display, m, v, schema, inherited);
    } else {
      Redaction.ObjectProjection(Redaction.Display, m, v, schema, inherited);
    }
  }

  /** A text at a position that the schema protects is masked. */
  lemma {:induction false} ProtectedIsMasked(m: Redaction.Matcher, v: Json, schema: Json, inherited: Redaction.Flags,
                                             path: seq<Key>, mark: string, text: string)
    requires mark in [Resolution.SENSITIVE, Resolution.URL_CREDENTIALS]
    requires FlatAlong(schema, path) && NoReference(m, v, schema, inherited, path)
    requires ValueAt(v, path) == Some(Str(text)) && text != []
    requires inherited.sensitive || Resolution.Protected(schema, Steps(schema, path), mark)
    ensures var shown := ValueAt(Redaction.Project(Redaction.Display, m, v, schema, inherited), path);
            shown.Some? && Masked(text, shown.value, mark)
    decreases |path|
  {
    hide Redaction.FlagsAt, Redaction.KeptReference, Redaction.Project, Resolution.Protected, StepAt, Next,
      Resolution.Down, Masked;
    var steps := Steps(schema, path);
    Resolution.ProtectedParts(schema, steps, mark);
    MarksAreFlags(m, schema, inherited);
    var flags := Redaction.FlagsAt(m, schema, inherited);
    if path == [] {
      ShownText(m, text, schema, inherited, mark);
    } else {
      var key, rest := path[0], path[1..];
      assert steps[1..] == Steps(Next(schema, key), rest);
      NextIsBelow(schema, key);
      if !flags.sensitive {
        Resolution.ProtectedIsObject(Resolution.Down(schema, steps[0]).value, steps[1..], mark);
      }
      ProjectedChild(m, v, schema, inherited, key);
      ProtectedIsMasked(m, ChildOf(v, key).value, Next(schema, key), flags, rest, mark, text);
    }
  }

  // ----- the prepared schema is flat where the value reaches ------------------------------------------------------

  /** The child of a value is among the members of its part of the schema. */
  lemma ChildIsMember(schema: Json, v: Json, values: set<Json>, key: Key)
    requires Get(schema, Resolution.METADATA).None? && v in values && ChildOf(v, key).Some?
    ensures ChildOf(v, key).value in Resolution.MembersAt(schema, values, StepAt(schema, key))
  {
    hide Redaction.HomogeneousMap;
    FlatField(schema, "type");
    if Redaction.HomogeneousMap(schema) { MapIsNoArray(schema); }
    assert ChildOf(v, key).value in Resolution.MembersOf(schema, v, StepAt(schema, key));
  }

  lemma {:induction false} AlongResolved(node: Json, pointer: Resolution.Pointer, values: set<Json>, depth: nat,
                                         remaining: nat, bound: nat, v: Json, path: seq<Key>)
    requires Resolution.AllDeep(values, bound) && v in values && ValueAt(v, path).Some?
    ensures var output := Resolution.Resolved(node, pointer, values, depth, remaining, bound).0;
            FlatAlong(output, path) && Resolution.ReachedBy(output, values, Steps(output, path))
    decreases |path|
  {
    hide Resolution.AllDeep, Resolution.Resolved, Resolution.Down, Resolution.MembersAt, Resolution.ResolveHead, StepAt,
      Next, ChildOf;
    var head := Resolution.ResolveHead(node, pointer, {}, depth, remaining).0;
    var output := Resolution.Resolved(node, pointer, values, depth, remaining, bound).0;
    Resolution.ResolvedIsFlat(node, pointer, values, depth, remaining, bound);
    if path != [] {
      var key, rest := path[0], path[1..];
      var step := StepAt(output, key);
      assert Steps(output, path)[1..] == Steps(Next(output, key), rest);
      NextIsBelow(output, key);
      ChildIsMember(output, v, values, key);
      var l := Resolution.ResolvedParts(node, pointer, values, depth, remaining, bound, step);
      Resolution.SameProperties(node, pointer, values, depth, remaining, bound);
      Resolution.MembersOfHead(output, head, values, step);
      var members := Resolution.MembersAt(head, values, step);
      NullIsFlat(rest);
      if Resolution.Down(head, step).Some? {
        var child := Resolution.Down(head, step).value;
        if step.Property? || child.Obj? {
          AlongResolved(child, pointer, members, depth + 1, l, bound - 1, ChildOf(v, key).value, rest);
          if child.Obj? { ResolvedIsObject(child, pointer, members, depth + 1, l, bound - 1); }
        } else {
          NotReached(child, members, Steps(Next(output, key), rest));
        }
      }
    }
  }

  lemma NotReached(node: Json, values: set<Json>, path: seq<Resolution.Step>)
    requires !node.Obj? && values != {}
    ensures Resolution.ReachedBy(node, values, path)
  {
  }

  lemma ResolvedIsObject(node: Json, pointer: Resolution.Pointer, values: set<Json>, depth: nat, remaining: nat,
                         bound: nat)
    requires Resolution.AllDeep(values, bound) && node.Obj?
    ensures Resolution.Resolved(node, pointer, values, depth, remaining, bound).0.Obj?
  {
    hide Resolution.AllDeep, Resolution.ResolvedNamed, Resolution.ResolvedUnder, Resolution.MembersAt,
      Resolution.ResolveHead;
    HeadIsObject(node, pointer, {}, depth, remaining);
    if values != {} {
      var l := Resolution.ResolvedParts(node, pointer, values, depth, remaining, bound, Resolution.Item);
    }
  }

  lemma {:induction false} HeadIsObject(node: Json, pointer: Resolution.Pointer, visited: set<string>, depth: nat,
                                        remaining: nat)
    requires node.Obj?
    ensures Resolution.ResolveHead(node, pointer, visited, depth, remaining).0.Obj?
    decreases remaining
  {
    hide Resolution.Merge, Resolution.Flatten;
    if remaining > 0 {
      FlattenedIsObject(node, remaining - 1);
      var prepared := Resolution.Flatten(node, remaining - 1).0;
      var reference := Get(prepared, "$ref");
      if reference.Some? && reference.value.Str? && pointer(reference.value.s).Some? {
        var target := pointer(reference.value.s).value;
        var left := Resolution.Flatten(node, remaining - 1).1;
        var resolved := Resolution.ResolveHead(target, pointer, visited + {reference.value.s}, depth + 1, left).0;
        Resolution.MergeIs(resolved, prepared);
      }
    }
  }

  lemma {:induction false} FlattenedIsObject(node: Json, remaining: nat)
    requires node.Obj?
    ensures Resolution.Flatten(node, remaining).0.Obj?
    decreases remaining
  {
    hide Resolution.Merge;
    var metadata := Get(node, Resolution.METADATA);
    if metadata.Some? && metadata.value.Obj? && remaining > 0 {
      var rest := Obj(node.fields - {Resolution.METADATA});
      Resolution.MergeIs(rest, metadata.value);
      FlattenedIsObject(Resolution.Merge(rest, metadata.value), remaining - 1);
    }
  }

  lemma {:induction false} AlongPlain(schema: Json, v: Json, values: set<Json>, path: seq<Key>, depth: nat)
    requires !Resolution.NeedsPreparation(schema, depth) && v in values && ValueAt(v, path).Some?
    ensures FlatAlong(schema, path) && Resolution.ReachedBy(schema, values, Steps(schema, path))
    decreases |path|
  {
    hide Resolution.NeedsPreparation, Resolution.Down, Resolution.MembersAt, StepAt, Next, ChildOf;
    Resolution.PlainParts(schema, depth, Resolution.Item);
    if path != [] {
      var key, rest := path[0], path[1..];
      var step := StepAt(schema, key);
      assert Steps(schema, path)[1..] == Steps(Next(schema, key), rest);
      NextIsBelow(schema, key);
      ChildIsMember(schema, v, values, key);
      Resolution.PlainParts(schema, depth, step);
      NullIsFlat(rest);
      if Resolution.Down(schema, step).Some? {
        var below, members := Resolution.Down(schema, step).value, Resolution.MembersAt(schema, values, step);
        if step.Property? || below.Obj? {
          AlongPlain(below, ChildOf(v, key).value, members, rest, depth + 1);
        } else {
          NotReached(below, members, Steps(Next(schema, key), rest));
        }
      }
    }
  }

  // ----- the steps of a path, read off the raw schema -------------------------------------------------------------

  predicate RawMap(nodes: seq<Json>) {
    && References.AllAt(nodes, []).kind == Some(Str("object"))
    && forall i :: 0 <= i < |nodes| ==> !Redaction.HasMembers(Get(nodes[i], "properties"))
  }

  predicate IsThere(nodes: seq<Json>, step: Resolution.Step) {
    References.AllAt(nodes, [References.Under(step)]).there
  }

  function RawItemStep(nodes: seq<Json>): Resolution.Step {
    if !IsThere(nodes, Resolution.Item) && RawMap(nodes) then Resolution.Additional else Resolution.Item
  }

  /** The step that the projection takes for a key, where these nodes come together. */
  function RawStep(nodes: seq<Json>, key: Key): Resolution.Step {
    match key
    case Name(k) =>
      if IsThere(nodes, Resolution.Property(k)) then Resolution.Property(k)
      else if References.AllAt(nodes, []).kind == Some(Str("array")) && Texts.IsIndex(k) then RawItemStep(nodes)
      else Resolution.Additional
    case Index(_) => RawItemStep(nodes)
  }

  function RawSteps(nodes: seq<Json>, pointer: Resolution.Pointer, depth: nat, path: seq<Key>): seq<Resolution.Step>
    decreases |path|
  {
    if path == [] then []
    else
      var chain := References.Chain(nodes, pointer, depth);
      var step := RawStep(chain, path[0]);
      [step] + RawSteps(References.Below(chain, step), pointer, depth + 1, path[1..])
  }

  lemma ThereIs(schema: Json, nodes: seq<Json>, step: Resolution.Step)
    requires References.StandsFor(schema, nodes)
    ensures IsThere(nodes, step) <==> Resolution.Down(schema, step).Some?
  {
    hide References.At, Resolution.Down;
    var place := [References.Under(step)];
    assert References.At(schema, place) == References.AllAt(nodes, place);
    assert [References.Under(step)] + [] == place;
    References.UnderSight(schema, step, []);
    if Resolution.Down(schema, step).Some? { References.SeenHere(Resolution.Down(schema, step).value); }
  }

  lemma HasProperty(schema: Json)
    ensures Redaction.HasMembers(Get(schema, "properties")) <==>
              exists name :: Resolution.Down(schema, Resolution.Property(name)).Some?
  {
    if Redaction.HasMembers(Get(schema, "properties")) {
      var name :| name in schema.fields["properties"].fields;
      assert Resolution.Down(schema, Resolution.Property(name)).Some?;
    }
  }

  lemma {:induction false} SomeHasProperty(nodes: seq<Json>, name: string)
    ensures IsThere(nodes, Resolution.Property(name)) <==>
              exists i :: 0 <= i < |nodes| && Resolution.Down(nodes[i], Resolution.Property(name)).Some?
  {
    hide References.At, Resolution.Down;
    var step := Resolution.Property(name);
    if nodes != [] {
      SomeHasProperty(nodes[1..], name);
      References.UnderSight(nodes[0], step, []);
      assert [References.Under(step)] + [] == [References.Under(step)];
      if Resolution.Down(nodes[0], step).Some? { References.SeenHere(Resolution.Down(nodes[0], step).value); }
      assert forall i :: 0 < i < |nodes| ==> nodes[i] == nodes[1..][i - 1];
      if IsThere(nodes[1..], step) {
        var i :| 0 <= i < |nodes[1..]| && Resolution.Down(nodes[1..][i], step).Some?;
        assert Resolution.Down(nodes[i + 1], step).Some?;
      }
    }
  }

  lemma MapIs(schema: Json, nodes: seq<Json>)
    requires References.StandsFor(schema, nodes) && Get(schema, Resolution.METADATA).None?
    ensures Redaction.HomogeneousMap(schema) <==> RawMap(nodes)
  {
    hide References.StandsFor, References.AllAt, Resolution.Down, Redaction.HasMembers, IsThere;
    References.StandsHere(schema, nodes);
    FlatField(schema, "type");
    NoInnerMembers(schema);
    if Redaction.HasMembers(Get(schema, "properties")) {
      HasProperty(schema);
      var name :| Resolution.Down(schema, Resolution.Property(name)).Some?;
      ThereIs(schema, nodes, Resolution.Property(name));
      SomeHasProperty(nodes, name);
      var i :| 0 <= i < |nodes| && Resolution.Down(nodes[i], Resolution.Property(name)).Some?;
      HasProperty(nodes[i]);
    } else {
      forall i | 0 <= i < |nodes| ensures !Redaction.HasMembers(Get(nodes[i], "properties")) {
        HasProperty(nodes[i]);
        HasProperty(schema);
        forall name ensures Resolution.Down(nodes[i], Resolution.Property(name)).None? {
          SomeHasProperty(nodes, name);
          ThereIs(schema, nodes, Resolution.Property(name));
        }
      }
    }
  }

  lemma NoInnerMembers(schema: Json)
    requires Get(schema, Resolution.METADATA).None?
    ensures !Redaction.HasMembers(Redaction.Through(Get(schema, "x-value-schema"), "properties"))
  {
  }

  /** The projection takes the step that is read off the nodes. */
  lemma StepIs(schema: Json, nodes: seq<Json>, key: Key)
    requires References.StandsFor(schema, nodes) && Get(schema, Resolution.METADATA).None?
    ensures StepAt(schema, key) == RawStep(nodes, key)
  {
    hide References.StandsFor, References.AllAt, Resolution.Down, Redaction.HomogeneousMap, RawMap, IsThere;
    References.StandsHere(schema, nodes);
    FlatField(schema, "type");
    FlatField(schema, "items");
    MapIs(schema, nodes);
    ThereIs(schema, nodes, Resolution.Item);
    ItemsThere(schema);
    if key.Name? {
      ThereIs(schema, nodes, Resolution.Property(key.name));
      PropertyThere(schema, key.name);
    }
  }

  lemma ItemsThere(schema: Json)
    ensures Resolution.Down(schema, Resolution.Item).Some? <==> Get(schema, "items").Some?
  {
  }

  lemma PropertyThere(schema: Json, name: string)
    ensures Resolution.Down(schema, Resolution.Property(name)).Some?
            <==> Redaction.Through(Get(schema, "properties"), name).Some?
  {
  }

  /** Two schemas with the same members, the schemas below them aside, take the same steps. */
  lemma SameSteps(a: Json, b: Json, key: Key)
    requires Get(a, Resolution.METADATA).None? && Get(b, Resolution.METADATA).None?
    requires Get(a, "type") == Get(b, "type")
    requires Resolution.Down(a, Resolution.Item).Some? <==> Resolution.Down(b, Resolution.Item).Some?
    requires forall name ::
               Resolution.Down(a, Resolution.Property(name)).Some?
               <==> Resolution.Down(b, Resolution.Property(name)).Some?
    ensures StepAt(a, key) == StepAt(b, key)
  {
    hide Resolution.Down, Redaction.HasMembers;
    FlatField(a, "type");
    FlatField(b, "type");
    FlatField(a, "items");
    FlatField(b, "items");
    HasProperty(a);
    HasProperty(b);
    NoInnerMembers(a);
    NoInnerMembers(b);
    ItemsThere(a);
    ItemsThere(b);
    if key.Name? {
      PropertyThere(a, key.name);
      PropertyThere(b, key.name);
    }
  }

  // ----- what the raw schema marks is protected -------------------------------------------------------------------

  /** The resolved schema takes the steps of its head. */
  lemma OutputSteps(node: Json, pointer: Resolution.Pointer, values: set<Json>, depth: nat, remaining: nat, bound: nat,
                    key: Key)
    requires Resolution.AllDeep(values, bound) && values != {}
    ensures StepAt(Resolution.Resolved(node, pointer, values, depth, remaining, bound).0, key)
            == StepAt(Resolution.ResolveHead(node, pointer, {}, depth, remaining).0, key)
  {
    hide Resolution.AllDeep, Resolution.Resolved, Resolution.Down, Resolution.MembersAt, Resolution.ResolveHead, StepAt;
    var head := Resolution.ResolveHead(node, pointer, {}, depth, remaining).0;
    var output := Resolution.Resolved(node, pointer, values, depth, remaining, bound).0;
    Resolution.ResolvedIsFlat(node, pointer, values, depth, remaining, bound);
    Resolution.HeadIsFlat(node, pointer, {}, depth, remaining);
    Resolution.SameProperties(node, pointer, values, depth, remaining, bound);
    var l := Resolution.ResolvedParts(node, pointer, values, depth, remaining, bound, Resolution.Item);
    TypeIsNotStructural();
    SameSteps(output, head, key);
  }

  lemma TypeIsNotStructural()
    ensures !Resolution.IsStructural("type")
  {
  }

  /** A position of a value that is marked along the followed references is protected in the resolved schema, under the
      steps the projection takes. */
  lemma {:induction false} KeyedProtects(node: Json, nodes: seq<Json>, pointer: Resolution.Pointer, values: set<Json>,
                                         depth: nat, remaining: nat, bound: nat, v: Json, path: seq<Key>, mark: string)
    requires Resolution.AllDeep(values, bound) && remaining <= Resolution.BUDGET
    requires mark in [Resolution.SENSITIVE, Resolution.URL_CREDENTIALS] && v in values && ValueAt(v, path).Some?
    requires References.StandsFor(node, nodes) && References.Covered(node, nodes)
    requires References.Follows(nodes, pointer, depth, RawSteps(nodes, pointer, depth, path), mark)
    ensures var output := Resolution.Resolved(node, pointer, values, depth, remaining, bound).0;
            Resolution.Protected(output, Steps(output, path), mark)
    decreases |path|
  {
    hide Resolution.AllDeep, Resolution.Resolved, Resolution.Down, Resolution.MembersAt, Resolution.ResolveHead, StepAt,
      Next, ChildOf, RawStep, References.HeadFails, References.Broken, References.Chain, References.StandsFor,
      References.Covered, References.AnyMarked, References.AnyProtected, References.Below, Resolution.Protected;
    var head := Resolution.ResolveHead(node, pointer, {}, depth, remaining).0;
    var output := Resolution.Resolved(node, pointer, values, depth, remaining, bound).0;
    var chain := References.Chain(nodes, pointer, depth);
    var steps := RawSteps(nodes, pointer, depth, path);
    References.HeadFailsWhen(node, nodes, pointer, {}, depth, remaining);
    if References.HeadFails(node, pointer, {}, depth, remaining) {
      References.HeadFailed(node, pointer, {}, depth, remaining);
      References.SensitiveOutput(node, pointer, values, depth, remaining, bound, Steps(output, path), mark);
    } else if References.AnyMarked(chain, steps, mark) {
      MarkedHere(node, nodes, pointer, values, depth, remaining, bound, path, mark);
    } else if Resolution.Own(head, Resolution.SENSITIVE) {
      References.SensitiveOutput(node, pointer, values, depth, remaining, bound, Steps(output, path), mark);
    } else {
      var key, rest, step := path[0], path[1..], steps[0];
      assert steps[1..] == RawSteps(References.Below(chain, step), pointer, depth + 1, rest);
      References.HeadStandsBelow(node, nodes, pointer, depth, remaining, step);
      References.HeadStands(node, nodes, pointer, {}, depth, remaining);
      Resolution.HeadIsFlat(node, pointer, {}, depth, remaining);
      Resolution.ResolvedIsFlat(node, pointer, values, depth, remaining, bound);
      StepIs(head, chain, key);
      OutputSteps(node, pointer, values, depth, remaining, bound, key);
      var child, members := Resolution.Down(head, step).value, Resolution.MembersAt(head, values, step);
      ChildIsMember(output, v, values, key);
      Resolution.SameProperties(node, pointer, values, depth, remaining, bound);
      Resolution.MembersOfHead(output, head, values, step);
      var l := Resolution.ResolvedParts(node, pointer, values, depth, remaining, bound, step);
      KeyedProtects(child, References.Below(chain, step), pointer, members, depth + 1, l, bound - 1,
                    ChildOf(v, key).value, rest, mark);
      ProtectedNext(output, key, rest, mark);
    }
  }

  lemma ProtectedNext(schema: Json, key: Key, rest: seq<Key>, mark: string)
    requires Get(schema, Resolution.METADATA).None?
    requires var below := Resolution.Down(schema, StepAt(schema, key));
             below.Some? && Resolution.Protected(below.value, Steps(below.value, rest), mark)
    ensures Resolution.Protected(schema, Steps(schema, [key] + rest), mark)
  {
    hide Resolution.Down, Resolution.Protected, StepAt, Next;
    NextIsBelow(schema, key);
    var below := Resolution.Down(schema, StepAt(schema, key)).value;
    Resolution.ProtectedIsObject(below, Steps(below, rest), mark);
    assert ([key] + rest)[1..] == rest;
    var steps := Steps(schema, [key] + rest);
    assert steps[1..] == Steps(below, rest);
    Resolution.ProtectedParts(schema, steps, mark);
  }

  /** A mark where the nodes come together. */
  lemma MarkedHere(node: Json, nodes: seq<Json>, pointer: Resolution.Pointer, values: set<Json>, depth: nat,
                   remaining: nat, bound: nat, path: seq<Key>, mark: string)
    requires Resolution.AllDeep(values, bound) && remaining <= Resolution.BUDGET
    requires mark in [Resolution.SENSITIVE, Resolution.URL_CREDENTIALS]
    requires References.StandsFor(node, nodes) && References.Covered(node, nodes)
    requires !References.HeadFails(node, pointer, {}, depth, remaining)
    requires References.AnyMarked(References.Chain(nodes, pointer, depth), RawSteps(nodes, pointer, depth, path), mark)
    ensures var output := Resolution.Resolved(node, pointer, values, depth, remaining, bound).0;
            Resolution.Protected(output, Steps(output, path), mark)
  {
    hide Resolution.AllDeep, Resolution.Resolved, Resolution.ResolveHead, StepAt, Next, RawStep, References.HeadFails,
      References.Chain, References.StandsFor, References.Covered, References.AnyProtected, References.Below,
      Resolution.Protected;
    var chain, steps := References.Chain(nodes, pointer, depth), RawSteps(nodes, pointer, depth, path);
    var output := Resolution.Resolved(node, pointer, values, depth, remaining, bound).0;
    if path == [] {
      References.MarkedProtects(chain, [], mark);
      References.HeadCovers(node, nodes, pointer, {}, depth, remaining, [], mark);
      Resolution.HeadIsKept(node, pointer, values, depth, remaining, bound, [], mark);
    } else {
      MarkedIsSensitive(chain, steps, mark);
      References.MarkedProtects(chain, [], Resolution.SENSITIVE);
      References.HeadCovers(node, nodes, pointer, {}, depth, remaining, [], Resolution.SENSITIVE);
      Resolution.HeadIsFlat(node, pointer, {}, depth, remaining);
      Resolution.ProtectedParts(Resolution.ResolveHead(node, pointer, {}, depth, remaining).0, [],
                                Resolution.SENSITIVE);
      References.SensitiveOutput(node, pointer, values, depth, remaining, bound, Steps(output, path), mark);
    }
  }

  lemma {:induction false} MarkedIsSensitive(nodes: seq<Json>, path: seq<Resolution.Step>, mark: string)
    requires path != [] && References.AnyMarked(nodes, path, mark)
    ensures References.AnyMarked(nodes, [], Resolution.SENSITIVE)
  {
    if !Resolution.OwnMark(nodes[0], path, mark) { MarkedIsSensitive(nodes[1..], path, mark); }
  }

  lemma {:induction false} KeyedPlain(node: Json, pointer: Resolution.Pointer, depth: nat, path: seq<Key>, mark: string)
    requires !Resolution.NeedsPreparation(node, depth)
    requires References.Follows([node], pointer, depth, RawSteps([node], pointer, depth, path), mark)
    ensures Resolution.Protected(node, Steps(node, path), mark)
    decreases |path|
  {
    hide Resolution.NeedsPreparation, Resolution.Protected, References.Broken, References.Chain, Resolution.Down,
      StepAt, Next, RawStep, References.StandsFor;
    References.PlainChain(node, pointer, depth);
    Resolution.PlainParts(node, depth, Resolution.Item);
    var steps := RawSteps([node], pointer, depth, path);
    Resolution.ProtectedParts(node, Steps(node, path), mark);
    References.OnlyMarked(node, steps, mark);
    if !References.AnyMarked([node], steps, mark) {
      var key, rest, step := path[0], path[1..], steps[0];
      References.ItselfStands(node);
      StepIs(node, [node], key);
      References.OnlyBelow(node, step);
      Resolution.PlainParts(node, depth, step);
      var child := Resolution.Down(node, step).value;
      assert steps[1..] == RawSteps([child], pointer, depth + 1, rest);
      KeyedPlain(child, pointer, depth + 1, rest, mark);
      ProtectedNext(node, key, rest, mark);
      assert [key] + rest == path;
    }
  }

  // ----- the whole ------------------------------------------------------------------------------------------------

  /** `redact_with_schema`; the matcher belongs to the prepared schema. */
  ghost function Redacted(schema: Json, pointer: Resolution.Pointer, matcher: Json -> Redaction.Matcher, value: Json)
    : Json
  {
    var policy := Resolution.PolicyOf(schema, pointer, value);
    Redaction.Project(Redaction.Display, matcher(policy), value, policy, Redaction.NO_FLAGS)
  }

  /** Where the value has a text, and the raw schema marks the position along the references that are followed, the
      redacted value has the mask (for endpoints: no credentials), unless the text is in a reference that is kept. */
  lemma RedactionHides(schema: Json, pointer: Resolution.Pointer, matcher: Json -> Redaction.Matcher, value: Json,
                       path: seq<Key>, text: string, mark: string)
    requires mark in [Resolution.SENSITIVE, Resolution.URL_CREDENTIALS]
    requires ValueAt(value, path) == Some(Str(text)) && text != []
    requires References.Follows([schema], pointer, 0, RawSteps([schema], pointer, 0, path), mark)
    requires var policy := Resolution.PolicyOf(schema, pointer, value);
             NoReference(matcher(policy), value, policy, Redaction.NO_FLAGS, path)
    ensures var shown := ValueAt(Redacted(schema, pointer, matcher, value), path);
            shown.Some? && Masked(text, shown.value, mark)
  {
    hide Resolution.Resolved, References.Follows, Resolution.Protected, Resolution.NeedsPreparation, NoReference,
      Masked, FlatAlong, Resolution.ReachedBy, RawSteps, References.StandsFor, References.Covered;
    var policy := Resolution.PolicyOf(schema, pointer, value);
    if Resolution.NeedsPreparation(schema, 0) {
      AlongResolved(schema, pointer, {value}, 0, Resolution.BUDGET, Resolution.BoundOf(value), value, path);
      References.ItselfStands(schema);
      References.ItselfCovered(schema);
      KeyedProtects(schema, [schema], pointer, {value}, 0, Resolution.BUDGET, Resolution.BoundOf(value), value, path,
                    mark);
    } else {
      AlongPlain(schema, value, {value}, path, 0);
      KeyedPlain(schema, pointer, 0, path, mark);
    }
    ProtectedIsMasked(matcher(policy), value, policy, Redaction.NO_FLAGS, path, mark, text);
  }

  /** The same for every mark the raw schema reaches, over whatever references, if along the path no two different
      references come together. */
  lemma ReachedIsHidden(schema: Json, pointer: Resolution.Pointer, matcher: Json -> Redaction.Matcher, value: Json,
                        path: seq<Key>, text: string, mark: string, steps: nat)
    requires mark in [Resolution.SENSITIVE, Resolution.URL_CREDENTIALS]
    requires ValueAt(value, path) == Some(Str(text)) && text != []
    requires References.Clear([schema], pointer, 0, RawSteps([schema], pointer, 0, path))
    requires References.Reaches(schema, pointer, RawSteps([schema], pointer, 0, path), mark, steps)
    requires var policy := Resolution.PolicyOf(schema, pointer, value);
             NoReference(matcher(policy), value, policy, Redaction.NO_FLAGS, path)
    ensures var shown := ValueAt(Redacted(schema, pointer, matcher, value), path);
            shown.Some? && Masked(text, shown.value, mark)
  {
    hide References.Clear, References.Reaches, References.Follows, RawSteps, References.Chain, Resolution.PolicyOf,
      Masked, NoReference;
    var steps' := RawSteps([schema], pointer, 0, path);
    References.ChainHasPieces(schema, [schema], pointer, 0);
    References.ReachesFollows(schema, [schema], pointer, 0, steps', mark, steps);
    RedactionHides(schema, pointer, matcher, value, path, text, mark);
  }

  // ----- twice ----------------------------------------------------------------------------------------------------

  /** Every value of one side has one of the same shape on the other. */
  ghost predicate SameShapes(xs: set<Json>, ys: set<Json>) {
    (forall x :: x in xs ==> Finds(x, ys)) && (forall y :: y in ys ==> Found(xs, y))
  }

  ghost predicate Finds(x: Json, ys: set<Json>) {
    exists y :: y in ys && Redaction.SameShape(x, y)
  }

  ghost predicate Found(xs: set<Json>, y: Json) {
    exists x :: x in xs && Redaction.SameShape(x, y)
  }

  lemma ShapedMembers(head: Json, x: Json, y: Json, step: Resolution.Step)
    requires Redaction.SameShape(x, y)
    ensures SameShapes(Resolution.MembersOf(head, x, step), Resolution.MembersOf(head, y, step))
  {
    hide Resolution.Down, Texts.IsIndex;
    var ms, ns := Resolution.MembersOf(head, x, step), Resolution.MembersOf(head, y, step);
    match x {
      case Obj(fields) =>
        forall k | k in fields ensures Redaction.SameShape(fields[k], y.fields[k]) {
        }
      case Arr(xs) =>
        forall m | m in ms ensures Finds(m, ns) {
          var i :| 0 <= i < |xs| && xs[i] == m;
          assert Redaction.SameShape(xs[i], y.items[i]) && y.items[i] in ns;
        }
        forall n | n in ns ensures Found(ms, n) {
          var i :| 0 <= i < |y.items| && y.items[i] == n;
          assert Redaction.SameShape(xs[i], y.items[i]) && xs[i] in ms;
        }
      case _ =>
    }
  }

  lemma ShapedMembersAt(head: Json, xs: set<Json>, ys: set<Json>, step: Resolution.Step)
    requires SameShapes(xs, ys)
    ensures SameShapes(Resolution.MembersAt(head, xs, step), Resolution.MembersAt(head, ys, step))
  {
    hide Resolution.MembersOf, Redaction.SameShape;
    var ms, ns := Resolution.MembersAt(head, xs, step), Resolution.MembersAt(head, ys, step);
    forall m | m in ms ensures Finds(m, ns) {
      var x :| x in xs && m in Resolution.MembersOf(head, x, step);
      assert Finds(x, ys);
      var y :| y in ys && Redaction.SameShape(x, y);
      ShapedMembers(head, x, y, step);
      ShapedMember(head, x, y, ys, step, m);
    }
    forall n | n in ns ensures Found(ms, n) {
      var y :| y in ys && n in Resolution.MembersOf(head, y, step);
      assert Found(xs, y);
      var x :| x in xs && Redaction.SameShape(x, y);
      ShapedMembers(head, x, y, step);
      MemberShaped(head, x, y, xs, step, n);
    }
  }

  lemma ShapedMember(head: Json, x: Json, y: Json, ys: set<Json>, step: Resolution.Step, m: Json)
    requires SameShapes(Resolution.MembersOf(head, x, step), Resolution.MembersOf(head, y, step))
    requires y in ys && m in Resolution.MembersOf(head, x, step)
    ensures Finds(m, Resolution.MembersAt(head, ys, step))
  {
    hide Resolution.MembersOf, Redaction.SameShape;
    assert Finds(m, Resolution.MembersOf(head, y, step));
  }

  lemma MemberShaped(head: Json, x: Json, y: Json, xs: set<Json>, step: Resolution.Step, n: Json)
    requires SameShapes(Resolution.MembersOf(head, x, step), Resolution.MembersOf(head, y, step))
    requires x in xs && n in Resolution.MembersOf(head, y, step)
    ensures Found(Resolution.MembersAt(head, xs, step), n)
  {
    hide Resolution.MembersOf, Redaction.SameShape;
    assert Found(Resolution.MembersOf(head, x, step), n);
  }

  /** The resolved schema depends on the shapes of the values alone. */
  lemma {:induction false} ShapesDecide(node: Json, pointer: Resolution.Pointer, xs: set<Json>, ys: set<Json>,
                                        depth: nat, remaining: nat, a: nat, b: nat)
    requires Resolution.AllDeep(xs, a) && Resolution.AllDeep(ys, b) && SameShapes(xs, ys)
    ensures Resolution.Resolved(node, pointer, xs, depth, remaining, a)
            == Resolution.Resolved(node, pointer, ys, depth, remaining, b)
    decreases a, 3
  {
    hide Resolution.AllDeep, SameShapes, Resolution.ResolveHead, Resolution.ResolvedNamed, Resolution.ResolvedUnder;
    NoShapes(xs, ys);
    if xs != {} {
      var (head, left) := Resolution.ResolveHead(node, pointer, {}, depth, remaining);
      Resolution.MembersAreDeep(head, xs, Resolution.Item, a);
      Resolution.MembersAreDeep(head, ys, Resolution.Item, b);
      NamedDecide(head, pointer, xs, ys, depth, left, a, b);
      var (named, l) := Resolution.ResolvedNamed(head, head, pointer, xs, depth, left, a);
      UnderDecide(head, named, Resolution.Item, "items", pointer, xs, ys, depth, l, a, b);
      var (listed, k) := Resolution.ResolvedUnder(head, named, Resolution.Item, "items", pointer, xs, depth, l, a);
      UnderDecide(head, listed, Resolution.Additional, "additionalProperties", pointer, xs, ys, depth, k, a, b);
    }
  }

  lemma NoShapes(xs: set<Json>, ys: set<Json>)
    requires SameShapes(xs, ys)
    ensures xs == {} <==> ys == {}
  {
    hide Redaction.SameShape;
    if x :| x in xs {
      assert Finds(x, ys);
    }
    if y :| y in ys {
      assert Found(xs, y);
    }
  }

  lemma UnderDecide(head: Json, node: Json, step: Resolution.Step, key: string, pointer: Resolution.Pointer,
                    xs: set<Json>, ys: set<Json>, depth: nat, remaining: nat, a: nat, b: nat)
    requires Resolution.AllDeep(xs, a) && Resolution.AllDeep(ys, b) && SameShapes(xs, ys) && a > 0 && b > 0
    ensures Resolution.ResolvedUnder(head, node, step, key, pointer, xs, depth, remaining, a)
            == Resolution.ResolvedUnder(head, node, step, key, pointer, ys, depth, remaining, b)
    decreases a, 2
  {
    hide Resolution.AllDeep, SameShapes, Resolution.Resolved, Resolution.MembersAt;
    Resolution.MembersAreDeep(head, xs, step, a);
    Resolution.MembersAreDeep(head, ys, step, b);
    ShapedMembersAt(head, xs, ys, step);
    if node.Obj? && key in node.fields && node.fields[key].Obj? {
      ShapesDecide(node.fields[key], pointer, Resolution.MembersAt(head, xs, step),
                   Resolution.MembersAt(head, ys, step), depth + 1, remaining, a - 1, b - 1);
    }
  }

  lemma NamedDecide(head: Json, pointer: Resolution.Pointer, xs: set<Json>, ys: set<Json>, depth: nat, remaining: nat,
                    a: nat, b: nat)
    requires Resolution.AllDeep(xs, a) && Resolution.AllDeep(ys, b) && SameShapes(xs, ys) && a > 0 && b > 0
    ensures Resolution.ResolvedNamed(head, head, pointer, xs, depth, remaining, a)
            == Resolution.ResolvedNamed(head, head, pointer, ys, depth, remaining, b)
    decreases a, 2
  {
    hide Resolution.AllDeep, SameShapes, Resolution.ResolvedAll, Canonical.Sorted;
    if Resolution.HasProperties(head) {
      var properties := head.fields["properties"].fields;
      AllDecide(head, properties, Canonical.Sorted(properties.Keys), pointer, xs, ys, depth, remaining, a, b);
    }
  }

  lemma {:induction false} AllDecide(head: Json, properties: map<string, Json>, names: seq<string>,
                                     pointer: Resolution.Pointer, xs: set<Json>, ys: set<Json>, depth: nat,
                                     remaining: nat, a: nat, b: nat)
    requires Resolution.AllDeep(xs, a) && Resolution.AllDeep(ys, b) && SameShapes(xs, ys) && a > 0 && b > 0
    requires forall i :: 0 <= i < |names| ==> names[i] in properties
    ensures Resolution.ResolvedAll(head, properties, names, pointer, xs, depth, remaining, a)
            == Resolution.ResolvedAll(head, properties, names, pointer, ys, depth, remaining, b)
    decreases a, 1, |names|
  {
    hide Resolution.AllDeep, SameShapes, Resolution.Resolved, Resolution.MembersAt, Resolution.ResolvedAll;
    if names == [] {
      Resolution.NoneResolved(head, properties, pointer, xs, depth, remaining, a);
      Resolution.NoneResolved(head, properties, pointer, ys, depth, remaining, b);
    } else {
      var i := |names| - 1;
      var step := Resolution.Property(names[i]);
      assert names[..i + 1] == names;
      AllDecide(head, properties, names[..i], pointer, xs, ys, depth, remaining, a, b);
      Resolution.MembersAreDeep(head, xs, step, a);
      Resolution.MembersAreDeep(head, ys, step, b);
      ShapedMembersAt(head, xs, ys, step);
      Resolution.AllOneMore(head, properties, names, i, pointer, xs, depth, remaining, a);
      Resolution.AllOneMore(head, properties, names, i, pointer, ys, depth, remaining, b);
      var l := Resolution.ResolvedAll(head, properties, names[..i], pointer, xs, depth, remaining, a).1;
      ShapesDecide(properties[names[i]], pointer, Resolution.MembersAt(head, xs, step),
                   Resolution.MembersAt(head, ys, step), depth + 1, l, a - 1, b - 1);
    }
  }

  /** Redacting twice is redacting once. */
  lemma RedactedTwice(schema: Json, pointer: Resolution.Pointer, matcher: Json -> Redaction.Matcher, value: Json)
    ensures var once := Redacted(schema, pointer, matcher, value);
            Redacted(schema, pointer, matcher, once) == once
  {
    hide Resolution.Resolved, Resolution.NeedsPreparation, Redaction.Project, Redaction.SameShape, Resolution.Deep;
    var policy := Resolution.PolicyOf(schema, pointer, value);
    var once := Redacted(schema, pointer, matcher, value);
    Redaction.DisplayKeepsShape(matcher(policy), value, policy, Redaction.NO_FLAGS);
    assert SameShapes({value}, {once});
    if Resolution.NeedsPreparation(schema, 0) {
      ShapesDecide(schema, pointer, {value}, {once}, 0, Resolution.BUDGET, Resolution.BoundOf(value),
                   Resolution.BoundOf(once));
    }
    Redaction.DisplayTwice(matcher(policy), value, policy, Redaction.NO_FLAGS);
  }

  /** The shape of a value survives its redaction. */
  lemma RedactedShape(schema: Json, pointer: Resolution.Pointer, matcher: Json -> Redaction.Matcher, value: Json)
    ensures Redaction.SameShape(value, Redacted(schema, pointer, matcher, value))
  {
    hide Resolution.PolicyOf, Redaction.Project, Redaction.SameShape;
    var policy := Resolution.PolicyOf(schema, pointer, value);
    Redaction.DisplayKeepsShape(matcher(policy), value, policy, Redaction.NO_FLAGS);
  }
}
