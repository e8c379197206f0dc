/** Marks behind references, read off the raw schema: which references of overlaid nodes are followed, and that exactly
    the marks reached along those are in the prepared schema. */
module References {
  import opened JsonModel
  import opened Options
  import opened Resolution

  // ----- what is seen at a place ----------------------------------------------------------------------------------

  /** A move within a schema: down a step, or aside to the metadata. */
  datatype Move = Under(step: Step) | Aside

  function Moved(j: Json, move: Move): (r: Option<Json>)
    ensures r.Some? ==> r.value < j
  {
    match move
    case Under(step) => Down(j, step)
    case Aside => Get(j, METADATA)
  }

  function Look(j: Json, place: seq<Move>): Option<Json>
    decreases |place|
  {
    if place == [] then Some(j)
    else
      match Moved(j, place[0])
      case None => None
      case Some(child) => Look(child, place[1..])
  }

  /** What preparing a schema looks at, marks aside. */
  datatype Sight = Sight(there: bool, isObject: bool, reference: Option<Json>, dynamic: bool, kind: Option<Json>)

  const NOTHING := Sight(false, false, None, false, None)

  function Seen(x: Option<Json>): Sight {
    match x
    case None => NOTHING
    case Some(j) => Sight(true, j.Obj?, Get(j, "$ref"), Dynamic(j), Get(j, "type"))
  }

  function At(j: Json, place: seq<Move>): Sight {
    Seen(Look(j, place))
  }

  function Or<T>(first: Option<T>, second: Option<T>): Option<T> {
    if first.Some? then first else second
  }

  /** One sight over another: the outer labels win. */
  function Over(inner: Sight, outer: Sight): Sight {
    Sight(inner.there || outer.there, inner.isObject || outer.isObject, Or(outer.reference, inner.reference),
          inner.dynamic || outer.dynamic, Or(outer.kind, inner.kind))
  }

  /** The nodes laid over each other, the outermost first. */
  function AllAt(nodes: seq<Json>, place: seq<Move>): Sight {
    if nodes == [] then NOTHING else Over(AllAt(nodes[1..], place), At(nodes[0], place))
  }

  lemma {:induction false} AllAtConcat(xs: seq<Json>, ys: seq<Json>, place: seq<Move>)
    ensures AllAt(xs + ys, place) == Over(AllAt(ys, place), AllAt(xs, place))
  {
    hide At;
    if xs == [] {
      assert xs + ys == ys;
    } else {
      AllAtConcat(xs[1..], ys, place);
      assert (xs + ys)[1..] == xs[1..] + ys;
    }
  }

  // ----- merging --------------------------------------------------------------------------------------------------

  predicate IsMark(name: string) {
    name in [SENSITIVE, URL_CREDENTIALS, UNKNOWN, SECRET_REFERENCE]
  }

  lemma MarksAreNoLabels(name: string)
    requires IsMark(name)
    ensures name !in ["properties", "items", "additionalProperties", METADATA]
    ensures name !in ["$ref", "$dynamicRef", "$recursiveRef", "type"]
  {
  }

  lemma LookOn(j: Json, place: seq<Move>)
    requires place != []
    ensures Look(j, place) == match Moved(j, place[0])
                              case None => None
                              case Some(child) => Look(child, place[1..])
  {
  }

  /** A mark is not seen. */
  lemma InsertSight(m: map<string, Json>, name: string, value: Json, place: seq<Move>)
    requires IsMark(name)
    ensures At(Obj(m[name := value]), place) == At(Obj(m), place)
  {
    hide Look, IsMark;
    MarksAreNoLabels(name);
    if place == [] {
      SeenHere(Obj(m));
      SeenHere(Obj(m[name := value]));
    } else {
      LookOn(Obj(m), place);
      LookOn(Obj(m[name := value]), place);
      SameMoves(Obj(m), Obj(m[name := value]), place[0]);
    }
  }

  lemma SameMoves(a: Json, b: Json, move: Move)
    requires forall name | name in ["properties", "items", "additionalProperties", METADATA] ::
               Get(a, name) == Get(b, name)
    ensures Moved(a, move) == Moved(b, move)
  {
    assert Get(a, "properties") == Get(b, "properties") && Get(a, "items") == Get(b, "items");
    assert Get(a, "additionalProperties") == Get(b, "additionalProperties");
  }

  lemma SeenHere(j: Json)
    ensures At(j, []) == Sight(true, j.Obj?, Get(j, "$ref"), Dynamic(j), Get(j, "type"))
  {
  }

  lemma SetSight(m: map<string, Json>, name: string, value: Json, place: seq<Move>)
    requires IsMark(name)
    ensures At(Obj(Set(m, name, value)), place) == At(Obj(m), place)
  {
    hide At, IsMark;
    var with := m[name := value];
    InsertSight(m, name, value, place);
    if METADATA in with && with[METADATA].Obj? {
      var meta := with[METADATA].fields;
      assert with[METADATA] == Obj(meta);
      ReplaceMetadataSight(with, meta, name, value, place);
    }
  }

  lemma ReplaceMetadataSight(m: map<string, Json>, meta: map<string, Json>, name: string, value: Json, place: seq<Move>)
    requires IsMark(name) && METADATA in m && m[METADATA] == Obj(meta)
    ensures At(Obj(m[METADATA := Obj(meta[name := value])]), place) == At(Obj(m), place)
  {
    hide Look, IsMark;
    var n := m[METADATA := Obj(meta[name := value])];
    if place == [] {
      SeenHere(Obj(m));
      SeenHere(Obj(n));
    } else {
      LookOn(Obj(m), place);
      LookOn(Obj(n), place);
      if place[0] == Aside { InsertSight(meta, name, value, place[1..]); }
    }
  }

  lemma SetIfSight(m: map<string, Json>, condition: bool, name: string, value: Json, place: seq<Move>)
    requires IsMark(name)
    ensures At(Obj(SetIf(m, condition, name, value)), place) == At(Obj(m), place)
  {
    hide At, Set;
    if condition { SetSight(m, name, value, place); }
  }

  lemma GuardSight(m: map<string, Json>, target: Json, wrapper: Json, place: seq<Move>)
    ensures At(Obj(Guard(m, target, wrapper)), place) == At(Obj(m), place)
  {
    hide At, SetIf, Either, Conflict;
    var a := SetIf(m, Either(target, wrapper, SENSITIVE, Bool(true)), SENSITIVE, Bool(true));
    var b := SetIf(a, Either(target, wrapper, URL_CREDENTIALS, Bool(true)), URL_CREDENTIALS, Bool(true));
    var c := SetIf(b, Either(target, wrapper, UNKNOWN, Str("sensitive")), UNKNOWN, Str("sensitive"));
    var conflict := Conflict(target, wrapper);
    SetIfSight(m, Either(target, wrapper, SENSITIVE, Bool(true)), SENSITIVE, Bool(true), place);
    SetIfSight(a, Either(target, wrapper, URL_CREDENTIALS, Bool(true)), URL_CREDENTIALS, Bool(true), place);
    SetIfSight(b, Either(target, wrapper, UNKNOWN, Str("sensitive")), UNKNOWN, Str("sensitive"), place);
    SetIfSight(c, conflict, SENSITIVE, Bool(true), place);
    SetIfSight(SetIf(c, conflict, SENSITIVE, Bool(true)), conflict, SECRET_REFERENCE, Bool(false), place);
  }

  /** A label of the merged members: the wrapper's, if it has it. */
  lemma MergedLabel(target: map<string, Json>, wrapper: map<string, Json>, name: string)
    requires name in ["$ref", "$dynamicRef", "$recursiveRef", "type"]
    ensures Get(Obj(MergedMembers(target, wrapper, wrapper.Keys)), name)
            == Or(Get(Obj(wrapper), name), Get(Obj(target), name))
  {
    hide MergedMembers, MergedMember;
    MergedAt(target, wrapper, name);
    if name in wrapper { MergedOrdinary(target, wrapper, name); }
  }

  lemma MergedMoves(target: map<string, Json>, wrapper: map<string, Json>, move: Move)
    ensures var t, w := Moved(Obj(target), move), Moved(Obj(wrapper), move);
            Moved(Obj(MergedMembers(target, wrapper, wrapper.Keys)), move)
            == if t.Some? && w.Some? then Some(Merge(t.value, w.value)) else Or(w, t)
  {
    hide MergedMembers, Merge, Down;
    match move {
      case Under(step) => MergedDown(target, wrapper, step);
      case Aside => MergedMetadata(target, wrapper);
    }
  }

  /** What is seen of a merge is what is seen of the two, the wrapper's labels first. */
  lemma {:induction false} MergeSight(target: Json, wrapper: Json, place: seq<Move>)
    ensures At(Merge(target, wrapper), place) == Over(At(target, place), At(wrapper, place))
    decreases |place|
  {
    hide MergedMembers, Guard, Merge, Look, Moved;
    MergeIs(target, wrapper);
    if target.Obj? && wrapper.Obj? {
      var t, w := target.fields, wrapper.fields;
      var m := MergedMembers(t, w, w.Keys);
      GuardSight(m, target, wrapper, place);
      if place == [] {
        LabelsOver(t, w);
      } else {
        LookOn(Obj(m), place);
        LookOn(target, place);
        LookOn(wrapper, place);
        MergedMoves(t, w, place[0]);
        var x, y := Moved(target, place[0]), Moved(wrapper, place[0]);
        if x.Some? && y.Some? { MergeSight(x.value, y.value, place[1..]); }
      }
    } else {
      NoObject(target, wrapper, place);
    }
  }

  lemma LabelsOver(t: map<string, Json>, w: map<string, Json>)
    ensures At(Obj(MergedMembers(t, w, w.Keys)), []) == Over(At(Obj(t), []), At(Obj(w), []))
  {
    hide MergedMembers;
    SeenHere(Obj(t));
    SeenHere(Obj(w));
    SeenHere(Obj(MergedMembers(t, w, w.Keys)));
    MergedLabel(t, w, "$ref");
    MergedLabel(t, w, "$dynamicRef");
    MergedLabel(t, w, "$recursiveRef");
    MergedLabel(t, w, "type");
  }

  lemma NoObject(target: Json, wrapper: Json, place: seq<Move>)
    requires !target.Obj? || !wrapper.Obj?
    ensures At(if target.Obj? then target else wrapper, place) == Over(At(target, place), At(wrapper, place))
  {
    hide Look, Moved;
    if place == [] {
      SeenHere(target);
      SeenHere(wrapper);
    } else {
      LookOn(target, place);
      LookOn(wrapper, place);
      NoMove(target, place[0]);
      NoMove(wrapper, place[0]);
    }
  }

  lemma NoMove(j: Json, move: Move)
    ensures !j.Obj? ==> Moved(j, move).None?
  {
  }

  // ----- metadata -------------------------------------------------------------------------------------------------

  /** A node without its metadata. */
  function Bare(j: Json): Json {
    if j.Obj? then Obj(j.fields - {METADATA}) else j
  }

  function Bares(nodes: seq<Json>): seq<Json> {
    if nodes == [] then [] else [Bare(nodes[0])] + Bares(nodes[1..])
  }

  /** The metadata of those of the nodes that have any. */
  function Metas(nodes: seq<Json>): seq<Json> {
    if nodes == [] then []
    else (if Get(nodes[0], METADATA).Some? then [Get(nodes[0], METADATA).value] else []) + Metas(nodes[1..])
  }

  /** How deep metadata is nested in metadata. */
  function Height(j: Json): nat {
    match Get(j, METADATA)
    case None => 0
    case Some(meta) => 1 + Height(meta)
  }

  function Highest(nodes: seq<Json>): nat {
    if nodes == [] then 0
    else
      var first, rest := Height(nodes[0]), Highest(nodes[1..]);
      if first > rest then first else rest
  }

  lemma {:induction false} MetasLower(nodes: seq<Json>)
    ensures Metas(nodes) != [] ==> Highest(Metas(nodes)) < Highest(nodes)
  {
    if nodes != [] {
      MetasLower(nodes[1..]);
      var rest := Metas(nodes[1..]);
      var meta := Get(nodes[0], METADATA);
      if meta.Some? {
        assert ([meta.value] + rest)[1..] == rest;
        assert Highest([meta.value] + rest)
               == if Height(meta.value) > Highest(rest) then Height(meta.value) else Highest(rest);
      } else {
        assert [] + rest == rest;
      }
    }
  }

  /** The nodes with their metadata laid over them, and its metadata over that. */
  function Spread(nodes: seq<Json>): seq<Json>
    decreases Highest(nodes)
  {
    MetasLower(nodes);
    if Metas(nodes) == [] then nodes else Spread(Metas(nodes)) + Bares(nodes)
  }

  lemma BareSight(j: Json, place: seq<Move>)
    ensures At(Bare(j), place) == if place != [] && place[0] == Aside then NOTHING else At(j, place)
  {
    hide Look;
    if place == [] {
      SeenHere(j);
      SeenHere(Bare(j));
    } else {
      LookOn(j, place);
      LookOn(Bare(j), place);
    }
  }

  lemma MetaSight(j: Json, place: seq<Move>)
    ensures At(j, [Aside] + place) == if Get(j, METADATA).Some? then At(Get(j, METADATA).value, place) else NOTHING
  {
    hide Look;
    LookOn(j, [Aside] + place);
    assert ([Aside] + place)[1..] == place;
  }

  lemma {:induction false} BaresSight(nodes: seq<Json>, place: seq<Move>)
    ensures AllAt(Bares(nodes), place) == if place != [] && place[0] == Aside then NOTHING else AllAt(nodes, place)
  {
    hide At, Bare;
    if nodes != [] {
      BareSight(nodes[0], place);
      BaresSight(nodes[1..], place);
      assert Bares(nodes)[1..] == Bares(nodes[1..]);
    }
  }

  lemma {:induction false} MetasSight(nodes: seq<Json>, place: seq<Move>)
    ensures AllAt(Metas(nodes), place) == AllAt(nodes, [Aside] + place)
  {
    hide At;
    if nodes != [] {
      MetaSight(nodes[0], place);
      MetasSight(nodes[1..], place);
      if Get(nodes[0], METADATA).Some? {
        assert Metas(nodes)[1..] == Metas(nodes[1..]);
      } else {
        assert Metas(nodes) == Metas(nodes[1..]);
      }
    }
  }

  lemma {:induction false} MetasConcat(xs: seq<Json>, ys: seq<Json>)
    ensures Metas(xs + ys) == Metas(xs) + Metas(ys)
  {
    if xs == [] {
      assert xs + ys == ys;
    } else {
      assert (xs + ys)[1..] == xs[1..] + ys;
      MetasConcat(xs[1..], ys);
    }
  }

  lemma {:induction false} BaresConcat(xs: seq<Json>, ys: seq<Json>)
    ensures Bares(xs + ys) == Bares(xs) + Bares(ys)
  {
    hide Bare;
    if xs == [] {
      assert xs + ys == ys;
    } else {
      assert (xs + ys)[1..] == xs[1..] + ys;
      BaresConcat(xs[1..], ys);
    }
  }

  lemma BareTwice(j: Json)
    ensures Bare(Bare(j)) == Bare(j) && Get(Bare(j), METADATA).None?
  {
    if j.Obj? { assert j.fields - {METADATA} - {METADATA} == j.fields - {METADATA}; }
  }

  lemma {:induction false} BaresTwice(nodes: seq<Json>)
    ensures Bares(Bares(nodes)) == Bares(nodes) && Metas(Bares(nodes)) == []
  {
    hide Bare;
    if nodes != [] {
      BareTwice(nodes[0]);
      BaresTwice(nodes[1..]);
      assert Bares(nodes)[1..] == Bares(nodes[1..]);
    }
  }

  /** Laying the metadata over the nodes once does not change what they are in the end. */
  lemma SpreadStep(nodes: seq<Json>)
    requires Metas(nodes) != []
    ensures Spread(Metas(nodes) + Bares(nodes)) == Spread(nodes)
  {
    hide Metas, Bares;
    var metas, bares := Metas(nodes), Bares(nodes);
    MetasConcat(metas, bares);
    BaresConcat(metas, bares);
    BaresTwice(nodes);
    assert Metas(metas) + [] == Metas(metas);
    if Metas(metas) != [] {
      assert Spread(metas + bares) == Spread(Metas(metas)) + (Bares(metas) + bares);
    }
  }

  /** The node shows what the nodes laid over each other show. */
  ghost predicate StandsFor(j: Json, nodes: seq<Json>) {
    forall place :: At(j, place) == AllAt(nodes, place)
  }

  lemma NoMetas(nodes: seq<Json>)
    ensures Metas(nodes) == [] <==> !AllAt(nodes, [Aside]).there
  {
    hide At, Metas;
    MetasSight(nodes, []);
    assert [Aside] + [] == [Aside];
    if Metas(nodes) != [] { SeenHere(Metas(nodes)[0]); }
  }

  lemma FlattenStep(j: Json, nodes: seq<Json>)
    requires StandsFor(j, nodes) && Get(j, METADATA).Some?
    ensures StandsFor(Merge(Bare(j), Get(j, METADATA).value), Metas(nodes) + Bares(nodes))
  {
    hide At, Merge, Metas, Bares, Bare;
    var meta := Get(j, METADATA).value;
    forall place ensures At(Merge(Bare(j), meta), place) == AllAt(Metas(nodes) + Bares(nodes), place) {
      MergeSight(Bare(j), meta, place);
      BareSight(j, place);
      MetaSight(j, place);
      AllAtConcat(Metas(nodes), Bares(nodes), place);
      MetasSight(nodes, place);
      BaresSight(nodes, place);
    }
  }

  /** Flattening runs into metadata that is no object, or out of the budget. */
  predicate FlattenFails(j: Json, remaining: nat)
    decreases remaining
  {
    && Get(j, METADATA).Some?
    && (|| !Get(j, METADATA).value.Obj? || remaining == 0
        || FlattenFails(Merge(Bare(j), Get(j, METADATA).value), remaining - 1))
  }

  lemma {:induction false} FlattenFailed(j: Json, remaining: nat)
    requires FlattenFails(j, remaining)
    ensures Flatten(j, remaining).0 == HIDDEN
    decreases remaining
  {
    hide Merge;
    if Get(j, METADATA).value.Obj? && remaining > 0 {
      FlattenFailed(Merge(Bare(j), Get(j, METADATA).value), remaining - 1);
    }
  }

  /** A flattened node stands for the spread-out nodes. */
  lemma {:induction false} FlattenStands(j: Json, remaining: nat, nodes: seq<Json>)
    requires StandsFor(j, nodes) && !FlattenFails(j, remaining)
    ensures StandsFor(Flatten(j, remaining).0, Spread(nodes))
    decreases remaining
  {
    hide Merge, StandsFor, Spread, Metas;
    HasMetas(j, nodes);
    if Get(j, METADATA).Some? {
      FlattenStep(j, nodes);
      SpreadStep(nodes);
      FlattenStands(Merge(Bare(j), Get(j, METADATA).value), remaining - 1, Metas(nodes) + Bares(nodes));
    } else {
      assert Spread(nodes) == nodes by { NotSpread(nodes); }
    }
  }

  lemma HasMetas(j: Json, nodes: seq<Json>)
    requires StandsFor(j, nodes)
    ensures Get(j, METADATA).Some? <==> Metas(nodes) != []
  {
    hide Metas;
    NoMetas(nodes);
    assert [Aside] + [] == [Aside];
    MetaSight(j, []);
    assert At(j, [Aside]) == AllAt(nodes, [Aside]);
    if Get(j, METADATA).Some? { SeenHere(Get(j, METADATA).value); }
  }

  lemma NotSpread(nodes: seq<Json>)
    requires Metas(nodes) == []
    ensures Spread(nodes) == nodes
  {
  }

  // ----- references -----------------------------------------------------------------------------------------------

  /** The target of the reference that is followed: that of the outermost node that has one. */
  function Target(nodes: seq<Json>, pointer: Pointer): Option<Json> {
    match AllAt(nodes, []).reference
    case Some(Str(name)) => pointer(name)
    case _ => None
  }

  /** The nodes that come together at a position: the ones laid over each other there, with their metadata, over those
      of the target of the reference that is followed. */
  function Chain(nodes: seq<Json>, pointer: Pointer, depth: nat): seq<Json>
    decreases 129 - depth
  {
    var spread := Spread(nodes);
    if depth <= 128 && Target(spread, pointer).Some? then
      spread + Chain([Target(spread, pointer).value], pointer, depth + 1)
    else spread
  }

  /** Some level of metadata has no object. */
  predicate BadMetadata(nodes: seq<Json>)
    decreases Highest(nodes)
  {
    MetasLower(nodes);
    Metas(nodes) != [] && (!AllAt(Metas(nodes), []).isObject || BadMetadata(Metas(nodes)))
  }

  /** The position cannot be resolved: a dynamic reference, metadata that is no object, a reference that leads nowhere
      or back, or too long a way. */
  predicate Broken(nodes: seq<Json>, pointer: Pointer, visited: set<string>, depth: nat)
    decreases 129 - depth
  {
    || depth > 128 || AllAt(nodes, []).dynamic || BadMetadata(nodes)
    || AllAt(Spread(nodes), []).dynamic
    || match AllAt(Spread(nodes), []).reference
       case None => false
       case Some(Str(name)) =>
         pointer(name).None? || name in visited || Broken([pointer(name).value], pointer, visited + {name}, depth + 1)
       case Some(_) => true
  }

  /** Resolving the head runs into one of these, or out of the budget. */
  predicate HeadFails(j: Json, pointer: Pointer, visited: set<string>, depth: nat, remaining: nat)
    decreases remaining
  {
    || depth > 128 || remaining == 0 || Dynamic(j) || FlattenFails(j, remaining - 1)
    || var (prepared, left) := Flatten(j, remaining - 1);
       || Dynamic(prepared)
       || match Get(prepared, "$ref")
          case None => false
          case Some(Str(name)) =>
            pointer(name).None? || name in visited
            || HeadFails(pointer(name).value, pointer, visited + {name}, depth + 1, left)
          case Some(_) => true
  }

  lemma {:induction false} HeadFailed(j: Json, pointer: Pointer, visited: set<string>, depth: nat, remaining: nat)
    requires HeadFails(j, pointer, visited, depth, remaining)
    ensures Own(ResolveHead(j, pointer, visited, depth, remaining).0, SENSITIVE)
    decreases remaining
  {
    hide Merge, Flatten, FlattenFails, Either, Conflict, Clash;
    if depth <= 128 && remaining > 0 && !Dynamic(j) {
      if FlattenFails(j, remaining - 1) {
        FlattenFailed(j, remaining - 1);
      } else {
        var (prepared, left) := Flatten(j, remaining - 1);
        match Get(prepared, "$ref") {
          case Some(Str(name)) =>
            if !Dynamic(prepared) && pointer(name).Some? && name !in visited {
              HeadFailed(pointer(name).value, pointer, visited + {name}, depth + 1, left);
              SensitiveMerge(ResolveHead(pointer(name).value, pointer, visited + {name}, depth + 1, left).0, prepared);
            }
          case _ =>
        }
      }
    }
  }

  lemma SensitiveMerge(target: Json, wrapper: Json)
    requires Own(target, SENSITIVE) && wrapper.Obj?
    ensures Own(Merge(target, wrapper), SENSITIVE)
  {
    hide Merge, Conflict, Clash;
    MergeMarks(target, wrapper);
  }

  lemma ItselfStands(j: Json)
    ensures StandsFor(j, [j])
  {
    hide At;
    forall place ensures At(j, place) == AllAt([j], place) {
      assert AllAt([j][1..], place) == NOTHING;
    }
  }

  lemma MergeStands(target: Json, wrapper: Json, inner: seq<Json>, outer: seq<Json>)
    requires StandsFor(target, inner) && StandsFor(wrapper, outer)
    ensures StandsFor(Merge(target, wrapper), outer + inner)
  {
    hide At, Merge;
    forall place ensures At(Merge(target, wrapper), place) == AllAt(outer + inner, place) {
      MergeSight(target, wrapper, place);
      AllAtConcat(outer, inner, place);
    }
  }

  lemma StandsHere(j: Json, nodes: seq<Json>)
    requires StandsFor(j, nodes)
    ensures AllAt(nodes, []) == Sight(true, j.Obj?, Get(j, "$ref"), Dynamic(j), Get(j, "type"))
  {
    hide At;
    SeenHere(j);
    assert At(j, []) == AllAt(nodes, []);
  }

  /** A resolved head stands for all the nodes that come together. */
  lemma {:induction false} HeadStands(j: Json, nodes: seq<Json>, pointer: Pointer, visited: set<string>, depth: nat,
                                      remaining: nat)
    requires StandsFor(j, nodes) && !HeadFails(j, pointer, visited, depth, remaining)
    ensures StandsFor(ResolveHead(j, pointer, visited, depth, remaining).0, Chain(nodes, pointer, depth))
    decreases remaining
  {
    hide Merge, Flatten, FlattenFails, StandsFor, Spread;
    FlattenStands(j, remaining - 1, nodes);
    var (prepared, left) := Flatten(j, remaining - 1);
    StandsHere(prepared, Spread(nodes));
    var reference := Get(prepared, "$ref");
    if reference.Some? {
      var name := reference.value.s;
      var target := pointer(name).value;
      ItselfStands(target);
      HeadStands(target, [target], pointer, visited + {name}, depth + 1, left);
      MergeStands(ResolveHead(target, pointer, visited + {name}, depth + 1, left).0, prepared,
                  Chain([target], pointer, depth + 1), Spread(nodes));
    }
  }

  // --- failing ---

  lemma {:induction false} FlattenFailsWhen(j: Json, remaining: nat, nodes: seq<Json>)
    requires StandsFor(j, nodes)
    ensures BadMetadata(nodes) ==> FlattenFails(j, remaining)
    ensures FlattenFails(j, remaining) && !BadMetadata(nodes) ==> Flatten(j, remaining).1 == 0
    decreases remaining
  {
    hide Merge, StandsFor, Metas;
    HasMetas(j, nodes);
    if Get(j, METADATA).Some? {
      MetadataStands(j, nodes);
      if Get(j, METADATA).value.Obj? && remaining > 0 {
        FlattenStep(j, nodes);
        BadOneOn(nodes);
        FlattenFailsWhen(Merge(Bare(j), Get(j, METADATA).value), remaining - 1, Metas(nodes) + Bares(nodes));
      }
    }
  }

  lemma MetadataStands(j: Json, nodes: seq<Json>)
    requires StandsFor(j, nodes) && Get(j, METADATA).Some?
    ensures AllAt(Metas(nodes), []).isObject == Get(j, METADATA).value.Obj?
  {
    hide At, Metas;
    MetasSight(nodes, []);
    MetaSight(j, []);
    assert At(j, [Aside] + []) == AllAt(nodes, [Aside] + []);
    SeenHere(Get(j, METADATA).value);
  }

  lemma BadOneOn(nodes: seq<Json>)
    requires Metas(nodes) != []
    ensures BadMetadata(Metas(nodes) + Bares(nodes)) == BadMetadata(Metas(nodes))
  {
    hide Metas, Bares, AllAt;
    MetasConcat(Metas(nodes), Bares(nodes));
    BaresTwice(nodes);
    assert Metas(Metas(nodes)) + [] == Metas(Metas(nodes));
  }

  /** Resolving fails for every budget where the position is broken, and elsewhere only when the budget runs out. */
  lemma {:induction false} HeadFailsWhen(j: Json, nodes: seq<Json>, pointer: Pointer, visited: set<string>, depth: nat,
                                         remaining: nat)
    requires StandsFor(j, nodes)
    ensures Broken(nodes, pointer, visited, depth) ==> HeadFails(j, pointer, visited, depth, remaining)
    ensures HeadFails(j, pointer, visited, depth, remaining) && !Broken(nodes, pointer, visited, depth) ==>
              ResolveHead(j, pointer, visited, depth, remaining).1 == 0
    decreases remaining
  {
    hide Merge, Flatten, FlattenFails, StandsFor, Spread, BadMetadata, AllAt;
    StandsHere(j, nodes);
    if depth <= 128 && remaining > 0 && !Dynamic(j) {
      FlattenFailsWhen(j, remaining - 1, nodes);
      if FlattenFails(j, remaining - 1) {
        FlattenFailed(j, remaining - 1);
      } else {
        FlattenStands(j, remaining - 1, nodes);
        var (prepared, left) := Flatten(j, remaining - 1);
        StandsHere(prepared, Spread(nodes));
        match Get(prepared, "$ref") {
          case Some(Str(name)) =>
            if !Dynamic(prepared) && pointer(name).Some? && name !in visited {
              ItselfStands(pointer(name).value);
              HeadFailsWhen(pointer(name).value, [pointer(name).value], pointer, visited + {name}, depth + 1, left);
            }
          case _ =>
        }
      }
    }
  }

  // ----- marks ----------------------------------------------------------------------------------------------------

  predicate AnyProtected(nodes: seq<Json>, path: seq<Step>, mark: string) {
    nodes != [] && (Protected(nodes[0], path, mark) || AnyProtected(nodes[1..], path, mark))
  }

  /** Some node is sensitive, or has the mark at the end of the path. */
  predicate AnyMarked(nodes: seq<Json>, path: seq<Step>, mark: string) {
    nodes != [] && (OwnMark(nodes[0], path, mark) || AnyMarked(nodes[1..], path, mark))
  }

  /** What is below the step in the nodes. */
  function Below(nodes: seq<Json>, step: Step): seq<Json> {
    if nodes == [] then []
    else (if Down(nodes[0], step).Some? then [Down(nodes[0], step).value] else []) + Below(nodes[1..], step)
  }

  predicate AllBare(nodes: seq<Json>) {
    forall i :: 0 <= i < |nodes| ==> Get(nodes[i], METADATA).None?
  }

  lemma {:induction false} AnyConcat(xs: seq<Json>, ys: seq<Json>, path: seq<Step>, mark: string)
    ensures AnyProtected(xs + ys, path, mark) <==> AnyProtected(xs, path, mark) || AnyProtected(ys, path, mark)
  {
    hide Protected;
    if xs == [] {
      assert xs + ys == ys;
    } else {
      assert (xs + ys)[1..] == xs[1..] + ys;
      AnyConcat(xs[1..], ys, path, mark);
    }
  }

  lemma ProtectedApart(j: Json, path: seq<Step>, mark: string)
    requires mark in [SENSITIVE, URL_CREDENTIALS]
    ensures Protected(j, path, mark) <==>
              || Protected(Bare(j), path, mark)
              || (Get(j, METADATA).Some? && Protected(Get(j, METADATA).value, path, mark))
  {
    if j.Obj? {
      assert path != [] ==> Down(Bare(j), path[0]) == Down(j, path[0]);
    }
  }

  lemma {:induction false} AnyApart(nodes: seq<Json>, path: seq<Step>, mark: string)
    requires mark in [SENSITIVE, URL_CREDENTIALS]
    ensures AnyProtected(nodes, path, mark) <==>
              AnyProtected(Bares(nodes), path, mark) || AnyProtected(Metas(nodes), path, mark)
  {
    hide Protected, Bare;
    if nodes != [] {
      ProtectedApart(nodes[0], path, mark);
      AnyApart(nodes[1..], path, mark);
      assert Bares(nodes)[1..] == Bares(nodes[1..]);
      if Get(nodes[0], METADATA).Some? {
        assert Metas(nodes)[1..] == Metas(nodes[1..]);
      } else {
        assert Metas(nodes) == Metas(nodes[1..]);
      }
    }
  }

  lemma {:induction false} AnySpread(nodes: seq<Json>, path: seq<Step>, mark: string)
    requires mark in [SENSITIVE, URL_CREDENTIALS]
    ensures AnyProtected(Spread(nodes), path, mark) <==> AnyProtected(nodes, path, mark)
    decreases Highest(nodes)
  {
    hide Protected, Bares, Metas, AnyProtected;
    MetasLower(nodes);
    if Metas(nodes) != [] {
      AnyApart(nodes, path, mark);
      AnySpread(Metas(nodes), path, mark);
      AnyConcat(Spread(Metas(nodes)), Bares(nodes), path, mark);
    }
  }

  lemma {:induction false} BareMetas(nodes: seq<Json>)
    ensures Metas(nodes) == [] ==> AllBare(nodes)
  {
    if nodes != [] {
      BareMetas(nodes[1..]);
      assert forall i :: 0 < i < |nodes| ==> nodes[i] == nodes[1..][i - 1];
    }
  }

  lemma {:induction false} SpreadIsBare(nodes: seq<Json>)
    ensures AllBare(Spread(nodes))
    decreases Highest(nodes)
  {
    hide Bares, Metas;
    MetasLower(nodes);
    BareMetas(nodes);
    if Metas(nodes) != [] {
      SpreadIsBare(Metas(nodes));
      BaresTwice(nodes);
      BareMetas(Bares(nodes));
    }
  }

  lemma {:induction false} ChainIsBare(nodes: seq<Json>, pointer: Pointer, depth: nat)
    ensures AllBare(Chain(nodes, pointer, depth))
    decreases 129 - depth
  {
    hide Spread, AllAt;
    SpreadIsBare(nodes);
    if depth <= 128 && Target(Spread(nodes), pointer).Some? {
      ChainIsBare([Target(Spread(nodes), pointer).value], pointer, depth + 1);
    }
  }

  /** Of nodes without metadata, what is protected has a mark or is protected a step down. */
  lemma {:induction false} AnyParts(nodes: seq<Json>, path: seq<Step>, mark: string)
    requires AllBare(nodes)
    ensures AnyProtected(nodes, path, mark) <==>
              AnyMarked(nodes, path, mark) || (path != [] && AnyProtected(Below(nodes, path[0]), path[1..], mark))
  {
    hide Protected, Down;
    if nodes != [] {
      assert forall i :: 0 <= i < |nodes[1..]| ==> nodes[1..][i] == nodes[i + 1];
      AnyParts(nodes[1..], path, mark);
      ProtectedParts(nodes[0], path, mark);
      if path != [] {
        if Down(nodes[0], path[0]).Some? {
          assert Below(nodes, path[0])[1..] == Below(nodes[1..], path[0]);
        } else {
          assert Below(nodes, path[0]) == Below(nodes[1..], path[0]);
        }
      }
    }
  }

  /** The node protects what the nodes protect. */
  ghost predicate Covered(j: Json, nodes: seq<Json>) {
    forall path, mark | mark in [SENSITIVE, URL_CREDENTIALS] && AnyProtected(nodes, path, mark) ::
      Protected(j, path, mark)
  }

  lemma ItselfCovered(j: Json)
    ensures Covered(j, [j])
  {
    hide Protected, AnyProtected;
    forall path, mark | AnyProtected([j], path, mark) ensures Protected(j, path, mark) {
      OnlyOne(j, path, mark);
    }
  }

  lemma OnlyOne(j: Json, path: seq<Step>, mark: string)
    ensures AnyProtected([j], path, mark) <==> Protected(j, path, mark)
  {
    hide Protected;
    assert [j][1..] == [] && !AnyProtected([], path, mark);
  }

  /** A resolved head protects what the nodes that come together protect. */
  lemma {:induction false} HeadCovers(j: Json, nodes: seq<Json>, pointer: Pointer, visited: set<string>, depth: nat,
                                      remaining: nat, path: seq<Step>, mark: string)
    requires mark in [SENSITIVE, URL_CREDENTIALS] && StandsFor(j, nodes) && Covered(j, nodes)
    requires !HeadFails(j, pointer, visited, depth, remaining)
    requires AnyProtected(Chain(nodes, pointer, depth), path, mark)
    ensures Protected(ResolveHead(j, pointer, visited, depth, remaining).0, path, mark)
    decreases remaining
  {
    hide Merge, Flatten, FlattenFails, StandsFor, Spread, Protected, AnyProtected;
    FlattenStands(j, remaining - 1, nodes);
    var (prepared, left) := Flatten(j, remaining - 1);
    StandsHere(prepared, Spread(nodes));
    AnySpread(nodes, path, mark);
    if AnyProtected(nodes, path, mark) { FlattenKeeps(j, remaining - 1, path, mark); }
    var reference := Get(prepared, "$ref");
    if reference.Some? {
      var name := reference.value.s;
      var target := pointer(name).value;
      ItselfStands(target);
      ItselfCovered(target);
      var rest := Chain([target], pointer, depth + 1);
      AnyConcat(Spread(nodes), rest, path, mark);
      if AnyProtected(rest, path, mark) {
        HeadCovers(target, [target], pointer, visited + {name}, depth + 1, left, path, mark);
      }
      MergeKeeps(ResolveHead(target, pointer, visited + {name}, depth + 1, left).0, prepared, path, mark);
    }
  }

  // ----- a step down ----------------------------------------------------------------------------------------------

  lemma {:induction false} BelowSight(nodes: seq<Json>, step: Step, place: seq<Move>)
    ensures AllAt(Below(nodes, step), place) == AllAt(nodes, [Under(step)] + place)
  {
    hide At, Down;
    if nodes != [] {
      UnderSight(nodes[0], step, place);
      BelowSight(nodes[1..], step, place);
      if Down(nodes[0], step).Some? {
        assert Below(nodes, step)[1..] == Below(nodes[1..], step);
      } else {
        assert Below(nodes, step) == Below(nodes[1..], step);
      }
    }
  }

  lemma UnderSight(j: Json, step: Step, place: seq<Move>)
    ensures At(j, [Under(step)] + place) == if Down(j, step).Some? then At(Down(j, step).value, place) else NOTHING
  {
    hide Look, Down;
    LookOn(j, [Under(step)] + place);
    assert ([Under(step)] + place)[1..] == place;
  }

  lemma BelowStands(j: Json, nodes: seq<Json>, step: Step)
    requires StandsFor(j, nodes)
    ensures Down(j, step).Some? <==> Below(nodes, step) != []
    ensures Down(j, step).Some? ==> StandsFor(Down(j, step).value, Below(nodes, step))
  {
    hide At, Down;
    forall place
      ensures AllAt(Below(nodes, step), place)
              == if Down(j, step).Some? then At(Down(j, step).value, place) else NOTHING
    {
      BelowSight(nodes, step, place);
      UnderSight(j, step, place);
      assert At(j, [Under(step)] + place) == AllAt(nodes, [Under(step)] + place);
    }
    if Down(j, step).Some? { SeenHere(Down(j, step).value); }
    if Below(nodes, step) != [] { SeenHere(Below(nodes, step)[0]); }
    assert AllAt(Below(nodes, step), []).there <==> Down(j, step).Some?;
  }

  lemma BelowCovered(j: Json, nodes: seq<Json>, step: Step)
    requires StandsFor(j, nodes) && Covered(j, nodes) && AllBare(nodes)
    requires Get(j, METADATA).None? && !Own(j, SENSITIVE) && Down(j, step).Some?
    ensures Covered(Down(j, step).value, Below(nodes, step))
  {
    hide Protected, AnyProtected, StandsFor, Down, Get;
    forall path, mark | mark in [SENSITIVE, URL_CREDENTIALS] && AnyProtected(Below(nodes, step), path, mark)
      ensures Protected(Down(j, step).value, path, mark)
    {
      assert ([step] + path)[1..] == path;
      AnyParts(nodes, [step] + path, mark);
      ProtectedParts(j, [step] + path, mark);
    }
  }

  // ----- what is followed -----------------------------------------------------------------------------------------

  /** The step leads to a schema that is resolved. */
  predicate IsResolved(step: Step, below: seq<Json>) {
    below != [] && (step.Property? || AllAt(below, []).isObject)
  }

  /** The position below the nodes is marked, there or on the way, along the references that are followed; or the way
      breaks off. It is computed from the raw schema. */
  predicate Follows(nodes: seq<Json>, pointer: Pointer, depth: nat, path: seq<Step>, mark: string)
    decreases |path|
  {
    || Broken(nodes, pointer, {}, depth)
    || AnyMarked(Chain(nodes, pointer, depth), path, mark)
    || (&& path != []
        && IsResolved(path[0], Below(Chain(nodes, pointer, depth), path[0]))
        && Follows(Below(Chain(nodes, pointer, depth), path[0]), pointer, depth + 1, path[1..], mark))
  }

  lemma {:induction false} MarkedProtects(nodes: seq<Json>, path: seq<Step>, mark: string)
    ensures AnyMarked(nodes, path, mark) ==> AnyProtected(nodes, path, mark)
  {
    if nodes != [] { MarkedProtects(nodes[1..], path, mark); }
  }

  lemma SensitiveOutput(node: Json, pointer: Pointer, values: set<Json>, depth: nat, remaining: nat, bound: nat,
                        path: seq<Step>, mark: string)
    requires AllDeep(values, bound) && Own(ResolveHead(node, pointer, {}, depth, remaining).0, SENSITIVE)
    ensures Protected(Resolved(node, pointer, values, depth, remaining, bound).0, path, mark)
  {
    hide AllDeep, Resolved, ResolveHead, Down, Protected;
    if values == {} {
      NoValues(node, pointer, depth, remaining, bound);
    } else {
      var l := ResolvedParts(node, pointer, values, depth, remaining, bound, Item);
    }
    ProtectedHere(Resolved(node, pointer, values, depth, remaining, bound).0, path, mark);
  }

  /** Where the values reach, a position that is marked along the followed references is protected in the resolved
      schema, whatever the budget. */
  lemma {:induction false} FollowedProtects(node: Json, nodes: seq<Json>, pointer: Pointer, values: set<Json>,
                                            depth: nat, remaining: nat, bound: nat, path: seq<Step>, mark: string)
    requires AllDeep(values, bound) && remaining <= BUDGET && mark in [SENSITIVE, URL_CREDENTIALS]
    requires StandsFor(node, nodes) && Covered(node, nodes) && Follows(nodes, pointer, depth, path, mark)
    requires ReachedBy(Resolved(node, pointer, values, depth, remaining, bound).0, values, path)
    ensures Protected(Resolved(node, pointer, values, depth, remaining, bound).0, path, mark)
    decreases |path|
  {
    hide MembersAt, AllDeep, Resolved, ResolveHead, HeadFails, Broken, Chain, StandsFor, Covered, AnyMarked,
      AnyProtected, Below, Protected, Down;
    var head := ResolveHead(node, pointer, {}, depth, remaining).0;
    var output := Resolved(node, pointer, values, depth, remaining, bound).0;
    var chain := Chain(nodes, pointer, depth);
    HeadFailsWhen(node, nodes, pointer, {}, depth, remaining);
    if HeadFails(node, pointer, {}, depth, remaining) {
      HeadFailed(node, pointer, {}, depth, remaining);
      SensitiveOutput(node, pointer, values, depth, remaining, bound, path, mark);
    } else if AnyMarked(chain, path, mark) {
      MarkedProtects(chain, path, mark);
      HeadCovers(node, nodes, pointer, {}, depth, remaining, path, mark);
      HeadIsKept(node, pointer, values, depth, remaining, bound, path, mark);
    } else if Own(head, SENSITIVE) {
      SensitiveOutput(node, pointer, values, depth, remaining, bound, path, mark);
    } else {
      var step := path[0];
      HeadStandsBelow(node, nodes, pointer, depth, remaining, step);
      var child, members := Down(head, step).value, MembersAt(head, values, step);
      var l := ResolvedParts(node, pointer, values, depth, remaining, bound, step);
      SameProperties(node, pointer, values, depth, remaining, bound);
      MembersOfHead(output, head, values, step);
      FollowedProtects(child, Below(chain, step), pointer, members, depth + 1, l, bound - 1, path[1..], mark);
      ResolvedIsFlat(node, pointer, values, depth, remaining, bound);
      ProtectedParts(output, path, mark);
    }
  }

  /** A step below a resolved head is a schema that stands for what is below the nodes. */
  lemma HeadStandsBelow(node: Json, nodes: seq<Json>, pointer: Pointer, depth: nat, remaining: nat, step: Step)
    requires StandsFor(node, nodes) && Covered(node, nodes) && !HeadFails(node, pointer, {}, depth, remaining)
    requires !Own(ResolveHead(node, pointer, {}, depth, remaining).0, SENSITIVE)
    requires IsResolved(step, Below(Chain(nodes, pointer, depth), step))
    ensures var below := Down(ResolveHead(node, pointer, {}, depth, remaining).0, step);
            && below.Some? && (step.Property? || below.value.Obj?)
            && StandsFor(below.value, Below(Chain(nodes, pointer, depth), step))
            && Covered(below.value, Below(Chain(nodes, pointer, depth), step))
  {
    hide ResolveHead, HeadFails, Chain, StandsFor, AnyProtected, Below, Protected, Down;
    var head, chain := ResolveHead(node, pointer, {}, depth, remaining).0, Chain(nodes, pointer, depth);
    HeadStands(node, nodes, pointer, {}, depth, remaining);
    BelowStands(head, chain, step);
    StandsHere(Down(head, step).value, Below(chain, step));
    forall path, mark | mark in [SENSITIVE, URL_CREDENTIALS] && AnyProtected(chain, path, mark)
      ensures Protected(head, path, mark)
    {
      HeadCovers(node, nodes, pointer, {}, depth, remaining, path, mark);
    }
    ChainIsBare(nodes, pointer, depth);
    HeadIsFlat(node, pointer, {}, depth, remaining);
    BelowCovered(head, chain, step);
  }

  // ----- the prepared schema --------------------------------------------------------------------------------------

  /** Without references and metadata there is nothing to follow. */
  lemma PlainChain(node: Json, pointer: Pointer, depth: nat)
    requires !NeedsPreparation(node, depth)
    ensures !Broken([node], pointer, {}, depth) && Chain([node], pointer, depth) == [node]
  {
    hide NeedsPreparation, StandsFor, Spread, Metas, AllAt;
    PlainParts(node, depth, Item);
    NotTooDeep(node, depth);
    ItselfStands(node);
    StandsHere(node, [node]);
    HasMetas(node, [node]);
    NotSpread([node]);
  }

  lemma OnlyMarked(node: Json, path: seq<Step>, mark: string)
    ensures AnyMarked([node], path, mark) <==> OwnMark(node, path, mark)
  {
    hide OwnMark;
    assert [node][1..] == [] && !AnyMarked([], path, mark);
  }

  lemma OnlyBelow(node: Json, step: Step)
    ensures Below([node], step) == if Down(node, step).Some? then [Down(node, step).value] else []
  {
    hide Down;
    assert [node][1..] == [] && Below([], step) == [];
  }

  lemma NotTooDeep(node: Json, depth: nat)
    requires !NeedsPreparation(node, depth)
    ensures depth <= 128
  {
  }

  lemma {:induction false} PlainFollows(node: Json, pointer: Pointer, depth: nat, path: seq<Step>, mark: string)
    requires !NeedsPreparation(node, depth) && Follows([node], pointer, depth, path, mark)
    ensures Protected(node, path, mark)
    decreases |path|
  {
    hide NeedsPreparation, Protected, Broken, Chain, Down;
    PlainChain(node, pointer, depth);
    assert [node][1..] == [];
    PlainParts(node, depth, Item);
    ProtectedParts(node, path, mark);
    OnlyMarked(node, path, mark);
    if !AnyMarked([node], path, mark) {
      OnlyBelow(node, path[0]);
      PlainParts(node, depth, path[0]);
      PlainFollows(Down(node, path[0]).value, pointer, depth + 1, path[1..], mark);
    }
  }

  /** Where the value reaches, a position that is marked along the followed references of the raw schema is protected in
      the prepared schema. */
  lemma PolicyProtects(schema: Json, pointer: Pointer, value: Json, path: seq<Step>, mark: string)
    requires mark in [SENSITIVE, URL_CREDENTIALS] && Follows([schema], pointer, 0, path, mark)
    requires ReachedBy(PolicyOf(schema, pointer, value), {value}, path)
    ensures Protected(PolicyOf(schema, pointer, value), path, mark)
  {
    hide Protected, Resolved, NeedsPreparation, Deep, Follows, ReachedBy, StandsFor, Covered;
    if NeedsPreparation(schema, 0) {
      ItselfStands(schema);
      ItselfCovered(schema);
      FollowedProtects(schema, [schema], pointer, {value}, 0, BUDGET, BoundOf(value), path, mark);
    } else {
      PlainFollows(schema, pointer, 0, path, mark);
    }
  }

  // ----- nothing else is protected --------------------------------------------------------------------------------

  /** Wherever the schema declares secret references, it declares them as `x`. */
  ghost predicate Agreed(j: Json, x: Json)
    decreases j
  {
    j.Obj? ==>
      && (Get(j, SECRET_REFERENCE).Some? ==> Get(j, SECRET_REFERENCE).value == x)
      && (Get(j, METADATA).Some? ==> Agreed(Get(j, METADATA).value, x))
      && forall step :: Down(j, step).Some? ==> Agreed(Down(j, step).value, x)
  }

  lemma NoConflict(target: Json, wrapper: Json, x: Json)
    requires Agreed(target, x) && Agreed(wrapper, x)
    ensures !Conflict(target, wrapper)
    ensures target.Obj? && wrapper.Obj? ==> !Clash(target.fields, wrapper.fields)
  {
  }

  lemma AgreedMove(j: Json, move: Move, x: Json)
    requires Agreed(j, x) && Moved(j, move).Some?
    ensures Agreed(Moved(j, move).value, x)
  {
  }

  lemma AgreedBy(m: map<string, Json>, x: Json)
    requires Get(Obj(m), SECRET_REFERENCE).Some? ==> Get(Obj(m), SECRET_REFERENCE).value == x
    requires forall move :: Moved(Obj(m), move).Some? ==> Agreed(Moved(Obj(m), move).value, x)
    ensures Agreed(Obj(m), x)
  {
    hide Down;
    assert Moved(Obj(m), Aside) == Get(Obj(m), METADATA);
    forall step | Down(Obj(m), step).Some? ensures Agreed(Down(Obj(m), step).value, x) {
      assert Moved(Obj(m), Under(step)) == Down(Obj(m), step);
    }
  }

  lemma AgreedHere(j: Json, x: Json)
    requires Agreed(j, x)
    ensures Get(j, SECRET_REFERENCE).Some? ==> Get(j, SECRET_REFERENCE).value == x
  {
  }

  lemma InsertAgreed(m: map<string, Json>, name: string, value: Json, x: Json)
    requires IsMark(name) && name != SECRET_REFERENCE && Agreed(Obj(m), x)
    ensures Agreed(Obj(m[name := value]), x)
  {
    hide Agreed, Moved, IsMark;
    MarksAreNoLabels(name);
    AgreedHere(Obj(m), x);
    var n := m[name := value];
    forall move | Moved(Obj(n), move).Some? ensures Agreed(Moved(Obj(n), move).value, x) {
      SameMoves(Obj(m), Obj(n), move);
      AgreedMove(Obj(m), move, x);
    }
    AgreedBy(n, x);
  }

  lemma SetIfAgreed(m: map<string, Json>, condition: bool, name: string, value: Json, x: Json)
    requires IsMark(name) && name != SECRET_REFERENCE && Agreed(Obj(m), x)
    ensures Agreed(Obj(SetIf(m, condition, name, value)), x)
  {
    hide Agreed, IsMark, Moved;
    InsertAgreed(m, name, value, x);
    var with := m[name := value];
    if METADATA in with && with[METADATA].Obj? {
      var meta := with[METADATA].fields;
      assert with[METADATA] == Obj(meta);
      AgreedMetadata(with, meta, x);
      InsertAgreed(meta, name, value, x);
      ReplaceAgreed(with, meta[name := value], x);
    }
  }

  lemma AgreedMetadata(m: map<string, Json>, meta: map<string, Json>, x: Json)
    requires Agreed(Obj(m), x) && METADATA in m && m[METADATA] == Obj(meta)
    ensures Agreed(Obj(meta), x)
  {
  }

  lemma ReplaceAgreed(m: map<string, Json>, meta: map<string, Json>, x: Json)
    requires Agreed(Obj(m), x) && Agreed(Obj(meta), x)
    ensures Agreed(Obj(m[METADATA := Obj(meta)]), x)
  {
    hide Agreed, Down;
    AgreedHere(Obj(m), x);
    var n := m[METADATA := Obj(meta)];
    forall move | Moved(Obj(n), move).Some? ensures Agreed(Moved(Obj(n), move).value, x) {
      if move.Under? {
        DownBesideMetadata(m, meta, move.step);
        AgreedMove(Obj(m), move, x);
      }
    }
    AgreedBy(n, x);
  }

  lemma DownBesideMetadata(m: map<string, Json>, meta: map<string, Json>, step: Step)
    ensures Down(Obj(m[METADATA := Obj(meta)]), step) == Down(Obj(m), step)
  {
  }

  lemma GuardAgreed(m: map<string, Json>, target: Json, wrapper: Json, x: Json)
    requires Agreed(Obj(m), x) && !Conflict(target, wrapper)
    ensures Agreed(Obj(Guard(m, target, wrapper)), x)
  {
    hide Agreed, SetIf, Either, Conflict;
    var a := SetIf(m, Either(target, wrapper, SENSITIVE, Bool(true)), SENSITIVE, Bool(true));
    var b := SetIf(a, Either(target, wrapper, URL_CREDENTIALS, Bool(true)), URL_CREDENTIALS, Bool(true));
    var c := SetIf(b, Either(target, wrapper, UNKNOWN, Str("sensitive")), UNKNOWN, Str("sensitive"));
    SetIfAgreed(m, Either(target, wrapper, SENSITIVE, Bool(true)), SENSITIVE, Bool(true), x);
    SetIfAgreed(a, Either(target, wrapper, URL_CREDENTIALS, Bool(true)), URL_CREDENTIALS, Bool(true), x);
    SetIfAgreed(b, Either(target, wrapper, UNKNOWN, Str("sensitive")), UNKNOWN, Str("sensitive"), x);
    assert Guard(m, target, wrapper) == c by { NoGuard(c, false); }
  }

  lemma NoGuard(c: map<string, Json>, conflict: bool)
    requires !conflict
    ensures SetIf(SetIf(c, conflict, SENSITIVE, Bool(true)), conflict, SECRET_REFERENCE, Bool(false)) == c
  {
  }

  lemma MergedSecret(target: map<string, Json>, wrapper: map<string, Json>, x: Json)
    requires Agreed(Obj(target), x) && Agreed(Obj(wrapper), x)
    ensures var secret := Get(Obj(MergedMembers(target, wrapper, wrapper.Keys)), SECRET_REFERENCE);
            secret.Some? ==> secret.value == x
  {
    hide MergedMembers, MergedMember, Down, Clash;
    NoConflict(Obj(target), Obj(wrapper), x);
    MergedAt(target, wrapper, SECRET_REFERENCE);
    if SECRET_REFERENCE in wrapper { SecretMember(target, wrapper); }
  }

  lemma SecretMember(target: map<string, Json>, wrapper: map<string, Json>)
    requires SECRET_REFERENCE in wrapper && !Clash(target, wrapper)
    ensures MergedMember(target, wrapper, SECRET_REFERENCE) == wrapper[SECRET_REFERENCE]
  {
    hide Merge, MergedProperties;
  }

  lemma {:induction false} MergeAgreed(target: Json, wrapper: Json, x: Json)
    requires Agreed(target, x) && Agreed(wrapper, x)
    ensures Agreed(Merge(target, wrapper), x)
    decreases wrapper
  {
    hide Agreed, MergedMembers, Guard, Merge, Moved, Conflict, Clash;
    MergeIs(target, wrapper);
    if target.Obj? && wrapper.Obj? {
      var t, w := target.fields, wrapper.fields;
      var m := MergedMembers(t, w, w.Keys);
      MergedSecret(t, w, x);
      forall move | Moved(Obj(m), move).Some? ensures Agreed(Moved(Obj(m), move).value, x) {
        MergedMoves(t, w, move);
        var y, z := Moved(target, move), Moved(wrapper, move);
        if y.Some? { AgreedMove(target, move, x); }
        if z.Some? { AgreedMove(wrapper, move, x); }
        if y.Some? && z.Some? { MergeAgreed(y.value, z.value, x); }
      }
      AgreedBy(m, x);
      NoConflict(target, wrapper, x);
      GuardAgreed(m, target, wrapper, x);
    }
  }

  // --- a merge protects no more ---

  lemma InsertOnly(m: map<string, Json>, name: string, value: Json, path: seq<Step>, mark: string)
    requires IsMark(name) && Protected(Obj(m[name := value]), path, mark) && mark in [SENSITIVE, URL_CREDENTIALS]
    ensures Protected(Obj(m), path, mark) || name == SENSITIVE || (name == mark && path == [])
  {
    hide Down;
    assert path != [] ==> Down(Obj(m[name := value]), path[0]) == Down(Obj(m), path[0]) by {
      if path != [] { SameMoves(Obj(m), Obj(m[name := value]), Under(path[0])); }
    }
  }

  lemma SetOnly(m: map<string, Json>, name: string, value: Json, path: seq<Step>, mark: string)
    requires IsMark(name) && Protected(Obj(Set(m, name, value)), path, mark) && mark in [SENSITIVE, URL_CREDENTIALS]
    ensures Protected(Obj(m), path, mark) || name == SENSITIVE || (name == mark && path == [])
  {
    hide Down, IsMark;
    var with := m[name := value];
    if METADATA in with && with[METADATA].Obj? {
      var meta := with[METADATA].fields;
      assert with[METADATA] == Obj(meta);
      if path != [] { DownBesideMetadata(with, meta[name := value], path[0]); }
      if Protected(Obj(meta[name := value]), path, mark) { InsertOnly(meta, name, value, path, mark); }
      if Protected(Obj(with), path, mark) { InsertOnly(m, name, value, path, mark); }
    } else {
      InsertOnly(m, name, value, path, mark);
    }
  }

  lemma SetIfOnly(m: map<string, Json>, condition: bool, name: string, value: Json, path: seq<Step>, mark: string)
    requires IsMark(name) && mark in [SENSITIVE, URL_CREDENTIALS]
    requires Protected(Obj(SetIf(m, condition, name, value)), path, mark)
    ensures Protected(Obj(m), path, mark) || (condition && (name == SENSITIVE || (name == mark && path == [])))
  {
    hide Protected, Set, IsMark;
    if condition { SetOnly(m, name, value, path, mark); }
  }

  lemma EitherProtects(target: Json, wrapper: Json, name: string, path: seq<Step>, mark: string)
    requires name == SENSITIVE || (name == mark && path == [])
    requires Either(target, wrapper, name, Bool(true))
    ensures Protected(target, path, mark) || Protected(wrapper, path, mark)
  {
    hide Down;
  }

  lemma GuardOnly(m: map<string, Json>, target: Json, wrapper: Json, path: seq<Step>, mark: string)
    requires mark in [SENSITIVE, URL_CREDENTIALS] && !Conflict(target, wrapper)
    requires Protected(Obj(Guard(m, target, wrapper)), path, mark)
    ensures Protected(Obj(m), path, mark) || Protected(target, path, mark) || Protected(wrapper, path, mark)
  {
    hide Protected, SetIf, Either, Conflict;
    var a := SetIf(m, Either(target, wrapper, SENSITIVE, Bool(true)), SENSITIVE, Bool(true));
    var b := SetIf(a, Either(target, wrapper, URL_CREDENTIALS, Bool(true)), URL_CREDENTIALS, Bool(true));
    var c := SetIf(b, Either(target, wrapper, UNKNOWN, Str("sensitive")), UNKNOWN, Str("sensitive"));
    assert Guard(m, target, wrapper) == c by { NoGuard(c, false); }
    SetIfOnly(b, Either(target, wrapper, UNKNOWN, Str("sensitive")), UNKNOWN, Str("sensitive"), path, mark);
    if !Protected(target, path, mark) && !Protected(wrapper, path, mark) {
      SetIfOnly(a, Either(target, wrapper, URL_CREDENTIALS, Bool(true)), URL_CREDENTIALS, Bool(true), path, mark);
      if Either(target, wrapper, URL_CREDENTIALS, Bool(true)) && URL_CREDENTIALS == mark && path == [] {
        EitherProtects(target, wrapper, URL_CREDENTIALS, path, mark);
      }
      SetIfOnly(m, Either(target, wrapper, SENSITIVE, Bool(true)), SENSITIVE, Bool(true), path, mark);
      if Either(target, wrapper, SENSITIVE, Bool(true)) {
        EitherProtects(target, wrapper, SENSITIVE, path, mark);
      }
    }
  }

  /** Without a conflict of secret references a merge protects only what one of the two protects. */
  lemma {:induction false} MergeOnly(target: Json, wrapper: Json, path: seq<Step>, mark: string, x: Json)
    requires mark in [SENSITIVE, URL_CREDENTIALS] && Agreed(target, x) && Agreed(wrapper, x)
    requires Protected(Merge(target, wrapper), path, mark)
    ensures Protected(target, path, mark) || Protected(wrapper, path, mark)
    decreases wrapper
  {
    hide Agreed, MergedMembers, Guard, Merge, Moved, Conflict, Clash, Protected;
    MergeIs(target, wrapper);
    if target.Obj? && wrapper.Obj? {
      var t, w := target.fields, wrapper.fields;
      var m := MergedMembers(t, w, w.Keys);
      NoConflict(target, wrapper, x);
      GuardOnly(m, target, wrapper, path, mark);
      if Protected(Obj(m), path, mark) {
        ProtectedMoves(Obj(m), path, mark);
        ProtectedMoves(target, path, mark);
        ProtectedMoves(wrapper, path, mark);
        MergedOwn(target, wrapper);
        MergedMoves(t, w, Aside);
        var y, z := Moved(target, Aside), Moved(wrapper, Aside);
        if y.Some? && z.Some? && Protected(Merge(y.value, z.value), path, mark) {
          AgreedMove(target, Aside, x);
          AgreedMove(wrapper, Aside, x);
          MergeOnly(y.value, z.value, path, mark, x);
        }
        if path != [] {
          MergedMoves(t, w, Under(path[0]));
          var p, q := Moved(target, Under(path[0])), Moved(wrapper, Under(path[0]));
          if p.Some? && q.Some? && Protected(Merge(p.value, q.value), path[1..], mark) {
            AgreedMove(target, Under(path[0]), x);
            AgreedMove(wrapper, Under(path[0]), x);
            MergeOnly(p.value, q.value, path[1..], mark, x);
          }
        }
      }
    }
  }

  lemma ProtectedMoves(j: Json, path: seq<Step>, mark: string)
    requires j.Obj?
    ensures Protected(j, path, mark) <==>
              || OwnMark(j, path, mark)
              || (Moved(j, Aside).Some? && Protected(Moved(j, Aside).value, path, mark))
              || (path != [] && Moved(j, Under(path[0])).Some?
                  && Protected(Moved(j, Under(path[0])).value, path[1..], mark))
  {
  }

  // --- a resolved schema protects no more than what is followed ---

  lemma BareAgreed(j: Json, x: Json)
    requires Agreed(j, x)
    ensures Agreed(Bare(j), x)
  {
    hide Agreed, Down;
    if j.Obj? {
      var m := j.fields - {METADATA};
      AgreedHere(j, x);
      forall move | Moved(Obj(m), move).Some? ensures Agreed(Moved(Obj(m), move).value, x) {
        if move.Under? { BareDown(j, move.step); }
        AgreedMove(j, move, x);
      }
      AgreedBy(m, x);
    } else {
      NoObjectAgreed(j, x);
    }
  }

  lemma NoObjectAgreed(j: Json, x: Json)
    requires !j.Obj?
    ensures Agreed(j, x)
  {
  }

  lemma BareDown(j: Json, step: Step)
    ensures Down(Bare(j), step) == Down(j, step)
  {
  }

  lemma HiddenAgreed(x: Json)
    ensures Agreed(HIDDEN, x)
  {
  }

  lemma FlattenAgreedStep(j: Json, x: Json)
    requires Agreed(j, x) && Get(j, METADATA).Some?
    ensures Agreed(Merge(Bare(j), Get(j, METADATA).value), x)
  {
    hide Agreed, Merge, Bare;
    BareAgreed(j, x);
    AgreedMove(j, Aside, x);
    MergeAgreed(Bare(j), Get(j, METADATA).value, x);
  }

  lemma {:induction false} FlattenAgreed(j: Json, remaining: nat, x: Json)
    requires Agreed(j, x)
    ensures Agreed(Flatten(j, remaining).0, x)
    decreases remaining
  {
    hide Agreed, Merge;
    HiddenAgreed(x);
    if Get(j, METADATA).Some? && Get(j, METADATA).value.Obj? && remaining > 0 {
      FlattenAgreedStep(j, x);
      FlattenAgreed(Merge(Bare(j), Get(j, METADATA).value), remaining - 1, x);
    }
  }

  lemma {:induction false} FlattenOnly(j: Json, remaining: nat, path: seq<Step>, mark: string, x: Json)
    requires mark in [SENSITIVE, URL_CREDENTIALS] && Agreed(j, x) && !FlattenFails(j, remaining)
    requires Protected(Flatten(j, remaining).0, path, mark)
    ensures Protected(j, path, mark)
    decreases remaining
  {
    hide Agreed, Merge, Protected, Bare;
    if Get(j, METADATA).Some? {
      var meta := Get(j, METADATA).value;
      FlattenAgreedStep(j, x);
      assert Bare(j) == Obj(j.fields - {METADATA}) by { BareIs(j); }
      FlattenOnly(Merge(Bare(j), meta), remaining - 1, path, mark, x);
      BareAgreed(j, x);
      AgreedMove(j, Aside, x);
      MergeOnly(Bare(j), meta, path, mark, x);
      ProtectedApart(j, path, mark);
    }
  }

  lemma BareIs(j: Json)
    requires j.Obj?
    ensures Bare(j) == Obj(j.fields - {METADATA})
  {
  }

  /** Where references lead, secret references are declared as `x` too. */
  ghost predicate AgreedPointer(pointer: Pointer, x: Json) {
    forall name :: pointer(name).Some? ==> Agreed(pointer(name).value, x)
  }

  lemma {:induction false} HeadAgreed(j: Json, pointer: Pointer, visited: set<string>, depth: nat, remaining: nat,
                                      x: Json)
    requires Agreed(j, x) && AgreedPointer(pointer, x)
    ensures Agreed(ResolveHead(j, pointer, visited, depth, remaining).0, x)
    decreases remaining
  {
    hide Agreed, Merge, Flatten;
    HiddenAgreed(x);
    if depth <= 128 && remaining > 0 && !Dynamic(j) {
      FlattenAgreed(j, remaining - 1, x);
      var (prepared, left) := Flatten(j, remaining - 1);
      match Get(prepared, "$ref") {
        case Some(Str(name)) =>
          if !Dynamic(prepared) && pointer(name).Some? && name !in visited {
            HeadAgreed(pointer(name).value, pointer, visited + {name}, depth + 1, left, x);
            MergeAgreed(ResolveHead(pointer(name).value, pointer, visited + {name}, depth + 1, left).0, prepared, x);
          }
        case _ =>
      }
    }
  }

  /** The node protects only what the nodes protect. */
  ghost predicate CoveredOnly(j: Json, nodes: seq<Json>) {
    forall path, mark | mark in [SENSITIVE, URL_CREDENTIALS] && Protected(j, path, mark) ::
      AnyProtected(nodes, path, mark)
  }

  lemma ItselfCoveredOnly(j: Json)
    ensures CoveredOnly(j, [j])
  {
    hide Protected, AnyProtected;
    forall path, mark | Protected(j, path, mark) ensures AnyProtected([j], path, mark) {
      OnlyOne(j, path, mark);
    }
  }

  lemma {:induction false} HeadOnly(j: Json, nodes: seq<Json>, pointer: Pointer, visited: set<string>, depth: nat,
                                    remaining: nat, path: seq<Step>, mark: string, x: Json)
    requires mark in [SENSITIVE, URL_CREDENTIALS] && StandsFor(j, nodes) && CoveredOnly(j, nodes)
    requires Agreed(j, x) && AgreedPointer(pointer, x) && !HeadFails(j, pointer, visited, depth, remaining)
    requires Protected(ResolveHead(j, pointer, visited, depth, remaining).0, path, mark)
    ensures AnyProtected(Chain(nodes, pointer, depth), path, mark)
    decreases remaining
  {
    hide Merge, Flatten, FlattenFails, StandsFor, Spread, Protected, AnyProtected, Agreed;
    FlattenStands(j, remaining - 1, nodes);
    var (prepared, left) := Flatten(j, remaining - 1);
    StandsHere(prepared, Spread(nodes));
    AnySpread(nodes, path, mark);
    if Protected(prepared, path, mark) { FlattenOnly(j, remaining - 1, path, mark, x); }
    var reference := Get(prepared, "$ref");
    if reference.Some? {
      var name := reference.value.s;
      var target := pointer(name).value;
      ItselfStands(target);
      ItselfCoveredOnly(target);
      var rest := Chain([target], pointer, depth + 1);
      var resolved := ResolveHead(target, pointer, visited + {name}, depth + 1, left).0;
      AnyConcat(Spread(nodes), rest, path, mark);
      HeadAgreed(target, pointer, visited + {name}, depth + 1, left, x);
      FlattenAgreed(j, remaining - 1, x);
      MergeOnly(resolved, prepared, path, mark, x);
      if Protected(resolved, path, mark) {
        HeadOnly(target, [target], pointer, visited + {name}, depth + 1, left, path, mark, x);
      }
    }
  }

  lemma {:induction false} ObjectIsSeen(nodes: seq<Json>, path: seq<Step>, mark: string)
    requires AnyProtected(nodes, path, mark)
    ensures nodes != [] && AllAt(nodes, []).isObject
  {
    hide At, Protected;
    SeenHere(nodes[0]);
    if Protected(nodes[0], path, mark) {
      ProtectedIsObject(nodes[0], path, mark);
    } else {
      ObjectIsSeen(nodes[1..], path, mark);
    }
  }

  /** What the nodes protect themselves is followed. */
  lemma {:induction false} ProtectedFollows(nodes: seq<Json>, pointer: Pointer, depth: nat, path: seq<Step>,
                                            mark: string)
    requires mark in [SENSITIVE, URL_CREDENTIALS] && AnyProtected(nodes, path, mark)
    ensures Follows(nodes, pointer, depth, path, mark)
    decreases |path|
  {
    hide AnyProtected, Spread, Broken, AllAt, AnyMarked, Below;
    var spread := Spread(nodes);
    AnySpread(nodes, path, mark);
    if depth <= 128 && Target(spread, pointer).Some? {
      AnyConcat(spread, Chain([Target(spread, pointer).value], pointer, depth + 1), path, mark);
    }
    ChainFollows(nodes, pointer, depth, path, mark);
  }

  lemma {:induction false} ChainFollows(nodes: seq<Json>, pointer: Pointer, depth: nat, path: seq<Step>, mark: string)
    requires mark in [SENSITIVE, URL_CREDENTIALS] && AnyProtected(Chain(nodes, pointer, depth), path, mark)
    ensures Follows(nodes, pointer, depth, path, mark)
    decreases |path|, 0
  {
    hide AnyProtected, Chain, Broken, AllAt, AnyMarked, Below;
    var chain := Chain(nodes, pointer, depth);
    ChainIsBare(nodes, pointer, depth);
    AnyParts(chain, path, mark);
    if !AnyMarked(chain, path, mark) {
      ObjectIsSeen(Below(chain, path[0]), path[1..], mark);
      ProtectedFollows(Below(chain, path[0]), pointer, depth + 1, path[1..], mark);
    }
  }

  lemma {:induction false} SensitiveAnywhere(nodes: seq<Json>, path: seq<Step>, mark: string, other: seq<Step>,
                                             name: string)
    requires path != [] && other != []
    ensures AnyMarked(nodes, path, mark) == AnyMarked(nodes, other, name)
  {
    if nodes != [] { SensitiveAnywhere(nodes[1..], path, mark, other, name); }
  }

  lemma BelowOnly(j: Json, nodes: seq<Json>, path: seq<Step>, mark: string)
    requires StandsFor(j, nodes) && CoveredOnly(j, nodes) && AllBare(nodes) && path != []
    requires Down(j, path[0]).Some? && !AnyMarked(nodes, path, mark)
    ensures CoveredOnly(Down(j, path[0]).value, Below(nodes, path[0]))
  {
    hide Protected, AnyProtected, AnyMarked, StandsFor, Down, Get;
    var child := Down(j, path[0]).value;
    forall q, m | m in [SENSITIVE, URL_CREDENTIALS] && Protected(child, q, m)
      ensures AnyProtected(Below(nodes, path[0]), q, m)
    {
      var whole := [path[0]] + q;
      assert whole[1..] == q;
      ProtectedUnder(j, whole, m);
      AnyParts(nodes, whole, m);
      SensitiveAnywhere(nodes, path, mark, whole, m);
    }
  }

  lemma ProtectedUnder(j: Json, path: seq<Step>, mark: string)
    requires path != [] && Down(j, path[0]).Some? && Protected(Down(j, path[0]).value, path[1..], mark)
    ensures Protected(j, path, mark)
  {
  }

  /** While the budget lasts, a position of the resolved schema is protected only if it is marked along the followed
      references. */
  lemma {:induction false} OnlyFollowed(node: Json, nodes: seq<Json>, pointer: Pointer, values: set<Json>, depth: nat,
                                        remaining: nat, bound: nat, path: seq<Step>, mark: string, x: Json)
    requires AllDeep(values, bound) && mark in [SENSITIVE, URL_CREDENTIALS]
    requires StandsFor(node, nodes) && CoveredOnly(node, nodes) && Agreed(node, x) && AgreedPointer(pointer, x)
    requires Resolved(node, pointer, values, depth, remaining, bound).1 > 0
    requires Protected(Resolved(node, pointer, values, depth, remaining, bound).0, path, mark)
    ensures Follows(nodes, pointer, depth, path, mark)
    decreases |path|
  {
    hide MembersAt, AllDeep, Resolved, ResolveHead, HeadFails, Broken, Chain, StandsFor, CoveredOnly, AnyMarked,
      AnyProtected, Below, Protected, Down, Agreed;
    var (head, left) := ResolveHead(node, pointer, {}, depth, remaining);
    var output := Resolved(node, pointer, values, depth, remaining, bound).0;
    var chain := Chain(nodes, pointer, depth);
    var l := LeftAfterHead(node, pointer, values, depth, remaining, bound, if path == [] then Item else path[0]);
    HeadFailsWhen(node, nodes, pointer, {}, depth, remaining);
    if !Broken(nodes, pointer, {}, depth) {
      if Protected(head, path, mark) {
        HeadOnly(node, nodes, pointer, {}, depth, remaining, path, mark, x);
        ChainFollows(nodes, pointer, depth, path, mark);
      } else if values == {} {
        NoValues(node, pointer, depth, remaining, bound);
      } else if !AnyMarked(chain, path, mark) {
        OutputBelow(node, pointer, values, depth, remaining, bound, path, mark, l);
        var child := Down(head, path[0]).value;
        HeadOnlyBelow(node, nodes, pointer, depth, remaining, path, mark, x);
        OnlyFollowed(child, Below(chain, path[0]), pointer, MembersAt(head, values, path[0]), depth + 1, l, bound - 1,
                     path[1..], mark, x);
      }
    }
  }

  /** What is left of the budget after a step, if any is left in the end. */
  lemma LeftAfterHead(node: Json, pointer: Pointer, values: set<Json>, depth: nat, remaining: nat, bound: nat,
                      step: Step)
    returns (l: nat)
    requires AllDeep(values, bound)
    ensures Resolved(node, pointer, values, depth, remaining, bound).1
            <= ResolveHead(node, pointer, {}, depth, remaining).1
    ensures values != {} ==>
              var head := ResolveHead(node, pointer, {}, depth, remaining).0;
              && bound > 0 && AllDeep(MembersAt(head, values, step), bound - 1)
              && LeftBelow(node, pointer, values, depth, remaining, bound, step, l)
  {
    hide MembersAt, AllDeep, Resolved, ResolveHead, Down;
    l := 0;
    if values == {} {
      NoValues(node, pointer, depth, remaining, bound);
    } else {
      l := ResolvedParts(node, pointer, values, depth, remaining, bound, step);
    }
  }

  ghost predicate LeftBelow(node: Json, pointer: Pointer, values: set<Json>, depth: nat, remaining: nat, bound: nat,
                            step: Step, l: nat)
    requires AllDeep(values, bound) && bound > 0
    requires AllDeep(MembersAt(ResolveHead(node, pointer, {}, depth, remaining).0, values, step), bound - 1)
  {
    var head := ResolveHead(node, pointer, {}, depth, remaining).0;
    var (output, left) := Resolved(node, pointer, values, depth, remaining, bound);
    && (output.Obj? <==> head.Obj?)
    && (forall name :: !IsStructural(name) ==> Get(output, name) == Get(head, name))
    && match Down(head, step)
       case None => Down(output, step).None?
       case Some(child) =>
         if step.Property? || child.Obj? then
           var below := Resolved(child, pointer, MembersAt(head, values, step), depth + 1, l, bound - 1);
           Down(output, step) == Some(below.0) && left <= below.1
         else Down(output, step) == Some(child)
  }

  lemma OutputBelow(node: Json, pointer: Pointer, values: set<Json>, depth: nat, remaining: nat, bound: nat,
                    path: seq<Step>, mark: string, l: nat)
    requires AllDeep(values, bound) && bound > 0 && mark in [SENSITIVE, URL_CREDENTIALS]
    requires var step := if path == [] then Item else path[0];
             && AllDeep(MembersAt(ResolveHead(node, pointer, {}, depth, remaining).0, values, step), bound - 1)
             && LeftBelow(node, pointer, values, depth, remaining, bound, step, l)
    requires Protected(Resolved(node, pointer, values, depth, remaining, bound).0, path, mark)
    requires !Protected(ResolveHead(node, pointer, {}, depth, remaining).0, path, mark)
    ensures path != []
    ensures var head := ResolveHead(node, pointer, {}, depth, remaining).0;
            && Down(head, path[0]).Some? && (path[0].Property? || Down(head, path[0]).value.Obj?)
            && Protected(Resolved(Down(head, path[0]).value, pointer, MembersAt(head, values, path[0]), depth + 1, l,
                                  bound - 1).0, path[1..], mark)
            && Resolved(node, pointer, values, depth, remaining, bound).1
               <= Resolved(Down(head, path[0]).value, pointer, MembersAt(head, values, path[0]), depth + 1, l,
                           bound - 1).1
  {
    hide MembersAt, AllDeep, Resolved, ResolveHead, Down, Protected;
    var head := ResolveHead(node, pointer, {}, depth, remaining).0;
    var output := Resolved(node, pointer, values, depth, remaining, bound).0;
    ResolvedIsFlat(node, pointer, values, depth, remaining, bound);
    ProtectedParts(output, path, mark);
    MarksAreNotStructural();
    if OwnMark(head, path, mark) { ProtectedHere(head, path, mark); }
    if !(path != [] && Down(head, path[0]).Some? && (path[0].Property? || Down(head, path[0]).value.Obj?)) {
      if path != [] && Down(head, path[0]).Some? { NotProtected(Down(head, path[0]).value, path[1..], mark); }
    }
  }

  lemma MarksAreNotStructural()
    ensures !IsStructural(SENSITIVE) && !IsStructural(URL_CREDENTIALS)
  {
  }

  lemma NotProtected(j: Json, path: seq<Step>, mark: string)
    ensures !j.Obj? ==> !Protected(j, path, mark)
  {
  }

  lemma HeadOnlyBelow(node: Json, nodes: seq<Json>, pointer: Pointer, depth: nat, remaining: nat, path: seq<Step>,
                      mark: string, x: Json)
    requires StandsFor(node, nodes) && CoveredOnly(node, nodes) && Agreed(node, x) && AgreedPointer(pointer, x)
    requires !HeadFails(node, pointer, {}, depth, remaining) && path != []
    requires var below := Down(ResolveHead(node, pointer, {}, depth, remaining).0, path[0]);
             below.Some? && (path[0].Property? || below.value.Obj?)
    requires !AnyMarked(Chain(nodes, pointer, depth), path, mark)
    ensures var child := Down(ResolveHead(node, pointer, {}, depth, remaining).0, path[0]).value;
            var below := Below(Chain(nodes, pointer, depth), path[0]);
            && StandsFor(child, below) && CoveredOnly(child, below) && Agreed(child, x) && IsResolved(path[0], below)
  {
    hide ResolveHead, HeadFails, Chain, StandsFor, AnyProtected, AnyMarked, Below, Protected, Down, Agreed;
    var head, chain := ResolveHead(node, pointer, {}, depth, remaining).0, Chain(nodes, pointer, depth);
    var child := Down(head, path[0]).value;
    HeadStands(node, nodes, pointer, {}, depth, remaining);
    BelowStands(head, chain, path[0]);
    StandsHere(child, Below(chain, path[0]));
    forall q, m | m in [SENSITIVE, URL_CREDENTIALS] && Protected(head, q, m) ensures AnyProtected(chain, q, m) {
      HeadOnly(node, nodes, pointer, {}, depth, remaining, q, m, x);
    }
    ChainIsBare(nodes, pointer, depth);
    BelowOnly(head, chain, path, mark);
    HeadAgreed(node, pointer, {}, depth, remaining, x);
    AgreedUnder(head, path[0], x);
  }

  lemma AgreedUnder(j: Json, step: Step, x: Json)
    requires Agreed(j, x) && Down(j, step).Some?
    ensures Agreed(Down(j, step).value, x)
  {
    AgreedMove(j, Under(step), x);
  }

  /** What is left of the budget of 10 000 nodes. */
  ghost function BudgetLeft(schema: Json, pointer: Pointer, value: Json): nat {
    if NeedsPreparation(schema, 0) then Resolved(schema, pointer, {value}, 0, BUDGET, BoundOf(value)).1 else BUDGET
  }

  /** Where secret references are declared alike, the prepared schema protects a position that the value reaches if it
      is marked along the followed references of the raw schema, and otherwise only once the budget is used up. */
  lemma PolicyProtectsExactly(schema: Json, pointer: Pointer, value: Json, path: seq<Step>, mark: string, x: Json)
    requires mark in [SENSITIVE, URL_CREDENTIALS] && Agreed(schema, x) && AgreedPointer(pointer, x)
    ensures ReachedBy(PolicyOf(schema, pointer, value), {value}, path) && Follows([schema], pointer, 0, path, mark) ==>
              Protected(PolicyOf(schema, pointer, value), path, mark)
    ensures Protected(PolicyOf(schema, pointer, value), path, mark) ==>
              Follows([schema], pointer, 0, path, mark) || BudgetLeft(schema, pointer, value) == 0
  {
    hide Protected, Resolved, NeedsPreparation, Deep, Follows, ReachedBy, StandsFor, Covered, CoveredOnly, Agreed;
    var policy := PolicyOf(schema, pointer, value);
    if ReachedBy(policy, {value}, path) && Follows([schema], pointer, 0, path, mark) {
      PolicyProtects(schema, pointer, value, path, mark);
    }
    if Protected(policy, path, mark) && BudgetLeft(schema, pointer, value) > 0 {
      if NeedsPreparation(schema, 0) {
        ItselfStands(schema);
        ItselfCoveredOnly(schema);
        OnlyFollowed(schema, [schema], pointer, {value}, 0, BUDGET, BoundOf(value), path, mark, x);
      } else {
        OnlyOne(schema, path, mark);
        ProtectedFollows([schema], pointer, 0, path, mark);
      }
    }
  }

  // ----- all references -------------------------------------------------------------------------------------------

  /** The raw schema reaches a mark at the position: going down the path, aside to metadata, and over at most `steps`
      references, whichever they are. */
  predicate Reaches(j: Json, pointer: Pointer, path: seq<Step>, mark: string, steps: nat)
    decreases steps, j
  {
    || OwnMark(j, path, mark)
    || (Get(j, METADATA).Some? && Reaches(Get(j, METADATA).value, pointer, path, mark, steps))
    || (path != [] && Down(j, path[0]).Some? && Reaches(Down(j, path[0]).value, pointer, path[1..], mark, steps))
    || (steps > 0 && Leads(j, pointer).Some? && Reaches(Leads(j, pointer).value, pointer, path, mark, steps - 1))
  }

  /** Where the node's own reference leads. */
  function Leads(j: Json, pointer: Pointer): Option<Json> {
    match Get(j, "$ref")
    case Some(Str(name)) => pointer(name)
    case _ => None
  }

  /** No two of the nodes have different references. */
  predicate OneReference(nodes: seq<Json>) {
    forall i, j :: && 0 <= i < |nodes| && 0 <= j < |nodes|
                   && Get(nodes[i], "$ref").Some? && Get(nodes[j], "$ref").Some? ==>
      Get(nodes[i], "$ref") == Get(nodes[j], "$ref")
  }

  predicate ClearHere(nodes: seq<Json>, pointer: Pointer, depth: nat)
    decreases 129 - depth
  {
    && OneReference(Spread(nodes))
    && (depth <= 128 && Target(Spread(nodes), pointer).Some? ==>
          ClearHere([Target(Spread(nodes), pointer).value], pointer, depth + 1))
  }

  /** Along the path the nodes that come together never have different references. */
  predicate Clear(nodes: seq<Json>, pointer: Pointer, depth: nat, path: seq<Step>)
    decreases |path|
  {
    && ClearHere(nodes, pointer, depth)
    && (path != [] ==> Clear(Below(Chain(nodes, pointer, depth), path[0]), pointer, depth + 1, path[1..]))
  }

  /** The node and its metadata, each bare, are among the nodes. */
  predicate PiecesIn(j: Json, nodes: seq<Json>)
    decreases j
  {
    Bare(j) in nodes && (Get(j, METADATA).Some? ==> PiecesIn(Get(j, METADATA).value, nodes))
  }

  lemma {:induction false} PiecesInMore(j: Json, nodes: seq<Json>, more: seq<Json>)
    requires PiecesIn(j, nodes) && forall n :: n in nodes ==> n in more
    ensures PiecesIn(j, more)
    decreases j
  {
    hide Bare;
    if Get(j, METADATA).Some? { PiecesInMore(Get(j, METADATA).value, nodes, more); }
  }

  lemma {:induction false} InBares(j: Json, nodes: seq<Json>)
    requires j in nodes
    ensures Bare(j) in Bares(nodes)
    ensures Get(j, METADATA).Some? ==> Get(j, METADATA).value in Metas(nodes)
  {
    hide Bare;
    if nodes[0] != j {
      assert nodes == [nodes[0]] + nodes[1..];
      InBares(j, nodes[1..]);
    }
  }

  lemma {:induction false} SpreadHasPieces(j: Json, nodes: seq<Json>)
    requires j in nodes
    ensures PiecesIn(j, Spread(nodes))
    decreases Highest(nodes)
  {
    hide Bare, Bares, Metas;
    MetasLower(nodes);
    InBares(j, nodes);
    if Metas(nodes) == [] {
      BareOfBare(j);
    } else {
      var meta := Get(j, METADATA);
      if meta.Some? {
        SpreadHasPieces(meta.value, Metas(nodes));
        PiecesInMore(meta.value, Spread(Metas(nodes)), Spread(nodes));
      }
    }
  }

  lemma BareOfBare(j: Json)
    ensures Get(j, METADATA).None? ==> Bare(j) == j
  {
    if Get(j, METADATA).None? && j.Obj? { assert j.fields - {METADATA} == j.fields; }
  }

  lemma ChainHasPieces(j: Json, nodes: seq<Json>, pointer: Pointer, depth: nat)
    requires j in nodes
    ensures PiecesIn(j, Chain(nodes, pointer, depth))
  {
    hide Spread, AllAt;
    SpreadHasPieces(j, nodes);
    PiecesInMore(j, Spread(nodes), Chain(nodes, pointer, depth));
  }

  /** A reference that is seen is that of a node. */
  lemma {:induction false} SomeReference(nodes: seq<Json>)
    ensures AllAt(nodes, []).reference.Some? ==>
              exists i :: 0 <= i < |nodes| && Get(nodes[i], "$ref") == AllAt(nodes, []).reference
    ensures AllAt(nodes, []).reference.None? ==> forall i :: 0 <= i < |nodes| ==> Get(nodes[i], "$ref").None?
  {
    hide At;
    if nodes != [] {
      SeenHere(nodes[0]);
      SomeReference(nodes[1..]);
      assert forall i :: 0 < i < |nodes| ==> nodes[i] == nodes[1..][i - 1];
      if AllAt(nodes[1..], []).reference.Some? {
        var i :| 0 <= i < |nodes[1..]| && Get(nodes[1..][i], "$ref") == AllAt(nodes[1..], []).reference;
        assert nodes[i + 1] == nodes[1..][i];
      }
    }
  }

  lemma OnlyReference(nodes: seq<Json>, p: Json)
    requires OneReference(nodes) && p in nodes && Get(p, "$ref").Some?
    ensures AllAt(nodes, []).reference == Get(p, "$ref")
  {
    hide AllAt;
    SomeReference(nodes);
    var i :| 0 <= i < |nodes| && nodes[i] == p;
  }

  /** Where references are clear, the target of any node's reference is among the nodes that come together. */
  lemma {:induction false} ChainIsClosed(nodes: seq<Json>, pointer: Pointer, visited: set<string>, depth: nat, p: Json)
    requires ClearHere(nodes, pointer, depth) && !Broken(nodes, pointer, visited, depth)
    requires p in Chain(nodes, pointer, depth) && Leads(p, pointer).Some?
    ensures PiecesIn(Leads(p, pointer).value, Chain(nodes, pointer, depth))
    decreases 129 - depth
  {
    hide Spread, AllAt, BadMetadata, OneReference;
    var spread, chain := Spread(nodes), Chain(nodes, pointer, depth);
    if p in spread {
      OnlyReference(spread, p);
      var target := Leads(p, pointer).value;
      ChainHasPieces(target, [target], pointer, depth + 1);
      PiecesInMore(target, Chain([target], pointer, depth + 1), chain);
    } else {
      var target := Target(spread, pointer).value;
      var name := AllAt(spread, []).reference.value.s;
      ChainIsClosed([target], pointer, visited + {name}, depth + 1, p);
      PiecesInMore(Leads(p, pointer).value, Chain([target], pointer, depth + 1), chain);
    }
  }

  lemma {:induction false} InMarked(p: Json, nodes: seq<Json>, path: seq<Step>, mark: string)
    requires p in nodes && OwnMark(p, path, mark)
    ensures AnyMarked(nodes, path, mark)
  {
    hide OwnMark;
    if nodes[0] != p {
      assert nodes == [nodes[0]] + nodes[1..];
      InMarked(p, nodes[1..], path, mark);
    }
  }

  lemma {:induction false} InBelow(p: Json, nodes: seq<Json>, step: Step)
    requires p in nodes && Down(p, step).Some?
    ensures Down(p, step).value in Below(nodes, step)
  {
    hide Down;
    if nodes[0] != p {
      assert nodes == [nodes[0]] + nodes[1..];
      InBelow(p, nodes[1..], step);
    }
  }

  lemma {:induction false} InObject(p: Json, nodes: seq<Json>)
    requires p in nodes && p.Obj?
    ensures AllAt(nodes, []).isObject
  {
    hide At;
    SeenHere(nodes[0]);
    if nodes[0] != p {
      assert nodes == [nodes[0]] + nodes[1..];
      InObject(p, nodes[1..]);
    }
  }

  lemma ReachesObject(j: Json, pointer: Pointer, path: seq<Step>, mark: string, steps: nat)
    requires Reaches(j, pointer, path, mark, steps)
    ensures j.Obj?
  {
  }

  /** The members of a node that matter are those of the bare node. */
  lemma BareHas(j: Json, path: seq<Step>, mark: string)
    requires mark in [SENSITIVE, URL_CREDENTIALS]
    ensures OwnMark(Bare(j), path, mark) == OwnMark(j, path, mark) && Get(Bare(j), "$ref") == Get(j, "$ref")
  {
  }

  /** Where references are clear, every mark that is reached is reached along the followed ones. */
  lemma {:induction false} ReachesFollows(j: Json, nodes: seq<Json>, pointer: Pointer, depth: nat, path: seq<Step>,
                                          mark: string, steps: nat)
    requires mark in [SENSITIVE, URL_CREDENTIALS] && Clear(nodes, pointer, depth, path)
    requires PiecesIn(j, Chain(nodes, pointer, depth)) && Reaches(j, pointer, path, mark, steps)
    ensures Follows(nodes, pointer, depth, path, mark)
    decreases steps, j
  {
    hide Chain, Broken, Bare, AnyMarked, Below, AllAt, ClearHere, Down, OwnMark;
    var chain := Chain(nodes, pointer, depth);
    BareHas(j, path, mark);
    if Broken(nodes, pointer, {}, depth) {
    } else if OwnMark(j, path, mark) {
      InMarked(Bare(j), chain, path, mark);
    } else if Get(j, METADATA).Some? && Reaches(Get(j, METADATA).value, pointer, path, mark, steps) {
      ReachesFollows(Get(j, METADATA).value, nodes, pointer, depth, path, mark, steps);
    } else if path != [] && Down(j, path[0]).Some? && Reaches(Down(j, path[0]).value, pointer, path[1..], mark, steps) {
      var child, below := Down(j, path[0]).value, Below(chain, path[0]);
      BareDown(j, path[0]);
      InBelow(Bare(j), chain, path[0]);
      ReachesObject(child, pointer, path[1..], mark, steps);
      InObject(child, below);
      ChainHasPieces(child, below, pointer, depth + 1);
      ReachesFollows(child, below, pointer, depth + 1, path[1..], mark, steps);
    } else {
      ChainIsClosed(nodes, pointer, {}, depth, Bare(j));
      ReachesFollows(Leads(j, pointer).value, nodes, pointer, depth, path, mark, steps - 1);
    }
  }

  /** Where references are clear along the path, every mark that the raw schema reaches, over any references, is in the
      prepared schema. */
  lemma ReachedIsProtected(schema: Json, pointer: Pointer, value: Json, path: seq<Step>, mark: string, steps: nat)
    requires mark in [SENSITIVE, URL_CREDENTIALS] && Clear([schema], pointer, 0, path)
    requires Reaches(schema, pointer, path, mark, steps)
    requires ReachedBy(PolicyOf(schema, pointer, value), {value}, path)
    ensures Protected(PolicyOf(schema, pointer, value), path, mark)
  {
    hide Clear, Reaches, Follows, ReachedBy, Protected, PolicyOf, Chain;
    ChainHasPieces(schema, [schema], pointer, 0);
    ReachesFollows(schema, [schema], pointer, 0, path, mark, steps);
    PolicyProtects(schema, pointer, value, path, mark);
  }

  // --- nothing is followed that is not reached ---

  ghost predicate SomeReaches(nodes: seq<Json>, pointer: Pointer, path: seq<Step>, mark: string) {
    exists i, steps :: 0 <= i < |nodes| && Reaches(nodes[i], pointer, path, mark, steps)
  }

  lemma InReaches(j: Json, nodes: seq<Json>, pointer: Pointer, path: seq<Step>, mark: string, steps: nat)
    requires j in nodes && Reaches(j, pointer, path, mark, steps)
    ensures SomeReaches(nodes, pointer, path, mark)
  {
    hide Reaches;
    var i :| 0 <= i < |nodes| && nodes[i] == j;
    assert Reaches(nodes[i], pointer, path, mark, steps);
  }

  lemma BareReaches(j: Json, pointer: Pointer, path: seq<Step>, mark: string, steps: nat)
    requires Reaches(Bare(j), pointer, path, mark, steps) && mark in [SENSITIVE, URL_CREDENTIALS]
    ensures Reaches(j, pointer, path, mark, steps)
  {
    hide Bare, Down, OwnMark;
    BareTwice(j);
    BareHas(j, path, mark);
    if path != [] { BareDown(j, path[0]); }
  }

  lemma {:induction false} FromBares(p: Json, nodes: seq<Json>) returns (j: Json)
    requires p in Bares(nodes)
    ensures j in nodes && p == Bare(j)
  {
    hide Bare;
    j := nodes[0];
    if p != Bare(nodes[0]) {
      j := FromBares(p, nodes[1..]);
      assert nodes == [nodes[0]] + nodes[1..];
    }
  }

  lemma {:induction false} FromMetas(p: Json, nodes: seq<Json>) returns (j: Json)
    requires p in Metas(nodes)
    ensures j in nodes && Get(j, METADATA) == Some(p)
  {
    j := nodes[0];
    if Get(nodes[0], METADATA) != Some(p) {
      j := FromMetas(p, nodes[1..]);
      assert nodes == [nodes[0]] + nodes[1..];
    }
  }

  lemma {:induction false} FromBelow(p: Json, nodes: seq<Json>, step: Step) returns (j: Json)
    requires p in Below(nodes, step)
    ensures j in nodes && Down(j, step) == Some(p)
  {
    hide Down;
    j := nodes[0];
    if Down(nodes[0], step) != Some(p) {
      j := FromBelow(p, nodes[1..], step);
      assert nodes == [nodes[0]] + nodes[1..];
    }
  }

  /** What a spread-out node reaches, a node reaches. */
  lemma {:induction false} SpreadReaches(p: Json, nodes: seq<Json>, pointer: Pointer, path: seq<Step>, mark: string,
                                         steps: nat) returns (j: Json)
    requires mark in [SENSITIVE, URL_CREDENTIALS] && p in Spread(nodes) && Reaches(p, pointer, path, mark, steps)
    ensures j in nodes && Reaches(j, pointer, path, mark, steps)
    decreases Highest(nodes)
  {
    hide Bares, Metas, OwnMark, Down;
    MetasLower(nodes);
    j := p;
    if Metas(nodes) != [] {
      if p in Bares(nodes) {
        j := FromBares(p, nodes);
        BareReaches(j, pointer, path, mark, steps);
      } else {
        var meta := SpreadReaches(p, Metas(nodes), pointer, path, mark, steps);
        j := FromMetas(meta, nodes);
      }
    }
  }

  lemma LeadsReaches(j: Json, pointer: Pointer, path: seq<Step>, mark: string, steps: nat)
    requires Leads(j, pointer).Some? && Reaches(Leads(j, pointer).value, pointer, path, mark, steps)
    ensures Reaches(j, pointer, path, mark, steps + 1)
  {
    hide OwnMark, Down;
  }

  lemma DownReaches(j: Json, pointer: Pointer, path: seq<Step>, mark: string, steps: nat)
    requires path != [] && Down(j, path[0]).Some? && Reaches(Down(j, path[0]).value, pointer, path[1..], mark, steps)
    ensures Reaches(j, pointer, path, mark, steps)
  {
    hide OwnMark;
  }

  lemma MarkReaches(j: Json, pointer: Pointer, path: seq<Step>, mark: string)
    requires OwnMark(j, path, mark)
    ensures Reaches(j, pointer, path, mark, 0)
  {
  }

  /** The node whose reference is followed. */
  lemma TargetIsLed(nodes: seq<Json>, pointer: Pointer) returns (j: Json)
    requires Target(nodes, pointer).Some?
    ensures j in nodes && Leads(j, pointer) == Target(nodes, pointer)
  {
    hide AllAt;
    SomeReference(nodes);
    var i :| 0 <= i < |nodes| && Get(nodes[i], "$ref") == AllAt(nodes, []).reference;
    j := nodes[i];
  }

  /** What one of the nodes that come together reaches, a node reaches. */
  lemma {:induction false} ChainReaches(p: Json, nodes: seq<Json>, pointer: Pointer, depth: nat, path: seq<Step>,
                                        mark: string, steps: nat) returns (j: Json, all: nat)
    requires mark in [SENSITIVE, URL_CREDENTIALS]
    requires p in Chain(nodes, pointer, depth) && Reaches(p, pointer, path, mark, steps)
    ensures j in nodes && Reaches(j, pointer, path, mark, all)
    decreases 129 - depth
  {
    hide Spread, AllAt, Reaches, Target, Leads;
    var spread := Spread(nodes);
    if p in spread {
      all := steps;
      j := SpreadReaches(p, nodes, pointer, path, mark, steps);
    } else {
      var target := Target(spread, pointer).value;
      var k;
      j, k := ChainReaches(p, [target], pointer, depth + 1, path, mark, steps);
      var q := TargetIsLed(spread, pointer);
      LeadsReaches(q, pointer, path, mark, k);
      all := k + 1;
      j := SpreadReaches(q, nodes, pointer, path, mark, all);
    }
  }

  lemma {:induction false} FromMarked(nodes: seq<Json>, path: seq<Step>, mark: string) returns (j: Json)
    requires AnyMarked(nodes, path, mark)
    ensures j in nodes && OwnMark(j, path, mark)
  {
    hide OwnMark;
    j := nodes[0];
    if !OwnMark(nodes[0], path, mark) {
      j := FromMarked(nodes[1..], path, mark);
      assert nodes == [nodes[0]] + nodes[1..];
    }
  }

  /** Somewhere along the path the schema cannot be resolved. */
  predicate BreaksOff(nodes: seq<Json>, pointer: Pointer, depth: nat, path: seq<Step>)
    decreases |path|
  {
    || Broken(nodes, pointer, {}, depth)
    || (&& path != []
        && IsResolved(path[0], Below(Chain(nodes, pointer, depth), path[0]))
        && BreaksOff(Below(Chain(nodes, pointer, depth), path[0]), pointer, depth + 1, path[1..]))
  }

  /** Unless the way breaks off, what is marked along the followed references is reached. */
  lemma {:induction false} FollowsReaches(nodes: seq<Json>, pointer: Pointer, depth: nat, path: seq<Step>, mark: string)
    returns (j: Json, steps: nat)
    requires mark in [SENSITIVE, URL_CREDENTIALS] && Follows(nodes, pointer, depth, path, mark)
    requires !BreaksOff(nodes, pointer, depth, path)
    ensures j in nodes && Reaches(j, pointer, path, mark, steps)
    decreases |path|
  {
    hide Broken, Chain, Below, AnyMarked, AllAt, Reaches, OwnMark, Down;
    var chain := Chain(nodes, pointer, depth);
    var p;
    if AnyMarked(chain, path, mark) {
      p := FromMarked(chain, path, mark);
      steps := 0;
      MarkReaches(p, pointer, path, mark);
    } else {
      var q;
      q, steps := FollowsReaches(Below(chain, path[0]), pointer, depth + 1, path[1..], mark);
      p := FromBelow(q, chain, path[0]);
      DownReaches(p, pointer, path, mark, steps);
    }
    j, steps := ChainReaches(p, nodes, pointer, depth, path, mark, steps);
  }

  /** Where references are clear and secret references declared alike, the prepared schema protects a position that the
      value reaches if and only if the raw schema reaches a mark there or breaks off; until the budget is used up. */
  lemma ReachedExactly(schema: Json, pointer: Pointer, value: Json, path: seq<Step>, mark: string, x: Json)
    requires mark in [SENSITIVE, URL_CREDENTIALS] && Clear([schema], pointer, 0, path)
    requires Agreed(schema, x) && AgreedPointer(pointer, x) && BudgetLeft(schema, pointer, value) > 0
    requires ReachedBy(PolicyOf(schema, pointer, value), {value}, path)
    ensures Protected(PolicyOf(schema, pointer, value), path, mark) <==>
              SomeReaches([schema], pointer, path, mark) || BreaksOff([schema], pointer, 0, path)
  {
    hide Clear, Reaches, Follows, ReachedBy, Protected, PolicyOf, Chain, Agreed, BreaksOff;
    PolicyProtectsExactly(schema, pointer, value, path, mark, x);
    if BreaksOff([schema], pointer, 0, path) {
      BreaksFollows([schema], pointer, 0, path, mark);
    } else if Follows([schema], pointer, 0, path, mark) {
      var j, steps := FollowsReaches([schema], pointer, 0, path, mark);
      InReaches(j, [schema], pointer, path, mark, steps);
    }
    if SomeReaches([schema], pointer, path, mark) {
      var i, steps :| 0 <= i < |[schema]| && Reaches([schema][i], pointer, path, mark, steps);
      ReachedIsProtected(schema, pointer, value, path, mark, steps);
    }
  }

  lemma {:induction false} BreaksFollows(nodes: seq<Json>, pointer: Pointer, depth: nat, path: seq<Step>, mark: string)
    requires BreaksOff(nodes, pointer, depth, path)
    ensures Follows(nodes, pointer, depth, path, mark)
    decreases |path|
  {
    hide Broken, Chain, Below, AnyMarked, AllAt;
    if !Broken(nodes, pointer, {}, depth) {
      BreaksFollows(Below(Chain(nodes, pointer, depth), path[0]), pointer, depth + 1, path[1..], mark);
    }
  }
}
