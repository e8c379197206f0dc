/** The configuration tree: reading and writing at dotted paths, the difference of two trees, and schema defaults. A
    path is the sequence of the parts of a dotted key. */
module ConfigTree {
  import opened JsonModel
  import opened Options

  type Path = seq<string>

  /** `get` on a path. */
  function At(j: Json, path: Path): Option<Json>
    decreases |path|
  {
    if path == [] then Some(j)
    else if j.Obj? && path[0] in j.fields then At(j.fields[path[0]], path[1..])
    else None
  }

  predicate Comparable(p: Path, q: Path) {
    p <= q || q <= p
  }

  // ----- put ------------------------------------------------------------------------------------------------------

  const EMPTY := Obj(map[])

  /** `put`: the tree with `value` at `path`, objects made on the way; `None` when something on the way is no object. */
  function Put(j: Json, path: Path, value: Json): Option<Json>
    decreases |path|
  {
    if path == [] then Some(value)
    else if !j.Obj? then None
    else
      var child := if path[0] in j.fields then j.fields[path[0]] else EMPTY;
      match Put(child, path[1..], value)
      case None => None
      case Some(put) => Some(Obj(j.fields[path[0] := put]))
  }

  /** What was put is what is read. */
  lemma {:induction false} GetPut(j: Json, path: Path, value: Json)
    requires Put(j, path, value).Some?
    ensures At(Put(j, path, value).value, path) == Some(value)
    decreases |path|
  {
    if path != [] {
      GetPut(if path[0] in j.fields then j.fields[path[0]] else EMPTY, path[1..], value);
    }
  }

  /** Nothing else is read differently. */
  lemma {:induction false} PutFrame(j: Json, path: Path, value: Json, other: Path)
    requires Put(j, path, value).Some? && !Comparable(path, other)
    ensures At(Put(j, path, value).value, other) == At(j, other)
    decreases |path|
  {
    if path[0] == other[0] {
      assert path[1..] <= other[1..] ==> path <= other;
      assert other[1..] <= path[1..] ==> other <= path;
      PutFrame(if path[0] in j.fields then j.fields[path[0]] else EMPTY, path[1..], value, other[1..]);
    }
  }

  /** A write fails exactly when something there on the way is no object. */
  lemma {:induction false} PutFails(j: Json, path: Path, value: Json)
    ensures Put(j, path, value).None? <==>
              exists k :: 0 <= k < |path| && At(j, path[..k]).Some? && !At(j, path[..k]).value.Obj?
    decreases |path|
  {
    if path != [] {
      if !j.Obj? {
        assert At(j, path[..0]) == Some(j);
      } else if path[0] in j.fields {
        PutFails(j.fields[path[0]], path[1..], value);
        forall k | 0 <= k < |path[1..]| ensures At(j, path[..k + 1]) == At(j.fields[path[0]], path[1..][..k]) {
          assert path[..k + 1][1..] == path[1..][..k];
        }
        if k :| 0 <= k < |path| && At(j, path[..k]).Some? && !At(j, path[..k]).value.Obj? {
          assert k > 0;
          assert At(j, path[..(k - 1) + 1]) == At(j.fields[path[0]], path[1..][..k - 1]);
        }
      } else {
        PutIntoEmpty(path[1..], value);
      }
    }
  }

  lemma {:induction false} PutIntoEmpty(path: Path, value: Json)
    ensures Put(EMPTY, path, value).Some?
    decreases |path|
  {
    if path != [] { PutIntoEmpty(path[1..], value); }
  }

  datatype Change = Change(path: Path, value: Json)

  /** The writes of `set_many`, in order. */
  function PutAll(j: Json, changes: seq<Change>): Option<Json> {
    if changes == [] then Some(j)
    else
      match PutAll(j, changes[..|changes| - 1])
      case None => None
      case Some(put) => Put(put, changes[|changes| - 1].path, changes[|changes| - 1].value)
  }

  lemma {:induction false} PutAllFrame(j: Json, changes: seq<Change>, other: Path)
    requires PutAll(j, changes).Some?
    requires forall i :: 0 <= i < |changes| ==> !Comparable(changes[i].path, other)
    ensures At(PutAll(j, changes).value, other) == At(j, other)
  {
    if changes != [] {
      var init, last := changes[..|changes| - 1], changes[|changes| - 1];
      PutAllFrame(j, init, other);
      PutFrame(PutAll(j, init).value, last.path, last.value, other);
    }
  }

  // ----- diff -----------------------------------------------------------------------------------------------------

  /** `json_eq`; `round` takes an integer to the nearest 64-bit float. */
  predicate JsonEq(a: Json, b: Json, round: int -> real) {
    match (a, b)
    case (Int(n), Float(r)) => round(n) == r
    case (Float(r), Int(n)) => round(n) == r
    case _ => a == b
  }

  function Child(j: Json, key: string): Json
    requires j.Obj?
    ensures key in j.fields ==> Child(j, key) < j
  {
    if key in j.fields then j.fields[key] else Null
  }

  function Keys(a: Json, b: Json): set<string>
    requires a.Obj? && b.Obj?
  {
    a.fields.Keys + b.fields.Keys
  }

  /** The paths at which the trees differ, the empty one included. A missing member counts as null. */
  function Diff(a: Json, b: Json, round: int -> real): set<Path>
    decreases a, b
  {
    if a.Obj? && b.Obj? then
      set k, p | k in Keys(a, b) && p in Below(a, b, k, round) :: [k] + p
    else if JsonEq(a, b, round) then {}
    else {[]}
  }

  function Below(a: Json, b: Json, k: string, round: int -> real): set<Path>
    requires a.Obj? && b.Obj? && k in Keys(a, b)
    decreases a, b, 0
  {
    if k in a.fields then Diff(a.fields[k], Child(b, k), round)
    else if JsonEq(Null, b.fields[k], round) then {}
    else {[]}
  }

  lemma BelowIs(a: Json, b: Json, k: string, round: int -> real)
    requires a.Obj? && b.Obj? && k in Keys(a, b)
    ensures Below(a, b, k, round) == Diff(Child(a, k), Child(b, k), round)
  {
  }

  lemma DiffOfObjects(a: Json, b: Json, round: int -> real, path: Path)
    requires a.Obj? && b.Obj?
    ensures path in Diff(a, b, round) <==>
              path != [] && path[0] in Keys(a, b) && path[1..] in Diff(Child(a, path[0]), Child(b, path[0]), round)
  {
    hide Below;
    if path != [] && path[0] in Keys(a, b) {
      BelowIs(a, b, path[0], round);
      assert path == [path[0]] + path[1..];
    }
    if path in Diff(a, b, round) {
      var k, p :| k in Keys(a, b) && p in Below(a, b, k, round) && path == [k] + p;
      assert path[0] == k && path[1..] == p;
    }
  }

  /** The value at a path, a missing one counting as null. */
  function Look(j: Json, path: Path): Json {
    if At(j, path).Some? then At(j, path).value else Null
  }

  lemma LookDown(j: Json, path: Path)
    requires j.Obj? && path != []
    ensures Look(j, path) == Look(Child(j, path[0]), path[1..])
  {
    assert path[1..] != [] ==> At(Null, path[1..]).None?;
  }

  /** What a difference is: the values there differ, they are not both objects, and everything above is an object in
      both trees. */
  ghost predicate Differs(a: Json, b: Json, round: int -> real, path: Path) {
    && !JsonEq(Look(a, path), Look(b, path), round)
    && !(Look(a, path).Obj? && Look(b, path).Obj?)
    && forall k :: 0 <= k < |path| ==> Look(a, path[..k]).Obj? && Look(b, path[..k]).Obj?
  }

  lemma DiffersDown(a: Json, b: Json, round: int -> real, path: Path)
    requires a.Obj? && b.Obj? && path != []
    ensures Differs(a, b, round, path) <==> Differs(Child(a, path[0]), Child(b, path[0]), round, path[1..])
  {
    hide Look, JsonEq;
    LookDown(a, path);
    LookDown(b, path);
    LookHere(a);
    LookHere(b);
    assert path[..0] == [];
    forall k | 0 < k <= |path|
      ensures Look(a, path[..k]) == Look(Child(a, path[0]), path[1..][..k - 1])
      ensures Look(b, path[..k]) == Look(Child(b, path[0]), path[1..][..k - 1])
    {
      LookDown(a, path[..k]);
      LookDown(b, path[..k]);
      assert path[..k][1..] == path[1..][..k - 1];
    }
    if Differs(a, b, round, path) {
      forall k | 0 <= k < |path[1..]|
        ensures Look(Child(a, path[0]), path[1..][..k]).Obj? && Look(Child(b, path[0]), path[1..][..k]).Obj?
      {
        assert path[1..][..k] == path[1..][..(k + 1) - 1];
        assert Look(a, path[..k + 1]).Obj? && Look(b, path[..k + 1]).Obj?;
      }
    }
    if Differs(Child(a, path[0]), Child(b, path[0]), round, path[1..]) {
      forall k | 0 <= k < |path| ensures Look(a, path[..k]).Obj? && Look(b, path[..k]).Obj? {
        if k > 0 {
          assert Look(Child(a, path[0]), path[1..][..k - 1]).Obj?;
        }
      }
    }
  }

  lemma LookHere(j: Json)
    ensures Look(j, []) == j
  {
  }

  /** `Diff` has exactly the differences; of two objects `diff` reports them all. */
  lemma {:induction false} DiffIsExact(a: Json, b: Json, round: int -> real, path: Path)
    ensures path in Diff(a, b, round) <==> Differs(a, b, round, path)
    decreases |path|
  {
    hide Differs, Diff;
    if a.Obj? && b.Obj? && path != [] {
      DiffOfObjects(a, b, round, path);
      DiffersDown(a, b, round, path);
      if path[0] in Keys(a, b) {
        DiffIsExact(Child(a, path[0]), Child(b, path[0]), round, path[1..]);
      } else {
        NullIsNoDifference(round, path[1..]);
      }
    } else {
      DiffAtLeaf(a, b, round, path);
    }
  }

  lemma NullIsNoDifference(round: int -> real, path: Path)
    ensures !Differs(Null, Null, round, path)
  {
    if path != [] { assert path[..0] == [] && !Look(Null, path[..0]).Obj?; }
  }

  lemma DiffAtLeaf(a: Json, b: Json, round: int -> real, path: Path)
    requires !(a.Obj? && b.Obj?) || path == []
    ensures path in Diff(a, b, round) <==> Differs(a, b, round, path)
  {
    if a.Obj? && b.Obj? {
      DiffOfObjects(a, b, round, path);
    } else if path != [] {
      assert path[..0] == [];
      LookHere(a);
      LookHere(b);
    }
  }

  /** The root is a difference only where one of the trees is no object; `diff` leaves it out of what it reports. */
  lemma RootDiffers(a: Json, b: Json, round: int -> real)
    ensures [] in Diff(a, b, round) <==> !(a.Obj? && b.Obj?) && !JsonEq(a, b, round)
  {
    hide JsonEq;
    if a.Obj? && b.Obj? { DiffOfObjects(a, b, round, []); }
  }

  /** The difference does not depend on the direction. */
  lemma DiffIsSymmetric(a: Json, b: Json, round: int -> real)
    ensures Diff(a, b, round) == Diff(b, a, round)
  {
    hide Diff;
    forall path ensures path in Diff(a, b, round) <==> path in Diff(b, a, round) {
      DiffIsExact(a, b, round, path);
      DiffIsExact(b, a, round, path);
    }
  }

  lemma NoneAbove(a: Json, b: Json, round: int -> real, p: Path, q: Path)
    requires q in Diff(a, b, round) && p <= q && p != q
    ensures p !in Diff(a, b, round)
  {
    hide Diff;
    DiffIsExact(a, b, round, q);
    assert p == q[..|p|];
    DiffIsExact(a, b, round, p);
  }

  /** No reported path is above another. */
  lemma DiffIsAntichain(a: Json, b: Json, round: int -> real)
    ensures Antichain(Diff(a, b, round))
  {
    hide Diff;
    forall p, q | q in Diff(a, b, round) && p <= q && p != q ensures p !in Diff(a, b, round) {
      NoneAbove(a, b, round, p, q);
    }
  }

  /** Every reported path is comparable with a changed key. */
  lemma SetManyReports(config: Json, changes: seq<Change>, round: int -> real, path: Path)
    requires PutAll(config, changes).Some? && path in Diff(config, PutAll(config, changes).value, round)
    ensures exists i :: 0 <= i < |changes| && Comparable(changes[i].path, path)
  {
    hide Diff;
    DiffIsExact(config, PutAll(config, changes).value, round, path);
    if forall i :: 0 <= i < |changes| ==> !Comparable(changes[i].path, path) {
      PutAllFrame(config, changes, path);
    }
  }

  /** The recursion of `diff`: the paths are appended to `out`, each under `path`, but for the root itself. */
  method Differences(a: Json, b: Json, round: int -> real, path: Path, out: seq<Path>) returns (after: seq<Path>)
    ensures forall p :: p in after <==> p in out || (p != [] && path <= p && p[|path|..] in Diff(a, b, round))
    decreases a, b, 1
  {
    hide Diff, JsonEq;
    if a.Obj? && b.Obj? {
      after := out;
      var rest := Keys(a, b);
      ghost var done: set<string> := {};
      while rest != {}
        invariant rest <= Keys(a, b) && done == Keys(a, b) - rest
        invariant forall p :: p in after <==> p in out || Under(a, b, round, path, done, p)
        decreases |rest|
      {
        var k :| k in rest;
        after := DifferencesBelow(a, b, round, path, k, after);
        forall p ensures Under(a, b, round, path, done + {k}, p) <==>
                           Under(a, b, round, path, done, p)
                           || (path + [k] <= p && p[|path| + 1..] in Diff(Child(a, k), Child(b, k), round))
        {
          UnderOne(path, k, p);
        }
        rest, done := rest - {k}, done + {k};
      }
      forall p ensures Under(a, b, round, path, done, p) <==> p != [] && path <= p && p[|path|..] in Diff(a, b, round) {
        if path <= p { DiffOfObjects(a, b, round, p[|path|..]); }
      }
    } else {
      LeafDiff(a, b, round);
      after := if !JsonEq(a, b, round) && path != [] then out + [path] else out;
      forall p ensures p in after <==> p in out || (p != [] && path <= p && p[|path|..] in Diff(a, b, round)) {
        WholePath(path, p);
      }
    }
  }

  lemma WholePath(path: Path, p: Path)
    ensures path <= p && p[|path|..] == [] <==> p == path
  {
    if path <= p { assert p == path + p[|path|..]; }
  }

  /** One key of the union. */
  method DifferencesBelow(a: Json, b: Json, round: int -> real, path: Path, k: string, out: seq<Path>)
    returns (after: seq<Path>)
    requires a.Obj? && b.Obj? && k in Keys(a, b)
    ensures forall p :: p in after <==>
              p in out || (path + [k] <= p && p[|path| + 1..] in Diff(Child(a, k), Child(b, k), round))
    decreases a, b, 0
  {
    hide Diff, JsonEq;
    if k in a.fields {
      after := Differences(a.fields[k], Child(b, k), round, path + [k], out);
    } else {
      DiffOfNull(b.fields[k], round);
      after := if JsonEq(Null, b.fields[k], round) then out else out + [path + [k]];
      forall p
        ensures p in after <==>
                  p in out || (path + [k] <= p && p[|path| + 1..] in Diff(Child(a, k), Child(b, k), round))
      {
        WholePath(path + [k], p);
      }
    }
  }

  /** `p` is a difference below one of the keys in `done`. */
  ghost predicate Under(a: Json, b: Json, round: int -> real, path: Path, done: set<string>, p: Path)
    requires a.Obj? && b.Obj?
  {
    && path <= p && |path| < |p| && p[|path|] in done
    && p[|path|..][1..] in Diff(Child(a, p[|path|]), Child(b, p[|path|]), round)
  }

  lemma UnderOne(path: Path, k: string, p: Path)
    ensures path + [k] <= p <==> path <= p && |path| < |p| && p[|path|] == k
    ensures path + [k] <= p ==> p[|path|..][1..] == p[|path| + 1..]
  {
    if path <= p && |path| < |p| && p[|path|] == k { assert p[..|path| + 1] == path + [k]; }
    if path + [k] <= p { assert p[..|path|] == path; }
  }

  lemma LeafDiff(a: Json, b: Json, round: int -> real)
    requires !(a.Obj? && b.Obj?)
    ensures Diff(a, b, round) == if JsonEq(a, b, round) then {} else {[]}
  {
  }

  lemma DiffOfNull(b: Json, round: int -> real)
    ensures Diff(Null, b, round) == if JsonEq(Null, b, round) then {} else {[]}
  {
  }

  // ----- rebuilding -----------------------------------------------------------------------------------------------

  /** The same tree, a missing member counting as null and numbers by value. */
  ghost predicate Equiv(a: Json, b: Json, round: int -> real)
    decreases a, b
  {
    if a.Obj? && b.Obj? then
      forall k :: k in Keys(a, b) ==>
        if k in a.fields then Equiv(a.fields[k], Child(b, k), round) else JsonEq(Null, b.fields[k], round)
    else JsonEq(a, b, round)
  }

  lemma EquivOfObjects(a: Json, b: Json, round: int -> real)
    requires a.Obj? && b.Obj?
    ensures Equiv(a, b, round) <==> forall k :: k in Keys(a, b) ==> Equiv(Child(a, k), Child(b, k), round)
  {
  }

  lemma {:induction false} EquivIsReflexive(a: Json, round: int -> real)
    ensures Equiv(a, a, round)
  {
    if a.Obj? {
      forall k | k in a.fields ensures Equiv(a.fields[k], a.fields[k], round) { EquivIsReflexive(a.fields[k], round); }
    }
  }

  /** The objects above a written path are there, and stay objects. */
  lemma {:induction false} PutPrefix(j: Json, path: Path, value: Json, q: Path)
    requires Put(j, path, value).Some? && q < path
    ensures At(Put(j, path, value).value, q).Some? && At(Put(j, path, value).value, q).value.Obj?
    decreases |path|
  {
    if q != [] {
      assert q[1..] < path[1..];
      PutPrefix(if path[0] in j.fields then j.fields[path[0]] else EMPTY, path[1..], value, q[1..]);
    }
  }

  /** `r` reads at each of the paths what `b` reads there. */
  ghost predicate Taken(b: Json, r: Json, order: seq<Path>) {
    forall i :: 0 <= i < |order| ==> At(r, order[i]) == Some(Look(b, order[i]))
  }

  ghost predicate Apart(order: seq<Path>, q: Path) {
    forall i :: 0 <= i < |order| ==> !Comparable(order[i], q)
  }

  /** Apart from the paths, `r` reads what `a` reads. */
  ghost predicate Untouched(a: Json, r: Json, order: seq<Path>) {
    forall q :: Apart(order, q) ==> At(r, q) == At(a, q)
  }

  /** Everything above a path of `all` is an object in `r`. */
  ghost predicate Roomy(r: Json, all: set<Path>) {
    forall p, q :: p in all && q < p ==> At(r, q).Some? && At(r, q).value.Obj?
  }

  /** What copying the paths of `order` from `b` into `a` has made of it. */
  ghost predicate Copied(a: Json, b: Json, r: Json, all: set<Path>, order: seq<Path>) {
    Taken(b, r, order) && Untouched(a, r, order) && Roomy(r, all)
  }

  function Copies(b: Json, order: seq<Path>): (changes: seq<Change>)
    ensures |changes| == |order| && forall i :: 0 <= i < |order| ==> changes[i] == Change(order[i], Look(b, order[i]))
  {
    seq(|order|, i requires 0 <= i < |order| => Change(order[i], Look(b, order[i])))
  }

  lemma NothingCopied(a: Json, b: Json, round: int -> real)
    ensures Copied(a, b, a, Diff(a, b, round), [])
  {
    hide Diff;
    forall p, q | p in Diff(a, b, round) && q < p ensures At(a, q).Some? && At(a, q).value.Obj? {
      DiffIsExact(a, b, round, p);
      assert q == p[..|q|];
    }
  }

  ghost predicate Antichain(all: set<Path>) {
    forall p, q :: p in all && q in all && Comparable(p, q) ==> p == q
  }

  lemma OneMoreTaken(b: Json, r: Json, order: seq<Path>, p: Path)
    requires Taken(b, r, order) && Put(r, p, Look(b, p)).Some?
    requires forall i :: 0 <= i < |order| ==> order[i] == p || !Comparable(p, order[i])
    ensures Taken(b, Put(r, p, Look(b, p)).value, order + [p])
  {
    hide Look, At, Put;
    var after := Put(r, p, Look(b, p)).value;
    GetPut(r, p, Look(b, p));
    forall i | 0 <= i < |order| ensures At(after, order[i]) == Some(Look(b, order[i])) {
      if order[i] != p { PutFrame(r, p, Look(b, p), order[i]); }
    }
  }

  lemma OneMoreUntouched(a: Json, r: Json, order: seq<Path>, p: Path, value: Json)
    requires Untouched(a, r, order) && Put(r, p, value).Some?
    ensures Untouched(a, Put(r, p, value).value, order + [p])
  {
    hide At, Put;
    var more := order + [p];
    forall q | Apart(more, q) ensures At(Put(r, p, value).value, q) == At(a, q) {
      assert more[|order|] == p;
      assert forall i :: 0 <= i < |order| ==> more[i] == order[i];
      assert Apart(order, q);
      PutFrame(r, p, value, q);
    }
  }

  lemma OneMoreRoomy(r: Json, all: set<Path>, p: Path, value: Json)
    requires Roomy(r, all) && Put(r, p, value).Some? && p in all && Antichain(all)
    ensures Roomy(Put(r, p, value).value, all)
  {
    hide At, Put;
    forall x, q | x in all && q < x
      ensures At(Put(r, p, value).value, q).Some? && At(Put(r, p, value).value, q).value.Obj?
    {
      if q < p {
        PutPrefix(r, p, value, q);
      } else {
        assert p <= q ==> p <= x;
        PutFrame(r, p, value, q);
      }
    }
  }

  lemma OneMoreCopied(a: Json, b: Json, r: Json, all: set<Path>, order: seq<Path>, p: Path)
    requires Copied(a, b, r, all, order) && p in all && forall i :: 0 <= i < |order| ==> order[i] in all
    requires Antichain(all)
    ensures Put(r, p, Look(b, p)).Some?
    ensures Copied(a, b, Put(r, p, Look(b, p)).value, all, order + [p])
  {
    hide Look, At, Put, Taken, Untouched;
    PutFails(r, p, Look(b, p));
    assert forall k :: 0 <= k < |p| ==> p[..k] < p;
    assert forall i :: 0 <= i < |order| ==> order[i] == p || !Comparable(p, order[i]);
    OneMoreTaken(b, r, order, p);
    OneMoreUntouched(a, r, order, p, Look(b, p));
    OneMoreRoomy(r, all, p, Look(b, p));
  }

  lemma {:induction false} CopyAll(a: Json, b: Json, round: int -> real, order: seq<Path>)
    requires forall i :: 0 <= i < |order| ==> order[i] in Diff(a, b, round)
    ensures PutAll(a, Copies(b, order)).Some?
    ensures Copied(a, b, PutAll(a, Copies(b, order)).value, Diff(a, b, round), order)
  {
    hide Diff, Copied, Look;
    if order == [] {
      NothingCopied(a, b, round);
    } else {
      var init, p := order[..|order| - 1], order[|order| - 1];
      assert order == init + [p];
      CopyAll(a, b, round, init);
      DiffIsAntichain(a, b, round);
      OneMoreCopied(a, b, PutAll(a, Copies(b, init)).value, Diff(a, b, round), init, p);
      assert Copies(b, order)[..|order| - 1] == Copies(b, init);
    }
  }

  /** `r` reads like `b` at the differences and like `a` apart from them. */
  ghost predicate Patched(a: Json, b: Json, r: Json, round: int -> real) {
    && (forall p :: p in Diff(a, b, round) ==> Look(r, p) == Look(b, p))
    && (forall q :: (forall p :: p in Diff(a, b, round) ==> !Comparable(p, q)) ==> Look(r, q) == Look(a, q))
    && (forall p, q :: p in Diff(a, b, round) && q < p ==> Look(r, q).Obj?)
  }

  lemma PatchedLeaf(a: Json, b: Json, r: Json, round: int -> real)
    requires Patched(a, b, r, round) && !(a.Obj? && b.Obj?)
    ensures Equiv(r, b, round)
  {
    LookHere(a);
    LookHere(b);
    LookHere(r);
    if JsonEq(a, b, round) {
      assert Look(r, []) == Look(a, []);
    } else {
      assert [] in Diff(a, b, round);
      EquivIsReflexive(b, round);
    }
  }

  lemma PatchedObject(a: Json, b: Json, r: Json, round: int -> real)
    requires Patched(a, b, r, round) && a.Obj? && b.Obj?
    ensures r.Obj?
  {
    hide Look, Diff;
    LookHere(a);
    LookHere(r);
    if p :| p in Diff(a, b, round) {
      DiffOfObjects(a, b, round, p);
      assert [] < p;
    } else {
      assert Look(r, []) == Look(a, []);
    }
  }

  lemma PatchedChild(a: Json, b: Json, r: Json, round: int -> real, k: string)
    requires Patched(a, b, r, round) && a.Obj? && b.Obj? && r.Obj?
    ensures k in Keys(a, b) ==> Patched(Child(a, k), Child(b, k), Child(r, k), round)
    ensures k !in Keys(a, b) ==> Child(r, k) == Null
  {
    hide Look, Diff;
    if k in Keys(a, b) {
      var x, y, z := Child(a, k), Child(b, k), Child(r, k);
      forall p | p in Diff(x, y, round) ensures Look(z, p) == Look(y, p) {
        PrefixedDiff(a, b, round, k, p);
        LookUnder(r, k, p);
        LookUnder(b, k, p);
      }
      forall q | forall p :: p in Diff(x, y, round) ==> !Comparable(p, q) ensures Look(z, q) == Look(x, q) {
        forall p | p in Diff(a, b, round) ensures !Comparable(p, [k] + q) {
          DiffOfObjects(a, b, round, p);
          if p[0] == k { ComparableUnder(k, p, q); }
        }
        LookUnder(r, k, q);
        LookUnder(a, k, q);
      }
      forall p, q | p in Diff(x, y, round) && q < p ensures Look(z, q).Obj? {
        PrefixedDiff(a, b, round, k, p);
        LookUnder(r, k, q);
        assert [k] + q < [k] + p;
      }
    } else {
      forall p | p in Diff(a, b, round) ensures !Comparable(p, [k]) {
        DiffOfObjects(a, b, round, p);
      }
      LookUnder(r, k, []);
      LookUnder(a, k, []);
      LookHere(Child(r, k));
      LookHere(Child(a, k));
      assert [k] + [] == [k];
    }
  }

  lemma PrefixedDiff(a: Json, b: Json, round: int -> real, k: string, p: Path)
    requires a.Obj? && b.Obj? && k in Keys(a, b) && p in Diff(Child(a, k), Child(b, k), round)
    ensures [k] + p in Diff(a, b, round)
  {
    hide Diff;
    DiffOfObjects(a, b, round, [k] + p);
    assert ([k] + p)[1..] == p;
  }

  lemma LookUnder(j: Json, k: string, p: Path)
    requires j.Obj?
    ensures Look(j, [k] + p) == Look(Child(j, k), p)
  {
    LookDown(j, [k] + p);
    assert ([k] + p)[1..] == p;
  }

  lemma ComparableUnder(k: string, p: Path, q: Path)
    requires p != [] && p[0] == k
    ensures Comparable(p, [k] + q) ==> Comparable(p[1..], q)
  {
    if p <= [k] + q { assert p[1..] == ([k] + q)[..|p|][1..] == q[..|p| - 1]; }
    if [k] + q <= p { assert q == ([k] + q)[1..] == p[..|q| + 1][1..] == p[1..][..|q|]; }
  }

  lemma {:induction false} PatchedIsEquiv(a: Json, b: Json, r: Json, round: int -> real)
    requires Patched(a, b, r, round)
    ensures Equiv(r, b, round)
    decreases a
  {
    hide Patched, Equiv, Diff;
    if a.Obj? && b.Obj? {
      PatchedObject(a, b, r, round);
      forall k | k in Keys(r, b) ensures Equiv(Child(r, k), Child(b, k), round) {
        PatchedChild(a, b, r, round, k);
        if k in a.fields {
          PatchedIsEquiv(a.fields[k], Child(b, k), Child(r, k), round);
        } else if k in b.fields {
          PatchedLeaf(Null, Child(b, k), Child(r, k), round);
        } else {
          EquivIsReflexive(Null, round);
        }
      }
      EquivOfObjects(r, b, round);
    } else {
      PatchedLeaf(a, b, r, round);
    }
  }

  lemma CopiedIsPatched(a: Json, b: Json, r: Json, round: int -> real, order: seq<Path>)
    requires Copied(a, b, r, Diff(a, b, round), order)
    requires forall p :: p in order <==> p in Diff(a, b, round)
    ensures Patched(a, b, r, round)
  {
    hide Diff, At, Taken, Comparable, Apart, Look;
    TakenLooks(b, r, order);
    forall q | forall p :: p in Diff(a, b, round) ==> !Comparable(p, q) ensures Look(r, q) == Look(a, q) {
      ApartFromAll(order, q);
      SameLook(a, r, q);
    }
    forall p, q | p in Diff(a, b, round) && q < p ensures Look(r, q).Obj? {
      LookThere(r, q);
    }
  }

  lemma SameLook(a: Json, r: Json, q: Path)
    requires At(r, q) == At(a, q)
    ensures Look(r, q) == Look(a, q)
  {
  }

  lemma LookThere(r: Json, q: Path)
    requires At(r, q).Some?
    ensures Look(r, q) == At(r, q).value
  {
  }

  lemma TakenLooks(b: Json, r: Json, order: seq<Path>)
    requires Taken(b, r, order)
    ensures forall p :: p in order ==> Look(r, p) == Look(b, p)
  {
    hide At;
    forall p | p in order ensures Look(r, p) == Look(b, p) {
      var i :| 0 <= i < |order| && order[i] == p;
    }
  }

  lemma ApartFromAll(order: seq<Path>, q: Path)
    requires forall p :: p in order ==> !Comparable(p, q)
    ensures Apart(order, q)
  {
    assert forall i :: 0 <= i < |order| ==> order[i] in order;
  }

  /** Copying every reported path from `b` into `a`, in any order, rebuilds `b`, up to members that are missing or null
      and the spelling of numbers. */
  lemma DiffRebuilds(a: Json, b: Json, round: int -> real, order: seq<Path>)
    requires forall p :: p in order <==> p in Diff(a, b, round)
    ensures PutAll(a, Copies(b, order)).Some? && Equiv(PutAll(a, Copies(b, order)).value, b, round)
  {
    hide Diff, Equiv, Copied, Patched, PutAll;
    assert forall i :: 0 <= i < |order| ==> order[i] in order;
    CopyAll(a, b, round, order);
    var r := PutAll(a, Copies(b, order)).value;
    CopiedIsPatched(a, b, r, round, order);
    PatchedIsEquiv(a, b, r, round);
  }

  lemma {:induction false} EquivIsNoDifference(a: Json, b: Json, round: int -> real, p: Path)
    requires Equiv(a, b, round)
    ensures p !in Diff(a, b, round)
    decreases |p|
  {
    hide Diff, Equiv;
    if a.Obj? && b.Obj? {
      DiffOfObjects(a, b, round, p);
      EquivOfObjects(a, b, round);
      if p != [] && p[0] in Keys(a, b) {
        EquivIsNoDifference(Child(a, p[0]), Child(b, p[0]), round, p[1..]);
      }
    } else {
      EquivLeaf(a, b, round);
    }
  }

  lemma EquivLeaf(a: Json, b: Json, round: int -> real)
    requires Equiv(a, b, round) && !(a.Obj? && b.Obj?)
    ensures Diff(a, b, round) == {}
  {
  }

  /** Nothing is reported exactly when the trees are equivalent. */
  lemma NoDifference(a: Json, b: Json, round: int -> real)
    ensures Diff(a, b, round) == {} <==> Equiv(a, b, round)
  {
    hide Diff, Equiv;
    if Diff(a, b, round) == {} { PatchedIsEquiv(a, b, a, round); }
    if Equiv(a, b, round) {
      forall p ensures p !in Diff(a, b, round) { EquivIsNoDifference(a, b, round, p); }
    }
  }

  // ----- defaults -------------------------------------------------------------------------------------------------

  /** The property `k` after filling: what is there, or its default, with the defaults below it if it is an object. */
  function FillProperty(sub: Json, present: Option<Json>): (r: Option<Json>)
    ensures present.Some? ==> r.Some?
    decreases sub, 2
  {
    var child := if present.Some? then present else Get(sub, "default");
    if child.Some? && child.value.Obj? then Some(Fill(sub, child.value)) else child
  }

  function Properties(node: Json): map<string, Json> {
    if node.Obj? && "properties" in node.fields && node.fields["properties"].Obj? then node.fields["properties"].fields
    else map[]
  }

  /** `fill_defaults`, the properties of `names` having been seen. */
  function FillNames(node: Json, into: Json, names: set<string>): (filled: map<string, Json>)
    requires into.Obj? && names <= Properties(node).Keys
    decreases node, 0
  {
    map k | k in into.fields.Keys + (set n | n in names && FillProperty(Properties(node)[n], Get(into, n)).Some?) ::
      if k in names then FillProperty(Properties(node)[k], Get(into, k)).value else into.fields[k]
  }

  /** `fill_defaults`. */
  function Fill(node: Json, into: Json): Json
    decreases node, 1
  {
    if into.Obj? then Obj(FillNames(node, into, Properties(node).Keys)) else into
  }

  lemma FillAt(node: Json, into: Json, k: string)
    requires into.Obj?
    ensures Get(Fill(node, into), k)
            == if k in Properties(node) then FillProperty(Properties(node)[k], Get(into, k)) else Get(into, k)
  {
    hide FillProperty;
  }

  /** Filling twice is filling once. */
  lemma {:induction false} FillTwice(node: Json, into: Json)
    ensures Fill(node, Fill(node, into)) == Fill(node, into)
    decreases node
  {
    hide Fill, FillProperty;
    FillIsObject(node, into);
    if into.Obj? {
      var once := Fill(node, into);
      var twice := Fill(node, once);
      FillIsObject(node, once);
      forall k ensures Get(twice, k) == Get(once, k) {
        FillAt(node, into, k);
        FillAt(node, once, k);
        if k in Properties(node) { FillPropertyTwice(node, k, Get(into, k)); }
      }
      forall k ensures k in twice.fields <==> k in once.fields {
        assert Get(twice, k) == Get(once, k);
      }
      forall k | k in once.fields ensures twice.fields[k] == once.fields[k] {
        assert Get(twice, k) == Get(once, k);
      }
      assert twice.fields == once.fields;
    }
  }

  lemma {:induction false} FillPropertyTwice(node: Json, k: string, present: Option<Json>)
    requires k in Properties(node)
    ensures var sub := Properties(node)[k];
            FillProperty(sub, FillProperty(sub, present)) == FillProperty(sub, present)
    decreases node, 0
  {
    hide Fill;
    var sub := Properties(node)[k];
    var child := if present.Some? then present else Get(sub, "default");
    if child.Some? && child.value.Obj? {
      FillIsObject(sub, child.value);
      FillTwice(sub, child.value);
    }
  }

  lemma FillIsObject(node: Json, into: Json)
    ensures if into.Obj? then Fill(node, into).Obj? else Fill(node, into) == into
  {
  }

  /** Filling never overwrites: what is there and is no object stays, and objects stay objects. */
  lemma {:induction false} FillKeeps(node: Json, into: Json, path: Path)
    requires At(into, path).Some?
    ensures At(Fill(node, into), path).Some?
    ensures var v, f := At(into, path).value, At(Fill(node, into), path).value;
            if v.Obj? then f.Obj? && v.fields.Keys <= f.fields.Keys else f == v
    decreases |path|
  {
    hide Fill, FillProperty;
    FillIsObject(node, into);
    if path == [] {
      if into.Obj? {
        forall k | k in into.fields ensures k in Fill(node, into).fields {
          FillAt(node, into, k);
          if k in Properties(node) { FillPresent(Properties(node)[k], into.fields[k]); }
        }
      }
    } else {
      var k := path[0];
      FillAt(node, into, k);
      if k in Properties(node) {
        FillPresent(Properties(node)[k], into.fields[k]);
        FillKeeps(Properties(node)[k], into.fields[k], path[1..]);
      } else {
        assert At(Fill(node, into), path) == At(into, path);
      }
    }
  }

  lemma FillPresent(sub: Json, child: Json)
    ensures FillProperty(sub, Some(child)) == Some(Fill(sub, child))
  {
  }

  /** Every property with a default is there afterwards: one that was missing has its default, which is filled in turn
      where it is an object, one that was there is filled if it is an object, and what has neither stays missing. */
  lemma FillCompletes(node: Json, into: Json, k: string)
    requires into.Obj? && k in Properties(node)
    ensures var sub, filled := Properties(node)[k], Get(Fill(node, into), k);
            if k in into.fields then
              filled == Some(if into.fields[k].Obj? then Fill(sub, into.fields[k]) else into.fields[k])
            else if sub.Obj? && "default" in sub.fields then
              filled == Some(if sub.fields["default"].Obj? then Fill(sub, sub.fields["default"])
                             else sub.fields["default"])
            else filled.None?
  {
    FillAt(node, into, k);
  }

  /** The loop of `fill_defaults`, in any order of the properties. */
  method FillDefaults(node: Json, into: Json) returns (filled: Json)
    ensures filled == Fill(node, into)
    decreases node, 0
  {
    hide FillProperty;
    if !into.Obj? {
      return into;
    }
    var properties, done: set<string> := Properties(node), {};
    var fields := into.fields;
    NothingFilled(node, into);
    while properties.Keys - done != {}
      invariant done <= properties.Keys && fields == FillNames(node, into, done)
      decreases properties.Keys - done
    {
      var k :| k in properties.Keys - done;
      ghost var before := fields;
      fields := FillOne(properties[k], fields, k);
      FilledOne(node, into, done, k, before, fields);
      done := done + {k};
    }
    assert done == properties.Keys;
    return Obj(fields);
  }

  /** One property: its default if it is missing, and the defaults below it. */
  method FillOne(sub: Json, before: map<string, Json>, k: string) returns (fields: map<string, Json>)
    ensures Get(Obj(fields), k) == FillProperty(sub, Get(Obj(before), k))
    ensures forall x :: x != k ==> Get(Obj(fields), x) == Get(Obj(before), x)
    decreases sub, 1
  {
    hide Fill;
    fields := before;
    if k !in fields && Get(sub, "default").Some? {
      fields := fields[k := Get(sub, "default").value];
    }
    if k in fields && fields[k].Obj? {
      var child := FillDefaults(sub, fields[k]);
      fields := fields[k := child];
    }
  }

  lemma FillNamesAt(node: Json, into: Json, names: set<string>, k: string)
    requires into.Obj? && names <= Properties(node).Keys
    ensures Get(Obj(FillNames(node, into, names)), k)
            == if k in names then FillProperty(Properties(node)[k], Get(into, k)) else Get(into, k)
  {
    hide FillProperty;
  }

  lemma SameGets(a: map<string, Json>, b: map<string, Json>)
    requires forall k :: Get(Obj(a), k) == Get(Obj(b), k)
    ensures a == b
  {
    forall k ensures k in a <==> k in b { assert Get(Obj(a), k) == Get(Obj(b), k); }
    forall k | k in a ensures a[k] == b[k] { assert Get(Obj(a), k) == Get(Obj(b), k); }
  }

  lemma NothingFilled(node: Json, into: Json)
    requires into.Obj?
    ensures FillNames(node, into, {}) == into.fields
  {
    hide FillProperty, FillNames, Get;
    forall x ensures Get(Obj(FillNames(node, into, {})), x) == Get(Obj(into.fields), x) {
      FillNamesAt(node, into, {}, x);
      assert Obj(into.fields) == into;
    }
    SameGets(FillNames(node, into, {}), into.fields);
  }

  lemma FilledOne(node: Json, into: Json, done: set<string>, k: string, before: map<string, Json>,
                  fields: map<string, Json>)
    requires into.Obj? && done <= Properties(node).Keys && k in Properties(node) && k !in done
    requires before == FillNames(node, into, done)
    requires Get(Obj(fields), k) == FillProperty(Properties(node)[k], Get(Obj(before), k))
    requires forall x :: x != k ==> Get(Obj(fields), x) == Get(Obj(before), x)
    ensures fields == FillNames(node, into, done + {k})
  {
    hide FillProperty, FillNames, Get;
    var after := FillNames(node, into, done + {k});
    forall x ensures Get(Obj(fields), x) == Get(Obj(after), x) {
      FillNamesAt(node, into, done, x);
      FillNamesAt(node, into, done + {k}, x);
    }
    SameGets(fields, after);
  }
}
