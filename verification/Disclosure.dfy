/** What redacted configuration discloses, along every path of the value: said with the members of the schemas that the
    path meets, from the root down, without the flags the projection hands on. */
module Disclosure {
  import opened JsonModel
  import opened Options
  import opened Redaction
  import opened PolicyRedaction
  import UrlMask
  import UrlShape
  import Texts

  /** The schema that the projection uses at the end of the path. */
  function SchemaAt(schema: Json, path: seq<Key>): Json
    decreases |path|
  {
    if path == [] then schema else SchemaAt(Next(schema, path[0]), path[1..])
  }

  // Of the first `k` schemas along the path:

  /** One is marked as an endpoint URL. */
  ghost predicate UrlAmong(schema: Json, path: seq<Key>, k: nat)
    requires k <= |path| + 1
  {
    exists i: nat :: i < k && SetHere(SchemaAt(schema, path[..i]), "x-url-credentials")
  }

  /** One is marked sensitive, or declares secret references with no URL mark up to there. */
  ghost predicate SensitiveAmong(m: Matcher, schema: Json, path: seq<Key>, k: nat)
    requires k <= |path| + 1
  {
    exists i: nat :: i < k && SensitiveBy(m, schema, path, i)
  }

  ghost predicate SensitiveBy(m: Matcher, schema: Json, path: seq<Key>, i: nat)
    requires i <= |path|
  {
    || SetHere(SchemaAt(schema, path[..i]), "x-sensitive")
    || (m.declared(SchemaAt(schema, path[..i])) && !UrlAmong(schema, path, i + 1))
  }

  /** The last that speaks of unknown members makes them public. */
  ghost predicate PublicAmong(schema: Json, path: seq<Key>, k: nat)
    requires k <= |path| + 1
  {
    exists i: nat :: i < k && Says(SchemaAt(schema, path[..i]), "x-unknown-members", Str("public"))
                     && NotTakenBack(schema, path, i, k)
  }

  ghost predicate NotTakenBack(schema: Json, path: seq<Key>, i: nat, k: nat)
    requires k <= |path| + 1
  {
    forall j: nat :: i < j < k ==> !Says(SchemaAt(schema, path[..j]), "x-unknown-members", Str("sensitive"))
  }

  /** The value at the end of the path is a reference that is shown. */
  ghost predicate ShownReference(m: Matcher, v: Json, schema: Json, path: seq<Key>) {
    && ValueAt(v, path).Some?
    && m.matches(ValueAt(v, path).value, SchemaAt(schema, path)) && !UrlAmong(schema, path, |path| + 1)
  }

  /** No value on the way to the end of the path is such a reference. */
  ghost predicate NoneShown(m: Matcher, v: Json, schema: Json, path: seq<Key>, k: nat)
    requires k <= |path|
  {
    forall i: nat :: i < k ==> !ShownReference(m, v, schema, path[..i])
  }

  // ----- the flags along a path -----------------------------------------------------------------------------------

  /** The flags handed on after the first `k` schemas. */
  ghost function Inherited(m: Matcher, schema: Json, path: seq<Key>, k: nat): Flags
    requires k <= |path| + 1
  {
    if k == 0 then NO_FLAGS
    else FlagsAt(m, SchemaAt(schema, path[..k - 1]), Inherited(m, schema, path, k - 1))
  }

  lemma OneMoreSchema(m: Matcher, schema: Json, path: seq<Key>, k: nat)
    requires k <= |path|
    ensures var s := SchemaAt(schema, path[..k]);
            && (UrlAmong(schema, path, k + 1) <==> UrlAmong(schema, path, k) || SetHere(s, "x-url-credentials"))
            && (SensitiveAmong(m, schema, path, k + 1) <==>
                  SensitiveAmong(m, schema, path, k) || SensitiveBy(m, schema, path, k))
  {
    hide SchemaAt, SetHere, SensitiveBy;
  }

  lemma OneMorePublic(schema: Json, path: seq<Key>, k: nat)
    requires k <= |path|
    ensures PublicAmong(schema, path, k + 1) <==>
              PublicMembers(SchemaAt(schema, path[..k]), PublicAmong(schema, path, k))
  {
    hide SchemaAt, Says;
    var s := SchemaAt(schema, path[..k]);
    SaysOne(s, "x-unknown-members", Str("public"), Str("sensitive"));
    if Says(s, "x-unknown-members", Str("public")) {
      assert NotTakenBack(schema, path, k, k + 1);
    } else if PublicAmong(schema, path, k) && !Says(s, "x-unknown-members", Str("sensitive")) {
      var i: nat :| i < k && Says(SchemaAt(schema, path[..i]), "x-unknown-members", Str("public"))
                    && NotTakenBack(schema, path, i, k);
      assert NotTakenBack(schema, path, i, k + 1);
    }
    if PublicAmong(schema, path, k + 1) && !Says(s, "x-unknown-members", Str("public")) {
      var i: nat :| i < k + 1 && Says(SchemaAt(schema, path[..i]), "x-unknown-members", Str("public"))
                    && NotTakenBack(schema, path, i, k + 1);
      assert NotTakenBack(schema, path, i, k);
    }
  }

  /** What is handed on, by the schemas that were met. */
  lemma {:induction false} InheritedMeans(m: Matcher, schema: Json, path: seq<Key>, k: nat)
    requires k <= |path| + 1
    ensures var flags := Inherited(m, schema, path, k);
            && flags.sensitive == SensitiveAmong(m, schema, path, k)
            && flags.urlCredentials == UrlAmong(schema, path, k)
            && flags.unknownPublic == PublicAmong(schema, path, k)
  {
    hide FlagsAt, SchemaAt, SetHere, PublicMembers, UnknownHere, SensitiveAmong, UrlAmong, PublicAmong, Says;
    if k == 0 {
      NoneMet(m, schema, path);
    } else {
      InheritedMeans(m, schema, path, k - 1);
      FlagsMean(m, SchemaAt(schema, path[..k - 1]), Inherited(m, schema, path, k - 1));
      OneMoreSchema(m, schema, path, k - 1);
      OneMorePublic(schema, path, k - 1);
    }
  }

  lemma NoneMet(m: Matcher, schema: Json, path: seq<Key>)
    ensures !SensitiveAmong(m, schema, path, 0) && !UrlAmong(schema, path, 0) && !PublicAmong(schema, path, 0)
  {
  }

  // ----- the projection along a path ------------------------------------------------------------------------------

  lemma {:induction false} ValueSnoc(v: Json, path: seq<Key>, key: Key)
    ensures ValueAt(v, path + [key]) ==
            match ValueAt(v, path) { case None => None case Some(x) => ChildOf(x, key) }
    decreases |path|
  {
    if path == [] {
      assert (path + [key])[1..] == [];
    } else {
      assert (path + [key])[1..] == path[1..] + [key];
      match ChildOf(v, path[0]) {
        case None =>
        case Some(child) => ValueSnoc(child, path[1..], key);
      }
    }
  }

  lemma {:induction false} SchemaSnoc(schema: Json, path: seq<Key>, key: Key)
    ensures SchemaAt(schema, path + [key]) == Next(SchemaAt(schema, path), key)
    decreases |path|
  {
    if path == [] {
      assert (path + [key])[1..] == [];
    } else {
      assert (path + [key])[1..] == path[1..] + [key];
      SchemaSnoc(Next(schema, path[0]), path[1..], key);
    }
  }

  lemma PrefixSnoc(path: seq<Key>, k: nat)
    requires k < |path|
    ensures path[..k + 1] == path[..k] + [path[k]]
  {
  }

  lemma ChildProjected(m: Matcher, x: Json, schema: Json, inherited: Flags, key: Key)
    requires ChildOf(x, key).Some? && !ReferenceHere(m, x, schema, inherited)
    ensures ChildOf(Project(Display, m, x, schema, inherited), key) ==
            Some(Project(Display, m, ChildOf(x, key).value, Next(schema, key), FlagsAt(m, schema, inherited)))
  {
    hide Project, FlagsAt, KeptReference, ReferenceHere;
    SecretMeans(m, x, schema, inherited);
    ProjectedChild(m, x, schema, inherited, key);
  }

  lemma SamePrefix(m: Matcher, schema: Json, path: seq<Key>, k: nat)
    requires k <= |path|
    ensures UrlAmong(schema, path[..k], |path[..k]| + 1) <==> UrlAmong(schema, path, k + 1)
  {
    hide SchemaAt, SetHere;
    assert forall i: nat :: i <= k ==> path[..k][..i] == path[..i];
  }

  /** Below a shown reference nothing is looked at; above it, the projection of the whole is taken apart as the value
      is. */
  lemma {:induction false} ProjectedAt(m: Matcher, v: Json, schema: Json, path: seq<Key>, k: nat)
    requires k <= |path| && ValueAt(v, path[..k]).Some? && NoneShown(m, v, schema, path, k)
    ensures ValueAt(Project(Display, m, v, schema, NO_FLAGS), path[..k]) ==
            Some(Project(Display, m, ValueAt(v, path[..k]).value, SchemaAt(schema, path[..k]),
                         Inherited(m, schema, path, k)))
  {
    hide Project, FlagsAt, SchemaAt, ValueAt, SetHere, Next, UrlAmong;
    if k == 0 {
      Nowhere(v, schema, path);
      Nowhere(Project(Display, m, v, schema, NO_FLAGS), schema, path);
    } else {
      PrefixSnoc(path, k - 1);
      ValueSnoc(v, path[..k - 1], path[k - 1]);
      SchemaSnoc(schema, path[..k - 1], path[k - 1]);
      ValueSnoc(Project(Display, m, v, schema, NO_FLAGS), path[..k - 1], path[k - 1]);
      ProjectedAt(m, v, schema, path, k - 1);
      NotShownHere(m, v, schema, path, k - 1);
      ChildProjected(m, ValueAt(v, path[..k - 1]).value, SchemaAt(schema, path[..k - 1]),
                     Inherited(m, schema, path, k - 1), path[k - 1]);
    }
  }

  lemma Nowhere(v: Json, schema: Json, path: seq<Key>)
    ensures ValueAt(v, path[..0]) == Some(v) && SchemaAt(schema, path[..0]) == schema
  {
  }

  lemma NotShownHere(m: Matcher, v: Json, schema: Json, path: seq<Key>, k: nat)
    requires k <= |path| && ValueAt(v, path[..k]).Some?
    ensures ShownReference(m, v, schema, path[..k]) <==>
              ReferenceHere(m, ValueAt(v, path[..k]).value, SchemaAt(schema, path[..k]), Inherited(m, schema, path, k))
  {
    hide FlagsAt, SchemaAt, ValueAt, SetHere, UrlAmong, Inherited;
    InheritedMeans(m, schema, path, k);
    OneMoreSchema(m, schema, path, k);
    SamePrefix(m, schema, path, k);
  }

  /** The position is sensitive, by what was met on the way to it and at it. */
  ghost predicate IsSensitive(m: Matcher, schema: Json, path: seq<Key>) {
    SensitiveAmong(m, schema, path, |path| + 1)
  }

  /** The position is marked as a URL, itself or above. */
  ghost predicate IsUrl(schema: Json, path: seq<Key>) {
    UrlAmong(schema, path, |path| + 1)
  }

  /** A text at the position is secret: the position is sensitive, nothing is known about it and unknown members are not
      public, or its type excludes texts. */
  ghost predicate IsSecret(m: Matcher, schema: Json, path: seq<Key>) {
    || IsSensitive(m, schema, path)
    || UnknownHere(SchemaAt(schema, path), PublicAmong(schema, path, |path|))
    || ExcludesText(SchemaAt(schema, path))
  }

  lemma PositionMeans(m: Matcher, v: Json, schema: Json, path: seq<Key>)
    requires ValueAt(v, path).Some?
    ensures var (s, inherited) := (SchemaAt(schema, path), Inherited(m, schema, path, |path|));
            && (SecretHere(m, s, inherited) <==> IsSecret(m, schema, path))
            && (SensitiveHere(m, s, inherited) <==> IsSensitive(m, schema, path))
            && (UrlHere(s, inherited) <==> IsUrl(schema, path))
            && (ReferenceHere(m, ValueAt(v, path).value, s, inherited) <==> ShownReference(m, v, schema, path))
  {
    hide FlagsAt, SchemaAt, ValueAt, SetHere, UrlAmong, Inherited, SensitiveAmong, UnknownHere, ExcludesText,
      PublicAmong;
    assert path[..|path|] == path;
    InheritedMeans(m, schema, path, |path|);
    OneMoreSchema(m, schema, path, |path|);
  }

  /** What the display shows of a text anywhere in the configuration, exactly. */
  lemma TextDisclosed(m: Matcher, v: Json, schema: Json, path: seq<Key>, text: string)
    requires ValueAt(v, path) == Some(Str(text)) && NoneShown(m, v, schema, path, |path|)
    ensures ValueAt(Project(Display, m, v, schema, NO_FLAGS), path) == Some(Str(
              if text == "" || ShownReference(m, v, schema, path) then text
              else if IsSecret(m, schema, path) then MASK
              else if IsUrl(schema, path) then UrlMask.Mask(text, MASK)
              else text))
  {
    hide Project, SchemaAt, ValueAt, ShownReference, IsSecret, IsUrl, IsSensitive, SecretHere, ReferenceHere, UrlHere,
      SensitiveHere, UrlMask.Mask, Inherited;
    assert path[..|path|] == path;
    ProjectedAt(m, v, schema, path, |path|);
    PositionMeans(m, v, schema, path);
    TextIsShown(m, text, SchemaAt(schema, path), Inherited(m, schema, path, |path|));
  }

  /** The same of numbers, booleans and null. */
  lemma NumberDisclosed(m: Matcher, v: Json, schema: Json, path: seq<Key>, x: Json)
    requires ValueAt(v, path) == Some(x) && NoneShown(m, v, schema, path, |path|)
    requires !x.Str? && !x.Arr? && !x.Obj?
    ensures ValueAt(Project(Display, m, v, schema, NO_FLAGS), path) == Some(
              if ShownReference(m, v, schema, path) || !IsSensitive(m, schema, path) then x
              else match x { case Null => Null case Bool(_) => Bool(false) case _ => Int(0) })
  {
    hide Project, SchemaAt, ValueAt, ShownReference, IsSecret, IsUrl, IsSensitive, SecretHere, ReferenceHere, UrlHere,
      SensitiveHere, Inherited;
    assert path[..|path|] == path;
    ProjectedAt(m, v, schema, path, |path|);
    PositionMeans(m, v, schema, path);
    NumberIsShown(m, x, SchemaAt(schema, path), Inherited(m, schema, path, |path|));
  }

  /** A reference that is shown is shown whole. */
  lemma ReferenceDisclosed(m: Matcher, v: Json, schema: Json, path: seq<Key>)
    requires NoneShown(m, v, schema, path, |path|) && ShownReference(m, v, schema, path)
    ensures ValueAt(Project(Display, m, v, schema, NO_FLAGS), path) == ValueAt(v, path)
  {
    hide Project, SchemaAt, ValueAt, IsSecret, IsUrl, IsSensitive, SecretHere, ReferenceHere, UrlHere, SensitiveHere,
      Inherited, UrlAmong;
    assert path[..|path|] == path;
    ProjectedAt(m, v, schema, path, |path|);
    PositionMeans(m, v, schema, path);
    var (x, s, inherited) := (ValueAt(v, path).value, SchemaAt(schema, path), Inherited(m, schema, path, |path|));
    ShownWhole(m, x, s, inherited);
  }

  lemma ShownWhole(m: Matcher, x: Json, schema: Json, inherited: Flags)
    requires ReferenceHere(m, x, schema, inherited)
    ensures Project(Display, m, x, schema, inherited) == x
  {
    hide FlagsAt, ReferenceHere, KeptReference;
    SecretMeans(m, x, schema, inherited);
  }

  // ----- the keys the archive reports -----------------------------------------------------------------------------

  function NameOf(key: Key): string {
    match key
    case Name(name) => name
    case Index(index) => Texts.Digits(index)
  }

  /** The value at the end of the path is replaced and reported, everything on the way being taken apart. */
  ghost predicate ReplacedAt(output: Output, m: Matcher, v: Json, schema: Json, inherited: Flags, path: seq<Key>)
    decreases |path|
  {
    var verdict := Judge(output, m, v, schema, inherited);
    if path == [] then verdict.Replaced? && verdict.noted
    else
      && verdict.Descend? && ChildOf(v, path[0]).Some?
      && ReplacedAt(output, m, ChildOf(v, path[0]).value, Next(schema, path[0]), FlagsAt(m, schema, inherited),
                    path[1..])
  }

  /** The key of a path: its names and indices with dots between them; while the key is empty there is no dot. */
  function Dotted(key: string, path: seq<Key>): string
    decreases |path|
  {
    if path == [] then key
    else Dotted(if key == "" then NameOf(path[0]) else key + "." + NameOf(path[0]), path[1..])
  }

  ghost predicate Reported(output: Output, m: Matcher, v: Json, schema: Json, inherited: Flags, key: string,
                           k: string) {
    exists path :: ReplacedAt(output, m, v, schema, inherited, path) && k == Dotted(key, path)
  }

  lemma OneHop(output: Output, m: Matcher, v: Json, schema: Json, inherited: Flags, hop: Key, path: seq<Key>,
               key: string)
    ensures ReplacedAt(output, m, v, schema, inherited, [hop] + path) <==>
              && Judge(output, m, v, schema, inherited).Descend? && ChildOf(v, hop).Some?
              && ReplacedAt(output, m, ChildOf(v, hop).value, Next(schema, hop), FlagsAt(m, schema, inherited), path)
    ensures Dotted(key, [hop] + path) == Dotted(ChildKey(key, NameOf(hop)), path)
  {
    hide Judge, FlagsAt, Next;
    assert ([hop] + path)[1..] == path;
  }

  lemma ReportedHere(output: Output, m: Matcher, v: Json, schema: Json, inherited: Flags, key: string, k: string)
    requires !Judge(output, m, v, schema, inherited).Descend?
    ensures Reported(output, m, v, schema, inherited, key, k) <==>
              var verdict := Judge(output, m, v, schema, inherited); verdict.Replaced? && verdict.noted && k == key
  {
    hide Judge, FlagsAt, Next;
    assert ReplacedAt(output, m, v, schema, inherited, []) <==>
             var verdict := Judge(output, m, v, schema, inherited); verdict.Replaced? && verdict.noted;
    assert Dotted(key, []) == key;
  }

  lemma ReportedBelow(output: Output, m: Matcher, v: Json, schema: Json, inherited: Flags, key: string, k: string)
    requires Judge(output, m, v, schema, inherited).Descend?
    ensures Reported(output, m, v, schema, inherited, key, k) <==>
              exists hop :: ChildOf(v, hop).Some?
                && Reported(output, m, ChildOf(v, hop).value, Next(schema, hop), FlagsAt(m, schema, inherited),
                            ChildKey(key, NameOf(hop)), k)
  {
    hide Judge, FlagsAt, Next, ReplacedAt, Dotted, ChildKey;
    if Reported(output, m, v, schema, inherited, key, k) {
      var path :| ReplacedAt(output, m, v, schema, inherited, path) && k == Dotted(key, path);
      NotNothing(output, m, v, schema, inherited, path);
      assert path == [path[0]] + path[1..];
      OneHop(output, m, v, schema, inherited, path[0], path[1..], key);
    }
    if hop :| ChildOf(v, hop).Some?
              && Reported(output, m, ChildOf(v, hop).value, Next(schema, hop), FlagsAt(m, schema, inherited),
                          ChildKey(key, NameOf(hop)), k)
    {
      var path :| ReplacedAt(output, m, ChildOf(v, hop).value, Next(schema, hop), FlagsAt(m, schema, inherited), path)
                  && k == Dotted(ChildKey(key, NameOf(hop)), path);
      OneHop(output, m, v, schema, inherited, hop, path, key);
    }
  }

  lemma NotNothing(output: Output, m: Matcher, v: Json, schema: Json, inherited: Flags, path: seq<Key>)
    requires Judge(output, m, v, schema, inherited).Descend? && ReplacedAt(output, m, v, schema, inherited, path)
    ensures path != []
  {
    hide Judge, FlagsAt, Next;
  }

  /** The keys that are reported are exactly those of the values that are replaced, wherever they are. */
  lemma {:induction false} KeysMean(output: Output, m: Matcher, v: Json, schema: Json, inherited: Flags, key: string,
                                    k: string)
    ensures k in Noted(output, m, v, schema, inherited, key) <==> Reported(output, m, v, schema, inherited, key, k)
    decreases v
  {
    hide Judge, FlagsAt, ItemSchema, Property, Reported, ChildKey, Noted;
    if !Judge(output, m, v, schema, inherited).Descend? {
      ReportedHere(output, m, v, schema, inherited, key, k);
      NotedHere(output, m, v, schema, inherited, key);
    } else {
      ReportedBelow(output, m, v, schema, inherited, key, k);
      NotedBelow(output, m, v, schema, inherited, key, k);
      forall hop: Key | ChildOf(v, hop).Some?
        ensures k in Noted(output, m, ChildOf(v, hop).value, Next(schema, hop), FlagsAt(m, schema, inherited),
                           ChildKey(key, NameOf(hop)))
                <==> Reported(output, m, ChildOf(v, hop).value, Next(schema, hop), FlagsAt(m, schema, inherited),
                              ChildKey(key, NameOf(hop)), k)
      {
        KeysMean(output, m, ChildOf(v, hop).value, Next(schema, hop), FlagsAt(m, schema, inherited),
                 ChildKey(key, NameOf(hop)), k);
      }
    }
  }

  lemma NotedHere(output: Output, m: Matcher, v: Json, schema: Json, inherited: Flags, key: string)
    requires !Judge(output, m, v, schema, inherited).Descend?
    ensures var verdict := Judge(output, m, v, schema, inherited);
            Noted(output, m, v, schema, inherited, key) == if verdict.Replaced? && verdict.noted then {key} else {}
  {
    hide Judge, FlagsAt;
  }

  lemma NotedBelow(output: Output, m: Matcher, v: Json, schema: Json, inherited: Flags, key: string, k: string)
    requires Judge(output, m, v, schema, inherited).Descend?
    ensures k in Noted(output, m, v, schema, inherited, key) <==>
              exists hop :: ChildOf(v, hop).Some?
                && k in Noted(output, m, ChildOf(v, hop).value, Next(schema, hop), FlagsAt(m, schema, inherited),
                              ChildKey(key, NameOf(hop)))
  {
    hide Judge, FlagsAt, ItemSchema, Property, ChildKey, Texts.Digits;
    var flags := FlagsAt(m, schema, inherited);
    assert v.Arr? || v.Obj? by { DescendIsCollection(output, m, v, schema, inherited); }
    if v.Arr? {
      NotedAmong(output, m, v, ItemSchema(schema), flags, key, |v.items|, k);
      if k in Noted(output, m, v, schema, inherited, key) {
        var i: nat :| i < |v.items| && k in Noted(output, m, v.items[i], ItemSchema(schema), flags,
                                                  ChildKey(key, Texts.Digits(i)));
        assert ChildOf(v, Index(i)) == Some(v.items[i]) && Next(schema, Index(i)) == ItemSchema(schema);
      }
    } else {
      NotedMembers(output, m, v, schema, flags, key, k);
      if k in Noted(output, m, v, schema, inherited, key) {
        var n :| n in v.fields && k in Noted(output, m, v.fields[n], Property(schema, n), flags, ChildKey(key, n));
        assert ChildOf(v, Name(n)) == Some(v.fields[n]) && Next(schema, Name(n)) == Property(schema, n);
      }
    }
  }

  lemma NotedMembers(output: Output, m: Matcher, v: Json, schema: Json, flags: Flags, key: string, k: string)
    requires v.Obj?
    ensures k in NotedFields(output, m, v, schema, flags, key, v.fields.Keys) <==>
              exists n :: n in v.fields
                && k in Noted(output, m, v.fields[n], Property(schema, n), flags, ChildKey(key, n))
  {
    hide Noted, ChildKey, Property;
  }

  lemma DescendIsCollection(output: Output, m: Matcher, v: Json, schema: Json, inherited: Flags)
    requires Judge(output, m, v, schema, inherited).Descend?
    ensures v.Arr? || v.Obj?
  {
  }

  lemma {:induction false} NotedAmong(output: Output, m: Matcher, v: Json, item: Json, flags: Flags, key: string,
                                      n: nat, k: string)
    requires v.Arr? && n <= |v.items|
    ensures k in NotedItems(output, m, v, item, flags, key, n) <==>
              exists i: nat :: i < n && k in Noted(output, m, v.items[i], item, flags, ChildKey(key, Texts.Digits(i)))
  {
    hide Noted, ChildKey, Texts.Digits;
    if n > 0 { NotedAmong(output, m, v, item, flags, key, n - 1, k); }
  }

  // ----- credentials in a URL -------------------------------------------------------------------------------------

  /** The archive reports a URL that has userinfo, a fragment that is not empty, or a query with an `=`. */
  lemma CredentialsMean(text: string)
    ensures var n := UrlMask.Normalized(text);
            UrlCredentialsPresent(text) <==>
              || (exists p :: UrlShape.Splits(n, p))
              || (exists i :: 0 <= i < |n| - 1 && n[i] == '#')
              || (exists i, j :: 0 <= i < j < |n| && n[i] == '?' && n[j] == '=' && '#' !in n[..j])
  {
    hide UrlMask.Normalized, UrlMask.UserinfoRange, UrlShape.Splits, UrlMask.Find;
    var n := UrlMask.Normalized(text);
    if UrlMask.UserinfoRange(n).Some? { var p := UrlShape.RangeSplits(n); }
    forall p | UrlShape.Splits(n, p) ensures UrlMask.UserinfoRange(n).Some? { UrlShape.SplitsRange(n, p); }
    QueryPresent(n);
  }

  lemma Before(n: string, j: nat, k: nat)
    requires j <= |n| && '#' !in n[..j]
    ensures k < j ==> n[k] != '#'
  {
    if k < j { assert n[..j][k] == n[k]; }
  }

  lemma QueryPresent(n: string)
    ensures var body := n[..UrlMask.Find(n, "#")];
            var question := UrlMask.Find(body, "?");
            question < |body| && '=' in body[question + 1..] <==>
              exists i, j :: 0 <= i < j < |n| && n[i] == '?' && n[j] == '=' && '#' !in n[..j]
  {
    hide UrlMask.Find;
    var hash := UrlMask.Find(n, "#");
    var body := n[..hash];
    var question := UrlMask.Find(body, "?");
    if question < |body| && '=' in body[question + 1..] {
      var k :| 0 <= k < |body[question + 1..]| && body[question + 1..][k] == '=';
      var j := question + 1 + k;
      assert n[j] == '=' && forall l :: 0 <= l < j ==> n[l] != '#';
    }
    if i, j :| 0 <= i < j < |n| && n[i] == '?' && n[j] == '=' && '#' !in n[..j] {
      Before(n, j, hash);
      assert j < hash && question <= i;
      assert body[question + 1..][j - question - 1] == '=';
    }
  }
}
