/** The schema-directed projection behind redacted configuration: flags are inherited down the value, secrets become a
    mask, endpoint URLs lose their credentials, and whole secret references stay. The reference matcher is a
    parameter. */
module Redaction {
  import opened JsonModel
  import opened Texts
  import UrlMask
  import opened Options

  const MASK: string := "\U{2022}\U{2022}\U{2022}\U{2022}"

  /** `matches(value, schema)`: the value is a complete reference that the schema allows; `declared(schema)`: the
      schema speaks of secret references. */
  datatype Matcher = Matcher(matches: (Json, Json) -> bool, declared: Json -> bool)

  datatype Output = Display | Archive(placeholder: string)

  datatype Flags = Flags(
    sensitive: bool, urlCredentials: bool, unknownPublic: bool, unclassified: bool, textParts: bool)

  const NO_FLAGS := Flags(false, false, false, false, false)

  // ----- schemas --------------------------------------------------------------------------------------------------

  function Through(j: Option<Json>, key: string): Option<Json> {
    if j.Some? then Get(j.value, key) else None
  }

  /** A schema member, the `x-value-schema` before the outer one; a mark set in either holds. */
  function Field(schema: Json, name: string): (r: Option<Json>)
  {
    var outer, inner := Get(schema, name), Through(Get(schema, "x-value-schema"), name);
    if name in ["x-sensitive", "x-url-credentials"] && (outer == Some(Bool(true)) || inner == Some(Bool(true))) then
      Some(Bool(true))
    else if && name == "x-secret-reference" && inner == Some(Bool(false))
            && outer.Some? && outer != Some(Bool(false)) then outer
    else if inner.Some? then inner
    else outer
  }

  function ObjectSchema(j: Option<Json>): Json {
    if j.Some? && j.value.Obj? then j.value else Null
  }

  predicate HasMembers(j: Option<Json>) {
    j.Some? && j.value.Obj? && j.value.fields != map[]
  }

  predicate HomogeneousMap(schema: Json) {
    && Field(schema, "type") == Some(Str("object"))
    && !HasMembers(Get(schema, "properties"))
    && !HasMembers(Through(Get(schema, "x-value-schema"), "properties"))
  }

  function ItemSchema(schema: Json): Json {
    ObjectSchema(
      if Field(schema, "items").Some? then Field(schema, "items")
      else if HomogeneousMap(schema) then Field(schema, "additionalProperties")
      else None)
  }

  function Property(schema: Json, name: string): Json {
    var inner := Through(Through(Get(schema, "x-value-schema"), "properties"), name);
    var outer := Through(Get(schema, "properties"), name);
    if inner.Some? then inner.value
    else if outer.Some? then outer.value
    else if Field(schema, "type") == Some(Str("array")) && IsIndex(name) then ItemSchema(schema)
    else ObjectSchema(Field(schema, "additionalProperties"))
  }

  predicate Marked(schema: Json, name: string) {
    Field(schema, name) == Some(Bool(true))
  }

  predicate Modeled(schema: Json) {
    || Field(schema, "type").Some? || Field(schema, "enum").Some? || Field(schema, "const").Some?
    || Field(schema, "x-sensitive").Some? || Field(schema, "x-url-credentials").Some?
    || Field(schema, "x-secret-reference").Some?
  }

  function Annotated(schema: Json, inherited: Flags): Flags {
    var members := Field(schema, "x-unknown-members");
    var unknownPublic :=
      if members == Some(Str("public")) then true
      else if members == Some(Str("sensitive")) then false
      else inherited.unknownPublic;
    Flags(inherited.sensitive || Marked(schema, "x-sensitive"),
          inherited.urlCredentials || Marked(schema, "x-url-credentials"),
          unknownPublic,
          !Modeled(schema) && !unknownPublic,
          inherited.textParts || Field(schema, "x-text-credentials") == Some(Str("parts")))
  }

  function ValueFlags(schema: Json, inherited: Flags): Flags {
    var flags := Annotated(schema, inherited);
    if Field(schema, "type") == Some(Str("array")) || HomogeneousMap(schema) then
      var item := Annotated(ItemSchema(schema), flags);
      flags.(sensitive := flags.sensitive || item.sensitive,
             urlCredentials := flags.urlCredentials || item.urlCredentials,
             unclassified := flags.unclassified || item.unclassified)
    else flags
  }

  predicate WrongStringShape(schema: Json) {
    match Field(schema, "type")
    case Some(Str(kind)) => kind != "string"
    case Some(Arr(kinds)) => Str("string") !in kinds
    case _ => false
  }

  // ----- the projection -------------------------------------------------------------------------------------------

  datatype Verdict = Kept | Replaced(result: Json, noted: bool) | Descend

  /** `url_credentials_present`. */
  predicate UrlCredentialsPresent(text: string) {
    var n := UrlMask.Normalized(text);
    var hash := UrlMask.Find(n, "#");
    var body := n[..hash];
    var question := UrlMask.Find(body, "?");
    || UrlMask.UserinfoRange(n).Some?
    || hash + 1 < |n|
    || (question < |body| && '=' in body[question + 1..])
  }

  function MaskOf(output: Output): string {
    if output.Display? then MASK else output.placeholder
  }

  function UrlMaskOf(output: Output): string {
    if output.Display? then MASK else "REDACTED"
  }

  /** The flags of a position: those of the schema, and sensitive where secret references are declared. */
  function FlagsAt(m: Matcher, schema: Json, inherited: Flags): Flags {
    var flags := ValueFlags(schema, inherited);
    if !flags.urlCredentials && m.declared(schema) then flags.(sensitive := true) else flags
  }

  predicate KeptReference(m: Matcher, value: Json, schema: Json, inherited: Flags) {
    !ValueFlags(schema, inherited).urlCredentials && m.matches(value, schema)
  }

  predicate SecretString(schema: Json, flags: Flags) {
    flags.sensitive || flags.unclassified || WrongStringShape(schema)
  }

  /** The archive hides a sensitive value whole, unless it is a collection that is taken apart. */
  predicate ArchiveHides(value: Json, schema: Json, flags: Flags) {
    var collection := flags.textParts || Field(schema, "type") in [Some(Str("array")), Some(Str("object"))];
    && flags.sensitive
    && !(collection && (value.Obj? || value.Arr?))
    && value != Null && value != Str("")
  }

  /** What happens to the value at a position. */
  function Judge(output: Output, m: Matcher, value: Json, schema: Json, inherited: Flags): (v: Verdict)
    ensures v.Descend? ==> value.Arr? || value.Obj?
  {
    var flags := FlagsAt(m, schema, inherited);
    if KeptReference(m, value, schema, inherited) then Kept
    else if output.Archive? && ArchiveHides(value, schema, flags) then Replaced(Str(output.placeholder), true)
    else
      match value
      case Str(text) =>
        if SecretString(schema, flags) && text != [] then Replaced(Str(MaskOf(output)), true)
        else if flags.urlCredentials then
          var masked := UrlMask.Mask(text, UrlMaskOf(output));
          Replaced(Str(masked), masked != text || (output.Archive? && UrlCredentialsPresent(text)))
        else Kept
      case Int(_) => if flags.sensitive then Replaced(Int(0), false) else Kept
      case Float(_) => if flags.sensitive then Replaced(Int(0), false) else Kept
      case Bool(_) => if flags.sensitive then Replaced(Bool(false), false) else Kept
      case Arr(_) => Descend
      case Obj(_) => Descend
      case Null => Kept
  }

  function Project(output: Output, m: Matcher, value: Json, schema: Json, inherited: Flags): Json
    decreases value, 1
  {
    match Judge(output, m, value, schema, inherited)
    case Kept => value
    case Replaced(result, _) => result
    case Descend =>
      var flags := FlagsAt(m, schema, inherited);
      match value
      case Arr(items) =>
        Arr(seq(|items|, i requires 0 <= i < |items| => Project(output, m, items[i], ItemSchema(schema), flags)))
      case Obj(fields) => Obj(ProjectFields(output, m, value, schema, flags, fields.Keys))
      case _ => value
  }

  function ProjectFields(output: Output, m: Matcher, value: Json, schema: Json, flags: Flags, names: set<string>)
    : (fields: map<string, Json>)
    requires value.Obj? && names <= value.fields.Keys
    ensures fields.Keys == names
    decreases value, 0
  {
    map k | k in names :: Project(output, m, value.fields[k], Property(schema, k), flags)
  }

  // ----- what the members of a schema say -------------------------------------------------------------------------

  predicate OuterHas(schema: Json, name: string) {
    schema.Obj? && name in schema.fields
  }

  predicate InnerHas(schema: Json, name: string) {
    && OuterHas(schema, "x-value-schema") && schema.fields["x-value-schema"].Obj?
    && name in schema.fields["x-value-schema"].fields
  }

  /** The schema or its `x-value-schema` has the member. */
  predicate Has(schema: Json, name: string) {
    OuterHas(schema, name) || InnerHas(schema, name)
  }

  /** The member has this value; that of the `x-value-schema` counts before that of the schema. */
  predicate Says(schema: Json, name: string, x: Json) {
    if InnerHas(schema, name) then schema.fields["x-value-schema"].fields[name] == x
    else OuterHas(schema, name) && schema.fields[name] == x
  }

  /** The mark is set, in the schema or in its `x-value-schema`. */
  predicate IsMarked(schema: Json, mark: string) {
    || (OuterHas(schema, mark) && schema.fields[mark] == Bool(true))
    || (InnerHas(schema, mark) && schema.fields["x-value-schema"].fields[mark] == Bool(true))
  }

  predicate NamesProperties(schema: Json) {
    || (OuterHas(schema, "properties") && schema.fields["properties"].Obj?
        && schema.fields["properties"].fields != map[])
    || (InnerHas(schema, "properties") && schema.fields["x-value-schema"].fields["properties"].Obj?
        && schema.fields["x-value-schema"].fields["properties"].fields != map[])
  }

  /** An array, or an object without named properties: its items have one schema. */
  predicate ListLike(schema: Json) {
    Says(schema, "type", Str("array")) || (Says(schema, "type", Str("object")) && !NamesProperties(schema))
  }

  /** The mark is set on the position or on its items. */
  predicate SetHere(schema: Json, mark: string) {
    IsMarked(schema, mark) || (ListLike(schema) && IsMarked(ItemSchema(schema), mark))
  }

  predicate Unmodelled(schema: Json) {
    && !Has(schema, "type") && !Has(schema, "enum") && !Has(schema, "const")
    && !Has(schema, "x-sensitive") && !Has(schema, "x-url-credentials") && !Has(schema, "x-secret-reference")
  }

  /** Unknown members are public: the schema says so, or those above do and it does not say otherwise. */
  predicate PublicMembers(schema: Json, above: bool) {
    || Says(schema, "x-unknown-members", Str("public"))
    || (above && !Says(schema, "x-unknown-members", Str("sensitive")))
  }

  /** Nothing is known about the position or about its items, and what is unknown is not public. */
  predicate UnknownHere(schema: Json, above: bool) {
    || (Unmodelled(schema) && !PublicMembers(schema, above))
    || (ListLike(schema) && Unmodelled(ItemSchema(schema))
        && !PublicMembers(ItemSchema(schema), PublicMembers(schema, above)))
  }

  /** The declared type is not that of a text. */
  ghost predicate ExcludesText(schema: Json) {
    exists x :: Says(schema, "type", x) && ((x.Str? && x.s != "string") || (x.Arr? && Str("string") !in x.items))
  }

  /** The position shows URLs without their credentials. */
  predicate UrlHere(schema: Json, inherited: Flags) {
    inherited.urlCredentials || SetHere(schema, "x-url-credentials")
  }

  /** The position is sensitive: marked here or above, or it declares secret references and is no URL. */
  predicate SensitiveHere(m: Matcher, schema: Json, inherited: Flags) {
    || inherited.sensitive || SetHere(schema, "x-sensitive")
    || (m.declared(schema) && !UrlHere(schema, inherited))
  }

  /** A text here is secret. */
  ghost predicate SecretHere(m: Matcher, schema: Json, inherited: Flags) {
    SensitiveHere(m, schema, inherited) || UnknownHere(schema, inherited.unknownPublic) || ExcludesText(schema)
  }

  /** The value is a reference that is shown. */
  predicate ReferenceHere(m: Matcher, value: Json, schema: Json, inherited: Flags) {
    m.matches(value, schema) && !UrlHere(schema, inherited)
  }

  /** The archive takes the value apart instead of replacing it. */
  predicate TakenApart(value: Json, schema: Json, inherited: Flags) {
    && (value.Obj? || value.Arr?)
    && (|| inherited.textParts || Says(schema, "x-text-credentials", Str("parts"))
        || Says(schema, "type", Str("array")) || Says(schema, "type", Str("object")))
  }

  lemma FieldMeans(schema: Json, name: string)
    ensures Field(schema, name).Some? <==> Has(schema, name)
    ensures name !in ["x-sensitive", "x-url-credentials", "x-secret-reference"] ==>
              forall x :: Field(schema, name) == Some(x) <==> Says(schema, name, x)
    ensures name in ["x-sensitive", "x-url-credentials"] ==> (Marked(schema, name) <==> IsMarked(schema, name))
  {
  }

  lemma ListMeans(schema: Json)
    ensures ListLike(schema) <==> Field(schema, "type") == Some(Str("array")) || HomogeneousMap(schema)
  {
    FieldMeans(schema, "type");
  }

  lemma AnnotatedMeans(schema: Json, inherited: Flags)
    ensures Annotated(schema, inherited) ==
            Flags(inherited.sensitive || IsMarked(schema, "x-sensitive"),
                  inherited.urlCredentials || IsMarked(schema, "x-url-credentials"),
                  PublicMembers(schema, inherited.unknownPublic),
                  Unmodelled(schema) && !PublicMembers(schema, inherited.unknownPublic),
                  inherited.textParts || Says(schema, "x-text-credentials", Str("parts")))
  {
    hide Field, Has, Says, IsMarked, Marked;
    FieldMeans(schema, "x-sensitive");
    FieldMeans(schema, "x-url-credentials");
    FieldMeans(schema, "x-secret-reference");
    FieldMeans(schema, "x-unknown-members");
    FieldMeans(schema, "x-text-credentials");
    FieldMeans(schema, "type");
    FieldMeans(schema, "enum");
    FieldMeans(schema, "const");
    SaysOne(schema, "x-unknown-members", Str("public"), Str("sensitive"));
  }

  lemma SaysOne(schema: Json, name: string, x: Json, y: Json)
    ensures x != y ==> !(Says(schema, name, x) && Says(schema, name, y))
  {
  }

  lemma ValueFlagsMean(schema: Json, inherited: Flags)
    ensures ValueFlags(schema, inherited) ==
            Flags(inherited.sensitive || SetHere(schema, "x-sensitive"), UrlHere(schema, inherited),
                  PublicMembers(schema, inherited.unknownPublic), UnknownHere(schema, inherited.unknownPublic),
                  inherited.textParts || Says(schema, "x-text-credentials", Str("parts")))
  {
    hide Annotated, ItemSchema, ListLike, HomogeneousMap, IsMarked, PublicMembers, Unmodelled, Says;
    ListMeans(schema);
    AnnotatedMeans(schema, inherited);
    AnnotatedMeans(ItemSchema(schema), Annotated(schema, inherited));
  }

  /** The flags of a position, member by member. */
  lemma FlagsMean(m: Matcher, schema: Json, inherited: Flags)
    ensures FlagsAt(m, schema, inherited) ==
            Flags(SensitiveHere(m, schema, inherited), UrlHere(schema, inherited),
                  PublicMembers(schema, inherited.unknownPublic), UnknownHere(schema, inherited.unknownPublic),
                  inherited.textParts || Says(schema, "x-text-credentials", Str("parts")))
    ensures ValueFlags(schema, inherited).urlCredentials == UrlHere(schema, inherited)
  {
    hide ValueFlags, SetHere, UrlHere, UnknownHere, PublicMembers, Says;
    ValueFlagsMean(schema, inherited);
  }

  lemma ExcludesMeans(schema: Json)
    ensures WrongStringShape(schema) <==> ExcludesText(schema)
  {
    hide Field, Says;
    FieldMeans(schema, "type");
    if Field(schema, "type").Some? { assert Says(schema, "type", Field(schema, "type").value); }
  }

  /** Which texts are secret, and which references are shown. */
  lemma SecretMeans(m: Matcher, value: Json, schema: Json, inherited: Flags)
    ensures SecretString(schema, FlagsAt(m, schema, inherited)) <==> SecretHere(m, schema, inherited)
    ensures KeptReference(m, value, schema, inherited) <==> ReferenceHere(m, value, schema, inherited)
  {
    hide FlagsAt, ValueFlags, SensitiveHere, UrlHere, UnknownHere, ExcludesText, WrongStringShape;
    FlagsMean(m, schema, inherited);
    ExcludesMeans(schema);
  }

  /** What the display shows of a text: a reference that is allowed here as it is; the mask where the position is
      sensitive, unknown and not public, or not of a text's type; a URL without its credentials where it is marked as
      one; and everywhere else the text itself. */
  lemma TextIsShown(m: Matcher, text: string, schema: Json, inherited: Flags)
    ensures Project(Display, m, Str(text), schema, inherited) == Str(
              if text == "" || ReferenceHere(m, Str(text), schema, inherited) then text
              else if SecretHere(m, schema, inherited) then MASK
              else if UrlHere(schema, inherited) then UrlMask.Mask(text, MASK)
              else text)
  {
    hide FlagsAt, SecretString, KeptReference, SecretHere, ReferenceHere, UrlHere, UrlMask.Mask;
    SecretMeans(m, Str(text), schema, inherited);
    FlagsMean(m, schema, inherited);
    UrlMask.MaskEmpty(MASK);
  }

  /** Numbers and booleans are zero and false where the position is sensitive, and shown everywhere else. */
  lemma NumberIsShown(m: Matcher, value: Json, schema: Json, inherited: Flags)
    requires !value.Str? && !value.Arr? && !value.Obj?
    ensures Project(Display, m, value, schema, inherited) ==
            if ReferenceHere(m, value, schema, inherited) || !SensitiveHere(m, schema, inherited) then value
            else match value { case Null => Null case Bool(_) => Bool(false) case _ => Int(0) }
  {
    hide FlagsAt, SecretString, KeptReference, SensitiveHere, ReferenceHere, UrlHere, UnknownHere;
    SecretMeans(m, value, schema, inherited);
    FlagsMean(m, schema, inherited);
  }

  /** What the archive does with a value, and whether it reports the key: a sensitive value is replaced whole unless it
      is taken apart, empty or null; a text that is secret for another reason is replaced too; a URL loses its
      credentials. */
  lemma ArchiveJudges(placeholder: string, m: Matcher, value: Json, schema: Json, inherited: Flags)
    ensures Judge(Archive(placeholder), m, value, schema, inherited) ==
            if ReferenceHere(m, value, schema, inherited) || value == Null then Kept
            else if value == Str("") then (if UrlHere(schema, inherited) then Replaced(Str(""), false) else Kept)
            else if SensitiveHere(m, schema, inherited) && !TakenApart(value, schema, inherited) then
              Replaced(Str(placeholder), true)
            else
              match value {
                case Str(text) =>
                  if SecretHere(m, schema, inherited) then Replaced(Str(placeholder), true)
                  else if UrlHere(schema, inherited) then
                    var masked := UrlMask.Mask(text, "REDACTED");
                    Replaced(Str(masked), masked != text || UrlCredentialsPresent(text))
                  else Kept
                case Arr(_) => Descend
                case Obj(_) => Descend
                case _ => Kept
              }
  {
    hide FlagsAt, SecretString, KeptReference, SecretHere, SensitiveHere, ReferenceHere, UrlHere, UnknownHere, Says,
      Field, UrlCredentialsPresent, UrlMask.Mask;
    SecretMeans(m, value, schema, inherited);
    FlagsMean(m, schema, inherited);
    FieldMeans(schema, "type");
    UrlMask.MaskEmpty("REDACTED");
    NothingPresent();
    SensitiveIsSecret(m, schema, inherited);
  }

  lemma NothingPresent()
    ensures !UrlCredentialsPresent("")
  {
    assert UrlMask.Normalized("") == "";
  }

  lemma SensitiveIsSecret(m: Matcher, schema: Json, inherited: Flags)
    ensures SensitiveHere(m, schema, inherited) ==> SecretHere(m, schema, inherited)
  {
  }

  // ----- its properties -------------------------------------------------------------------------------------------

  predicate SameKind(a: Json, b: Json) {
    match a
    case Null => b.Null?
    case Bool(_) => b.Bool?
    case Int(_) => IsNumber(b)
    case Float(_) => IsNumber(b)
    case Str(_) => b.Str?
    case Arr(_) => b.Arr?
    case Obj(_) => b.Obj?
  }

  /** Same kinds, array lengths and key sets all the way down. */
  predicate SameShape(a: Json, b: Json) {
    match a
    case Arr(xs) => b.Arr? && |b.items| == |xs| && forall i :: 0 <= i < |xs| ==> SameShape(xs[i], b.items[i])
    case Obj(m) => b.Obj? && b.fields.Keys == m.Keys && forall k :: k in m ==> SameShape(m[k], b.fields[k])
    case _ => SameKind(a, b)
  }

  lemma {:induction false} ShapeIsReflexive(a: Json)
    ensures SameShape(a, a)
  {
    match a
    case Arr(xs) => forall i | 0 <= i < |xs| ensures SameShape(xs[i], xs[i]) { ShapeIsReflexive(xs[i]); }
    case Obj(m) => forall k | k in m ensures SameShape(m[k], m[k]) { ShapeIsReflexive(m[k]); }
    case _ =>
  }

  /** The display keeps every kind, array length and key set. */
  lemma {:induction false} DisplayKeepsShape(m: Matcher, value: Json, schema: Json, inherited: Flags)
    ensures SameShape(value, Project(Display, m, value, schema, inherited))
    decreases value
  {
    hide Field, FlagsAt, ItemSchema, Property, SecretString, KeptReference, UrlMask.Mask;
    ShapeIsReflexive(value);
    var flags := FlagsAt(m, schema, inherited);
    if Judge(Display, m, value, schema, inherited).Descend? {
      match value {
        case Arr(items) =>
          forall i | 0 <= i < |items|
            ensures SameShape(items[i], Project(Display, m, items[i], ItemSchema(schema), flags))
          {
            DisplayKeepsShape(m, items[i], ItemSchema(schema), flags);
          }
        case Obj(fields) =>
          forall k | k in fields
            ensures SameShape(fields[k], Project(Display, m, fields[k], Property(schema, k), flags))
          {
            DisplayKeepsShape(m, fields[k], Property(schema, k), flags);
          }
        case _ =>
      }
    }
  }

  lemma MaskIsSafe()
    ensures UrlMask.SafeMask(MASK) && UrlMask.SafeMask("REDACTED") && MASK != []
  {
  }

  /** A value that is not taken apart is settled by one redaction. */
  lemma SettledTwice(m: Matcher, value: Json, schema: Json, inherited: Flags)
    requires !Judge(Display, m, value, schema, inherited).Descend?
    ensures var once := Project(Display, m, value, schema, inherited);
            Project(Display, m, once, schema, inherited) == once
  {
    hide Field, FlagsAt, SecretString, UrlMask.Mask;
    MaskIsSafe();
    var flags := FlagsAt(m, schema, inherited);
    var once := Project(Display, m, value, schema, inherited);
    match value {
      case Str(text) =>
        UrlMask.MaskTwice(text, MASK);
        UrlMask.MaskEmpty(MASK);
        assert once == value || once == Str(MASK) || once == Str(UrlMask.Mask(text, MASK));
      case _ =>
    }
  }

  lemma ArrayProjection(output: Output, m: Matcher, value: Json, schema: Json, inherited: Flags)
    requires value.Arr? && Judge(output, m, value, schema, inherited).Descend?
    ensures var p := Project(output, m, value, schema, inherited);
            && p.Arr? && |p.items| == |value.items|
            && forall i :: 0 <= i < |p.items| ==>
                 p.items[i] == Project(output, m, value.items[i], ItemSchema(schema), FlagsAt(m, schema, inherited))
  {
    hide Judge, ItemSchema, FlagsAt;
  }

  lemma ObjectProjection(output: Output, m: Matcher, value: Json, schema: Json, inherited: Flags)
    requires value.Obj? && Judge(output, m, value, schema, inherited).Descend?
    ensures var p := Project(output, m, value, schema, inherited);
            && p.Obj? && p.fields.Keys == value.fields.Keys
            && forall k :: k in p.fields ==>
                 p.fields[k] == Project(output, m, value.fields[k], Property(schema, k), FlagsAt(m, schema, inherited))
  {
    hide Judge, Property, FlagsAt;
  }

  lemma KeptProjection(output: Output, m: Matcher, value: Json, schema: Json, inherited: Flags)
    ensures Judge(output, m, value, schema, inherited).Kept? ==> Project(output, m, value, schema, inherited) == value
    ensures output.Display? && (value.Arr? || value.Obj?) ==>
              !Judge(output, m, value, schema, inherited).Replaced?
  {
    hide ItemSchema, FlagsAt, Property, Field, SecretString;
  }

  /** Redacting twice is redacting once, whatever the matcher makes of the redacted values. */
  lemma {:induction false} DisplayTwice(m: Matcher, value: Json, schema: Json, inherited: Flags)
    ensures var once := Project(Display, m, value, schema, inherited);
            Project(Display, m, once, schema, inherited) == once
    decreases value
  {
    hide Judge, Project, FlagsAt, ItemSchema, Property;
    var flags := FlagsAt(m, schema, inherited);
    var once := Project(Display, m, value, schema, inherited);
    KeptProjection(Display, m, once, schema, inherited);
    if !Judge(Display, m, value, schema, inherited).Descend? {
      SettledTwice(m, value, schema, inherited);
    } else if value.Arr? {
      ArrayProjection(Display, m, value, schema, inherited);
      if Judge(Display, m, once, schema, inherited).Descend? {
        ArrayProjection(Display, m, once, schema, inherited);
        var twice := Project(Display, m, once, schema, inherited);
        forall i | 0 <= i < |once.items| ensures twice.items[i] == once.items[i] {
          DisplayTwice(m, value.items[i], ItemSchema(schema), flags);
        }
        assert twice.items == once.items;
      }
    } else {
      ObjectProjection(Display, m, value, schema, inherited);
      if Judge(Display, m, once, schema, inherited).Descend? {
        ObjectProjection(Display, m, once, schema, inherited);
        var twice := Project(Display, m, once, schema, inherited);
        forall k | k in once.fields ensures twice.fields[k] == once.fields[k] {
          DisplayTwice(m, value.fields[k], Property(schema, k), flags);
        }
        assert twice.fields == once.fields;
      }
    }
  }

  /** `v` and `w` differ at most where the display hides the difference, by what the members of the schema say: in
      secret texts, in sensitive numbers and booleans, and in the credentials of endpoint URLs; and nowhere in a
      reference that is shown. */
  ghost predicate Alike(m: Matcher, v: Json, w: Json, schema: Json, inherited: Flags)
    decreases v
  {
    var flags := FlagsAt(m, schema, inherited);
    || v == w
    || (&& !ReferenceHere(m, v, schema, inherited) && !ReferenceHere(m, w, schema, inherited)
        && match v
           case Str(text) =>
             && w.Str?
             && (|| (SecretHere(m, schema, inherited) && text != [] && w.s != [])
                 || (!SecretHere(m, schema, inherited) && UrlHere(schema, inherited) && UrlMask.SameUrl(text, w.s)))
           case Int(_) => IsNumber(w) && SensitiveHere(m, schema, inherited)
           case Float(_) => IsNumber(w) && SensitiveHere(m, schema, inherited)
           case Bool(_) => w.Bool? && SensitiveHere(m, schema, inherited)
           case Arr(xs) =>
             && w.Arr? && |w.items| == |xs|
             && forall i :: 0 <= i < |xs| ==> Alike(m, xs[i], w.items[i], ItemSchema(schema), flags)
           case Obj(fields) =>
             && w.Obj? && w.fields.Keys == fields.Keys
             && forall k :: k in fields ==> Alike(m, fields[k], w.fields[k], Property(schema, k), flags)
           case Null => false)
  }

  lemma AlikeSettled(m: Matcher, v: Json, w: Json, schema: Json, inherited: Flags)
    requires Alike(m, v, w, schema, inherited) && !v.Arr? && !v.Obj?
    ensures Project(Display, m, v, schema, inherited) == Project(Display, m, w, schema, inherited)
  {
    hide Field, FlagsAt, SecretString, UrlMask.Mask, UrlMask.SameUrl, KeptReference, ItemSchema, Property, SecretHere,
      SensitiveHere, UrlHere, ReferenceHere, UnknownHere;
    SecretMeans(m, v, schema, inherited);
    SecretMeans(m, w, schema, inherited);
    FlagsMean(m, schema, inherited);
    if v.Str? && w.Str? {
      MaskIsSafe();
      UrlMask.MaskedAlikeExactly(v.s, w.s, MASK);
    }
  }

  lemma DescendsAlike(m: Matcher, v: Json, schema: Json, inherited: Flags)
    requires !ReferenceHere(m, v, schema, inherited) && (v.Arr? || v.Obj?)
    ensures Judge(Display, m, v, schema, inherited).Descend?
  {
    hide Field, FlagsAt, SecretString, KeptReference, ReferenceHere;
    SecretMeans(m, v, schema, inherited);
  }

  /** Hidden values do not show: two values that differ only where the display hides it are displayed the same. */
  lemma {:induction false} DisplayHides(m: Matcher, v: Json, w: Json, schema: Json, inherited: Flags)
    requires Alike(m, v, w, schema, inherited)
    ensures Project(Display, m, v, schema, inherited) == Project(Display, m, w, schema, inherited)
    decreases v
  {
    hide Judge, Project, FlagsAt, ItemSchema, Property, ReferenceHere, SecretHere, SensitiveHere, UrlHere, UrlMask.Mask;
    var flags := FlagsAt(m, schema, inherited);
    if v != w {
      if v.Arr? {
        DescendsAlike(m, v, schema, inherited);
        DescendsAlike(m, w, schema, inherited);
        ArrayProjection(Display, m, v, schema, inherited);
        ArrayProjection(Display, m, w, schema, inherited);
        forall i | 0 <= i < |v.items|
          ensures Project(Display, m, v.items[i], ItemSchema(schema), flags)
                  == Project(Display, m, w.items[i], ItemSchema(schema), flags)
        {
          DisplayHides(m, v.items[i], w.items[i], ItemSchema(schema), flags);
        }
        assert Project(Display, m, v, schema, inherited).items == Project(Display, m, w, schema, inherited).items;
      } else if v.Obj? {
        DescendsAlike(m, v, schema, inherited);
        DescendsAlike(m, w, schema, inherited);
        ObjectProjection(Display, m, v, schema, inherited);
        ObjectProjection(Display, m, w, schema, inherited);
        forall k | k in v.fields
          ensures Project(Display, m, v.fields[k], Property(schema, k), flags)
                  == Project(Display, m, w.fields[k], Property(schema, k), flags)
        {
          DisplayHides(m, v.fields[k], w.fields[k], Property(schema, k), flags);
        }
        assert Project(Display, m, v, schema, inherited).fields == Project(Display, m, w, schema, inherited).fields;
      } else {
        AlikeSettled(m, v, w, schema, inherited);
      }
    }
  }

  // ----- the keys of replaced settings ----------------------------------------------------------------------------

  function ChildKey(parent: string, name: string): string {
    if parent == [] then name else parent + "." + name
  }

  /** The keys under which values were replaced. */
  function Noted(output: Output, m: Matcher, value: Json, schema: Json, inherited: Flags, key: string): set<string>
    decreases value, 1, 0
  {
    match Judge(output, m, value, schema, inherited)
    case Kept => {}
    case Replaced(_, noted) => if noted then {key} else {}
    case Descend =>
      var flags := FlagsAt(m, schema, inherited);
      match value
      case Arr(items) => NotedItems(output, m, value, ItemSchema(schema), flags, key, |items|)
      case Obj(fields) => NotedFields(output, m, value, schema, flags, key, fields.Keys)
      case _ => {}
  }

  function NotedItems(output: Output, m: Matcher, value: Json, item: Json, flags: Flags, key: string, n: nat)
    : set<string>
    requires value.Arr? && n <= |value.items|
    decreases value, 0, n
  {
    if n == 0 then {}
    else
      NotedItems(output, m, value, item, flags, key, n - 1)
      + Noted(output, m, value.items[n - 1], item, flags, ChildKey(key, Digits(n - 1)))
  }

  function NotedFields(output: Output, m: Matcher, value: Json, schema: Json, flags: Flags, key: string,
                       names: set<string>): set<string>
    requires value.Obj? && names <= value.fields.Keys
    decreases value, 0, 0
  {
    set n, k | n in names && k in Noted(output, m, value.fields[n], Property(schema, n), flags, ChildKey(key, n)) :: k
  }

  lemma OneMoreField(output: Output, m: Matcher, value: Json, schema: Json, flags: Flags, key: string,
                     names: set<string>, n: string)
    requires value.Obj? && names <= value.fields.Keys && n in value.fields
    ensures ProjectFields(output, m, value, schema, flags, names + {n})
            == ProjectFields(output, m, value, schema, flags, names)
                 [n := Project(output, m, value.fields[n], Property(schema, n), flags)]
    ensures NotedFields(output, m, value, schema, flags, key, names + {n})
            == NotedFields(output, m, value, schema, flags, key, names)
               + Noted(output, m, value.fields[n], Property(schema, n), flags, ChildKey(key, n))
  {
    hide Noted, Project, Property, ChildKey;
  }

  lemma {:induction false} ItemIsNoted(output: Output, m: Matcher, value: Json, item: Json, flags: Flags, key: string,
                                       n: nat, i: nat)
    requires value.Arr? && i < n <= |value.items|
    ensures Noted(output, m, value.items[i], item, flags, ChildKey(key, Digits(i)))
            <= NotedItems(output, m, value, item, flags, key, n)
  {
    hide Noted, ChildKey, Digits;
    if i < n - 1 { ItemIsNoted(output, m, value, item, flags, key, n - 1, i); }
  }

  /** `Projection`: the projection notes the keys as it goes. */
  class Projection {
    const output: Output
    const matcher: Matcher
    var keys: set<string>

    constructor (output: Output, matcher: Matcher)
      ensures this.output == output && this.matcher == matcher && keys == {}
    {
      this.output, this.matcher, keys := output, matcher, {};
    }

    method Run(value: Json, schema: Json, inherited: Flags, key: string) returns (r: Json)
      modifies this
      ensures r == Project(output, matcher, value, schema, inherited)
      ensures keys == old(keys) + Noted(output, matcher, value, schema, inherited, key)
      decreases value
    {
      hide Judge, FlagsAt, ItemSchema, Property, ChildKey, Digits, NotedItems, NotedFields, ProjectFields;
      match Judge(output, matcher, value, schema, inherited) {
        case Kept => return value;
        case Replaced(result, noted) =>
          if noted {
            keys := keys + {key};
          }
          return result;
        case Descend =>
          var flags := FlagsAt(matcher, schema, inherited);
          if value.Arr? {
            r := RunItems(value, ItemSchema(schema), flags, key);
          } else {
            r := RunFields(value, schema, flags, key);
          }
      }
    }

    lemma NoFields(value: Json, schema: Json, flags: Flags, key: string)
      requires value.Obj?
      ensures NotedFields(output, matcher, value, schema, flags, key, {}) == {}
      ensures ProjectFields(output, matcher, value, schema, flags, {}) == map[]
    {
    }

    method RunItems(value: Json, item: Json, flags: Flags, key: string) returns (r: Json)
      requires value.Arr?
      modifies this
      ensures r == Arr(seq(|value.items|, i requires 0 <= i < |value.items| =>
                         Project(output, matcher, value.items[i], item, flags)))
      ensures keys == old(keys) + NotedItems(output, matcher, value, item, flags, key, |value.items|)
      decreases value, 0
    {
      hide Project, Noted, ChildKey, Digits;
      var items: seq<Json> := [];
      var j := 0;
      while j < |value.items|
        invariant j <= |value.items| && |items| == j
        invariant forall i :: 0 <= i < j ==> items[i] == Project(output, matcher, value.items[i], item, flags)
        invariant keys == old(keys) + NotedItems(output, matcher, value, item, flags, key, j)
      {
        var child := Run(value.items[j], item, flags, ChildKey(key, Digits(j)));
        items := items + [child];
        j := j + 1;
      }
      return Arr(items);
    }

    method RunFields(value: Json, schema: Json, flags: Flags, key: string) returns (r: Json)
      requires value.Obj?
      modifies this
      ensures r == Obj(ProjectFields(output, matcher, value, schema, flags, value.fields.Keys))
      ensures keys == old(keys) + NotedFields(output, matcher, value, schema, flags, key, value.fields.Keys)
      decreases value, 0, 1
    {
      hide Project, Noted, ChildKey, Property, NotedFields, ProjectFields;
      var names := value.fields.Keys;
      var fields: map<string, Json>, done: set<string> := map[], {};
      NoFields(value, schema, flags, key);
      while names - done != {}
        invariant done <= names
        invariant fields == ProjectFields(output, matcher, value, schema, flags, done)
        invariant keys == old(keys) + NotedFields(output, matcher, value, schema, flags, key, done)
        decreases names - done
      {
        var n :| n in names - done;
        var child := RunField(value, schema, flags, key, n, done);
        fields, done := fields[n := child], done + {n};
      }
      assert done == names;
      return Obj(fields);
    }

    /** One member of an object. */
    method RunField(value: Json, schema: Json, flags: Flags, key: string, n: string, ghost done: set<string>)
      returns (child: Json)
      requires value.Obj? && n in value.fields && done <= value.fields.Keys
      requires NotedFields(output, matcher, value, schema, flags, key, done) <= keys
      modifies this
      ensures ProjectFields(output, matcher, value, schema, flags, done + {n})
              == ProjectFields(output, matcher, value, schema, flags, done)[n := child]
      ensures keys == old(keys) + NotedFields(output, matcher, value, schema, flags, key, done + {n})
      ensures NotedFields(output, matcher, value, schema, flags, key, done)
              <= NotedFields(output, matcher, value, schema, flags, key, done + {n})
      decreases value, 0, 0
    {
      hide Project, Noted, ChildKey, Property, NotedFields, ProjectFields;
      OneMoreField(output, matcher, value, schema, flags, key, done, n);
      child := Run(value.fields[n], Property(schema, n), flags, ChildKey(key, n));
    }
  }

  /** An archive in which no key was noted is the value itself. */
  lemma {:induction false} NothingNotedNothingChanged(placeholder: string, m: Matcher, value: Json, schema: Json,
                                                      inherited: Flags, key: string)
    requires Noted(Archive(placeholder), m, value, schema, inherited, key) == {}
    ensures Project(Archive(placeholder), m, value, schema, inherited) == value
    decreases value
  {
    hide Project, FlagsAt, ItemSchema, Property, Judge;
    var output, flags := Archive(placeholder), FlagsAt(m, schema, inherited);
    SilentReplacement(placeholder, m, value, schema, inherited);
    KeptProjection(output, m, value, schema, inherited);
    if Judge(output, m, value, schema, inherited).Descend? {
      if value.Arr? {
        ArrayProjection(output, m, value, schema, inherited);
        forall i | 0 <= i < |value.items|
          ensures Project(output, m, value.items[i], ItemSchema(schema), flags) == value.items[i]
        {
          ItemIsNoted(output, m, value, ItemSchema(schema), flags, key, |value.items|, i);
          NothingNotedNothingChanged(placeholder, m, value.items[i], ItemSchema(schema), flags,
                                     ChildKey(key, Digits(i)));
        }
        assert Project(output, m, value, schema, inherited).items == value.items;
      } else {
        ObjectProjection(output, m, value, schema, inherited);
        forall n | n in value.fields
          ensures Project(output, m, value.fields[n], Property(schema, n), flags) == value.fields[n]
        {
          var noted := Noted(output, m, value.fields[n], Property(schema, n), flags, ChildKey(key, n));
          forall k | k in noted ensures k in NotedFields(output, m, value, schema, flags, key, value.fields.Keys) {}
          NothingNotedNothingChanged(placeholder, m, value.fields[n], Property(schema, n), flags, ChildKey(key, n));
        }
        assert Project(output, m, value, schema, inherited).fields == value.fields;
      }
    }
  }

  lemma SilentReplacement(placeholder: string, m: Matcher, value: Json, schema: Json, inherited: Flags)
    ensures var v := Judge(Archive(placeholder), m, value, schema, inherited);
            v.Replaced? && !v.noted ==> Project(Archive(placeholder), m, value, schema, inherited) == value
    ensures Judge(Archive(placeholder), m, value, schema, inherited).Descend? ==> value.Arr? || value.Obj?
  {
    hide Field, FlagsAt, SecretString, UrlMask.Mask, KeptReference, UrlCredentialsPresent;
  }
}
