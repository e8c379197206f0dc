/** The canonical texts are JSON: strings, numbers, arrays and objects as RFC 8259 reads them (sections 4 to 7), without
    blanks and with the members of an object in ascending order. */
module JsonText {
  import opened Canonical
  import opened JsonModel
  import opened Options
  import opened Texts

  // ----- strings --------------------------------------------------------------------------------------------------

  function Digit(c: char): Option<nat> {
    if '0' <= c <= '9' then Some(c as int - '0' as int)
    else if 'a' <= c <= 'f' then Some(c as int - 'a' as int + 10)
    else if 'A' <= c <= 'F' then Some(c as int - 'A' as int + 10)
    else None
  }

  /** What stands behind a backslash for one character. */
  function Short(c: char): Option<char> {
    match c
    case '"' => Some('"')
    case '\\' => Some('\\')
    case '/' => Some('/')
    case 'b' => Some('\U{8}')
    case 'f' => Some('\U{c}')
    case 'n' => Some('\U{a}')
    case 'r' => Some('\U{d}')
    case 't' => Some('\U{9}')
    case _ => None
  }

  /** The character of four hexadecimal digits; pairs of surrogates are not read. */
  function Four(s: string): Option<char>
    requires |s| == 4
  {
    var (a, b, c, d) := (Digit(s[0]), Digit(s[1]), Digit(s[2]), Digit(s[3]));
    if a.None? || b.None? || c.None? || d.None? then None
    else
      var code := ((a.value * 16 + b.value) * 16 + c.value) * 16 + d.value;
      if code < 0xD800 || 0xDFFF < code < 0x1_0000 then Some(code as char) else None
  }

  function Cons(c: Option<char>, s: Option<string>): Option<string> {
    if c.None? || s.None? then None else Some([c.value] + s.value)
  }

  /** What is between the quotes of a JSON string, read. */
  function Unescape(s: string): Option<string> {
    if s == "" then Some("")
    else if s[0] == '"' || s[0] < ' ' then None
    else if s[0] != '\\' then Cons(Some(s[0]), Unescape(s[1..]))
    else if |s| >= 6 && s[1] == 'u' then Cons(Four(s[2..6]), Unescape(s[6..]))
    else if |s| >= 2 then Cons(Short(s[1]), Unescape(s[2..]))
    else None
  }

  lemma HexIsRead(n: nat)
    requires n < 16
    ensures Digit(Hex(n)) == Some(n)
  {
  }

  /** One escaped character is read back. */
  lemma EscapeIsRead(c: char, rest: string)
    ensures Unescape(Escape(c) + rest) == Cons(Some(c), Unescape(rest))
  {
    var e := Escape(c);
    var s := e + rest;
    assert s[|e|..] == rest;
    if |e| == 6 {
      assert s[2..6] == e[2..6];
      HexIsRead(c as int / 16);
      HexIsRead(c as int % 16);
      HexIsRead(0);
      assert e[2] == Hex(0) && e[3] == Hex(0);
      FourIs(c, e[2..6]);
    }
  }

  lemma FourIs(c: char, s: string)
    requires c < ' ' && |s| == 4 && Digit(s[0]) == Some(0) && Digit(s[1]) == Some(0)
    requires Digit(s[2]) == Some(c as int / 16) && Digit(s[3]) == Some(c as int % 16)
    ensures Four(s) == Some(c)
  {
    assert c as int == c as int / 16 * 16 + c as int % 16;
  }

  lemma {:induction false} EscapedIsRead(s: string)
    ensures Unescape(Escaped(s)) == Some(s)
  {
    if s != "" {
      EscapedIsRead(s[1..]);
      EscapeIsRead(s[0], Escaped(s[1..]));
      assert s == [s[0]] + s[1..];
    }
  }

  /** `t` is a JSON string and says `s`. */
  predicate IsString(t: string, s: string) {
    |t| >= 2 && t[0] == '"' && t[|t| - 1] == '"' && Unescape(t[1..|t| - 1]) == Some(s)
  }

  lemma QuotedIsString(s: string)
    ensures IsString(Quoted(s), s)
  {
    var t := Quoted(s);
    assert t[1..|t| - 1] == Escaped(s);
    EscapedIsRead(s);
  }

  // ----- numbers --------------------------------------------------------------------------------------------------

  function Decimal(t: string): nat
    requires forall i :: 0 <= i < |t| ==> '0' <= t[i] <= '9'
  {
    if t == "" then 0 else 10 * Decimal(t[..|t| - 1]) + (t[|t| - 1] as int - '0' as int)
  }

  /** Digits without a leading zero. */
  predicate IsNatural(t: string, n: nat) {
    && t != "" && (forall i :: 0 <= i < |t| ==> '0' <= t[i] <= '9')
    && (|t| > 1 ==> t[0] != '0') && Decimal(t) == n
  }

  predicate IsInteger(t: string, n: int) {
    if n < 0 then t != "" && t[0] == '-' && IsNatural(t[1..], -n) else IsNatural(t, n)
  }

  lemma {:induction false} DigitsAreDecimal(n: nat)
    ensures IsNatural(Digits(n), n) && (n > 0 ==> Digits(n)[0] != '0')
  {
    DigitsText(n);
    var t := Digits(n);
    if n >= 10 {
      DigitsAreDecimal(n / 10);
      assert t[..|t| - 1] == Digits(n / 10);
    } else {
      assert t[..0] == "";
    }
  }

  lemma IntIsInteger(n: int)
    ensures IsInteger(IntText(n), n)
  {
    DigitsAreDecimal(if n < 0 then -n else n);
    if n < 0 { assert IntText(n)[1..] == Digits(-n); }
  }

  // ----- values ---------------------------------------------------------------------------------------------------

  /** The parts with commas between them. */
  function Commas(parts: seq<string>): string {
    if parts == [] then "" else Join(parts, ',')
  }

  /** A member of an object: its key, the text of the key and the text of the value. */
  datatype Member = Member(key: string, name: string, value: string)

  function Lines(members: seq<Member>): (lines: seq<string>)
    ensures |lines| == |members|
    ensures forall i :: 0 <= i < |lines| ==> lines[i] == members[i].name + ":" + members[i].value
  {
    seq(|members|, i requires 0 <= i < |members| => members[i].name + ":" + members[i].value)
  }

  function KeysOf(members: seq<Member>): (keys: seq<string>)
    ensures |keys| == |members|
  {
    seq(|members|, i requires 0 <= i < |members| => members[i].key)
  }

  /** The keys, once each, in ascending order. */
  ghost predicate Ascending(listed: seq<string>, keys: set<string>) {
    && (forall k :: k in listed <==> k in keys)
    && (forall i, j :: 0 <= i < j < |listed| ==> listed[i] != listed[j] && Leq(listed[i], listed[j]))
  }

  /** `t` is the JSON text of `v`. */
  ghost predicate IsText(t: string, v: Json, float: Double -> string)
    decreases v
  {
    match v
    case Null => t == "null"
    case Bool(b) => t == if b then "true" else "false"
    case Int(n) => IsInteger(t, n)
    case Float(r) => t == float(r)
    case Str(s) => IsString(t, s)
    case Arr(xs) =>
      exists parts: seq<string> ::
        && t == "[" + Commas(parts) + "]" && |parts| == |xs|
        && forall i :: 0 <= i < |xs| ==> IsText(parts[i], xs[i], float)
    case Obj(m) =>
      exists members: seq<Member> ::
        && t == "{" + Commas(Lines(members)) + "}" && Ascending(KeysOf(members), m.Keys)
        && forall i :: 0 <= i < |members| ==>
             && IsString(members[i].name, members[i].key)
             && members[i].key in m && IsText(members[i].value, m[members[i].key], float)
  }

  function Parts(xs: seq<Json>, float: Double -> string): seq<string> {
    seq(|xs|, i requires 0 <= i < |xs| => Text(xs[i], float))
  }

  lemma {:induction false} ItemsAreParts(xs: seq<Json>, float: Double -> string)
    ensures Items(xs, float) == Commas(Parts(xs, float))
  {
    hide Text;
    if |xs| > 1 {
      ItemsAreParts(xs[1..], float);
      assert Parts(xs, float)[1..] == Parts(xs[1..], float);
      Regrouped(Text(xs[0], float), ",", Items(xs[1..], float));
    } else if |xs| == 1 {
      assert Text(xs[0], float) + "" == Text(xs[0], float);
    }
  }

  lemma Regrouped(a: string, b: string, c: string)
    ensures a + b + c == a + (b + c)
  {
  }

  function MembersOf(v: Json, keys: seq<string>, float: Double -> string): seq<Member>
    requires v.Obj? && forall i :: 0 <= i < |keys| ==> keys[i] in v.fields
  {
    seq(|keys|, i requires 0 <= i < |keys| => Member(keys[i], Quoted(keys[i]), Text(v.fields[keys[i]], float)))
  }

  lemma {:induction false} MembersAreLines(v: Json, keys: seq<string>, float: Double -> string)
    requires v.Obj? && forall i :: 0 <= i < |keys| ==> keys[i] in v.fields
    ensures Members(v, keys, float) == Commas(Lines(MembersOf(v, keys, float)))
  {
    hide Text, Quoted;
    if keys != [] {
      var line := Quoted(keys[0]) + ":" + Text(v.fields[keys[0]], float);
      var lines := Lines(MembersOf(v, keys, float));
      assert lines[0] == line;
      if |keys| > 1 {
        MembersAreLines(v, keys[1..], float);
        assert lines[1..] == Lines(MembersOf(v, keys[1..], float));
        Regrouped(line, ",", Members(v, keys[1..], float));
      } else {
        assert line + "" == line;
      }
    }
  }

  /** The canonical text of a value is its JSON text. */
  lemma {:induction false} TextIsJson(v: Json, float: Double -> string)
    ensures IsText(Text(v, float), v, float)
    decreases v
  {
    hide IsString, IsInteger, Quoted, IntText, Items, Members, Commas, Lines;
    match v {
      case Int(n) => IntIsInteger(n);
      case Str(s) => QuotedIsString(s);
      case Arr(xs) =>
        ItemsAreParts(xs, float);
        forall i | 0 <= i < |xs| ensures IsText(Parts(xs, float)[i], xs[i], float) { TextIsJson(xs[i], float); }
      case Obj(m) => ObjectIsJson(v, float);
      case _ =>
    }
  }

  lemma SortedMembers(v: Json, float: Double -> string)
    requires v.Obj?
    ensures Ascending(KeysOf(MembersOf(v, Sorted(v.fields.Keys), float)), v.fields.Keys)
  {
    hide Sorted, Leq, MembersOf, KeysOf;
    KeysAreKept(v, Sorted(v.fields.Keys), float);
  }

  lemma KeysAreKept(v: Json, keys: seq<string>, float: Double -> string)
    requires v.Obj? && forall i :: 0 <= i < |keys| ==> keys[i] in v.fields
    ensures KeysOf(MembersOf(v, keys, float)) == keys
  {
    hide Quoted, Text;
  }

  lemma ObjectByMembers(t: string, v: Json, float: Double -> string, members: seq<Member>)
    requires v.Obj? && t == "{" + Commas(Lines(members)) + "}" && Ascending(KeysOf(members), v.fields.Keys)
    requires forall i :: 0 <= i < |members| ==>
               && IsString(members[i].name, members[i].key)
               && members[i].key in v.fields && IsText(members[i].value, v.fields[members[i].key], float)
    ensures IsText(t, v, float)
  {
    hide IsString, Commas, Lines, Ascending;
  }

  lemma {:induction false} ObjectIsJson(v: Json, float: Double -> string)
    requires v.Obj?
    ensures IsText(Text(v, float), v, float)
    decreases v, 0
  {
    hide IsString, Quoted, Members, Commas, Lines, Leq, IsText, Ascending;
    var keys := Sorted(v.fields.Keys);
    var members := MembersOf(v, keys, float);
    MembersAreLines(v, keys, float);
    SortedMembers(v, float);
    forall i | 0 <= i < |members|
      ensures members[i].key == keys[i] && IsString(members[i].name, members[i].key)
      ensures IsText(members[i].value, v.fields[members[i].key], float)
    {
      QuotedIsString(keys[i]);
      TextIsJson(v.fields[keys[i]], float);
    }
    ObjectByMembers(Text(v, float), v, float, members);
  }
}
