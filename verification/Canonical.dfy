/** The texts that consent hashes are taken of: canonical JSON, and the length-prefixed stream of an inline source. No
    two values have the same text, so equal hashes of an injective hash mean equal values. */
module Canonical {
  import opened JsonModel
  import opened Bytes
  import opened Options
  import opened Texts

  // ----- the order of keys ----------------------------------------------------------------------------------------

  predicate Leq(a: string, b: string) {
    a == [] || (b != [] && (a[0] < b[0] || (a[0] == b[0] && Leq(a[1..], b[1..]))))
  }

  lemma {:induction false} LeqTotal(a: string, b: string)
    ensures Leq(a, b) || Leq(b, a)
  {
    if a != [] && b != [] { LeqTotal(a[1..], b[1..]); }
  }

  lemma {:induction false} LeqTransitive(a: string, b: string, c: string)
    requires Leq(a, b) && Leq(b, c)
    ensures Leq(a, c)
  {
    if a != [] && a[0] == b[0] && b[0] == c[0] { LeqTransitive(a[1..], b[1..], c[1..]); }
  }

  lemma {:induction false} LeqAntisymmetric(a: string, b: string)
    requires Leq(a, b) && Leq(b, a)
    ensures a == b
  {
    if a != [] && b != [] {
      LeqAntisymmetric(a[1..], b[1..]);
      assert a == [a[0]] + a[1..] && b == [b[0]] + b[1..];
    }
  }

  predicate IsLeast(k: string, keys: set<string>) {
    k in keys && forall x :: x in keys ==> Leq(k, x)
  }

  lemma {:induction false} LeastExists(keys: set<string>)
    requires keys != {}
    ensures exists k :: IsLeast(k, keys)
    decreases |keys|
  {
    var x :| x in keys;
    LeqTotal(x, x);
    if keys == {x} {
      assert IsLeast(x, keys);
    } else {
      LeastExists(keys - {x});
      var k :| IsLeast(k, keys - {x});
      LeqTotal(x, k);
      if Leq(k, x) {
        assert IsLeast(k, keys);
      } else {
        forall y | y in keys ensures Leq(x, y) {
          if y != x { LeqTransitive(x, k, y); }
        }
        assert IsLeast(x, keys);
      }
    }
  }

  lemma LeastIsUnique(keys: set<string>)
    ensures forall a, b :: IsLeast(a, keys) && IsLeast(b, keys) ==> a == b
  {
    forall a, b | IsLeast(a, keys) && IsLeast(b, keys) ensures a == b { LeqAntisymmetric(a, b); }
  }

  function Sorted(keys: set<string>): (s: seq<string>)
    ensures forall k :: k in s <==> k in keys
    ensures |s| == |keys|
    ensures forall i, j :: 0 <= i < j < |s| ==> Leq(s[i], s[j]) && s[i] != s[j]
    decreases |keys|
  {
    if keys == {} then []
    else
      LeastExists(keys);
      LeastIsUnique(keys);
      var k :| IsLeast(k, keys);
      [k] + Sorted(keys - {k})
  }

  // ----- the text -------------------------------------------------------------------------------------------------

  function Hex(n: nat): char
    requires n < 16
  {
    "0123456789abcdef"[n]
  }

  /** A character in a JSON string. */
  function Escape(c: char): (s: string)
    ensures s != []
  {
    if c == '"' then "\\\""
    else if c == '\\' then "\\\\"
    else if c == '\U{8}' then "\\b"
    else if c == '\t' then "\\t"
    else if c == '\n' then "\\n"
    else if c == '\U{c}' then "\\f"
    else if c == '\r' then "\\r"
    else if c < ' ' then "\\u00" + [Hex(c as int / 16), Hex(c as int % 16)]
    else [c]
  }

  function Escaped(s: string): string {
    if s == [] then [] else Escape(s[0]) + Escaped(s[1..])
  }

  function Quoted(s: string): string {
    "\"" + Escaped(s) + "\""
  }

  function IntText(n: int): string {
    if n < 0 then "-" + Digits(-n) else Digits(n)
  }

  predicate IsNumberChar(c: char) {
    '0' <= c <= '9' || c == '+' || c == '-' || c == '.' || c == 'e' || c == 'E'
  }

  predicate IsNumberText(s: string) {
    s != [] && forall i :: 0 <= i < |s| ==> IsNumberChar(s[i])
  }

  /** What is relied on of the printing of numbers with a fraction or exponent: no two print alike, and each has a dot
      or an exponent. */
  ghost predicate FaithfulFloats(float: Double -> string) {
    && (forall r :: IsNumberText(float(r)) && ('.' in float(r) || 'e' in float(r)))
    && (forall r, q :: float(r) == float(q) ==> r == q)
  }

  /** `canonical`: compact JSON, the keys of every object sorted. */
  function Text(v: Json, float: Double -> string): string
    decreases v, 1
  {
    match v
    case Null => "null"
    case Bool(b) => if b then "true" else "false"
    case Int(n) => IntText(n)
    case Float(r) => float(r)
    case Str(s) => Quoted(s)
    case Arr(xs) => "[" + Items(xs, float) + "]"
    case Obj(m) => "{" + Members(v, Sorted(m.Keys), float) + "}"
  }

  function Items(xs: seq<Json>, float: Double -> string): string
    decreases xs, 0
  {
    if xs == [] then []
    else Text(xs[0], float) + if |xs| == 1 then [] else "," + Items(xs[1..], float)
  }

  function Members(v: Json, keys: seq<string>, float: Double -> string): string
    requires v.Obj? && forall i :: 0 <= i < |keys| ==> keys[i] in v.fields
    decreases v, 0, |keys|
  {
    if keys == [] then []
    else
      Quoted(keys[0]) + ":" + Text(v.fields[keys[0]], float)
      + if |keys| == 1 then [] else "," + Members(v, keys[1..], float)
  }

  // ----- strings are read back ------------------------------------------------------------------------------------

  /** No escape is the start of another, and none starts with the closing quote. */
  lemma EscapeSplits(c: char, d: char, x: string, y: string)
    requires Escape(c) + x == Escape(d) + y
    ensures c == d && x == y
  {
    var e, f := Escape(c), Escape(d);
    var all := e + x;
    assert e[0] == all[0] == f[0];
    if |e| > 1 {
      assert e[1] == all[1] == f[1];
      if |e| > 2 {
        assert e[4] == all[4] == f[4] && e[5] == all[5] == f[5];
        HexInjective(c as int / 16, d as int / 16);
        HexInjective(c as int % 16, d as int % 16);
      }
    }
    assert e == f;
    assert x == all[|e|..] == y;
  }

  lemma HexInjective(a: nat, b: nat)
    requires a < 16 && b < 16 && Hex(a) == Hex(b)
    ensures a == b
  {
  }

  lemma EscapeNoQuote(c: char)
    ensures Escape(c)[0] != '"'
  {
  }

  /** A quoted string ends at its closing quote, and reads back. */
  lemma {:induction false} EscapedSplits(s: string, t: string, x: string, y: string)
    requires Escaped(s) + ("\"" + x) == Escaped(t) + ("\"" + y)
    ensures s == t && x == y
    decreases |s|
  {
    hide Escape;
    var all := Escaped(s) + ("\"" + x);
    if s != [] { EscapeNoQuote(s[0]); assert all[0] == Escape(s[0])[0]; }
    if t != [] { EscapeNoQuote(t[0]); assert all[0] == Escape(t[0])[0]; }
    if s == [] || t == [] {
      assert s == [] && t == [];
      assert x == all[1..] == y;
    } else {
      var sx, ty := Escaped(s[1..]) + ("\"" + x), Escaped(t[1..]) + ("\"" + y);
      assert all == Escape(s[0]) + sx && all == Escape(t[0]) + ty;
      EscapeSplits(s[0], t[0], sx, ty);
      EscapedSplits(s[1..], t[1..], x, y);
      assert s == [s[0]] + s[1..] && t == [t[0]] + t[1..];
    }
  }

  lemma QuotedSplits(s: string, t: string, x: string, y: string)
    requires Quoted(s) + x == Quoted(t) + y
    ensures s == t && x == y
  {
    hide Escaped;
    QuotedTail(s, x);
    QuotedTail(t, y);
    EscapedSplits(s, t, x, y);
  }

  lemma QuotedTail(s: string, x: string)
    ensures (Quoted(s) + x)[1..] == Escaped(s) + ("\"" + x) && (Quoted(s) + x)[0] == '"'
  {
    hide Escaped;
  }

  // ----- numbers are read back ------------------------------------------------------------------------------------

  lemma IntTextIsNumber(n: int)
    ensures IsNumberText(IntText(n)) && '.' !in IntText(n) && 'e' !in IntText(n)
  {
    hide Digits;
    DigitsText(if n < 0 then -n else n);
  }

  lemma IntTextInjective(a: int, b: int)
    requires IntText(a) == IntText(b)
    ensures a == b
  {
    var da, db := if a < 0 then -a else a, if b < 0 then -b else b;
    DigitsText(da);
    DigitsText(db);
    assert a < 0 <==> IntText(a)[0] == '-';
    assert b < 0 <==> IntText(b)[0] == '-';
    if a < 0 {
      assert IntText(a)[1..] == Digits(da) && IntText(b)[1..] == Digits(db);
    }
    DigitsInjective(da, db);
  }

  /** A way to print a double: significand and exponent. */
  ghost function Decimal(r: Double): string {
    var p := Parts(r);
    IntText(p.0) + "e" + IntText(p.1)
  }

  ghost function Parts(r: Double): (p: (int, int))
    ensures IsScaled(r, p.0, p.1)
  {
    assert IsDouble(r);
    var m, e :| IsScaled(r, m, e);
    (m, e)
  }

  lemma DecimalSplits(a: string, b: string, x: string, y: string)
    requires 'e' !in a && 'e' !in b && a + "e" + x == b + "e" + y
    ensures a == b && x == y
  {
    var all := a + "e" + x;
    assert all[|a|] == 'e' && all[|b|] == (b + "e" + y)[|b|] == 'e';
    assert a == all[..|a|] && b == (b + "e" + y)[..|b|];
    assert x == all[|a| + 1..] && y == (b + "e" + y)[|b| + 1..];
  }

  lemma DecimalIsNumber(r: Double)
    ensures IsNumberText(Decimal(r)) && 'e' in Decimal(r)
  {
    hide IntText;
    var p := Parts(r);
    IntTextIsNumber(p.0);
    IntTextIsNumber(p.1);
    assert Decimal(r)[|IntText(p.0)|] == 'e';
  }

  lemma DecimalInjective(r: Double, q: Double)
    requires Decimal(r) == Decimal(q)
    ensures r == q
  {
    hide IntText, Scaled;
    var a, b := Parts(r), Parts(q);
    IntTextIsNumber(a.0);
    IntTextIsNumber(b.0);
    DecimalSplits(IntText(a.0), IntText(b.0), IntText(a.1), IntText(b.1));
    IntTextInjective(a.0, b.0);
    IntTextInjective(a.1, b.1);
  }

  /** There is a faithful way to print doubles, so what is proved of faithful ones is proved of something. */
  lemma DecimalIsFaithful()
    ensures FaithfulFloats(Decimal)
  {
    hide Decimal, IsNumberText;
    forall r: Double ensures IsNumberText(Decimal(r)) && 'e' in Decimal(r) { DecimalIsNumber(r); }
    forall r: Double, q: Double | Decimal(r) == Decimal(q) ensures r == q { DecimalInjective(r, q); }
  }

  /** What may follow a value. */
  predicate Ends(s: string) {
    s == [] || s[0] in ",]}"
  }

  lemma NumberSplits(a: string, b: string, s: string, t: string)
    requires IsNumberText(a) && IsNumberText(b) && Ends(s) && Ends(t) && a + s == b + t
    ensures a == b && s == t
  {
    var all := a + s;
    if |a| < |b| {
      assert s[0] == all[|a|] == (b + t)[|a|] == b[|a|];
      NoEnd(b[|a|]);
    } else if |b| < |a| {
      assert t[0] == (b + t)[|b|] == all[|b|] == a[|b|];
      NoEnd(a[|b|]);
    }
    assert a == all[..|a|] && b == (b + t)[..|b|];
    assert s == all[|a|..] && t == (b + t)[|b|..];
  }

  lemma NoEnd(c: char)
    requires IsNumberChar(c)
    ensures c !in ",]}" && c !in "ntf\"[{"
  {
  }

  // ----- values are read back -------------------------------------------------------------------------------------

  /** The first character of the text says what kind of value it is. */
  function Lead(v: Json): (c: char)
    requires !IsNumber(v)
    ensures c in "ntf\"[{"
  {
    match v
    case Null => 'n'
    case Bool(b) => if b then 't' else 'f'
    case Str(_) => '"'
    case Arr(_) => '['
    case Obj(_) => '{'
  }

  lemma LeadIsFirst(v: Json, float: Double -> string)
    requires FaithfulFloats(float)
    ensures Text(v, float) != []
    ensures !IsNumber(v) ==> Text(v, float)[0] == Lead(v)
    ensures IsNumber(v) ==> IsNumberText(Text(v, float)) && IsNumberChar(Text(v, float)[0])
    ensures !Ends(Text(v, float))
  {
    hide Items, Members, Escaped, Sorted;
    if v.Int? { IntTextIsNumber(v.n); }
    if IsNumber(v) { NoEnd(Text(v, float)[0]); }
  }

  lemma NumericSplits(v: Json, w: Json, float: Double -> string, s: string, t: string)
    requires FaithfulFloats(float) && IsNumber(v) && IsNumber(w) && Ends(s) && Ends(t)
    requires Text(v, float) + s == Text(w, float) + t
    ensures v == w && s == t
  {
    hide Digits;
    LeadIsFirst(v, float);
    LeadIsFirst(w, float);
    NumberSplits(Text(v, float), Text(w, float), s, t);
    if v.Int? { IntTextIsNumber(v.n); }
    if w.Int? { IntTextIsNumber(w.n); }
    if v.Int? && w.Int? { IntTextInjective(v.n, w.n); }
  }

  lemma SameLead(v: Json, w: Json, float: Double -> string, s: string, t: string)
    requires FaithfulFloats(float) && Text(v, float) + s == Text(w, float) + t
    ensures IsNumber(v) <==> IsNumber(w)
    ensures !IsNumber(v) ==> Lead(v) == Lead(w)
  {
    hide Text;
    LeadIsFirst(v, float);
    LeadIsFirst(w, float);
    var c := (Text(v, float) + s)[0];
    assert Text(v, float)[0] == c == Text(w, float)[0];
    if IsNumberChar(c) { NoEnd(c); }
  }

  /** A value is read back from its text and whatever follows it. */
  lemma {:induction false} TextSplits(v: Json, w: Json, float: Double -> string, s: string, t: string)
    requires FaithfulFloats(float) && Ends(s) && Ends(t)
    requires Text(v, float) + s == Text(w, float) + t
    ensures v == w && s == t
    decreases v, 1
  {
    hide Items, Members, Quoted, Sorted, FaithfulFloats;
    SameLead(v, w, float, s, t);
    if IsNumber(v) {
      NumericSplits(v, w, float, s, t);
    } else {
      match v {
        case Null => PlainSplits("null", s, t);
        case Bool(b) => PlainSplits(if b then "true" else "false", s, t);
        case Str(x) => QuotedSplits(x, w.s, s, t);
        case Arr(xs) =>
          Unwrap("[", Items(xs, float), "]", s);
          Unwrap("[", Items(w.items, float), "]", t);
          ItemsSplit(xs, w.items, float, s, t);
        case Obj(_) =>
          Unwrap("{", Members(v, Sorted(v.fields.Keys), float), "}", s);
          Unwrap("{", Members(w, Sorted(w.fields.Keys), float), "}", t);
          MembersSplit(v, w, Sorted(v.fields.Keys), Sorted(w.fields.Keys), float, s, t);
          SameMembers(v, w);
      }
    }
  }

  lemma PlainSplits(text: string, s: string, t: string)
    requires text + s == text + t
    ensures s == t
  {
    assert s == (text + s)[|text|..] == t;
  }

  lemma Unwrap(open: string, inner: string, close: string, s: string)
    requires |open| == 1
    ensures (open + inner + close + s)[1..] == inner + (close + s)
  {
  }

  lemma {:induction false} ItemsSplit(xs: seq<Json>, ys: seq<Json>, float: Double -> string, s: string, t: string)
    requires FaithfulFloats(float)
    requires Items(xs, float) + ("]" + s) == Items(ys, float) + ("]" + t)
    ensures xs == ys && s == t
    decreases xs, 0
  {
    hide Text, FaithfulFloats;
    if xs == [] || ys == [] {
      if xs != [] { FirstItem(xs, float, s); }
      if ys != [] { FirstItem(ys, float, t); }
      assert ([] + ("]" + s))[0] == ']' && ([] + ("]" + t))[0] == ']';
      assert ([] + ("]" + s))[1..] == s && ([] + ("]" + t))[1..] == t;
    } else {
      var sx := if |xs| == 1 then "]" + s else "," + (Items(xs[1..], float) + ("]" + s));
      var ty := if |ys| == 1 then "]" + t else "," + (Items(ys[1..], float) + ("]" + t));
      assert Items(xs, float) + ("]" + s) == Text(xs[0], float) + sx;
      assert Items(ys, float) + ("]" + t) == Text(ys[0], float) + ty;
      TextSplits(xs[0], ys[0], float, sx, ty);
      assert sx[0] == ty[0] && sx[1..] == ty[1..];
      if |xs| > 1 {
        ItemsSplit(xs[1..], ys[1..], float, s, t);
      }
      assert xs == [xs[0]] + xs[1..] && ys == [ys[0]] + ys[1..];
    }
  }

  lemma FirstItem(xs: seq<Json>, float: Double -> string, s: string)
    requires FaithfulFloats(float) && xs != []
    ensures (Items(xs, float) + ("]" + s))[0] != ']'
  {
    hide Text, FaithfulFloats;
    LeadIsFirst(xs[0], float);
  }

  lemma {:induction false} MembersSplit(v: Json, w: Json, ks: seq<string>, ls: seq<string>, float: Double -> string,
                                        s: string, t: string)
    requires FaithfulFloats(float) && v.Obj? && w.Obj?
    requires forall i :: 0 <= i < |ks| ==> ks[i] in v.fields
    requires forall i :: 0 <= i < |ls| ==> ls[i] in w.fields
    requires Members(v, ks, float) + ("}" + s) == Members(w, ls, float) + ("}" + t)
    ensures ks == ls && s == t && forall i :: 0 <= i < |ks| ==> v.fields[ks[i]] == w.fields[ks[i]]
    decreases v, 0, |ks|
  {
    hide Text, Quoted, FaithfulFloats;
    if ks == [] || ls == [] {
      if ks != [] { FirstMember(v, ks, float, s); }
      if ls != [] { FirstMember(w, ls, float, t); }
      assert ([] + ("}" + s))[0] == '}' && ([] + ("}" + t))[0] == '}';
      assert ([] + ("}" + s))[1..] == s && ([] + ("}" + t))[1..] == t;
    } else {
      var sx := if |ks| == 1 then "}" + s else "," + (Members(v, ks[1..], float) + ("}" + s));
      var ty := if |ls| == 1 then "}" + t else "," + (Members(w, ls[1..], float) + ("}" + t));
      MemberParts(v, ks, float, s, sx);
      MemberParts(w, ls, float, t, ty);
      QuotedSplits(ks[0], ls[0], ":" + (Text(v.fields[ks[0]], float) + sx), ":" + (Text(w.fields[ls[0]], float) + ty));
      assert (":" + (Text(v.fields[ks[0]], float) + sx))[1..] == Text(v.fields[ks[0]], float) + sx;
      assert (":" + (Text(w.fields[ls[0]], float) + ty))[1..] == Text(w.fields[ls[0]], float) + ty;
      TextSplits(v.fields[ks[0]], w.fields[ls[0]], float, sx, ty);
      assert sx[0] == ty[0] && sx[1..] == ty[1..];
      if |ks| > 1 {
        MembersSplit(v, w, ks[1..], ls[1..], float, s, t);
      }
      assert ks == [ks[0]] + ks[1..] && ls == [ls[0]] + ls[1..];
    }
  }

  lemma MemberParts(v: Json, ks: seq<string>, float: Double -> string, s: string, sx: string)
    requires v.Obj? && ks != [] && forall i :: 0 <= i < |ks| ==> ks[i] in v.fields
    requires sx == if |ks| == 1 then "}" + s else "," + (Members(v, ks[1..], float) + ("}" + s))
    ensures Members(v, ks, float) + ("}" + s) == Quoted(ks[0]) + (":" + (Text(v.fields[ks[0]], float) + sx))
  {
    hide Text, Quoted;
  }

  lemma FirstMember(v: Json, ks: seq<string>, float: Double -> string, s: string)
    requires v.Obj? && ks != [] && forall i :: 0 <= i < |ks| ==> ks[i] in v.fields
    ensures (Members(v, ks, float) + ("}" + s))[0] != '}'
  {
    hide Text, Escaped;
  }

  lemma SameMembers(v: Json, w: Json)
    requires v.Obj? && w.Obj? && Sorted(v.fields.Keys) == Sorted(w.fields.Keys)
    requires var ks := Sorted(v.fields.Keys);
             forall i :: 0 <= i < |ks| ==> ks[i] in v.fields && ks[i] in w.fields && v.fields[ks[i]] == w.fields[ks[i]]
    ensures v == w
  {
    hide Sorted;
    var ks := Sorted(v.fields.Keys);
    forall k | k in v.fields ensures k in w.fields && v.fields[k] == w.fields[k] {
      var i :| 0 <= i < |ks| && ks[i] == k;
    }
    assert v.fields == w.fields;
  }

  /** Two values have the same canonical text exactly when they are the same value. */
  lemma CanonicalIsInjective(v: Json, w: Json, float: Double -> string)
    requires FaithfulFloats(float)
    ensures Text(v, float) == Text(w, float) <==> v == w
  {
    hide Text, FaithfulFloats;
    if Text(v, float) == Text(w, float) {
      assert Text(v, float) + [] == Text(w, float) + [];
      TextSplits(v, w, float, [], []);
    }
  }

  /** The recursion of `canonical`, which appends to the text. */
  method Append(v: Json, float: Double -> string, before: string) returns (out: string)
    ensures out == before + Text(v, float)
    decreases v, 1
  {
    hide Items, Members, Sorted;
    match v {
      case Arr(xs) =>
        out := AppendItems(xs, float, before + "[");
        out := out + "]";
      case Obj(m) =>
        out := AppendMembers(v, Sorted(m.Keys), float, before + "{");
        out := out + "}";
      case _ => out := before + Text(v, float);
    }
  }

  method AppendItems(xs: seq<Json>, float: Double -> string, before: string) returns (out: string)
    ensures out == before + Items(xs, float)
    decreases xs, 0
  {
    hide Text, Items, Rest, RestOfItems;
    out := before;
    var i := 0;
    ItemsStart(xs, float);
    while i < |xs|
      invariant i <= |xs| && before + Items(xs, float) == out + RestOfItems(xs, i, float)
    {
      ItemsStep(xs, i, float);
      Regroup(out, Separator(i), Text(xs[i], float), RestOfItems(xs, i + 1, float));
      out := out + Separator(i);
      out := Append(xs[i], float, out);
      i := i + 1;
    }
    ItemsDone(xs, float);
    assert out + [] == out;
  }

  method AppendMembers(v: Json, keys: seq<string>, float: Double -> string, before: string) returns (out: string)
    requires v.Obj? && forall i :: 0 <= i < |keys| ==> keys[i] in v.fields
    ensures out == before + Members(v, keys, float)
    decreases v, 0
  {
    hide Text, Quoted, Members, Rest, RestOfMembers;
    out := before;
    var i := 0;
    MembersStart(v, keys, float);
    while i < |keys|
      invariant i <= |keys| && before + Members(v, keys, float) == out + RestOfMembers(v, keys, i, float)
    {
      MembersStep(v, keys, i, float);
      var name := Quoted(keys[i]) + ":";
      ghost var text, rest := Text(v.fields[keys[i]], float), RestOfMembers(v, keys, i + 1, float);
      Regroup(out, Separator(i), name, text + rest);
      Regroup(out + Separator(i) + name, [], text, rest);
      assert out + Separator(i) + name + [] == out + Separator(i) + name;
      assert [] + text + rest == text + rest;
      out := out + Separator(i) + name;
      out := Append(v.fields[keys[i]], float, out);
      i := i + 1;
    }
    MembersDone(v, keys, float);
    assert out + [] == out;
  }

  /** What comes before part `i`. */
  function Separator(i: nat): string {
    if i > 0 then "," else []
  }

  /** What is still to be written after `i` of `n` parts. */
  function Rest(text: string, i: nat, n: nat): string {
    if i < n then Separator(i) + text else []
  }

  ghost function RestOfItems(xs: seq<Json>, i: nat, float: Double -> string): string
    requires i <= |xs|
  {
    if i == 0 then Items(xs, float) else Rest(Items(xs[i..], float), i, |xs|)
  }

  ghost function RestOfMembers(v: Json, keys: seq<string>, i: nat, float: Double -> string): string
    requires v.Obj? && i <= |keys| && forall k :: 0 <= k < |keys| ==> keys[k] in v.fields
  {
    if i == 0 then Members(v, keys, float) else Rest(Members(v, keys[i..], float), i, |keys|)
  }

  lemma ItemsStart(xs: seq<Json>, float: Double -> string)
    ensures RestOfItems(xs, 0, float) == Items(xs, float)
  {
  }

  lemma MembersStart(v: Json, keys: seq<string>, float: Double -> string)
    requires v.Obj? && forall k :: 0 <= k < |keys| ==> keys[k] in v.fields
    ensures RestOfMembers(v, keys, 0, float) == Members(v, keys, float)
  {
  }

  lemma ItemsStep(xs: seq<Json>, i: nat, float: Double -> string)
    requires i < |xs|
    ensures RestOfItems(xs, i, float) == Separator(i) + Text(xs[i], float) + RestOfItems(xs, i + 1, float)
  {
    hide Text;
    assert xs[i..][1..] == xs[i + 1..] && xs[0..] == xs;
    if i + 1 == |xs| { assert Text(xs[i], float) + [] == Text(xs[i], float); }
  }

  lemma ItemsDone(xs: seq<Json>, float: Double -> string)
    ensures RestOfItems(xs, |xs|, float) == []
  {
    hide Text;
  }

  lemma MembersStep(v: Json, keys: seq<string>, i: nat, float: Double -> string)
    requires v.Obj? && i < |keys| && forall k :: 0 <= k < |keys| ==> keys[k] in v.fields
    ensures RestOfMembers(v, keys, i, float)
            == Separator(i) + (Quoted(keys[i]) + ":")
               + (Text(v.fields[keys[i]], float) + RestOfMembers(v, keys, i + 1, float))
  {
    hide Text, Quoted;
    assert keys[i..][1..] == keys[i + 1..] && keys[0..] == keys;
  }

  lemma MembersDone(v: Json, keys: seq<string>, float: Double -> string)
    requires v.Obj? && forall k :: 0 <= k < |keys| ==> keys[k] in v.fields
    ensures RestOfMembers(v, keys, |keys|, float) == []
  {
    hide Text, Quoted;
  }

  lemma Regroup(a: string, b: string, c: string, d: string)
    ensures a + (b + c + d) == a + b + c + d
  {
  }

  // ----- consent --------------------------------------------------------------------------------------------------

  const ENDPOINTS := "endpoints"

  /** The declared endpoint `field` of the block `key`, if it is a string. */
  function Endpoint(rest: Json, key: string, field: string): Option<string> {
    match Get(rest, key)
    case None => None
    case Some(block) =>
      match Get(block, field)
      case Some(Str(url)) => Some(url)
      case _ => None
  }

  function EndpointMap(remote: Option<string>, provider: Option<string>): map<string, Json> {
    (if remote.Some? then map["remote" := Str(remote.value)] else map[])
    + (if provider.Some? then map["provider" := Str(provider.value)] else map[])
  }

  /** `acknowledged_capabilities` of the capability block and the rest of the manifest. */
  function Acknowledged(capabilities: Json, rest: Json): Json {
    var endpoints := EndpointMap(Endpoint(rest, "remote", "url"), Endpoint(rest, "provider", "baseUrl"));
    if endpoints != map[] && capabilities.Obj? then Obj(capabilities.fields[ENDPOINTS := Obj(endpoints)])
    else capabilities
  }

  /** The text at `key` and `field` of the manifest. */
  predicate DeclaresAt(rest: Json, key: string, field: string, url: string) {
    && rest.Obj? && key in rest.fields && rest.fields[key].Obj?
    && field in rest.fields[key].fields && rest.fields[key].fields[field] == Str(url)
  }

  /** What a block that is an object shows: all its own members, and under `endpoints` those that are declared, if any
      is, each under its key. */
  lemma EndpointsShown(capabilities: Json, rest: Json)
    requires capabilities.Obj?
    ensures var shown := Acknowledged(capabilities, rest);
            && shown.Obj?
            && (forall k :: k != "endpoints" ==>
                  (k in shown.fields <==> k in capabilities.fields)
                  && (k in shown.fields ==> shown.fields[k] == capabilities.fields[k]))
            && (if exists url ::
                     DeclaresAt(rest, "remote", "url", url) || DeclaresAt(rest, "provider", "baseUrl", url)
                then
                  && "endpoints" in shown.fields && shown.fields["endpoints"].Obj?
                  && var m := shown.fields["endpoints"].fields;
                  && m.Keys <= {"remote", "provider"}
                  && (forall url :: "remote" in m && m["remote"] == Str(url) <==>
                        DeclaresAt(rest, "remote", "url", url))
                  && (forall url :: "provider" in m && m["provider"] == Str(url) <==>
                        DeclaresAt(rest, "provider", "baseUrl", url))
                  && ("remote" in m ==> m["remote"].Str?) && ("provider" in m ==> m["provider"].Str?)
                else shown == capabilities)
  {
    hide Endpoint, DeclaresAt;
    EndpointMeans(rest, "remote", "url");
    EndpointMeans(rest, "provider", "baseUrl");
    var r, p := Endpoint(rest, "remote", "url"), Endpoint(rest, "provider", "baseUrl");
    assert r.Some? ==> DeclaresAt(rest, "remote", "url", r.value);
    assert p.Some? ==> DeclaresAt(rest, "provider", "baseUrl", p.value);
    assert "remote" in EndpointMap(r, p) <==> r.Some?;
    assert "provider" in EndpointMap(r, p) <==> p.Some?;
    assert EndpointMap(r, p) == map[] <==> r.None? && p.None?;
  }

  lemma EndpointMeans(rest: Json, key: string, field: string)
    ensures forall url :: Endpoint(rest, key, field) == Some(url) <==> DeclaresAt(rest, key, field, url)
  {
  }

  lemma EndpointMapInjective(r: Option<string>, p: Option<string>, q: Option<string>, o: Option<string>)
    requires EndpointMap(r, p) == EndpointMap(q, o)
    ensures r == q && p == o
  {
    var a, b := EndpointMap(r, p), EndpointMap(q, o);
    assert "remote" in a <==> r.Some?;
    assert "remote" in b <==> q.Some?;
    assert "provider" in a <==> p.Some?;
    assert "provider" in b <==> o.Some?;
    assert r.Some? ==> a["remote"] == Str(r.value);
    assert q.Some? ==> b["remote"] == Str(q.value);
    assert p.Some? ==> a["provider"] == Str(p.value);
    assert o.Some? ==> b["provider"] == Str(o.value);
  }

  /** What is asked for: the capabilities and both endpoints. */
  predicate SameRequest(a: Json, rest: Json, b: Json, other: Json) {
    && a == b
    && Endpoint(rest, "remote", "url") == Endpoint(other, "remote", "url")
    && Endpoint(rest, "provider", "baseUrl") == Endpoint(other, "provider", "baseUrl")
  }

  predicate Declares(rest: Json) {
    Endpoint(rest, "remote", "url").Some? || Endpoint(rest, "provider", "baseUrl").Some?
  }

  /** A capability block the closed schema of `capabilities` allows. */
  predicate IsPlain(capabilities: Json) {
    capabilities.Obj? && ENDPOINTS !in capabilities.fields
  }

  /** The text consent is tied to determines the capabilities and both endpoints, for capability blocks that are objects
      without a member `endpoints`. */
  lemma ConsentIsInjective(a: Json, rest: Json, b: Json, other: Json, float: Double -> string)
    requires FaithfulFloats(float) && IsPlain(a) && IsPlain(b)
    ensures Text(Acknowledged(a, rest), float) == Text(Acknowledged(b, other), float) <==>
              SameRequest(a, rest, b, other)
  {
    hide Text, FaithfulFloats, Endpoint, EndpointMap;
    CanonicalIsInjective(Acknowledged(a, rest), Acknowledged(b, other), float);
    var r, p := Endpoint(rest, "remote", "url"), Endpoint(rest, "provider", "baseUrl");
    var q, o := Endpoint(other, "remote", "url"), Endpoint(other, "provider", "baseUrl");
    var x, y := Acknowledged(a, rest), Acknowledged(b, other);
    if x == y {
      assert x.fields - {ENDPOINTS} == a.fields && y.fields - {ENDPOINTS} == b.fields;
      assert ENDPOINTS in x.fields ==> x.fields[ENDPOINTS] == Obj(EndpointMap(r, p));
      assert ENDPOINTS in y.fields ==> y.fields[ENDPOINTS] == Obj(EndpointMap(q, o));
      EndpointMapInjective(r, p, q, o);
    }
  }

  /** A capability block that is no object does not show the endpoints. */
  lemma EndpointsLost(capabilities: Json, rest: Json, other: Json)
    requires !capabilities.Obj?
    ensures Acknowledged(capabilities, rest) == Acknowledged(capabilities, other)
  {
  }

  /** A member `endpoints` of the block's own is overwritten by the declared endpoints, so the block looks like the one
      without it. */
  lemma EndpointsOverwritten(capabilities: Json, own: Json, rest: Json)
    requires IsPlain(capabilities) && Declares(rest)
    ensures Acknowledged(Obj(capabilities.fields[ENDPOINTS := own]), rest) == Acknowledged(capabilities, rest)
  {
    hide Endpoint;
    var r, p := Endpoint(rest, "remote", "url"), Endpoint(rest, "provider", "baseUrl");
    EndpointMapEmpty(r, p);
    var shown := Obj(EndpointMap(r, p));
    assert capabilities.fields[ENDPOINTS := own][ENDPOINTS := shown] == capabilities.fields[ENDPOINTS := shown];
  }

  lemma EndpointMapEmpty(r: Option<string>, p: Option<string>)
    ensures EndpointMap(r, p) == map[] <==> r == None && p == None
  {
    assert EndpointMap(None, None) == map[];
    if EndpointMap(r, p) == map[] { EndpointMapInjective(r, p, None, None); }
  }

  function RemoteAt(url: string): Json {
    Obj(map["remote" := Obj(map["url" := Str(url)])])
  }

  /** A block that writes out the endpoints itself looks like one whose endpoints are declared outside it. */
  lemma EndpointsForged(url: string)
    ensures Acknowledged(Obj(map[ENDPOINTS := Obj(map["remote" := Str(url)])]), Obj(map[]))
            == Acknowledged(Obj(map[]), RemoteAt(url))
  {
    var rest := RemoteAt(url);
    assert Endpoint(rest, "remote", "url") == Some(url) && Endpoint(rest, "provider", "baseUrl") == None;
    assert EndpointMap(Some(url), None) == map["remote" := Str(url)];
    EndpointMapEmpty(None, None);
    EndpointMapEmpty(Some(url), None);
  }

  /** No manifest asks for something else than one with this block and has the same text, be its own block plain or this
      one. */
  ghost predicate ConsentTells(capabilities: Json, float: Double -> string) {
    forall b, rest, other | (b == capabilities || IsPlain(b)) && Collide(capabilities, rest, b, other, float) ::
      SameRequest(capabilities, rest, b, other)
  }

  predicate Collide(a: Json, rest: Json, b: Json, other: Json, float: Double -> string) {
    Text(Acknowledged(a, rest), float) == Text(Acknowledged(b, other), float)
  }

  /** The condition is exact: every other block collides with a plain one, or with itself beside other endpoints. */
  lemma ConsentTellsExactly(capabilities: Json, float: Double -> string)
    requires FaithfulFloats(float)
    ensures ConsentTells(capabilities, float) <==> IsPlain(capabilities)
  {
    hide Text, FaithfulFloats, Endpoint, Acknowledged;
    var rest := RemoteAt("u");
    RemoteIsDeclared("u");
    if IsPlain(capabilities) {
      forall b, rest, other | IsPlain(b) && Collide(capabilities, rest, b, other, float)
        ensures SameRequest(capabilities, rest, b, other)
      {
        ConsentIsInjective(capabilities, rest, b, other, float);
      }
    } else if !capabilities.Obj? {
      EndpointsLost(capabilities, rest, Null);
      NothingDeclared();
      assert Collide(capabilities, rest, capabilities, Null, float);
      assert !SameRequest(capabilities, rest, capabilities, Null);
    } else {
      var plain := Obj(capabilities.fields - {ENDPOINTS});
      assert capabilities.fields == plain.fields[ENDPOINTS := capabilities.fields[ENDPOINTS]];
      EndpointsOverwritten(plain, capabilities.fields[ENDPOINTS], rest);
      assert Collide(capabilities, rest, plain, rest, float);
      assert !SameRequest(capabilities, rest, plain, rest);
    }
  }

  lemma RemoteIsDeclared(url: string)
    ensures Endpoint(RemoteAt(url), "remote", "url") == Some(url) && Declares(RemoteAt(url))
  {
  }

  lemma NothingDeclared()
    ensures Endpoint(Null, "remote", "url") == None
  {
  }

  // ----- the content version --------------------------------------------------------------------------------------

  datatype PayloadFile = PayloadFile(rel: seq<Byte>, data: seq<Byte>, exec: bool)

  function Pow256(n: nat): nat {
    if n == 0 then 1 else 256 * Pow256(n - 1)
  }

  /** `n` in `width` bytes, the highest first. */
  function BigEndian(n: nat, width: nat): (b: seq<Byte>)
    requires n < Pow256(width)
    ensures |b| == width
  {
    if width == 0 then [] else BigEndian(n / 256, width - 1) + [n % 256]
  }

  lemma {:induction false} BigEndianInjective(a: nat, b: nat, width: nat)
    requires a < Pow256(width) && b < Pow256(width) && BigEndian(a, width) == BigEndian(b, width)
    ensures a == b
  {
    if width > 0 {
      var x, y := BigEndian(a / 256, width - 1), BigEndian(b / 256, width - 1);
      assert x == BigEndian(a, width)[..width - 1] == BigEndian(b, width)[..width - 1] == y;
      assert BigEndian(a, width)[width - 1] == BigEndian(b, width)[width - 1];
      BigEndianInjective(a / 256, b / 256, width - 1);
    }
  }

  /** A part with its length before it. */
  function Framed(part: seq<Byte>): seq<Byte>
    requires |part| < Pow256(8)
  {
    BigEndian(|part|, 8) + part
  }

  lemma FramedSplits(a: seq<Byte>, b: seq<Byte>, s: seq<Byte>, t: seq<Byte>)
    requires |a| < Pow256(8) && |b| < Pow256(8) && Framed(a) + s == Framed(b) + t
    ensures a == b && s == t
  {
    hide BigEndian, Pow256;
    var all := Framed(a) + s;
    assert all[..8] == BigEndian(|a|, 8) && (Framed(b) + t)[..8] == BigEndian(|b|, 8);
    BigEndianInjective(|a|, |b|, 8);
    assert all[8..8 + |a|] == a && (Framed(b) + t)[8..8 + |b|] == b;
    assert all[8 + |a|..] == s && (Framed(b) + t)[8 + |b|..] == t;
  }

  predicate Fits(f: PayloadFile) {
    |f.rel| < Pow256(8) && |f.data| < Pow256(8)
  }

  function FileStream(f: PayloadFile): seq<Byte>
    requires Fits(f)
  {
    Framed(f.rel) + ([if f.exec then 1 else 0] + Framed(f.data))
  }

  function FilesStream(files: seq<PayloadFile>): seq<Byte>
    requires forall i :: 0 <= i < |files| ==> Fits(files[i])
  {
    if files == [] then [] else FileStream(files[0]) + FilesStream(files[1..])
  }

  /** What `content_version` hashes: the domain tag, the template without its version and date, the sorted files. */
  function ContentStream(tag: seq<Byte>, template: seq<Byte>, files: seq<PayloadFile>): seq<Byte>
    requires |template| < Pow256(8) && forall i :: 0 <= i < |files| ==> Fits(files[i])
  {
    tag + (Framed(template) + FilesStream(files))
  }

  lemma FileSplits(f: PayloadFile, g: PayloadFile, s: seq<Byte>, t: seq<Byte>)
    requires Fits(f) && Fits(g) && FileStream(f) + s == FileStream(g) + t
    ensures f == g && s == t
  {
    hide Framed, Pow256;
    var x: seq<Byte> := [if f.exec then 1 else 0] + Framed(f.data) + s;
    var y: seq<Byte> := [if g.exec then 1 else 0] + Framed(g.data) + t;
    assert FileStream(f) + s == Framed(f.rel) + x && FileStream(g) + t == Framed(g.rel) + y;
    FramedSplits(f.rel, g.rel, x, y);
    assert x[0] == y[0] && x[1..] == Framed(f.data) + s && y[1..] == Framed(g.data) + t;
    FramedSplits(f.data, g.data, s, t);
  }

  lemma {:induction false} FilesSplit(fs: seq<PayloadFile>, gs: seq<PayloadFile>)
    requires forall i :: 0 <= i < |fs| ==> Fits(fs[i])
    requires forall i :: 0 <= i < |gs| ==> Fits(gs[i])
    requires FilesStream(fs) == FilesStream(gs)
    ensures fs == gs
  {
    hide FileStream;
    if fs != [] { FileIsLong(fs[0]); }
    if gs != [] { FileIsLong(gs[0]); }
    if fs != [] && gs != [] {
      FileSplits(fs[0], gs[0], FilesStream(fs[1..]), FilesStream(gs[1..]));
      FilesSplit(fs[1..], gs[1..]);
      assert fs == [fs[0]] + fs[1..] && gs == [gs[0]] + gs[1..];
    }
  }

  lemma FileIsLong(f: PayloadFile)
    requires Fits(f)
    ensures |FileStream(f)| >= 17
  {
    hide Pow256, BigEndian;
  }

  /** The hashed bytes determine the stripped template and the sorted files. */
  lemma ContentStreamIsInjective(tag: seq<Byte>, template: seq<Byte>, other: seq<Byte>, fs: seq<PayloadFile>,
                                 gs: seq<PayloadFile>)
    requires |template| < Pow256(8) && |other| < Pow256(8)
    requires forall i :: 0 <= i < |fs| ==> Fits(fs[i])
    requires forall i :: 0 <= i < |gs| ==> Fits(gs[i])
    ensures ContentStream(tag, template, fs) == ContentStream(tag, other, gs) <==> template == other && fs == gs
  {
    hide Pow256, Framed, FilesStream, Fits;
    if ContentStream(tag, template, fs) == ContentStream(tag, other, gs) {
      assert ContentStream(tag, template, fs)[|tag|..] == Framed(template) + FilesStream(fs);
      assert ContentStream(tag, other, gs)[|tag|..] == Framed(other) + FilesStream(gs);
      FramedSplits(template, other, FilesStream(fs), FilesStream(gs));
      FilesSplit(fs, gs);
    }
  }

  // The stream, read.

  /** The number in the bytes, the highest first. */
  function Number(b: seq<Byte>): nat {
    if b == [] then 0 else 256 * Number(b[..|b| - 1]) + b[|b| - 1] as int
  }

  /** Eight bytes of length and as many bytes as they say, and what follows. */
  function ReadPart(s: seq<Byte>): (r: Option<(seq<Byte>, seq<Byte>)>)
    ensures r.Some? ==> |r.value.1| + 8 <= |s|
  {
    if |s| < 8 || |s| - 8 < Number(s[..8]) then None
    else Some((s[8..8 + Number(s[..8])], s[8 + Number(s[..8])..]))
  }

  /** Files to the end of the bytes: a path, a byte for the exec bit, the contents. */
  function ReadFiles(s: seq<Byte>): Option<seq<PayloadFile>>
    decreases |s|
  {
    if s == [] then Some([])
    else
      var rel := ReadPart(s);
      if rel.None? || rel.value.1 == [] || rel.value.1[0] > 1 then None
      else
        var data := ReadPart(rel.value.1[1..]);
        if data.None? then None
        else
          var more := ReadFiles(data.value.1);
          if more.None? then None
          else Some([PayloadFile(rel.value.0, data.value.0, rel.value.1[0] == 1)] + more.value)
  }

  lemma {:induction false} BigEndianIsRead(n: nat, width: nat)
    requires n < Pow256(width)
    ensures Number(BigEndian(n, width)) == n
  {
    if width > 0 {
      BigEndianIsRead(n / 256, width - 1);
      var b := BigEndian(n, width);
      assert b[..width - 1] == BigEndian(n / 256, width - 1);
    }
  }

  lemma PartIsRead(part: seq<Byte>, rest: seq<Byte>)
    requires |part| < Pow256(8)
    ensures ReadPart(Framed(part) + rest) == Some((part, rest))
  {
    hide Pow256, BigEndian, Number;
    BigEndianIsRead(|part|, 8);
    var s := Framed(part) + rest;
    assert s[..8] == BigEndian(|part|, 8);
    assert s[8..8 + |part|] == part && s[8 + |part|..] == rest;
  }

  lemma {:induction false} FilesAreRead(files: seq<PayloadFile>)
    requires forall i :: 0 <= i < |files| ==> Fits(files[i])
    ensures ReadFiles(FilesStream(files)) == Some(files)
  {
    hide Pow256, Framed, ReadPart, Fits;
    if files != [] {
      var f, rest := files[0], FilesStream(files[1..]);
      FilesAreRead(files[1..]);
      FileIsRead(f, rest);
      assert files == [f] + files[1..];
    }
  }

  lemma FileIsRead(f: PayloadFile, rest: seq<Byte>)
    requires Fits(f)
    ensures var s := FileStream(f) + rest;
            var rel := ReadPart(s);
            && s != [] && rel.Some? && rel.value.0 == f.rel && rel.value.1 != []
            && rel.value.1[0] == (if f.exec then 1 else 0)
            && ReadPart(rel.value.1[1..]) == Some((f.data, rest))
  {
    hide Pow256, Framed, ReadPart;
    var tail := [if f.exec then 1 else 0] + Framed(f.data) + rest;
    assert FileStream(f) + rest == Framed(f.rel) + tail;
    PartIsRead(f.rel, tail);
    assert tail[1..] == Framed(f.data) + rest;
    PartIsRead(f.data, rest);
  }

  /** The hashed bytes are read back: behind the tag the template with its length before it, and then the files. */
  lemma ContentStreamIsRead(tag: seq<Byte>, template: seq<Byte>, files: seq<PayloadFile>)
    requires |template| < Pow256(8) && forall i :: 0 <= i < |files| ==> Fits(files[i])
    ensures var s := ContentStream(tag, template, files);
            && |s| >= |tag| && s[..|tag|] == tag
            && ReadPart(s[|tag|..]).Some? && ReadPart(s[|tag|..]).value.0 == template
            && ReadFiles(ReadPart(s[|tag|..]).value.1) == Some(files)
  {
    hide Pow256, Framed, ReadPart, ReadFiles, FilesStream, Fits;
    var s := ContentStream(tag, template, files);
    assert s[|tag|..] == Framed(template) + FilesStream(files);
    PartIsRead(template, FilesStream(files));
    FilesAreRead(files);
  }

  /** The loop of `content_version` over the sorted files. */
  method HashedBytes(tag: seq<Byte>, template: seq<Byte>, files: seq<PayloadFile>) returns (digest: seq<Byte>)
    requires |template| < Pow256(8) && forall i :: 0 <= i < |files| ==> Fits(files[i])
    ensures digest == ContentStream(tag, template, files)
  {
    hide Pow256, Framed;
    digest := tag;
    digest := digest + Framed(template);
    var i := 0;
    assert files[0..] == files;
    while i < |files|
      invariant i <= |files| && ContentStream(tag, template, files) == digest + FilesStream(files[i..])
    {
      FileParts(digest, files[i], FilesStream(files[i + 1..]));
      digest := digest + Framed(files[i].rel);
      digest := digest + [if files[i].exec then 1 else 0];
      digest := digest + Framed(files[i].data);
      assert files[i..][1..] == files[i + 1..];
      i := i + 1;
    }
    assert digest + [] == digest;
  }

  lemma FileParts(before: seq<Byte>, f: PayloadFile, rest: seq<Byte>)
    requires Fits(f)
    ensures before + (FileStream(f) + rest)
            == before + Framed(f.rel) + [if f.exec then 1 else 0] + Framed(f.data) + rest
  {
    hide Pow256, Framed;
  }
}
