/** The read-only SFTP session: cumulative budgets, directory listings, and the size of the reply a listing makes. The
    server is a script of what each exchange comes to. */
module Sftp {
  import opened JsonModel
  import opened Texts
  import Canonical
  import opened Sequences

  datatype Limits = Limits(
    fileBytes: nat, readBytes: nat, entries: nat, depth: nat, packetBytes: nat, metadataBytes: nat, requests: nat)

  const READ_BYTES: nat := 64 * 1024
  const METADATA_BYTES: nat := 1024 * 1024

  /** The limits that `Connect::validate` lets through. */
  predicate ValidLimits(l: Limits) {
    && l.fileBytes <= 1024 * 1024 * 1024
    && l.readBytes <= 8 * 1024 * 1024 * 1024
    && l.entries <= 100_000
    && l.depth <= 128
    && 4096 <= l.packetBytes <= METADATA_BYTES
    && 1024 <= l.metadataBytes <= METADATA_BYTES
    && 0 < l.requests <= 100_000
  }

  datatype Failure = TimedOut | LimitReached | PathDenied | ProtocolError | NotFound | UnsupportedType
  datatype Result<T> = Ok(value: T) | Err(failure: Failure)

  /** One exchange with the server. */
  datatype Exchange =
    | Page(files: seq<string>)
    | EndReached
    | Attributes(isFile: bool, size: nat)
    | Bytes(data: seq<int>)
    | Refused(failure: Failure)

  // ----- text sizes -----------------------------------------------------------------------------------------------

  /** The bytes of a character in UTF-8. */
  function Width(c: char): (n: nat)
    ensures 1 <= n <= 4
  {
    if c < '\U{80}' then 1 else if c < '\U{800}' then 2 else if c < '\U{10000}' then 3 else 4
  }

  /** The code points that UTF-8 writes in at most `n` bytes, `2^7`, `2^11`, `2^16` and `2^21` of them (RFC 3629). */
  function Fitting(n: nat): nat {
    match n
    case 0 => 0
    case 1 => 0x80
    case 2 => 0x800
    case 3 => 0x1_0000
    case _ => 0x20_0000
  }

  /** A character takes the fewest bytes that hold it. */
  lemma WidthMeans(c: char)
    ensures Fitting(Width(c) - 1) <= c as int < Fitting(Width(c))
  {
  }

  function Size(s: string): nat {
    if s == [] then 0 else Width(s[0]) + Size(s[1..])
  }

  lemma {:induction false} SizeOfConcat(a: string, b: string)
    ensures Size(a + b) == Size(a) + Size(b)
  {
    if a == [] {
      assert a + b == b;
    } else {
      assert (a + b)[1..] == a[1..] + b;
      SizeOfConcat(a[1..], b);
    }
  }

  lemma {:induction false} SizeOfAscii(s: string)
    requires forall i :: 0 <= i < |s| ==> s[i] < '\U{80}'
    ensures Size(s) == |s|
  {
    if s != [] { SizeOfAscii(s[1..]); }
  }

  /** A 64-bit number is at most 20 bytes long. */
  lemma IdLength(id: nat)
    requires id < U64
    ensures Size(Digits(id)) <= 20
  {
    DigitsOfU64(id);
    DigitsText(id);
    SizeOfAscii(Digits(id));
  }

  // ----- the reply of a listing -----------------------------------------------------------------------------------

  function Strings(names: seq<string>): (items: seq<Json>)
    ensures |items| == |names| && forall i :: 0 <= i < |names| ==> items[i] == Str(names[i])
  {
    seq(|names|, i requires 0 <= i < |names| => Str(names[i]))
  }

  function Reply(id: nat, names: seq<string>): Json {
    Obj(map[KEY_V := Int(1), KEY_ID := Int(id), KEY_OK := Bool(true), KEY_ENTRIES := Arr(Strings(names))])
  }

  /** What a listing counts for its names: each as a JSON string and a separator. */
  function Encoded(names: seq<string>): nat {
    if names == [] then 0 else Encoded(names[..|names| - 1]) + Size(Canonical.Quoted(names[|names| - 1])) + 1
  }

  lemma {:induction false} EncodedCons(name: string, names: seq<string>)
    ensures Encoded([name] + names) == Size(Canonical.Quoted(name)) + 1 + Encoded(names)
  {
    hide Canonical.Quoted;
    if names == [] {
      assert [name] + names == [name] && [name][..0] == [];
    } else {
      assert ([name] + names)[..|names|] == [name] + names[..|names| - 1];
      EncodedCons(name, names[..|names| - 1]);
    }
  }

  lemma {:induction false} ItemsSize(names: seq<string>, float: Double -> string)
    ensures Size(Canonical.Items(Strings(names), float)) <= Encoded(names)
    decreases |names|
  {
    hide Canonical.Quoted, Canonical.Items, Encoded, Size;
    ItemsNone(float);
    if names != [] {
      var rest := names[1..];
      assert names == [names[0]] + rest;
      EncodedCons(names[0], rest);
      ItemsSize(rest, float);
      ItemsParts(names, float);
      var first, more := Canonical.Quoted(names[0]), Canonical.Items(Strings(rest), float);
      SizeOfConcat(first, if |names| == 1 then [] else "," + more);
      SizeOfConcat(",", more);
    }
  }

  lemma ItemsNone(float: Double -> string)
    ensures Canonical.Items(Strings([]), float) == [] && Encoded([]) == 0 && Size([]) == 0 && Size(",") == 1
  {
  }

  lemma ItemsParts(names: seq<string>, float: Double -> string)
    requires names != []
    ensures Canonical.Items(Strings(names), float)
            == Canonical.Quoted(names[0])
               + (if |names| == 1 then [] else "," + Canonical.Items(Strings(names[1..]), float))
  {
    hide Canonical.Quoted;
    assert Strings(names)[1..] == Strings(names[1..]);
  }

  lemma LeastComesFirst(keys: set<string>, k: string)
    requires Canonical.IsLeast(k, keys)
    ensures Canonical.Sorted(keys) == [k] + Canonical.Sorted(keys - {k})
  {
    Canonical.LeastIsUnique(keys);
  }

  lemma FirstLess(a: string, b: string)
    requires a != [] && b != [] && a[0] < b[0]
    ensures Canonical.Leq(a, b)
  {
  }

  lemma LeastOf(k: string, rest: set<string>)
    requires k != [] && forall x :: x in rest ==> x != [] && k[0] < x[0]
    ensures Canonical.Sorted({k} + rest) == [k] + Canonical.Sorted(rest)
  {
    hide Canonical.Leq, Canonical.Sorted;
    Canonical.LeqTotal(k, k);
    forall x | x in rest ensures Canonical.Leq(k, x) { FirstLess(k, x); }
    LeastComesFirst({k} + rest, k);
    assert {k} + rest - {k} == rest;
  }

  lemma Ascending(a: string, b: string, c: string, d: string)
    requires a != [] && b != [] && c != [] && d != [] && a[0] < b[0] < c[0] < d[0]
    ensures Canonical.Sorted({a} + ({b} + ({c} + ({d} + {})))) == [a, b, c, d]
  {
    hide Canonical.Sorted, Canonical.Leq;
    LeastOf(a, {b} + ({c} + ({d} + {})));
    LeastOf(b, {c} + ({d} + {}));
    LeastOf(c, {d} + {});
    LeastOf(d, {});
    NothingSorted();
  }

  lemma NothingSorted()
    ensures Canonical.Sorted({}) == []
  {
  }

  const KEY_V := "v"
  const KEY_ID := "id"
  const KEY_OK := "ok"
  const KEY_ENTRIES := "entries"

  /** The size of the members of an object. */
  function MembersSize(v: Json, keys: seq<string>, float: Double -> string): nat
    requires v.Obj? && forall i :: 0 <= i < |keys| ==> keys[i] in v.fields
  {
    if keys == [] then 0
    else
      Size(Canonical.Quoted(keys[0])) + 1 + Size(Canonical.Text(v.fields[keys[0]], float))
      + if |keys| == 1 then 0 else 1 + MembersSize(v, keys[1..], float)
  }

  lemma {:induction false} SizeOfMembers(v: Json, keys: seq<string>, float: Double -> string)
    requires v.Obj? && forall i :: 0 <= i < |keys| ==> keys[i] in v.fields
    ensures Size(Canonical.Members(v, keys, float)) == MembersSize(v, keys, float)
    decreases |keys|
  {
    hide Canonical.Quoted, Canonical.Text;
    if keys != [] {
      var name, text := Canonical.Quoted(keys[0]), Canonical.Text(v.fields[keys[0]], float);
      var rest := if |keys| == 1 then [] else "," + Canonical.Members(v, keys[1..], float);
      if |keys| > 1 {
        SizeOfMembers(v, keys[1..], float);
        SizeOfConcat(",", Canonical.Members(v, keys[1..], float));
      }
      SizeOfConcat(name + ":" + text, rest);
      SizeOfConcat(name + ":", text);
      SizeOfConcat(name, ":");
    }
  }

  lemma {:induction false} Plain(s: string)
    requires forall i :: 0 <= i < |s| ==> 'a' <= s[i] <= 'z'
    ensures Canonical.Escaped(s) == s
  {
    if s != [] { Plain(s[1..]); }
  }

  lemma QuotedSize(s: string)
    requires forall i :: 0 <= i < |s| ==> 'a' <= s[i] <= 'z'
    ensures Size(Canonical.Quoted(s)) == |s| + 2
  {
    Plain(s);
    SizeOfAscii(Canonical.Quoted(s));
  }

  lemma FourMembers(v: Json, a: string, b: string, c: string, d: string, float: Double -> string)
    requires v.Obj? && a in v.fields && b in v.fields && c in v.fields && d in v.fields
    ensures MembersSize(v, [a, b, c, d], float)
            == Size(Canonical.Quoted(a)) + Size(Canonical.Quoted(b))
               + Size(Canonical.Quoted(c)) + Size(Canonical.Quoted(d))
               + Size(Canonical.Text(v.fields[a], float)) + Size(Canonical.Text(v.fields[b], float))
               + Size(Canonical.Text(v.fields[c], float)) + Size(Canonical.Text(v.fields[d], float)) + 7
  {
    hide Canonical.Quoted, Canonical.Text, Size;
    assert [a, b, c, d][1..] == [b, c, d] && [b, c, d][1..] == [c, d] && [c, d][1..] == [d];
    assert MembersSize(v, [d], float) == Size(Canonical.Quoted(d)) + 1 + Size(Canonical.Text(v.fields[d], float));
    assert MembersSize(v, [c, d], float)
           == Size(Canonical.Quoted(c)) + 1 + Size(Canonical.Text(v.fields[c], float)) + 1 + MembersSize(v, [d], float);
    assert MembersSize(v, [b, c, d], float)
           == Size(Canonical.Quoted(b)) + 1 + Size(Canonical.Text(v.fields[b], float)) + 1
              + MembersSize(v, [c, d], float);
  }

  lemma ScalarSizes(id: nat, float: Double -> string)
    requires id < U64
    ensures Size(Canonical.Text(Int(1), float)) == 1 && Size(Canonical.Text(Bool(true), float)) == 4
    ensures Size(Canonical.Text(Int(id), float)) <= 20
  {
    hide Digits;
    IdLength(id);
    OneDigit();
    SizeOfAscii("true");
  }

  lemma OneDigit()
    ensures Size(Digits(1)) == 1
  {
  }

  lemma ArraySize(names: seq<string>, float: Double -> string)
    ensures Size(Canonical.Text(Arr(Strings(names)), float)) <= Encoded(names) + 2
  {
    hide Canonical.Items;
    ItemsSize(names, float);
    var items := Canonical.Items(Strings(names), float);
    SizeOfConcat("[" + items, "]");
    SizeOfConcat("[", items);
  }

  lemma ReplyNames()
    ensures Size(Canonical.Quoted(KEY_ENTRIES)) == 9 && Size(Canonical.Quoted(KEY_ID)) == 4
    ensures Size(Canonical.Quoted(KEY_OK)) == 4 && Size(Canonical.Quoted(KEY_V)) == 3
  {
    hide Canonical.Quoted;
    QuotedSize(KEY_ENTRIES);
    QuotedSize(KEY_ID);
    QuotedSize(KEY_OK);
    QuotedSize(KEY_V);
  }

  lemma TextOfFour(v: Json, a: string, b: string, c: string, d: string, float: Double -> string)
    requires v.Obj? && v.fields.Keys == {a, b, c, d}
    requires a != [] && b != [] && c != [] && d != [] && a[0] < b[0] < c[0] < d[0]
    ensures Canonical.Text(v, float) == "{" + Canonical.Members(v, [a, b, c, d], float) + "}"
  {
    hide Canonical.Members, Canonical.Sorted;
    Ascending(a, b, c, d);
    assert v.fields.Keys == {a} + ({b} + ({c} + ({d} + {})));
  }

  lemma ReplyKeys(id: nat, names: seq<string>)
    ensures Reply(id, names).Obj? && Reply(id, names).fields.Keys == {KEY_ENTRIES, KEY_ID, KEY_OK, KEY_V}
  {
  }

  lemma NamesAscend()
    ensures |KEY_ENTRIES| > 0 && |KEY_ID| > 0 && |KEY_OK| > 0 && |KEY_V| > 0
    ensures KEY_ENTRIES[0] < KEY_ID[0] < KEY_OK[0] < KEY_V[0]
  {
  }

  lemma ReplyText(id: nat, names: seq<string>, float: Double -> string)
    ensures var v := Reply(id, names);
            && v.Obj? && v.fields.Keys == {KEY_ENTRIES, KEY_ID, KEY_OK, KEY_V}
            && Canonical.Text(v, float) == "{" + Canonical.Members(v, [KEY_ENTRIES, KEY_ID, KEY_OK, KEY_V], float) + "}"
  {
    hide Canonical.Members, Canonical.Text, Reply;
    ReplyKeys(id, names);
    NamesAscend();
    TextOfFour(Reply(id, names), KEY_ENTRIES, KEY_ID, KEY_OK, KEY_V, float);
  }

  lemma ReplyFields(id: nat, names: seq<string>)
    ensures var v := Reply(id, names);
            && v.Obj? && KEY_ENTRIES in v.fields && KEY_ID in v.fields && KEY_OK in v.fields && KEY_V in v.fields
            && v.fields[KEY_ENTRIES] == Arr(Strings(names)) && v.fields[KEY_ID] == Int(id)
            && v.fields[KEY_OK] == Bool(true) && v.fields[KEY_V] == Int(1)
  {
    assert && KEY_ENTRIES != KEY_ID && KEY_ENTRIES != KEY_OK && KEY_ENTRIES != KEY_V
           && KEY_ID != KEY_OK && KEY_ID != KEY_V && KEY_OK != KEY_V by {
      assert KEY_ENTRIES[0] != KEY_ID[0] && KEY_ENTRIES[0] != KEY_OK[0] && KEY_ENTRIES[0] != KEY_V[0];
      assert KEY_ID[0] != KEY_OK[0] && KEY_ID[0] != KEY_V[0] && KEY_OK[0] != KEY_V[0];
    }
  }

  /** A reply is the count of its names and at most 56 bytes more. */
  lemma ReplySize(id: nat, names: seq<string>, float: Double -> string)
    requires id < U64
    ensures Size(Canonical.Text(Reply(id, names), float)) <= Encoded(names) + 56
  {
    hide Canonical.Quoted, Canonical.Text, Canonical.Members, MembersSize, Size, Encoded, Reply;
    var reply := Reply(id, names);
    ReplyText(id, names, float);
    ReplyFields(id, names);
    Braces(Canonical.Members(reply, [KEY_ENTRIES, KEY_ID, KEY_OK, KEY_V], float));
    SizeOfMembers(reply, [KEY_ENTRIES, KEY_ID, KEY_OK, KEY_V], float);
    FourMembers(reply, KEY_ENTRIES, KEY_ID, KEY_OK, KEY_V, float);
    ReplyNames();
    ScalarSizes(id, float);
    ArraySize(names, float);
  }

  lemma Braces(members: string)
    ensures Size("{" + members + "}") == Size(members) + 2
  {
    SizeOfConcat("{" + members, "}");
    SizeOfConcat("{", members);
  }

  // ----- the session ----------------------------------------------------------------------------------------------

  /** A name the listing takes. */
  predicate NameOk(name: string) {
    && name != [] && Size(name) <= 8192
    && forall i :: 0 <= i < |name| ==> name[i] != '/' && name[i] != '\\' && !IsControl(name[i])
  }

  /** The entries that count as names: all but the two dots. */
  function Listed(files: seq<string>): seq<string> {
    if files == [] then []
    else
      var rest, last := Listed(files[..|files| - 1]), files[|files| - 1];
      if last == "." || last == ".." then rest else rest + [last]
  }

  /** The shape that `Budget::path` asks for. */
  predicate PathOk(path: string, depth: nat) {
    var parts := Split(path, '/');
    && Size(path) <= 8192
    && path != [] && path[0] == '/'
    && (forall c :: c in path ==> c != '\\' && !IsControl(c))
    && (forall i :: 1 <= i < |parts| ==> parts[i] != "." && parts[i] != ".." && (parts[i] != [] || path == "/"))
    && NonEmpty(parts) <= depth
  }

  function NonEmpty(parts: seq<string>): nat {
    if parts == [] then 0 else (if parts[0] == [] then 0 else 1) + NonEmpty(parts[1..])
  }

  /** A character that no path may have: a control character or a backslash. */
  predicate IsBarred(c: char) {
    (c as int) < 0x20 || 0x7f <= (c as int) < 0xa0 || c == '\\'
  }

  /** A name is taken if and only if it is not empty, at most 8192 bytes, and has no slash and no barred character. */
  lemma NameMeans(name: string)
    ensures NameOk(name) <==>
              name != "" && Size(name) <= 8192 && '/' !in name && forall c :: c in name ==> !IsBarred(c)
  {
    hide Size;
    if forall c :: c in name ==> !IsBarred(c) {
      assert forall i :: 0 <= i < |name| ==> !IsBarred(name[i]);
    }
  }

  /** A piece behind the first slash is a name, and not one of the two dots. */
  ghost predicate CleanPieces(path: string) {
    forall i: nat, j: nat :: IsPiece(path, i, j) && i > 0 ==> CleanPiece(path[i..j])
  }

  predicate CleanPiece(piece: string) {
    piece != "" && piece != "." && piece != ".."
  }

  /** A path is taken if and only if it starts with a slash, has at most 8192 bytes and no barred character, and is the
      root, or has nothing but clean pieces behind its slashes, and no more slashes than the depth. */
  lemma PathMeans(path: string, depth: nat)
    ensures PathOk(path, depth) <==>
              && Size(path) <= 8192 && path != "" && path[0] == '/' && (forall c :: c in path ==> !IsBarred(c))
              && (path == "/" || (CleanPieces(path) && multiset(path)['/'] <= depth))
  {
    hide Size, Split, CleanPieces, NonEmpty;
    var parts := Split(path, '/');
    if path != "" && path[0] == '/' {
      SegmentCount(path);
      FirstIsEmpty(path);
      if path == "/" {
        RootParts();
      } else {
        PartsAreClean(path);
        if CleanPieces(path) { AllNonEmpty(parts[1..]); }
      }
    }
  }

  lemma FirstIsEmpty(path: string)
    requires path != "" && path[0] == '/'
    ensures Split(path, '/')[0] == [] && |Split(path, '/')| > 1
    ensures NonEmpty(Split(path, '/')) == NonEmpty(Split(path, '/')[1..])
  {
  }

  lemma RootParts()
    ensures Split("/", '/') == [[], []] && NonEmpty(Split("/", '/')) == 0
  {
    assert "/"[1..] == "";
  }

  lemma PartsAreClean(path: string)
    requires path != "" && path[0] == '/'
    ensures CleanPieces(path) <==> forall k :: 1 <= k < |Split(path, '/')| ==> CleanPiece(Split(path, '/')[k])
  {
    hide Split, CleanPiece;
    var parts := Split(path, '/');
    if CleanPieces(path) {
      forall k: nat | 1 <= k < |parts| ensures CleanPiece(parts[k]) {
        var i, j := SegmentIsPiece(path, k);
      }
    }
    if forall k :: 1 <= k < |parts| ==> CleanPiece(parts[k]) {
      forall i: nat, j: nat | IsPiece(path, i, j) && i > 0 ensures CleanPiece(path[i..j]) {
        var k := PieceIsSegment(path, i, j);
      }
    }
  }

  lemma {:induction false} AllNonEmpty(parts: seq<string>)
    requires forall k :: 0 <= k < |parts| ==> parts[k] != []
    ensures NonEmpty(parts) == |parts|
  {
    if parts != [] { AllNonEmpty(parts[1..]); }
  }

  /** The entries of the first `n` exchanges. */
  ghost function PageFiles(exchanges: seq<Exchange>, n: nat): seq<string>
    requires n <= |exchanges|
  {
    if n == 0 then []
    else PageFiles(exchanges, n - 1) + if exchanges[n - 1].Page? then exchanges[n - 1].files else []
  }

  lemma {:induction false} EarlierFiles(exchanges: seq<Exchange>, k: nat, n: nat)
    requires k <= n <= |exchanges|
    ensures PageFiles(exchanges, k) <= PageFiles(exchanges, n)
  {
    if k < n { EarlierFiles(exchanges, k, n - 1); }
  }

  class Session {
    const limits: Limits
    var deadlines: seq<bool>         // what each deadline check finds
    var exchanges: seq<Exchange>     // what each exchange with the server comes to
    var bytes: nat
    var entries: nat
    var requests: nat
    ghost var received: seq<string>  // the entries of every directory page the server sent

    constructor (limits: Limits, deadlines: seq<bool>, exchanges: seq<Exchange>)
      requires ValidLimits(limits)
      ensures Valid() && this.limits == limits
    {
      this.limits, this.deadlines, this.exchanges := limits, deadlines, exchanges;
      bytes, entries, requests, received := 0, 0, 0, [];
    }

    /** The budgets hold over every run. */
    ghost predicate Valid()
      reads this`bytes, this`entries, this`requests
    {
      ValidLimits(limits) && bytes <= limits.readBytes && entries <= limits.entries && requests <= limits.requests
    }

    /** The deadline check `n` of the script passes. */
    static ghost predicate InTime(deadlines: seq<bool>, n: nat) {
      n < |deadlines| && deadlines[n]
    }

    /** `Budget::check`. */
    method Check() returns (ok: bool)
      modifies this`deadlines
      ensures ok == InTime(old(deadlines), 0)
      ensures deadlines == if old(deadlines) == [] then [] else old(deadlines)[1..]
    {
      if deadlines == [] {
        return false;
      }
      ok, deadlines := deadlines[0], deadlines[1..];
    }

    /** `Budget::request`. */
    method Request() returns (r: Result<()>)
      requires Valid()
      modifies this`deadlines, this`requests
      ensures Valid() && requests == old(requests) + if r.Ok? then 1 else 0
      ensures r.Ok? <==> InTime(old(deadlines), 0) && old(requests) < limits.requests
      ensures deadlines == if old(deadlines) == [] then [] else old(deadlines)[1..]
    {
      var time := Check();
      if !time {
        return Err(TimedOut);
      }
      if requests >= limits.requests {
        return Err(LimitReached);
      }
      requests := requests + 1;
      return Ok(());
    }

    /** `Budget::path`. */
    method Path(path: string) returns (r: Result<()>)
      requires Valid()
      modifies this`deadlines, this`requests
      ensures Valid() && old(requests) <= requests <= old(requests) + 1
      ensures r.Ok? <==> InTime(old(deadlines), 0) && old(requests) < limits.requests && PathOk(path, limits.depth)
      ensures r.Ok? ==> requests == old(requests) + 1
      ensures deadlines == if old(deadlines) == [] then [] else old(deadlines)[1..]
    {
      hide PathOk;
      r := Request();
      if r.Ok? && !PathOk(path, limits.depth) {
        return Err(PathDenied);
      }
    }

    /** An exchange with the server, under the deadline. */
    method Remote() returns (e: Exchange)
      modifies this`exchanges
      ensures old(exchanges) == [] ==> e.Refused? && exchanges == []
      ensures old(exchanges) != [] ==> e == old(exchanges)[0] && exchanges == old(exchanges)[1..]
    {
      if exchanges == [] {
        return Refused(TimedOut);
      }
      e, exchanges := exchanges[0], exchanges[1..];
    }

    /** A list of names that a reply can hold: fit names, without repeats, within the cap. */
    ghost predicate Good(names: seq<string>) {
      && Distinct(names)
      && (forall i :: 0 <= i < |names| ==> NameOk(names[i]))
      && (names != [] ==> 2 + Encoded(names) <= limits.metadataBytes - 128)
    }

    lemma GoodPrefix(a: seq<string>, b: seq<string>)
      requires a <= b && Good(b)
      ensures Good(a)
    {
      hide NameOk;
      assert b == a + b[|a|..];
      EncodedConcat(a, b[|a|..]);
      assert forall i :: 0 <= i < |a| ==> a[i] == b[i];
    }

    lemma GoodNext(order: seq<string>, name: string)
      requires Good(order)
      ensures Good(order + [name]) <==>
                && NameOk(name) && name !in order
                && 2 + Encoded(order) + Size(Canonical.Quoted(name)) + 1 <= limits.metadataBytes - 128
    {
      hide NameOk;
      var more := order + [name];
      assert more[..|order|] == order && more[|order|] == name;
      assert forall i :: 0 <= i < |order| ==> more[i] == order[i];
    }

    /** One entry of a page. */
    method TakeEntry(name: string, names: set<string>, encoded: nat, ghost order: seq<string>)
      returns (r: Result<()>, after: set<string>, count: nat, ghost more: seq<string>)
      requires Valid() && Listing(names, encoded, order)
      modifies this`entries
      ensures Valid() && old(entries) <= entries
      ensures more == if name == "." || name == ".." then order else order + [name]
      ensures r.Ok? <==> old(entries) < limits.entries && Good(more)
      ensures r.Ok? ==> entries == old(entries) + 1 && Listing(after, count, more)
    {
      hide NameOk, Good;
      after, count := names, encoded;
      more := if name == "." || name == ".." then order else order + [name];
      if entries >= limits.entries {
        return Err(LimitReached), after, count, more;
      }
      entries := entries + 1;
      if name == "." || name == ".." {
        return Ok(()), after, count, more;
      }
      GoodNext(order, name);
      if !NameOk(name) {
        return Err(ProtocolError), after, count, more;
      }
      count := encoded + Size(Canonical.Quoted(name)) + 1;
      if count > limits.metadataBytes - 128 {
        return Err(LimitReached), after, count, more;
      }
      if name in names {
        return Err(ProtocolError), after, count, more;
      }
      assert more[..|order|] == order;
      after := names + {name};
      assert forall i :: 0 <= i < |order| ==> more[i] == order[i];
      assert more[|order|] == name;
      return Ok(()), after, count, more;
    }

    /** The entries of one page: all of them are taken, or one has no place. */
    method TakePage(files: seq<string>, names: set<string>, encoded: nat, ghost order: seq<string>)
      returns (r: Result<()>, after: set<string>, count: nat, ghost more: seq<string>)
      requires Valid() && Listing(names, encoded, order)
      modifies this`entries
      ensures Valid() && old(entries) <= entries
      ensures r.Ok? <==> old(entries) + |files| <= limits.entries && Good(order + Listed(files))
      ensures r.Ok? ==>
                entries == old(entries) + |files| && Listing(after, count, more) && more == order + Listed(files)
    {
      hide Encoded, NameOk, Good;
      after, count, more := names, encoded, order;
      var i := 0;
      while i < |files|
        invariant i <= |files| && Valid() && entries == old(entries) + i
        invariant Listing(after, count, more) && more == order + Listed(files[..i])
      {
        r, after, count, more := TakeEntry(files[i], after, count, more);
        assert files[..i + 1][..i] == files[..i];
        assert more == order + Listed(files[..i + 1]);
        if r.Err? {
          ListedPrefix(files, i + 1);
          if Good(order + Listed(files)) { GoodPrefix(more, order + Listed(files)); }
          return;
        }
        i := i + 1;
      }
      assert files[..i] == files;
      return Ok(()), after, count, more;
    }

    /** The names so far: `order` in the order of the server, counted. */
    ghost predicate Listing(names: set<string>, encoded: nat, order: seq<string>) {
      names == Elements(order) && encoded == 2 + Encoded(order) && Good(order)
    }

    /** The server sends `n` pages and then the end; every check is in time, the requests and the entries are within
        their budgets, and the names are good. */
    ghost predicate Lists(exchanges: seq<Exchange>, deadlines: seq<bool>, requests: nat, entries: nat, n: nat) {
      && n < |exchanges| && exchanges[n].EndReached?
      && (forall i :: 0 <= i < n ==> exchanges[i].Page? && exchanges[i].files != [])
      && (forall i :: 0 <= i <= n ==> InTime(deadlines, i))
      && requests + n < limits.requests
      && entries + |PageFiles(exchanges, n)| <= limits.entries
      && Good(Listed(PageFiles(exchanges, n)))
    }

    /** `directory`: the pages until the end of the directory. It succeeds exactly when the pages can be listed; the
        names come back sorted, once each, and leave room for the reply. */
    method Directory() returns (r: Result<seq<string>>)
      requires Valid()
      modifies this`deadlines, this`exchanges, this`entries, this`requests, this`received
      ensures Valid() && old(entries) <= entries && old(requests) <= requests && old(received) <= received
      ensures r.Ok? <==> exists n :: Lists(old(exchanges), old(deadlines), old(requests), old(entries), n)
      ensures forall n :: Lists(old(exchanges), old(deadlines), old(requests), old(entries), n) ==>
                && exchanges == old(exchanges)[n + 1..]
                && received == old(received) + PageFiles(old(exchanges), n)
      ensures r.Ok? ==> forall x :: x in r.value <==> x in Listed(received[|old(received)|..])
      ensures r.Ok? ==>
                && (forall i, j :: 0 <= i < j < |r.value| ==>
                      Canonical.Leq(r.value[i], r.value[j]) && r.value[i] != r.value[j])
                && (forall i :: 0 <= i < |r.value| ==> NameOk(r.value[i]))
                && Encoded(r.value) <= limits.metadataBytes - 128
    {
      hide Listing, Encoded, NameOk, Good, Lists, Passed, PageFiles, Listed, InTime, Canonical.Leq, Canonical.Sorted;
      var names: set<string>, encoded: nat := {}, 2;
      ghost var order: seq<string> := [];
      ghost var script, checks, asked, taken := exchanges, deadlines, requests, entries;
      ghost var k: nat := 0;
      NoNames();
      NothingPassed(script, checks);
      while true
        invariant Valid() && Listing(names, encoded, order) && k <= |script|
        invariant exchanges == script[k..] && Later(deadlines, checks, k)
        invariant requests == asked + k && entries == taken + |PageFiles(script, k)|
        invariant received == old(received) + PageFiles(script, k) && order == Listed(PageFiles(script, k))
        invariant Passed(script, checks, k)
        decreases |exchanges|
      {
        NextCheck(deadlines, checks, k);
        var request := Request();
        if request.Err? {
          NoRequest(script, checks, asked, taken, k);
          return Err(request.failure);
        }
        var exchange := Remote();
        match exchange {
          case EndReached =>
            SortedNames(names, encoded, order);
            ListingIsGood(names, encoded, order);
            EndOfList(script, checks, asked, taken, k);
            assert received[|old(received)|..] == PageFiles(script, k);
            return Ok(Canonical.Sorted(names));
          case Page(files) =>
            if files == [] {
              NoEnd(script, checks, asked, taken, k);
              return Err(ProtocolError);
            }
            received := received + files;
            var page;
            page, names, encoded, order := TakePage(files, names, encoded, order);
            OnePagePassed(script, checks, k);
            ListedConcat(PageFiles(script, k), files);
            if page.Err? {
              NoRoom(script, checks, asked, taken, k);
              return Err(page.failure);
            }
            assert received == old(received) + (PageFiles(script, k) + files);
            k := k + 1;
          case Refused(failure) =>
            NoEnd(script, checks, asked, taken, k);
            return Err(failure);
          case _ =>
            NoEnd(script, checks, asked, taken, k);
            return Err(ProtocolError);
        }
      }
    }

    /** The first `k` exchanges were pages, and their checks in time. */
    ghost predicate Passed(script: seq<Exchange>, checks: seq<bool>, k: nat) {
      && k <= |script|
      && (forall i :: 0 <= i < k ==> script[i].Page? && script[i].files != [])
      && (forall i :: 0 <= i < k ==> InTime(checks, i))
    }

    /** What is left of the checks after `k` of them. */
    ghost predicate Later(deadlines: seq<bool>, checks: seq<bool>, k: nat) {
      k <= |checks| && deadlines == checks[k..]
    }

    lemma NothingPassed(script: seq<Exchange>, checks: seq<bool>)
      ensures Passed(script, checks, 0) && PageFiles(script, 0) == [] && Later(checks, checks, 0)
    {
    }

    lemma NextCheck(deadlines: seq<bool>, checks: seq<bool>, k: nat)
      requires Later(deadlines, checks, k)
      ensures InTime(deadlines, 0) == InTime(checks, k)
      ensures InTime(checks, k) ==> deadlines != [] && Later(deadlines[1..], checks, k + 1)
    {
    }

    lemma OnePagePassed(script: seq<Exchange>, checks: seq<bool>, k: nat)
      requires Passed(script, checks, k) && InTime(checks, k)
      requires k < |script| && script[k].Page? && script[k].files != []
      ensures Passed(script, checks, k + 1) && PageFiles(script, k + 1) == PageFiles(script, k) + script[k].files
    {
    }

    lemma EndOfList(script: seq<Exchange>, checks: seq<bool>, asked: nat, taken: nat, k: nat)
      requires Passed(script, checks, k) && k < |script| && script[k].EndReached? && InTime(checks, k)
      requires asked + k < limits.requests && taken + |PageFiles(script, k)| <= limits.entries
      requires Good(Listed(PageFiles(script, k)))
      ensures Lists(script, checks, asked, taken, k)
      ensures forall n :: Lists(script, checks, asked, taken, n) ==> n == k
    {
      hide Good, PageFiles, Listed, InTime;
    }

    lemma EndIsUnique(script: seq<Exchange>, checks: seq<bool>, asked: nat, taken: nat, n: nat)
      requires Lists(script, checks, asked, taken, n)
      ensures n < |script| && forall m :: Lists(script, checks, asked, taken, m) ==> m == n
    {
      hide Good, PageFiles, Listed, InTime;
    }

    lemma NoRequest(script: seq<Exchange>, checks: seq<bool>, asked: nat, taken: nat, k: nat)
      requires Passed(script, checks, k) && (!InTime(checks, k) || asked + k >= limits.requests)
      ensures forall n :: !Lists(script, checks, asked, taken, n)
    {
      hide Good, PageFiles, Listed;
    }

    lemma NoEnd(script: seq<Exchange>, checks: seq<bool>, asked: nat, taken: nat, k: nat)
      requires Passed(script, checks, k)
      requires k == |script| || (!script[k].EndReached? && !(script[k].Page? && script[k].files != []))
      ensures forall n :: !Lists(script, checks, asked, taken, n)
    {
      hide Good, PageFiles, Listed, InTime;
    }

    /** A page that has no place ends the listing. */
    lemma NoRoom(script: seq<Exchange>, checks: seq<bool>, asked: nat, taken: nat, k: nat)
      requires k < |script| && Passed(script, checks, k) && script[k].Page?
      requires taken + |PageFiles(script, k + 1)| > limits.entries || !Good(Listed(PageFiles(script, k + 1)))
      ensures forall n :: !Lists(script, checks, asked, taken, n)
    {
      hide Good, PageFiles, Listed, InTime;
      forall n: nat | k < n <= |script|
        ensures taken + |PageFiles(script, n)| > limits.entries || !Good(Listed(PageFiles(script, n)))
      {
        NoRoomLater(script, taken, k + 1, n);
      }
    }

    lemma NoRoomLater(script: seq<Exchange>, taken: nat, k: nat, n: nat)
      requires k <= n <= |script|
      requires taken + |PageFiles(script, k)| > limits.entries || !Good(Listed(PageFiles(script, k)))
      ensures taken + |PageFiles(script, n)| > limits.entries || !Good(Listed(PageFiles(script, n)))
    {
      hide Good, PageFiles, Listed;
      EarlierFiles(script, k, n);
      var some, all := PageFiles(script, k), PageFiles(script, n);
      assert all[..|some|] == some;
      ListedPrefix(all, |some|);
      if Good(Listed(all)) { GoodPrefix(Listed(some), Listed(all)); }
    }

    lemma ListingIsGood(names: set<string>, encoded: nat, order: seq<string>)
      requires Listing(names, encoded, order)
      ensures Good(order)
    {
    }

    lemma NoNames()
      ensures Listing({}, 2, []) && Listed([]) == []
    {
    }

    lemma SortedNames(names: set<string>, encoded: nat, order: seq<string>)
      requires ValidLimits(limits) && Listing(names, encoded, order)
      ensures var s := Canonical.Sorted(names);
              && (forall x :: x in s <==> x in order)
              && (forall i :: 0 <= i < |s| ==> NameOk(s[i]))
              && Encoded(s) <= limits.metadataBytes - 128
    {
      hide NameOk;
      var s := Canonical.Sorted(names);
      assert Distinct(s);
      if order == [] {
        assert names == {};
        assert s == [];
      }
      forall i | 0 <= i < |s| ensures NameOk(s[i]) {
        assert s[i] in names;
      }
      SameCount(s, order);
    }
  }

  lemma ListedPrefix(files: seq<string>, k: nat)
    requires k <= |files|
    ensures Listed(files[..k]) <= Listed(files)
  {
    assert files == files[..k] + files[k..];
    ListedConcat(files[..k], files[k..]);
  }

  lemma {:induction false} ListedConcat(a: seq<string>, b: seq<string>)
    ensures Listed(a + b) == Listed(a) + Listed(b)
  {
    if b == [] {
      assert a + b == a;
    } else {
      assert (a + b)[..|a + b| - 1] == a + b[..|b| - 1];
      ListedConcat(a, b[..|b| - 1]);
    }
  }

  /** The count does not depend on the order of the names. */
  lemma {:induction false} SameCount(a: seq<string>, b: seq<string>)
    requires Distinct(a) && Distinct(b) && forall x :: x in a <==> x in b
    ensures Encoded(a) == Encoded(b)
    decreases |a|
  {
    hide Canonical.Quoted, Encoded, Distinct;
    if a == [] {
      FirstIsIn(b);
    } else {
      var x := a[|a| - 1];
      assert x in a;
      var k :| 0 <= k < |b| && b[k] == x;
      var rest := b[..k] + b[k + 1..];
      NoRepeatsWithout(a, |a| - 1);
      NoRepeatsWithout(b, k);
      assert a[..|a| - 1] + a[|a| - 1 + 1..] == a[..|a| - 1];
      forall y ensures y in a[..|a| - 1] <==> y in rest {
        WithoutLast(a, y);
        WithoutOne(b, k, y);
      }
      SameCount(a[..|a| - 1], rest);
      EncodedWithout(b, k);
      EncodedWithout(a, |a| - 1);
    }
  }

  lemma FirstIsIn(b: seq<string>)
    ensures b != [] ==> b[0] in b
  {
  }

  lemma NoRepeatsWithout(b: seq<string>, k: nat)
    requires k < |b| && Distinct(b)
    ensures Distinct(b[..k] + b[k + 1..])
  {
  }

  lemma EncodedWithout(b: seq<string>, k: nat)
    requires k < |b|
    ensures Encoded(b) == Encoded(b[..k] + b[k + 1..]) + Size(Canonical.Quoted(b[k])) + 1
  {
    hide Canonical.Quoted, Encoded;
    assert b == b[..k] + ([b[k]] + b[k + 1..]);
    EncodedConcat(b[..k], b[k + 1..]);
    EncodedConcat(b[..k], [b[k]] + b[k + 1..]);
    EncodedCons(b[k], b[k + 1..]);
  }

  lemma WithoutLast(a: seq<string>, y: string)
    requires a != [] && Distinct(a)
    ensures y in a[..|a| - 1] <==> y in a && y != a[|a| - 1]
  {
    assert a == a[..|a| - 1] + [a[|a| - 1]];
  }

  lemma WithoutOne(b: seq<string>, k: nat, y: string)
    requires k < |b| && Distinct(b)
    ensures y in b[..k] + b[k + 1..] <==> y in b && y != b[k]
  {
    assert b == b[..k] + [b[k]] + b[k + 1..];
  }

  lemma {:induction false} EncodedConcat(a: seq<string>, b: seq<string>)
    ensures Encoded(a + b) == Encoded(a) + Encoded(b)
  {
    hide Canonical.Quoted;
    if b == [] {
      assert a + b == a;
    } else {
      assert (a + b)[..|a + b| - 1] == a + b[..|b| - 1];
      EncodedConcat(a, b[..|b| - 1]);
    }
  }

  // ----- replies --------------------------------------------------------------------------------------------------

  /** `send` refuses a reply that is over the cap. */
  predicate Sendable(reply: Json, cap: nat, float: Double -> string) {
    Size(Canonical.Text(reply, float)) <= cap
  }

  /** The names are the entries received since, dots left out, sorted. */
  ghost predicate Answers(names: seq<string>, received: seq<string>, since: nat) {
    && since <= |received|
    && (forall x :: x in names <==> x in Listed(received[since..]))
    && (forall i, j :: 0 <= i < j < |names| ==> Canonical.Leq(names[i], names[j]) && names[i] != names[j])
  }

  /** The path is accepted, the directory pages, listed after `n` pages and closed again. */
  ghost predicate ReaddirSucceeds(session: Session, path: string, exchanges: seq<Exchange>, deadlines: seq<bool>,
                                  requests: nat, entries: nat, n: nat)
  {
    && Session.InTime(deadlines, 0) && requests < session.limits.requests && PathOk(path, session.limits.depth)
    && n + 2 < |exchanges| && !exchanges[0].Refused? && !exchanges[n + 2].Refused?
    && session.Lists(exchanges[1..], deadlines[1..], requests + 1, entries, n)
  }

  /** The dispatch of a listing: a successful one makes a reply that fits, whatever the id; and it succeeds exactly when
      path, server and budgets allow. */
  method DispatchReaddir(session: Session, path: string, id: nat, float: Double -> string) returns (r: Result<Json>)
    requires session.Valid() && id < U64
    modifies session
    ensures session.Valid()
    ensures r.Ok? ==> Sendable(r.value, session.limits.metadataBytes, float)
    ensures r.Ok? ==>
              exists names :: r.value == Reply(id, names) && Answers(names, session.received, |old(session.received)|)
    ensures r.Ok? <==>
              exists n :: ReaddirSucceeds(session, path, old(session.exchanges), old(session.deadlines),
                                          old(session.requests), old(session.entries), n)
  {
    hide Canonical.Text, Canonical.Leq, Encoded, Reply, Listed, PathOk, PageFiles, Session.Lists, Session.InTime;
    ghost var script, checks, asked, taken := session.exchanges, session.deadlines, session.requests, session.entries;
    var allowed := session.Path(path);
    if allowed.Err? {
      return Err(allowed.failure);
    }
    ChecksLeft(checks);
    var handle := session.Remote();
    if handle.Refused? {
      return Err(handle.failure);
    }
    ghost var pages, left := session.exchanges, session.deadlines;
    var names := session.Directory();
    var closed := session.Remote();
    if names.Err? {
      ReaddirFails(session, path, script, checks, asked, taken, pages, left, asked + 1);
      return Err(names.failure);
    }
    ghost var n :| session.Lists(pages, left, asked + 1, taken, n);
    session.EndIsUnique(pages, left, asked + 1, taken, n);
    assert pages[n + 1..] == script[n + 2..];
    if closed.Refused? {
      return Err(closed.failure);
    }
    ReplySize(id, names.value, float);
    assert Answers(names.value, session.received, |old(session.received)|);
    assert ReaddirSucceeds(session, path, script, checks, asked, taken, n);
    return Ok(Reply(id, names.value));
  }

  lemma ReaddirFails(session: Session, path: string, exchanges: seq<Exchange>, deadlines: seq<bool>, requests: nat,
                     entries: nat, pages: seq<Exchange>, checks: seq<bool>, asked: nat)
    requires exchanges != [] && deadlines != []
    requires pages == exchanges[1..] && checks == deadlines[1..] && asked == requests + 1
    requires forall n :: !session.Lists(pages, checks, asked, entries, n)
    ensures forall n :: !ReaddirSucceeds(session, path, exchanges, deadlines, requests, entries, n)
  {
    hide PathOk, Session.Lists, Session.InTime;
  }

  lemma ChecksLeft(checks: seq<bool>)
    ensures Session.InTime(checks, 0) ==> checks != []
  {
  }

  /** The server's answers to the reading of an open file: its attributes, and data of at most `length` bytes. */
  ghost predicate Serves(exchanges: seq<Exchange>, fileBytes: nat, length: nat, data: seq<int>) {
    && exchanges != [] && exchanges[0].Attributes? && exchanges[0].isFile && exchanges[0].size <= fileBytes
    && |data| <= length
    && (length > 0 ==>
          && |exchanges| > 1
          && (exchanges[1] == Bytes(data) || (exchanges[1].EndReached? && data == [])))
  }

  function ServedBy(length: nat): nat {
    if length == 0 then 1 else 2
  }

  /** What the limits and the budget say to a read. */
  predicate ReadAllowed(limits: Limits, bytes: nat, offset: nat, length: nat) {
    && length <= READ_BYTES && length + 9 <= limits.packetBytes
    && offset + length <= limits.fileBytes && length <= limits.readBytes - bytes
  }

  /** The path and the range are accepted, the file pages, `data` served and the file closed again. */
  ghost predicate ReadSucceeds(limits: Limits, path: string, offset: nat, length: nat, exchanges: seq<Exchange>,
                               deadlines: seq<bool>, requests: nat, bytes: nat, data: seq<int>)
  {
    var close := 1 + ServedBy(length);
    && Session.InTime(deadlines, 0) && requests < limits.requests && PathOk(path, limits.depth)
    && ReadAllowed(limits, bytes, offset, length)
    && close < |exchanges| && !exchanges[0].Refused? && !exchanges[close].Refused?
    && Serves(exchanges[1..], limits.fileBytes, length, data)
  }

  /** `read`: the data the server sent, within what was asked for, the file limit and what is left of the budget, which
      counts what came; and nothing else. */
  method Read(session: Session, path: string, offset: nat, length: nat) returns (r: Result<seq<int>>)
    requires session.Valid() && length < 0x1_0000_0000 && offset < U64
    modifies session
    ensures session.Valid()
    ensures forall data :: r == Ok(data) <==>
              ReadSucceeds(session.limits, path, offset, length, old(session.exchanges), old(session.deadlines),
                           old(session.requests), old(session.bytes), data)
    ensures session.bytes == old(session.bytes) + if r.Ok? then |r.value| else 0
    ensures r.Ok? ==> |r.value| <= length
  {
    hide PathOk, Session.InTime;
    var allowed := session.Path(path);
    if allowed.Err? {
      return Err(allowed.failure);
    }
    if !ReadAllowed(session.limits, session.bytes, offset, length) {
      return Err(LimitReached);
    }
    var handle := session.Remote();
    if handle.Refused? {
      return Err(handle.failure);
    }
    var result := File(session, length);
    var closed := session.Remote();
    if result.Err? {
      return Err(result.failure);
    }
    if closed.Refused? {
      return Err(closed.failure);
    }
    session.bytes := session.bytes + |result.value|;
    return Ok(result.value);
  }

  /** `file`: the attributes, then the data. */
  method File(session: Session, length: nat) returns (r: Result<seq<int>>)
    modifies session`exchanges
    ensures forall data :: r == Ok(data) <==> Serves(old(session.exchanges), session.limits.fileBytes, length, data)
    ensures r.Ok? ==> ServedBy(length) <= |old(session.exchanges)|
    ensures r.Ok? ==> session.exchanges == old(session.exchanges)[ServedBy(length)..]
  {
    var attributes := session.Remote();
    match attributes {
      case Attributes(isFile, size) =>
        if !isFile {
          return Err(UnsupportedType);
        }
        if size > session.limits.fileBytes {
          return Err(LimitReached);
        }
      case Refused(failure) => return Err(failure);
      case _ => return Err(ProtocolError);
    }
    if length == 0 {
      return Ok([]);
    }
    var reply := session.Remote();
    match reply {
      case Bytes(data) => return if |data| <= length then Ok(data) else Err(ProtocolError);
      case EndReached => return Ok([]);
      case Refused(failure) => return Err(failure);
      case _ => return Err(ProtocolError);
    }
  }
}
