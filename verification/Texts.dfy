/** Text: parts between separators, kinds of characters, lower case, decimal numbers. */
module Texts {
  function Split<T(==)>(s: seq<T>, c: T): (parts: seq<seq<T>>)
    ensures parts != [] && forall i :: 0 <= i < |parts| ==> c !in parts[i]
  {
    if s == [] then [[]]
    else
      var rest := Split(s[1..], c);
      if s[0] == c then [[]] + rest else [[s[0]] + rest[0]] + rest[1..]
  }

  function Join<T>(parts: seq<seq<T>>, c: T): seq<T>
    requires parts != []
  {
    if |parts| == 1 then parts[0] else parts[0] + [c] + Join(parts[1..], c)
  }

  lemma {:induction false} SplitPrefix<T>(p: seq<T>, s: seq<T>, c: T)
    requires c !in p
    ensures Split(p + s, c) == [p + Split(s, c)[0]] + Split(s, c)[1..]
  {
    if p == [] {
      assert p + s == s;
      assert [] + Split(s, c)[0] == Split(s, c)[0];
    } else {
      assert (p + s)[1..] == p[1..] + s;
      SplitPrefix(p[1..], s, c);
      assert [p[0]] + (p[1..] + Split(s, c)[0]) == p + Split(s, c)[0];
    }
  }

  lemma {:induction false} SplitJoin<T>(parts: seq<seq<T>>, c: T)
    requires parts != [] && forall i :: 0 <= i < |parts| ==> c !in parts[i]
    ensures Split(Join(parts, c), c) == parts
  {
    if |parts| == 1 {
      SplitPrefix(parts[0], [], c);
      assert parts[0] + [] == parts[0] && parts == [parts[0]];
    } else {
      var rest := Join(parts[1..], c);
      SplitJoin(parts[1..], c);
      SplitPrefix(parts[0], [c] + rest, c);
      assert ([c] + rest)[1..] == rest;
      assert parts[0] + [c] + rest == parts[0] + ([c] + rest);
      assert parts[0] + [] == parts[0];
    }
  }

  lemma {:induction false} JoinSplit<T>(s: seq<T>, c: T)
    ensures Join(Split(s, c), c) == s
  {
    if s != [] {
      JoinSplit(s[1..], c);
      var rest := Split(s[1..], c);
      assert s == [s[0]] + s[1..];
      if s[0] == c {
        assert ([[]] + rest)[1..] == rest;
      } else {
        assert ([[s[0]] + rest[0]] + rest[1..])[1..] == rest[1..];
      }
    }
  }

  /** The parts with more after the last of them. */
  function Extended<T>(parts: seq<seq<T>>, t: seq<T>): seq<seq<T>>
    requires parts != []
  {
    parts[..|parts| - 1] + [parts[|parts| - 1] + t]
  }

  lemma ExtendLast<T>(parts: seq<seq<T>>, last: seq<T>, t: seq<T>)
    ensures Extended(parts + [last], t) == parts + [last + t]
  {
    assert (parts + [last])[..|parts|] == parts;
  }

  lemma SplitCons<T>(x: T, s: seq<T>, c: T)
    ensures Split([x] + s, c) == if x == c then [[]] + Split(s, c) else [[x] + Split(s, c)[0]] + Split(s, c)[1..]
  {
    assert ([x] + s)[1..] == s;
  }

  /** A separator ends the last part; anything else belongs to it. */
  lemma {:induction false} SplitStep<T>(s: seq<T>, x: T, c: T)
    ensures Split(s + [x], c) == if x == c then Split(s, c) + [[]] else Extended(Split(s, c), [x])
  {
    hide Split;
    if s == [] {
      SplitOne(x, c);
      assert s + [x] == [x];
    } else {
      assert s + [x] == [s[0]] + (s[1..] + [x]) && s == [s[0]] + s[1..];
      SplitCons(s[0], s[1..] + [x], c);
      SplitCons(s[0], s[1..], c);
      SplitStep(s[1..], x, c);
      LeadAndExtend(s[0], Split(s[1..], c), x);
    }
  }

  lemma SplitOne<T>(x: T, c: T)
    ensures Split([], c) == [[]] && Split([x], c) == if x == c then [[], []] else [[x]]
  {
    assert [x][1..] == [];
    assert [x] + Split([], c)[0] == [x];
  }

  lemma LeadAndExtend<T>(a: T, parts: seq<seq<T>>, x: T)
    requires parts != []
    ensures var more := Extended(parts, [x]);
            [[a] + more[0]] + more[1..] == Extended([[a] + parts[0]] + parts[1..], [x])
  {
    if |parts| == 1 {
      assert [a] + (parts[0] + [x]) == [a] + parts[0] + [x];
    }
  }

  /** The characters of the joined text are those of the parts, and the separator. */
  lemma {:induction false} JoinMembers(parts: seq<string>, c: char)
    requires parts != []
    ensures forall x :: x in Join(parts, c) ==> x == c || exists i :: 0 <= i < |parts| && x in parts[i]
  {
    if |parts| > 1 {
      JoinMembers(parts[1..], c);
      forall x | x in Join(parts, c) && x != c && x !in parts[0]
        ensures exists i :: 0 <= i < |parts| && x in parts[i]
      {
        assert x in Join(parts[1..], c);
        var i :| 0 <= i < |parts[1..]| && x in parts[1..][i];
        assert parts[i + 1] == parts[1..][i];
      }
    }
  }

  lemma {:induction false} SplitMembers(s: string, c: char)
    ensures forall i, x :: 0 <= i < |Split(s, c)| && x in Split(s, c)[i] ==> x in s
  {
    if s != [] {
      SplitMembers(s[1..], c);
      var parts, rest := Split(s, c), Split(s[1..], c);
      assert s == [s[0]] + s[1..];
      forall i, x | 0 <= i < |parts| && x in parts[i] ensures x in s {
        if s[0] == c {
          assert i > 0 ==> parts[i] == rest[i - 1];
          assert x in s[1..];
        } else if i == 0 {
          assert parts[0] == [s[0]] + rest[0];
          assert x == s[0] || x in rest[0];
        } else {
          assert parts[i] == rest[i];
        }
      }
    }
  }

  /** `name[i..j]` is what lies between two slashes, or between a slash and an end. */
  ghost predicate IsPiece(name: string, i: nat, j: nat) {
    && i <= j <= |name| && '/' !in name[i..j]
    && (i > 0 ==> name[i - 1] == '/')
    && (j < |name| ==> name[j] == '/')
  }

  lemma {:induction false} SegmentIsPiece(s: string, k: nat) returns (i: nat, j: nat)
    requires k < |Split(s, '/')|
    ensures IsPiece(s, i, j) && s[i..j] == Split(s, '/')[k]
    ensures (k == 0 <==> i == 0) && (k == |Split(s, '/')| - 1 <==> j == |s|)
  {
    if s == [] {
      i, j := 0, 0;
    } else if s[0] == '/' && k == 0 {
      i, j := 0, 0;
    } else {
      var t := s[1..];
      i, j := SegmentIsPiece(t, if s[0] == '/' then k - 1 else k);
      assert s[i + 1..j + 1] == t[i..j];
      if s[0] != '/' && k == 0 {
        assert s[0..j + 1] == [s[0]] + t[0..j];
        j := j + 1;
      } else {
        i, j := i + 1, j + 1;
      }
    }
  }

  lemma InPrefix(s: string, k: nat, n: nat)
    requires n <= |s|
    ensures k < n ==> s[k] in s[..n] && s[k] in s[0..n]
  {
    if k < n {
      assert s[..n][k] == s[k] == s[0..n][k];
    }
  }

  lemma TailPiece(s: string, i: nat, j: nat)
    requires IsPiece(s, i, j) && i > 0
    ensures IsPiece(s[1..], i - 1, j - 1) && s[i..j] == s[1..][i - 1..j - 1]
  {
    var t := s[1..];
    forall k | 0 <= k < j - i ensures s[i..j][k] == t[i - 1..j - 1][k] {
      assert t[i - 1 + k] == s[i + k];
    }
    assert s[i..j] == t[i - 1..j - 1];
  }

  lemma HeadPiece(s: string, j: nat)
    requires IsPiece(s, 0, j) && s != []
    ensures if s[0] == '/' then j == 0
            else j > 0 && IsPiece(s[1..], 0, j - 1) && s[0..j] == [s[0]] + s[1..][0..j - 1]
  {
    InPrefix(s, 0, j);
    assert j > 0 ==> forall k :: 0 <= k < j - 1 ==> s[1..][k] == s[0..j][k + 1];
  }

  lemma {:induction false} PieceIsSegment(s: string, i: nat, j: nat) returns (k: nat)
    requires IsPiece(s, i, j)
    ensures k < |Split(s, '/')| && s[i..j] == Split(s, '/')[k]
    ensures (k == 0 <==> i == 0) && (k == |Split(s, '/')| - 1 <==> j == |s|)
  {
    k := 0;
    if s == [] {
      PieceOfNothing(i, j);
    } else if i > 0 {
      TailPiece(s, i, j);
      k := PieceIsSegment(s[1..], i - 1, j - 1);
      if s[0] == '/' { k := k + 1; }
    } else {
      HeadPiece(s, j);
      if s[0] == '/' {
        assert s[0..0] == [];
      } else {
        k := PieceIsSegment(s[1..], 0, j - 1);
      }
    }
  }

  lemma PieceOfNothing(i: nat, j: nat)
    requires IsPiece("", i, j)
    ensures i == 0 && j == 0
  {
  }

  /** There is one more piece than there are slashes. */
  lemma {:induction false} SegmentCount(s: string)
    ensures |Split(s, '/')| == multiset(s)['/'] + 1
  {
    if s != [] {
      SegmentCount(s[1..]);
      assert s == [s[0]] + s[1..];
    }
  }

  predicate IsControl(c: char) {
    c < ' ' || '\U{7f}' <= c <= '\U{9f}'
  }

  /** A text of ASCII digits. */
  predicate IsIndex(name: string) {
    name != [] && forall i :: 0 <= i < |name| ==> '0' <= name[i] <= '9'
  }

  function Lower(s: string): string {
    seq(|s|, i requires 0 <= i < |s| => if 'A' <= s[i] <= 'Z' then (s[i] as int + 32) as char else s[i])
  }

  /** `s` is the word, each letter in either case. */
  predicate Spells(s: string, lower: string, upper: string)
    requires |lower| == |upper|
  {
    |s| == |lower| && forall i :: 0 <= i < |s| ==> s[i] == lower[i] || s[i] == upper[i]
  }

  /** Lower case is compared letter by letter. */
  lemma LowerIs(s: string, lower: string, upper: string)
    requires |lower| == |upper|
    requires forall i :: 0 <= i < |lower| ==> 'a' <= lower[i] <= 'z' && upper[i] as int == lower[i] as int - 32
    ensures Lower(s) == lower <==> Spells(s, lower, upper)
  {
    if Spells(s, lower, upper) {
      assert forall i :: 0 <= i < |s| ==> Lower(s)[i] == lower[i];
    }
    if Lower(s) == lower {
      assert forall i :: 0 <= i < |s| ==> Lower(s)[i] == lower[i];
    }
  }

  function Digits(n: nat): (s: string)
    ensures s != []
  {
    if n < 10 then [('0' as int + n) as char] else Digits(n / 10) + [('0' as int + n % 10) as char]
  }

  lemma {:induction false} DigitsText(n: nat)
    ensures forall i :: 0 <= i < |Digits(n)| ==> '0' <= Digits(n)[i] <= '9'
  {
    if n >= 10 { DigitsText(n / 10); }
  }

  lemma {:induction false} DigitsInjective(a: nat, b: nat)
    requires Digits(a) == Digits(b)
    ensures a == b
    decreases a
  {
    var da, db := Digits(a), Digits(b);
    assert da[|da| - 1] == db[|db| - 1];
    if a >= 10 && b >= 10 {
      assert Digits(a / 10) == da[..|da| - 1] == db[..|db| - 1] == Digits(b / 10);
      DigitsInjective(a / 10, b / 10);
    }
  }

  function Power10(k: nat): (p: nat)
    ensures p >= 1
  {
    if k == 0 then 1 else 10 * Power10(k - 1)
  }

  lemma {:induction false} DigitsLength(n: nat, k: nat)
    requires k >= 1 && n < Power10(k)
    ensures |Digits(n)| <= k
  {
    assert Power10(1) == 10;
    if n >= 10 {
      DigitsLength(n / 10, k - 1);
    }
  }

  lemma {:induction false} PowerSum(a: nat, b: nat)
    ensures Power10(a + b) == Power10(a) * Power10(b)
  {
    if a > 0 { PowerSum(a - 1, b); }
  }

  const U64: nat := 0x1_0000_0000_0000_0000

  /** A 64-bit number has at most 20 digits. */
  lemma DigitsOfU64(n: nat)
    requires n < U64
    ensures |Digits(n)| <= 20
  {
    assert Power10(5) == 100_000;
    assert Power10(10) == 100_000 * Power10(5) by { PowerSum(5, 5); }
    assert Power10(20) == Power10(10) * Power10(10) by { PowerSum(10, 10); }
    DigitsLength(n, 20);
  }
}
