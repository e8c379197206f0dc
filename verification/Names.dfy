/** Package names: the normaliser of imported names, and the search for a bundle name that no member uses. */
module Names {
  import opened Texts

  const MAX_NAME: nat := 62

  predicate IsLower(c: char) {
    'a' <= c <= 'z'
  }

  predicate IsNameChar(c: char) {
    IsLower(c) || '0' <= c <= '9'
  }

  predicate Plain(segment: string) {
    forall i :: 0 <= i < |segment| ==> IsNameChar(segment[i])
  }

  predicate PartsOk(parts: seq<string>) {
    forall i :: 0 <= i < |parts| ==> parts[i] != [] && Plain(parts[i])
  }

  /** `valid_name`: `^[a-z][a-z0-9]*(-[a-z0-9]+)*$`, at most 62 characters. */
  predicate ValidName(n: string) {
    n != [] && |n| <= MAX_NAME && IsLower(n[0]) && PartsOk(Split(n, '-'))
  }

  // ----- the shape, character by character ------------------------------------------------------------------------

  /** Name characters and single dashes, none at the end. */
  predicate SlugTail(m: string) {
    && (forall i :: 0 <= i < |m| ==> IsNameChar(m[i]) || m[i] == '-')
    && (forall i :: 0 <= i < |m| - 1 ==> m[i] != '-' || m[i + 1] != '-')
    && (m != [] ==> m[|m| - 1] != '-')
  }

  predicate Slug(n: string) {
    n != [] && n[0] != '-' && SlugTail(n)
  }

  lemma {:induction false} TailParts(m: string)
    ensures Plain(Split(m, '-')[0]) && PartsOk(Split(m, '-')[1..]) <==> SlugTail(m)
  {
    if m != [] {
      var rest := m[1..];
      TailParts(rest);
      var parts, more := Split(m, '-'), Split(rest, '-');
      if m[0] == '-' {
        assert parts[1..] == more;
        assert PartsOk(more) <==> rest != [] && rest[0] != '-' && SlugTail(rest) by { AllParts(rest); }
        assert SlugTail(m) <==> rest != [] && rest[0] != '-' && SlugTail(rest) by { DashFirst(m); }
      } else {
        assert parts[0] == [m[0]] + more[0] && parts[1..] == more[1..];
        assert Plain(parts[0]) <==> IsNameChar(m[0]) && Plain(more[0]) by { PlainCons(m[0], more[0]); }
        assert SlugTail(m) <==> IsNameChar(m[0]) && SlugTail(rest) by { CharFirst(m); }
      }
    }
  }

  lemma PlainCons(c: char, s: string)
    ensures Plain([c] + s) <==> IsNameChar(c) && Plain(s)
  {
    assert ([c] + s)[0] == c;
    assert forall i :: 0 <= i < |s| ==> ([c] + s)[i + 1] == s[i];
  }

  lemma DashFirst(m: string)
    requires m != [] && m[0] == '-'
    ensures SlugTail(m) <==> m[1..] != [] && m[1..][0] != '-' && SlugTail(m[1..])
  {
    var rest := m[1..];
    assert forall i :: 0 <= i < |rest| ==> rest[i] == m[i + 1];
    if rest != [] && rest[0] != '-' && SlugTail(rest) {
      forall i | 0 <= i < |m| - 1 ensures m[i] != '-' || m[i + 1] != '-' {
        if i > 0 { assert rest[i - 1] == m[i] && rest[i] == m[i + 1]; }
      }
      assert forall i :: 0 < i < |m| ==> m[i] == rest[i - 1];
    }
    if SlugTail(m) && rest != [] {
      assert m[0] != '-' || m[0 + 1] != '-';
    }
  }

  lemma CharFirst(m: string)
    requires m != [] && m[0] != '-'
    ensures SlugTail(m) <==> IsNameChar(m[0]) && SlugTail(m[1..])
  {
    var rest := m[1..];
    assert forall i :: 0 <= i < |rest| ==> rest[i] == m[i + 1];
    if IsNameChar(m[0]) && SlugTail(rest) {
      forall i | 0 <= i < |m| - 1 ensures m[i] != '-' || m[i + 1] != '-' {
        if i > 0 { assert rest[i - 1] == m[i] && rest[i] == m[i + 1]; }
      }
      assert forall i :: 0 < i < |m| ==> m[i] == rest[i - 1];
    }
  }

  lemma AllParts(rest: string)
    requires Plain(Split(rest, '-')[0]) && PartsOk(Split(rest, '-')[1..]) <==> SlugTail(rest)
    ensures PartsOk(Split(rest, '-')) <==> rest != [] && rest[0] != '-' && SlugTail(rest)
  {
    var parts := Split(rest, '-');
    assert parts == [parts[0]] + parts[1..];
    assert PartsOk(parts) <==> parts[0] != [] && Plain(parts[0]) && PartsOk(parts[1..]) by {
      assert forall i :: 0 <= i < |parts[1..]| ==> parts[1..][i] == parts[i + 1];
    }
    assert parts[0] != [] <==> rest != [] && rest[0] != '-';
  }

  /** The two readings of the pattern agree. */
  lemma ValidIsSlug(n: string)
    ensures ValidName(n) <==> n != [] && |n| <= MAX_NAME && IsLower(n[0]) && Slug(n)
  {
    TailParts(n);
    AllParts(n);
  }

  // ----- the normaliser -------------------------------------------------------------------------------------------

  /** Lower case as the library has it: a character may become several, none of them an ASCII capital. */
  ghost predicate LowerCases(lower: char -> string) {
    forall c, i :: 0 <= i < |lower(c)| ==> !('A' <= lower(c)[i] <= 'Z')
  }

  function Lowered(s: string, lower: char -> string): string {
    if s == [] then [] else lower(s[0]) + Lowered(s[1..], lower)
  }

  predicate IsAsciiAlphanumeric(c: char) {
    IsNameChar(c) || 'A' <= c <= 'Z'
  }

  /** One turn of the loop. */
  function Keep(result: string, c: char): string {
    if IsAsciiAlphanumeric(c) then result + [c]
    else if result != [] && result[|result| - 1] != '-' then result + "-"
    else result
  }

  function Kept(text: string): string {
    if text == [] then [] else Keep(Kept(text[..|text| - 1]), text[|text| - 1])
  }

  function TrimDashes(s: string): string {
    if s != [] && s[|s| - 1] == '-' then TrimDashes(s[..|s| - 1]) else s
  }

  function Cut(s: string, most: nat): string {
    if |s| <= most then s else s[..most]
  }

  /** `normalized_name` with the prefix `plugin-`, `package_name` with the prefix `mcp-`. */
  function Normalized(name: string, lower: char -> string, prefix: string): string {
    if ValidName(name) then name
    else
      var kept := Kept(Lowered(name, lower));
      var named := if kept != [] && IsLower(kept[0]) then kept else prefix + kept;
      TrimDashes(Cut(named, MAX_NAME))
  }

  /** ASCII letters and digits, in one run. */
  predicate IsRun(s: string) {
    s != "" && forall i :: 0 <= i < |s| ==>
      'a' <= s[i] <= 'z' || 'A' <= s[i] <= 'Z' || '0' <= s[i] <= '9'
  }

  /** Anything else, in one run. */
  predicate IsGap(s: string) {
    s != "" && forall i :: 0 <= i < |s| ==>
      !('a' <= s[i] <= 'z') && !('A' <= s[i] <= 'Z') && !('0' <= s[i] <= '9')
  }

  lemma {:induction false} KeptRun(text: string, run: string)
    requires IsRun(run)
    ensures Kept(text + run) == Kept(text) + run
  {
    var init, last := run[..|run| - 1], run[|run| - 1];
    assert text + run == text + init + [last] && (text + run)[..|text + run| - 1] == text + init;
    assert run == init + [last];
    if init == "" {
      assert text + init == text;
    } else {
      KeptRun(text, init);
    }
  }

  lemma {:induction false} KeptGap(text: string, gap: string)
    requires IsGap(gap)
    ensures var kept := Kept(text);
            Kept(text + gap) == if kept == "" || kept[|kept| - 1] == '-' then kept else kept + "-"
  {
    var init, last := gap[..|gap| - 1], gap[|gap| - 1];
    assert (text + gap)[..|text + gap| - 1] == text + init;
    if init == "" {
      assert text + init == text;
    } else {
      KeptGap(text, init);
    }
  }

  /** Runs of letters and digits, each with the gap behind it. */
  datatype Piece = Piece(run: string, gap: string)

  predicate ArePieces(pieces: seq<Piece>) {
    forall i :: 0 <= i < |pieces| ==> IsRun(pieces[i].run) && IsGap(pieces[i].gap)
  }

  function Spread(pieces: seq<Piece>): string {
    if pieces == [] then "" else Spread(pieces[..|pieces| - 1]) + pieces[|pieces| - 1].run + pieces[|pieces| - 1].gap
  }

  function Dashed(pieces: seq<Piece>): string {
    if pieces == [] then "" else Dashed(pieces[..|pieces| - 1]) + pieces[|pieces| - 1].run + "-"
  }

  lemma Glued(lead: string, text: string, last: Piece)
    ensures lead + (text + last.run + last.gap) == lead + text + last.run + last.gap
  {
  }

  lemma {:induction false} KeptPieces(lead: string, pieces: seq<Piece>)
    requires (lead == "" || IsGap(lead)) && ArePieces(pieces)
    ensures Kept(lead + Spread(pieces)) == Dashed(pieces)
  {
    hide Keep, IsRun, IsGap;
    if pieces == [] {
      assert lead + "" == lead && "" + lead == lead;
      if lead != "" { KeptGap("", lead); }
    } else {
      var init, last := pieces[..|pieces| - 1], pieces[|pieces| - 1];
      KeptPieces(lead, init);
      var text := lead + Spread(init);
      Glued(lead, Spread(init), last);
      KeptRun(text, last.run);
      KeptGap(text + last.run, last.gap);
      RunEnd(Kept(text), last.run);
    }
  }

  lemma RunEnd(kept: string, run: string)
    requires IsRun(run)
    ensures kept + run != "" && (kept + run)[|kept + run| - 1] != '-'
  {
  }

  /** Which characters stay: of runs of letters and digits with gaps around them each run stays as it is, in order; a
      gap between or behind runs becomes one dash, and one before the first goes. */
  lemma KeptMeans(lead: string, pieces: seq<Piece>, last: string)
    requires (lead == "" || IsGap(lead)) && ArePieces(pieces) && (last == "" || IsRun(last))
    ensures Kept(lead + Spread(pieces) + last) == Dashed(pieces) + last
  {
    hide Keep, IsRun, IsGap;
    KeptPieces(lead, pieces);
    if last == "" {
      assert lead + Spread(pieces) + last == lead + Spread(pieces) && Dashed(pieces) + last == Dashed(pieces);
    } else {
      KeptRun(lead + Spread(pieces), last);
    }
  }

  /** Only dashes are trimmed, and all of them. */
  lemma {:induction false} TrimmedDashes(s: string)
    ensures TrimDashes(s) <= s && forall i :: |TrimDashes(s)| <= i < |s| ==> s[i] == '-'
    ensures TrimDashes(s) != "" ==> TrimDashes(s)[|TrimDashes(s)| - 1] != '-'
  {
    if s != "" && s[|s| - 1] == '-' { TrimmedDashes(s[..|s| - 1]); }
  }

  /** `short` is `long` without the dashes at its end. */
  predicate IsTrimmed(short: string, long: string) {
    && short <= long && (forall i :: |short| <= i < |long| ==> long[i] == '-')
    && (short != "" ==> short[|short| - 1] != '-')
  }

  /** The name that an invalid one becomes, character by character: of its lower-cased text the runs of letters and
      digits with one dash between them, behind the prefix if they do not start with a letter, cut to 62 characters and
      without dashes at the end. */
  lemma NormalizedMeans(name: string, lower: char -> string, prefix: string, lead: string, pieces: seq<Piece>,
                        last: string)
    requires !ValidName(name) && Lowered(name, lower) == lead + Spread(pieces) + last
    requires (lead == "" || IsGap(lead)) && ArePieces(pieces) && (last == "" || IsRun(last))
    ensures var kept := Dashed(pieces) + last;
            var named := if kept != "" && 'a' <= kept[0] <= 'z' then kept else prefix + kept;
            IsTrimmed(Normalized(name, lower, prefix), if |named| <= 62 then named else named[..62])
  {
    hide Keep, IsRun, IsGap, ValidName, Kept, Lowered, Dashed, Spread, TrimDashes;
    KeptMeans(lead, pieces, last);
    var kept := Dashed(pieces) + last;
    NamedMeans(name, lower, prefix, kept);
  }

  lemma NamedMeans(name: string, lower: char -> string, prefix: string, kept: string)
    requires !ValidName(name) && Kept(Lowered(name, lower)) == kept
    ensures var named := if kept != "" && 'a' <= kept[0] <= 'z' then kept else prefix + kept;
            IsTrimmed(Normalized(name, lower, prefix), if |named| <= 62 then named else named[..62])
  {
    hide ValidName, Kept, Lowered, TrimDashes;
    var named := if kept != "" && 'a' <= kept[0] <= 'z' then kept else prefix + kept;
    TrimmedDashes(Cut(named, MAX_NAME));
  }

  /** What has been kept: name characters and single dashes, not starting with one. */
  predicate Keeping(s: string) {
    && (forall i :: 0 <= i < |s| ==> IsNameChar(s[i]) || s[i] == '-')
    && (forall i :: 0 <= i < |s| - 1 ==> s[i] != '-' || s[i + 1] != '-')
    && (s != [] ==> s[0] != '-')
  }

  lemma {:induction false} LoweredHasNoCapitals(s: string, lower: char -> string)
    requires LowerCases(lower)
    ensures forall i :: 0 <= i < |Lowered(s, lower)| ==> !('A' <= Lowered(s, lower)[i] <= 'Z')
  {
    if s != [] { LoweredHasNoCapitals(s[1..], lower); }
  }

  lemma {:induction false} KeptKeeps(text: string)
    requires forall i :: 0 <= i < |text| ==> !('A' <= text[i] <= 'Z')
    ensures Keeping(Kept(text))
  {
    if text != [] { KeptKeeps(text[..|text| - 1]); }
  }

  lemma PrefixKeeps(kept: string, prefix: string)
    requires Keeping(kept) && Keeping(prefix) && |prefix| >= 2 && IsLower(prefix[0]) && prefix[|prefix| - 1] == '-'
    ensures Keeping(prefix + kept) && IsLower((prefix + kept)[0])
  {
  }

  lemma {:induction false} TrimmedIsSlug(s: string)
    requires Keeping(s) && s != [] && IsLower(s[0])
    ensures var t := TrimDashes(s); t <= s && t != [] && IsLower(t[0]) && Slug(t)
  {
    if s[|s| - 1] == '-' { TrimmedIsSlug(s[..|s| - 1]); }
  }

  predicate GoodPrefix(prefix: string) {
    Keeping(prefix) && |prefix| >= 2 && IsLower(prefix[0]) && prefix[|prefix| - 1] == '-'
  }

  /** Every name is normalised to a valid one, and a valid one is left as it is. */
  lemma NormalizedIsValid(name: string, lower: char -> string, prefix: string)
    requires LowerCases(lower) && GoodPrefix(prefix)
    ensures ValidName(Normalized(name, lower, prefix))
    ensures ValidName(name) ==> Normalized(name, lower, prefix) == name
    ensures Normalized(Normalized(name, lower, prefix), lower, prefix) == Normalized(name, lower, prefix)
  {
    hide ValidName, Kept, Lowered;
    if !ValidName(name) {
      LoweredHasNoCapitals(name, lower);
      var kept := Kept(Lowered(name, lower));
      KeptKeeps(Lowered(name, lower));
      PrefixKeeps(kept, prefix);
      var named := if kept != [] && IsLower(kept[0]) then kept else prefix + kept;
      TrimmedIsSlug(Cut(named, MAX_NAME));
      ValidIsSlug(TrimDashes(Cut(named, MAX_NAME)));
    }
  }

  /** Both importers name packages validly: plugins with the prefix `plugin-`, MCP bundles with `mcp-`. */
  lemma ImportsAreValid(name: string, lower: char -> string)
    requires LowerCases(lower)
    ensures ValidName(Normalized(name, lower, "plugin-")) && ValidName(Normalized(name, lower, "mcp-"))
  {
    hide Normalized, ValidName;
    assert GoodPrefix("plugin-") && GoodPrefix("mcp-");
    NormalizedIsValid(name, lower, "plugin-");
    NormalizedIsValid(name, lower, "mcp-");
  }

  /** The loop of the normaliser. */
  method NormalizeName(name: string, lower: char -> string, prefix: string) returns (result: string)
    ensures result == Normalized(name, lower, prefix)
  {
    hide ValidName;
    if ValidName(name) {
      return name;
    }
    var text := Lowered(name, lower);
    result := [];
    var i := 0;
    while i < |text|
      invariant i <= |text| && result == Kept(text[..i])
    {
      assert text[..i + 1][..i] == text[..i];
      if IsAsciiAlphanumeric(text[i]) {
        result := result + [text[i]];
      } else if result != [] && result[|result| - 1] != '-' {
        result := result + "-";
      }
      i := i + 1;
    }
    assert text[..i] == text;
    if result == [] || !IsLower(result[0]) {
      result := prefix + result;
    }
    result := TrimDashes(Cut(result, MAX_NAME));
  }

  // ----- the bundle name ------------------------------------------------------------------------------------------

  function Suffix(counter: nat): string {
    if counter == 0 then "-bundle" else "-bundle-" + Digits(counter)
  }

  function Candidate(base: string, counter: nat): string {
    var suffix := Suffix(counter);
    TrimDashes(Cut(base, if |suffix| <= MAX_NAME then MAX_NAME - |suffix| else 0)) + suffix
  }

  /** A candidate is the base, as much of it as leaves room in 62 characters for the suffix, without dashes at the end,
      and the suffix: `-bundle`, numbered from the second candidate on. */
  lemma CandidateMeans(base: string, counter: nat)
    requires counter < U64
    ensures var suffix := if counter == 0 then "-bundle" else "-bundle-" + Digits(counter);
            var (room, c) := (62 - |suffix|, Candidate(base, counter));
            && room >= 0 && |c| >= |suffix| && c[|c| - |suffix|..] == suffix
            && IsTrimmed(c[..|c| - |suffix|], if |base| <= room then base else base[..room])
  {
    hide TrimDashes, Digits;
    SuffixLength(counter);
    var suffix := Suffix(counter);
    var front := Cut(base, MAX_NAME - |suffix|);
    TrimmedDashes(front);
    var c := Candidate(base, counter);
    assert c == TrimDashes(front) + suffix;
    assert c[..|c| - |suffix|] == TrimDashes(front) && c[|c| - |suffix|..] == suffix;
  }

  lemma SuffixLength(counter: nat)
    requires counter < U64
    ensures 7 <= |Suffix(counter)| <= 28
  {
    if counter > 0 { DigitsOfU64(counter); }
  }

  lemma SuffixTail(counter: nat)
    ensures SlugTail(Suffix(counter)) && Suffix(counter)[0] == '-'
  {
    hide Digits;
    if counter > 0 {
      DigitsText(counter);
      var d := Digits(counter);
      assert forall i :: 0 <= i < |d| ==> IsNameChar(d[i]);
    }
  }

  lemma JoinSlugs(a: string, b: string)
    requires Slug(a) && b != [] && SlugTail(b)
    ensures Slug(a + b)
  {
  }

  /** Every candidate is a valid name. */
  lemma CandidateIsValid(base: string, counter: nat)
    requires ValidName(base) && counter < U64
    ensures ValidName(Candidate(base, counter))
  {
    hide ValidName, Suffix;
    ValidIsSlug(base);
    SuffixLength(counter);
    var suffix := Suffix(counter);
    var cut := Cut(base, MAX_NAME - |suffix|);
    TrimmedIsSlug(cut);
    SuffixTail(counter);
    JoinSlugs(TrimDashes(cut), suffix);
    ValidIsSlug(Candidate(base, counter));
  }

  /** The text behind the last dash. */
  function LastSegment(s: string): string {
    if s == [] || s[|s| - 1] == '-' then [] else LastSegment(s[..|s| - 1]) + [s[|s| - 1]]
  }

  lemma {:induction false} LastSegmentOf(head: string, tail: string)
    requires forall i :: 0 <= i < |tail| ==> tail[i] != '-'
    ensures LastSegment(head + "-" + tail) == tail
  {
    var s := head + "-" + tail;
    if tail != [] {
      var init := tail[..|tail| - 1];
      assert s[..|s| - 1] == head + "-" + init;
      LastSegmentOf(head, init);
    } else {
      assert s[|s| - 1] == '-';
    }
  }

  lemma CandidateSegment(base: string, counter: nat)
    ensures LastSegment(Candidate(base, counter)) == if counter == 0 then "bundle" else Digits(counter)
  {
    hide Digits, Cut, TrimDashes;
    var suffix := Suffix(counter);
    var head := TrimDashes(Cut(base, if |suffix| <= MAX_NAME then MAX_NAME - |suffix| else 0));
    if counter == 0 {
      assert head + suffix == head + "-" + "bundle";
      LastSegmentOf(head, "bundle");
    } else {
      DigitsText(counter);
      assert head + suffix == (head + "-bundle") + "-" + Digits(counter);
      LastSegmentOf(head + "-bundle", Digits(counter));
    }
  }

  /** No two candidates are the same. */
  lemma CandidatesDiffer(base: string, a: nat, b: nat)
    requires Candidate(base, a) == Candidate(base, b)
    ensures a == b
  {
    hide Candidate, Digits;
    CandidateSegment(base, a);
    CandidateSegment(base, b);
    DigitsText(a);
    DigitsText(b);
    assert "bundle"[0] == 'b';
    if a != 0 && b != 0 { DigitsInjective(a, b); }
  }

  /** Names that are all different and all taken are no more than the takers. */
  lemma {:induction false} Pigeonhole(names: seq<string>, taken: seq<string>)
    requires forall i, j :: 0 <= i < j < |names| ==> names[i] != names[j]
    requires forall i :: 0 <= i < |names| ==> names[i] in taken
    ensures |names| <= |taken|
    decreases |names|
  {
    if names != [] {
      var init, last := names[..|names| - 1], names[|names| - 1];
      var k :| 0 <= k < |taken| && taken[k] == last;
      var rest := taken[..k] + taken[k + 1..];
      forall i | 0 <= i < |init| ensures init[i] in rest {
        assert names[i] in taken && names[i] != last;
        var j :| 0 <= j < |taken| && taken[j] == names[i];
        assert if j < k then rest[j] == names[i] else rest[j - 1] == names[i];
      }
      Pigeonhole(init, rest);
    }
  }

  lemma SomeCandidateIsFree(base: string, children: seq<string>)
    ensures exists counter :: 0 <= counter <= |children| && Candidate(base, counter) !in children
  {
    hide Candidate;
    if forall counter :: 0 <= counter <= |children| ==> Candidate(base, counter) in children {
      var names := seq(|children| + 1, i requires 0 <= i < |children| + 1 => Candidate(base, i));
      forall i, j | 0 <= i < j < |names| ensures names[i] != names[j] {
        if names[i] == names[j] { CandidatesDiffer(base, i, j); }
      }
      Pigeonhole(names, children);
    }
  }

  /** The search of `normalise_claude`: with N members one of N + 1 candidates is free, so it ends with a valid name
      that no member has. */
  method BundleName(base: string, children: seq<string>) returns (name: string)
    requires ValidName(base) && |children| < U64 - 1
    ensures ValidName(name) && name !in children
    ensures base !in children ==> name == base
    ensures base in children ==>
              exists counter :: 0 <= counter <= |children| && name == Candidate(base, counter)
                                && forall k :: 0 <= k < counter ==> Candidate(base, k) in children
  {
    hide ValidName, Candidate;
    name := base;
    if base in children {
      var counter := 0;
      SomeCandidateIsFree(base, children);
      while counter <= |children|
        invariant 0 <= counter <= |children| + 1
        invariant forall k :: 0 <= k < counter ==> Candidate(base, k) in children
      {
        var candidate := Candidate(base, counter);
        if candidate !in children {
          CandidateIsValid(base, counter);
          return candidate;
        }
        counter := counter + 1;
      }
    }
  }
}
