/** The masking of credentials in endpoint URLs: userinfo, query values and fragment values are replaced by a mask. */
module UrlMask {
  import opened Options
  import opened Texts

  // ----- text -----------------------------------------------------------------------------------------------------

  /** The first position in `s` of a character of `set`, or the length of `s`. */
  function Find(s: string, chars: string): (k: nat)
    ensures k <= |s| && (forall i :: 0 <= i < k ==> s[i] !in chars) && (k < |s| ==> s[k] in chars)
  {
    if s == [] || s[0] in chars then 0 else 1 + Find(s[1..], chars)
  }

  /** The last position of `c` in `s`, or the length of `s`. */
  function FindLast(s: string, c: char): (k: nat)
    ensures k <= |s| && (k < |s| ==> s[k] == c && forall i :: k < i < |s| ==> s[i] != c)
    ensures k == |s| ==> c !in s
  {
    if s == [] then 0
    else if s[|s| - 1] == c then |s| - 1
    else
      var k := FindLast(s[..|s| - 1], c);
      assert s == s[..|s| - 1] + [s[|s| - 1]];
      if k == |s| - 1 then |s| else k
  }

  lemma FindIs(s: string, chars: string, k: nat)
    requires k <= |s| && (forall i :: 0 <= i < k ==> s[i] !in chars) && (k < |s| ==> s[k] in chars)
    ensures Find(s, chars) == k
  {
  }

  lemma FindLastIs(s: string, c: char, k: nat)
    requires k < |s| && s[k] == c && forall i :: k < i < |s| ==> s[i] != c
    ensures FindLast(s, c) == k
  {
  }

  function TrimLeft(s: string): string {
    if s != [] && s[0] <= ' ' then TrimLeft(s[1..]) else s
  }

  function TrimRight(s: string): string {
    if s != [] && s[|s| - 1] <= ' ' then TrimRight(s[..|s| - 1]) else s
  }

  predicate IsBreak(c: char) {
    c == '\t' || c == '\n' || c == '\r'
  }

  function DropBreaks(s: string): string {
    if s == [] then [] else (if IsBreak(s[0]) then [] else [s[0]]) + DropBreaks(s[1..])
  }

  /** `normalized_url`. */
  function Normalized(s: string): string {
    DropBreaks(TrimRight(TrimLeft(s)))
  }

  // ----- parameters -----------------------------------------------------------------------------------------------

  /** The characters a mask must not have for the masked text to be read the same way again. */
  predicate SafeMask(mask: string) {
    forall i :: 0 <= i < |mask| ==> mask[i] > ' ' && mask[i] !in "/\\?#@&="
  }

  /** One parameter: its value is hidden, or all of it if it has none and is private. */
  function MaskParameter(p: string, mask: string, barePrivate: bool): string {
    var k := Find(p, "=");
    if k < |p| then p[..k] + "=" + mask
    else if barePrivate && p != [] then mask
    else p
  }

  function MaskEach(parts: seq<string>, mask: string, barePrivate: bool): (masked: seq<string>)
    ensures |masked| == |parts|
    ensures forall i :: 0 <= i < |parts| ==> masked[i] == MaskParameter(parts[i], mask, barePrivate)
  {
    seq(|parts|, i requires 0 <= i < |parts| => MaskParameter(parts[i], mask, barePrivate))
  }

  /** `mask_parameters`. */
  function MaskParameters(s: string, mask: string, barePrivate: bool): string {
    Join(MaskEach(Split(s, '&'), mask, barePrivate), '&')
  }

  lemma MaskParameterTwice(p: string, mask: string, barePrivate: bool)
    requires SafeMask(mask) && '&' !in p
    ensures MaskParameter(MaskParameter(p, mask, barePrivate), mask, barePrivate) == MaskParameter(p, mask, barePrivate)
    ensures '&' !in MaskParameter(p, mask, barePrivate)
  {
    var k, q := Find(p, "="), MaskParameter(p, mask, barePrivate);
    if k < |p| {
      FindIs(q, "=", k);
    } else if barePrivate && p != [] {
      FindIs(mask, "=", |mask|);
    }
  }

  lemma MaskParametersTwice(s: string, mask: string, barePrivate: bool)
    requires SafeMask(mask)
    ensures var once := MaskParameters(s, mask, barePrivate); MaskParameters(once, mask, barePrivate) == once
  {
    hide MaskParameter, SafeMask, Split, Join;
    var once := MaskEach(Split(s, '&'), mask, barePrivate);
    forall i | 0 <= i < |once|
      ensures '&' !in once[i] && MaskParameter(once[i], mask, barePrivate) == once[i]
    {
      MaskParameterTwice(Split(s, '&')[i], mask, barePrivate);
    }
    SplitJoin(once, '&');
    assert MaskEach(once, mask, barePrivate) == once;
  }

  /** No value survives: every parameter of the result that has a value has the mask for it. */
  lemma NoValueSurvives(s: string, mask: string, barePrivate: bool)
    requires SafeMask(mask)
    ensures var parts := Split(MaskParameters(s, mask, barePrivate), '&');
            forall i :: 0 <= i < |parts| ==>
              var k := Find(parts[i], "=");
              && (k < |parts[i]| ==> parts[i][k + 1..] == mask)
              && (k == |parts[i]| && barePrivate && parts[i] != [] ==> parts[i] == mask)
  {
    hide Split, Join, SafeMask;
    var once := MaskEach(Split(s, '&'), mask, barePrivate);
    forall i | 0 <= i < |once|
      ensures '&' !in once[i] && MaskParameter(once[i], mask, barePrivate) == once[i]
    {
      MaskParameterTwice(Split(s, '&')[i], mask, barePrivate);
    }
    SplitJoin(once, '&');
  }

  /** Masking parameters brings in no characters but the separators' and the mask's. */
  lemma MaskParametersMembers(s: string, mask: string, barePrivate: bool)
    ensures forall x :: x in MaskParameters(s, mask, barePrivate) ==> x in s || x in mask || x == '&' || x == '='
  {
    hide Join, Split;
    var parts := Split(s, '&');
    var masked := MaskEach(parts, mask, barePrivate);
    JoinMembers(masked, '&');
    SplitMembers(s, '&');
    forall x | x in MaskParameters(s, mask, barePrivate) && x != '&'
      ensures x in s || x in mask || x == '='
    {
      var i :| 0 <= i < |masked| && x in masked[i];
      assert x in parts[i] || x in mask || x == '=';
    }
  }

  /** The text before the first `?` or `#`. */
  function Head(s: string): string {
    s[..Find(s, "?#")]
  }

  /** The text before the fragment, its query values masked. */
  function KeptOf(body: string, mask: string): string {
    var question := Find(body, "?");
    if question < |body| then body[..question] + "?" + MaskParameters(body[question + 1..], mask, false) else body
  }

  /** The second half of the masking: the values of the query and of the fragment. */
  function MaskTail(s: string, mask: string): string {
    var hash := Find(s, "#");
    var kept := KeptOf(s[..hash], mask);
    if hash < |s| then kept + "#" + MaskParameters(s[hash + 1..], mask, true) else kept
  }

  /** The two halves of a body with a query. */
  lemma KeptParts(h: string, q: string, mask: string)
    requires Find(h, "?#") == |h|
    ensures KeptOf(h + ("?" + q), mask) == h + ("?" + MaskParameters(q, mask, false))
    ensures Head(h + ("?" + q)) == h
    ensures Find(h + ("?" + q), "?") < |h + ("?" + q)|
  {
    hide MaskParameters;
    var body := h + ("?" + q);
    FindIs(body, "?", |h|);
    FindIs(body, "?#", |h|);
    assert body[..|h|] == h && body[|h| + 1..] == q;
    assert h + "?" + MaskParameters(q, mask, false) == h + ("?" + MaskParameters(q, mask, false));
  }

  lemma KeptTwice(body: string, mask: string)
    requires SafeMask(mask) && '#' !in body
    ensures '#' !in KeptOf(body, mask) && KeptOf(KeptOf(body, mask), mask) == KeptOf(body, mask)
    ensures Head(KeptOf(body, mask)) == Head(body)
    ensures Find(KeptOf(body, mask), "?") < |KeptOf(body, mask)| <==> Find(body, "?") < |body|
  {
    hide MaskParameters, Find;
    var question := Find(body, "?");
    if question < |body| {
      var h, q := body[..question], body[question + 1..];
      assert body == h + ("?" + q);
      FindIs(h, "?#", |h|);
      KeptParts(h, q, mask);
      MaskParametersMembers(q, mask, false);
      MaskParametersTwice(q, mask, false);
      KeptParts(h, MaskParameters(q, mask, false), mask);
    }
  }

  /** The two halves of a text with a masked fragment. */
  lemma TailParts(kept: string, g: string, mask: string)
    requires '#' !in kept
    ensures MaskTail(kept + ("#" + g), mask) == KeptOf(kept, mask) + ("#" + MaskParameters(g, mask, true))
    ensures Head(kept + ("#" + g)) == Head(kept)
  {
    hide MaskParameters, KeptOf, Find;
    var out := kept + ("#" + g);
    FindIs(out, "#", |kept|);
    assert out[..|kept|] == kept && out[|kept| + 1..] == g;
    HeadOfBody(kept, "#" + g);
    assert KeptOf(kept, mask) + "#" + MaskParameters(g, mask, true)
           == KeptOf(kept, mask) + ("#" + MaskParameters(g, mask, true));
  }

  lemma NoFragment(s: string, mask: string)
    requires '#' !in s
    ensures MaskTail(s, mask) == KeptOf(s, mask)
  {
    hide MaskParameters, KeptOf, Find;
    FindIs(s, "#", |s|);
    assert s[..|s|] == s;
  }

  lemma MaskTailTwice(s: string, mask: string)
    requires SafeMask(mask)
    ensures MaskTail(MaskTail(s, mask), mask) == MaskTail(s, mask)
    ensures Head(MaskTail(s, mask)) == Head(s)
  {
    hide MaskParameters, KeptOf, SafeMask, MaskTail, Find, Head;
    var hash := Find(s, "#");
    var body := s[..hash];
    assert '#' !in body;
    KeptTwice(body, mask);
    if hash < |s| {
      var f := s[hash + 1..];
      assert s == body + ("#" + f);
      TailParts(body, f, mask);
      MaskParametersTwice(f, mask, true);
      TailParts(KeptOf(body, mask), MaskParameters(f, mask, true), mask);
    } else {
      assert body == s;
      NoFragment(s, mask);
      NoFragment(KeptOf(s, mask), mask);
    }
  }

  lemma HeadOfBody(body: string, rest: string)
    requires '#' !in body && rest != [] && rest[0] == '#'
    ensures Head(body + rest) == Head(body)
  {
    FindIs(body + rest, "?#", Find(body, "?#"));
  }

  /** What is masked behind the head leaves the text free of line breaks and with a visible last character. */
  predicate Tidy(s: string) {
    && BreakLess(s)
    && (s != [] ==> s[0] > ' ' && s[|s| - 1] > ' ')
  }

  lemma {:induction false} BreakFree(s: string)
    requires forall i :: 0 <= i < |s| ==> !IsBreak(s[i])
    ensures DropBreaks(s) == s
  {
    if s != [] { BreakFree(s[1..]); }
  }

  lemma TidyIsNormalized(s: string)
    requires Tidy(s)
    ensures Normalized(s) == s
  {
    BreakFree(s);
  }

  lemma {:induction false} DropBreaksTidies(s: string)
    ensures forall i :: 0 <= i < |DropBreaks(s)| ==> !IsBreak(DropBreaks(s)[i])
    ensures s != [] && s[0] > ' ' ==> DropBreaks(s) != [] && DropBreaks(s)[0] == s[0]
    ensures s != [] && s[|s| - 1] > ' ' ==> DropBreaks(s) != [] && DropBreaks(s)[|DropBreaks(s)| - 1] == s[|s| - 1]
  {
    if s != [] {
      DropBreaksTidies(s[1..]);
      if |s| > 1 { assert s[1..][|s[1..]| - 1] == s[|s| - 1]; }
    }
  }

  lemma {:induction false} TrimLeftTidies(s: string)
    ensures TrimLeft(s) != [] ==> TrimLeft(s)[0] > ' '
    ensures |TrimLeft(s)| <= |s| && TrimLeft(s) == s[|s| - |TrimLeft(s)|..]
  {
    if s != [] && s[0] <= ' ' { TrimLeftTidies(s[1..]); }
  }

  lemma {:induction false} TrimRightTidies(s: string)
    ensures TrimRight(s) <= s
    ensures TrimRight(s) != [] ==> TrimRight(s)[|TrimRight(s)| - 1] > ' '
  {
    if s != [] && s[|s| - 1] <= ' ' { TrimRightTidies(s[..|s| - 1]); }
  }

  lemma NormalizedIsTidy(s: string)
    ensures Tidy(Normalized(s))
  {
    TrimLeftTidies(s);
    var left := TrimLeft(s);
    TrimRightTidies(left);
    DropBreaksTidies(TrimRight(left));
  }

  lemma LastOfParameters(s: string, mask: string, barePrivate: bool)
    requires SafeMask(mask) && (s != [] ==> s[|s| - 1] > ' ')
    ensures var m := MaskParameters(s, mask, barePrivate); m != [] ==> m[|m| - 1] > ' '
  {
    hide Split, Join, MaskParameter, SafeMask;
    var parts := Split(s, '&');
    var masked := MaskEach(parts, mask, barePrivate);
    SplitLast(s, '&');
    JoinLast(masked, '&');
    LastOfParameter(parts[|parts| - 1], mask, barePrivate);
  }

  lemma LastOfParameter(p: string, mask: string, barePrivate: bool)
    requires SafeMask(mask) && (p != [] ==> p[|p| - 1] > ' ')
    ensures var m := MaskParameter(p, mask, barePrivate); m != [] ==> m[|m| - 1] > ' '
  {
  }

  lemma {:induction false} SplitLast(s: string, c: char)
    ensures var last := Split(s, c)[|Split(s, c)| - 1]; last != [] ==> s != [] && last[|last| - 1] == s[|s| - 1]
  {
    if s != [] {
      SplitLast(s[1..], c);
    }
  }

  lemma {:induction false} JoinLast(parts: seq<string>, c: char)
    requires parts != []
    ensures var last, joined := parts[|parts| - 1], Join(parts, c);
            && (last != [] ==> joined != [] && joined[|joined| - 1] == last[|last| - 1])
            && (last == [] && joined != [] ==> joined[|joined| - 1] == c)
  {
    if |parts| > 1 { JoinLast(parts[1..], c); }
  }

  predicate BreakLess(s: string) {
    forall i :: 0 <= i < |s| ==> !IsBreak(s[i])
  }

  lemma TidyTail(kept: string, g: string)
    requires BreakLess(kept) && BreakLess(g)
    requires (kept != [] ==> kept[0] > ' ') && (g != [] ==> g[|g| - 1] > ' ')
    ensures Tidy(kept + ("#" + g))
  {
  }

  lemma FragmentTidy(f: string, mask: string)
    requires SafeMask(mask) && BreakLess(f) && (f != [] ==> f[|f| - 1] > ' ')
    ensures var g := MaskParameters(f, mask, true); BreakLess(g) && (g != [] ==> g[|g| - 1] > ' ')
  {
    hide MaskParameters, SafeMask;
    MaskParametersMembers(f, mask, true);
    LastOfParameters(f, mask, true);
    MaskHasNoBreaks(mask);
    var g := MaskParameters(f, mask, true);
    forall i | 0 <= i < |g| ensures !IsBreak(g[i]) {
      assert g[i] in g;
    }
  }

  lemma MaskTailTidy(s: string, mask: string)
    requires SafeMask(mask) && Tidy(s)
    ensures Tidy(MaskTail(s, mask))
  {
    hide MaskParameters, KeptOf, SafeMask, Find, MaskTail, IsBreak;
    var hash := Find(s, "#");
    var body := s[..hash];
    KeptTidy(body, mask);
    if hash < |s| {
      var f := s[hash + 1..];
      assert s == body + ("#" + f);
      FragmentTidy(f, mask);
      TidyTail(KeptOf(body, mask), MaskParameters(f, mask, true));
      TailParts(body, f, mask);
    } else {
      assert body == s;
      NoFragment(s, mask);
    }
  }

  lemma MaskHasNoBreaks(mask: string)
    requires SafeMask(mask)
    ensures forall x :: x in mask ==> !IsBreak(x)
  {
  }

  lemma KeptTidy(body: string, mask: string)
    requires SafeMask(mask)
    requires BreakLess(body)
    requires body != [] ==> body[0] > ' '
    ensures var kept := KeptOf(body, mask);
            && BreakLess(kept)
            && (kept != [] ==> kept[0] > ' ')
            && (body != [] && body[|body| - 1] > ' ' ==> kept != [] && kept[|kept| - 1] > ' ')
            && (body == [] ==> kept == [])
  {
    hide MaskParameters, SafeMask;
    var question, kept := Find(body, "?"), KeptOf(body, mask);
    if question < |body| {
      var q := body[question + 1..];
      var g := MaskParameters(q, mask, false);
      MaskParametersMembers(q, mask, false);
      MaskHasNoBreaks(mask);
      forall i | 0 <= i < |g| ensures !IsBreak(g[i]) {
        assert g[i] in g;
      }
      if body[|body| - 1] > ' ' { LastOfParameters(q, mask, false); }
    }
  }

  // ----- userinfo -------------------------------------------------------------------------------------------------

  predicate IsLetter(c: char) {
    'a' <= c <= 'z' || 'A' <= c <= 'Z'
  }

  predicate IsSchemeChar(c: char) {
    IsLetter(c) || '0' <= c <= '9' || c == '+' || c == '-' || c == '.'
  }

  /** `scheme_separator`. */
  function SchemeEnd(s: string): (k: Option<nat>)
    ensures k.Some? ==> k.value < |s| && s[k.value] == ':'
  {
    var k := Find(s, ":");
    if 0 < k < |s| && IsLetter(s[0]) && forall i :: 1 <= i < k ==> IsSchemeChar(s[i]) then Some(k) else None
  }

  predicate IsSlash(c: char) {
    c == '/' || c == '\\'
  }

  function SkipSlashes(s: string, at: nat): (k: nat)
    requires at <= |s|
    ensures at <= k <= |s| && (forall i :: at <= i < k ==> IsSlash(s[i])) && (k < |s| ==> !IsSlash(s[k]))
    decreases |s| - at
  {
    if at < |s| && IsSlash(s[at]) then SkipSlashes(s, at + 1) else at
  }

  /** Where the authority starts, and the characters that end it. */
  function Authority(s: string): (r: Option<(nat, string)>)
    ensures r.Some? ==> r.value.0 <= |s| && (r.value.1 == "/?#" || r.value.1 == "/?#\\")
  {
    var colon := SchemeEnd(s);
    if colon.None? then
      if |s| >= 2 && IsSlash(s[0]) && IsSlash(s[1]) then Some((SkipSlashes(s, 0), "/?#\\")) else None
    else
      var scheme, at := Lower(s[..colon.value]), colon.value + 1;
      if scheme in ["http", "https", "ftp", "ws", "wss"] then Some((SkipSlashes(s, at), "/?#\\"))
      else if at + 2 <= |s| && s[at] == '/' && s[at + 1] == '/' then
        Some((at + 2, if scheme == "file" then "/?#\\" else "/?#"))
      else None
  }

  /** `userinfo_range`: the userinfo lies before the last `@` of the authority. */
  function UserinfoRange(s: string): (r: Option<(nat, nat)>)
    ensures r.Some? ==> r.value.0 <= r.value.1 < |s| && s[r.value.1] == '@'
  {
    var authority := Authority(s);
    if authority.None? then None
    else
      var (start, ends) := authority.value;
      var text := s[start..start + Find(s[start..], ends)];
      var k := FindLast(text, '@');
      if k < |text| then Some((start, start + k)) else None
  }

  lemma SchemeIsLocal(s: string)
    ensures SchemeEnd(s) == SchemeEnd(Head(s))
  {
    var h, k := Find(s, "?#"), Find(s, ":");
    if k < h {
      FindIs(Head(s), ":", k);
    } else {
      FindIs(Head(s), ":", h);
      assert h < |s| ==> !IsLetter(s[h]) && !IsSchemeChar(s[h]);
    }
  }

  lemma SkipIs(s: string, at: nat, k: nat)
    requires at <= k <= |s| && (forall i :: at <= i < k ==> IsSlash(s[i])) && (k < |s| ==> !IsSlash(s[k]))
    ensures SkipSlashes(s, at) == k
  {
  }

  lemma AuthorityIsLocal(s: string)
    ensures Authority(s) == Authority(Head(s))
    ensures Authority(s).Some? ==> Authority(s).value.0 <= |Head(s)|
  {
    hide SchemeEnd, Lower;
    SchemeIsLocal(s);
    var h := Head(s);
    var colon := SchemeEnd(h);
    var at := if colon.Some? then colon.value + 1 else 0;
    assert at <= |h|;
    SkipIs(s, at, SkipSlashes(h, at));
    assert colon.Some? ==> s[..colon.value] == h[..colon.value];
  }

  /** The userinfo is found from the text before the first `?` or `#`. */
  lemma RangeIsLocal(s: string)
    ensures UserinfoRange(s) == UserinfoRange(Head(s))
  {
    hide Authority, Find, FindLast, Head;
    AuthorityIsLocal(s);
    if Authority(s).Some? {
      var (start, ends) := Authority(s).value;
      FindInHead(s, start, ends);
    }
  }

  lemma FindInHead(s: string, start: nat, ends: string)
    requires start <= |Head(s)| && (ends == "/?#" || ends == "/?#\\")
    ensures start <= |s|
    ensures var k := Find(s[start..], ends);
            && k == Find(Head(s)[start..], ends) && start + k <= |Head(s)|
            && s[start..start + k] == Head(s)[start..start + k]
  {
    hide Find;
    var h := Head(s);
    var k := Find(h[start..], ends);
    forall i | 0 <= i < k ensures s[start..][i] !in ends {
      assert s[start..][i] == h[start..][i];
    }
    if k < |s[start..]| {
      if k < |h[start..]| {
        assert s[start..][k] == h[start..][k];
      } else {
        assert s[start..][k] == s[|h|];
        assert s[|h|] in "?#";
      }
    }
    FindIs(s[start..], ends, k);
    assert s[..start + k] == h[..start + k];
  }

  /** The first half of the masking: without userinfo the text is kept as it is, with it the normalised text is
      taken. */
  function MaskUserinfo(s: string, mask: string): string {
    var n := Normalized(s);
    match UserinfoRange(n)
    case Some((start, end)) => n[..start] + mask + "@" + n[end + 1..]
    case None => s
  }

  /** `mask_url_credentials_with`. */
  function Mask(s: string, mask: string): string {
    MaskTail(MaskUserinfo(s, mask), mask)
  }

  lemma SameScheme(n: string, o: string, start: nat)
    requires start <= |n| && start <= |o| && n[..start] == o[..start]
    requires match SchemeEnd(n) { case Some(k) => k < start case None => |o| > 0 && !IsLetter(o[0]) }
    ensures SchemeEnd(o) == SchemeEnd(n)
  {
    forall i | 0 <= i < start ensures n[i] == o[i] {
      assert n[..start][i] == o[..start][i];
    }
    if SchemeEnd(n).Some? {
      FindIs(o, ":", SchemeEnd(n).value);
    }
  }

  /** A text that starts like `n` up to the authority, and goes on without a slash, has its authority there too. */
  lemma SameAuthority(n: string, o: string)
    requires Authority(n).Some?
    requires var start := Authority(n).value.0; start < |o| && o[..start] == n[..start] && !IsSlash(o[start])
    ensures Authority(o) == Authority(n)
  {
    hide Lower, SchemeEnd;
    var start := Authority(n).value.0;
    forall i | 0 <= i < start ensures n[i] == o[i] {
      assert n[..start][i] == o[..start][i];
    }
    var colon := SchemeEnd(n);
    if colon.None? {
      assert IsSlash(o[0]) && IsSlash(o[1]) by { TwoSlashes(n); }
    }
    SameScheme(n, o, start);
    var at := if colon.Some? then colon.value + 1 else 0;
    assert colon.Some? ==> o[..colon.value] == n[..colon.value];
    SkipIs(o, at, SkipSlashes(o, at));
    if SkipSlashes(n, at) == start { SkipIs(o, at, start); }
  }

  lemma TwoSlashes(n: string)
    requires |n| >= 2 && IsSlash(n[0]) && IsSlash(n[1])
    ensures SkipSlashes(n, 0) >= 2
  {
  }

  /** `text` has none of the characters `chars`. */
  predicate Clear(text: string, chars: string) {
    forall i :: 0 <= i < |text| ==> text[i] !in chars
  }

  /** An authority with userinfo, taken apart: userinfo, `@`, host, and what ends the authority. */
  lemma RangeParts(rest: string, ends: string) returns (host: string, tail: string)
    requires '@' !in ends
    requires var text := rest[..Find(rest, ends)]; FindLast(text, '@') < |text|
    ensures var k := FindLast(rest[..Find(rest, ends)], '@');
            k < |rest| && rest[k + 1..] == host + tail && Clear(rest[..k], ends)
    ensures Clear(host, ends) && Clear(host, "@") && (tail != [] ==> tail[0] in ends)
  {
    var stop := Find(rest, ends);
    var k := FindLast(rest[..stop], '@');
    host, tail := rest[k + 1..stop], rest[stop..];
    assert forall i :: 0 <= i < |host| ==> host[i] == rest[k + 1 + i] == rest[..stop][k + 1 + i];
    assert rest[k + 1..] == host + tail;
  }

  lemma RangeOfParts(userinfo: string, host: string, tail: string, ends: string)
    requires '@' !in ends && Clear(userinfo, ends) && Clear(host, ends) && Clear(host, "@")
    requires tail != [] ==> tail[0] in ends
    ensures var rest := userinfo + "@" + host + tail;
            var stop := Find(rest, ends);
            stop == |userinfo| + 1 + |host| && FindLast(rest[..stop], '@') == |userinfo|
  {
    var rest, stop := userinfo + "@" + host + tail, |userinfo| + 1 + |host|;
    FindIs(rest, ends, stop);
    assert rest[..stop] == userinfo + "@" + host;
    FindLastIs(rest[..stop], '@', |userinfo|);
  }

  lemma MaskIsClear(mask: string, ends: string)
    requires SafeMask(mask) && (ends == "/?#" || ends == "/?#\\")
    ensures Clear(mask, ends) && '@' !in ends
  {
  }

  /** The text with the userinfo replaced has the mask for its userinfo. */
  lemma MaskedRange(n: string, mask: string)
    requires SafeMask(mask) && UserinfoRange(n).Some?
    ensures var (start, end) := UserinfoRange(n).value;
            UserinfoRange(n[..start] + mask + "@" + n[end + 1..]) == Some((start, start + |mask|))
  {
    hide Authority, Find, FindLast, SafeMask, Clear;
    var (start, end) := UserinfoRange(n).value;
    var ends := Authority(n).value.1;
    MaskIsClear(mask, ends);
    var rest := n[start..];
    assert n[start..start + Find(rest, ends)] == rest[..Find(rest, ends)] by {
      SliceOfRest(n, start, Find(rest, ends));
    }
    var host, tail := RangeParts(rest, ends);
    assert n[end + 1..] == rest[end - start + 1..];
    RangeAssembled(n, mask, host, tail);
    Regroup(n[..start], mask, host, tail);
  }

  lemma SliceOfRest(n: string, start: nat, k: nat)
    requires start + k <= |n|
    ensures n[start..start + k] == n[start..][..k]
  {
  }

  lemma Regroup(a: string, b: string, c: string, d: string)
    ensures a + b + "@" + (c + d) == a + (b + "@" + c + d)
  {
  }

  lemma RangeAssembled(n: string, mask: string, host: string, tail: string)
    requires SafeMask(mask) && Authority(n).Some?
    requires var ends := Authority(n).value.1;
             Clear(mask, ends) && Clear(host, ends) && Clear(host, "@") && (tail != [] ==> tail[0] in ends)
    ensures var start := Authority(n).value.0;
            UserinfoRange(n[..start] + (mask + "@" + host + tail)) == Some((start, start + |mask|))
  {
    hide Authority, Find, FindLast, SafeMask, Clear;
    var (start, ends) := Authority(n).value;
    var more := mask + "@" + host + tail;
    var o := n[..start] + more;
    MaskIsClear(mask, ends);
    MaskStart(mask);
    SameAuthority(n, o);
    RangeOfParts(mask, host, tail, ends);
    assert o[start..] == more;
    assert o[start..start + Find(more, ends)] == more[..Find(more, ends)];
  }

  lemma MaskStart(mask: string)
    requires SafeMask(mask)
    ensures mask != [] ==> !IsSlash(mask[0])
  {
  }

  lemma MaskedTidy(n: string, mask: string)
    requires SafeMask(mask) && UserinfoRange(n).Some? && Tidy(n)
    ensures var (start, end) := UserinfoRange(n).value;
            Tidy(n[..start] + mask + "@" + n[end + 1..])
  {
    hide UserinfoRange;
    var (start, end) := UserinfoRange(n).value;
    TidyJoin(n[..start], mask, n[end + 1..], n);
  }

  lemma TidyJoin(pre: string, mask: string, post: string, n: string)
    requires SafeMask(mask) && Tidy(n) && pre <= n && |post| <= |n| && post == n[|n| - |post|..]
    ensures Tidy(pre + mask + "@" + post)
  {
    var o := pre + mask + "@" + post;
    forall i | 0 <= i < |o| ensures !IsBreak(o[i]) {
      if |pre| + |mask| < i {
        assert o[i] == post[i - |pre| - |mask| - 1] == n[|n| - |o| + i];
      }
    }
    assert post != [] ==> o[|o| - 1] == n[|n| - 1];
  }

  /** The userinfo of a text ends before its first `?` and `#`. */
  lemma RangeInHead(s: string)
    requires UserinfoRange(s).Some?
    ensures UserinfoRange(s).value.1 < |Head(s)|
  {
    hide Find, FindLast, Authority;
    RangeIsLocal(s);
  }

  // ----- the masking is idempotent --------------------------------------------------------------------------------

  lemma SameHeadSameMask(o: string, out: string, mask: string)
    requires Head(out) == Head(o) && UserinfoRange(o).Some?
    requires var (start, end) := UserinfoRange(o).value; o[start..end] == mask
    ensures UserinfoRange(out) == UserinfoRange(o)
    ensures var (start, end) := UserinfoRange(out).value; out[..start] + mask + "@" + out[end + 1..] == out
  {
    hide UserinfoRange, Find;
    RangeIsLocal(o);
    RangeIsLocal(out);
    RangeInHead(o);
    var (start, end) := UserinfoRange(o).value;
    var h := Head(o);
    assert o[start..end] == h[start..end] == out[start..end];
    assert out == out[..start] + out[start..end] + [out[end]] + out[end + 1..];
  }

  /** With userinfo: the result is normalised, and its userinfo is the mask. */
  lemma MaskedOnce(s: string, mask: string)
    requires SafeMask(mask) && UserinfoRange(Normalized(s)).Some?
    ensures MaskUserinfo(Mask(s, mask), mask) == Mask(s, mask)
    ensures var n := Normalized(Mask(s, mask));
            UserinfoRange(n).Some? && n[UserinfoRange(n).value.0..UserinfoRange(n).value.1] == mask
    ensures UserinfoRange(Normalized(Mask(s, mask))).value.0 == UserinfoRange(Normalized(s)).value.0
  {
    hide UserinfoRange, MaskTail, SafeMask, Normalized, Find;
    var n := Normalized(s);
    NormalizedIsTidy(s);
    var o := MaskUserinfo(s, mask);
    var out := Mask(s, mask);
    MaskedRange(n, mask);
    MaskedTidy(n, mask);
    var (start, end) := UserinfoRange(o).value;
    assert o[start..end] == mask;
    MaskTailTwice(o, mask);
    MaskTailTidy(o, mask);
    TidyIsNormalized(out);
    SameHeadSameMask(o, out, mask);
    RangeInHead(o);
    assert out[start..end] == Head(out)[start..end] == Head(o)[start..end] == o[start..end];
  }

  lemma {:induction false} TrimLeftOfConcat(h: string, t: string)
    requires t != [] && t[0] > ' '
    ensures TrimLeft(h + t) == TrimLeft(h) + t
  {
    if h == [] {
      assert h + t == t && TrimLeft(h) + t == t;
    } else {
      assert (h + t)[1..] == h[1..] + t;
      TrimLeftOfConcat(h[1..], t);
    }
  }

  lemma {:induction false} TrimRightOfConcat(h: string, t: string)
    requires t != [] && t[0] > ' '
    ensures TrimRight(t) != [] && TrimRight(t)[0] == t[0]
    ensures TrimRight(h + t) == h + TrimRight(t)
  {
    if t[|t| - 1] <= ' ' {
      assert (h + t)[..|h + t| - 1] == h + t[..|t| - 1];
      TrimRightOfConcat(h, t[..|t| - 1]);
    }
  }

  lemma {:induction false} DropBreaksOfConcat(h: string, t: string)
    ensures DropBreaks(h + t) == DropBreaks(h) + DropBreaks(t)
  {
    if h == [] {
      assert h + t == t;
    } else {
      assert (h + t)[1..] == h[1..] + t;
      DropBreaksOfConcat(h[1..], t);
    }
  }

  lemma {:induction false} DropBreaksMembers(h: string)
    ensures forall x :: x in DropBreaks(h) ==> x in h
  {
    if h != [] {
      DropBreaksMembers(h[1..]);
      assert h == [h[0]] + h[1..];
    }
  }

  /** The head of the normalised text comes from the head of the text. */
  lemma NormalizedHead(s: string)
    requires |Head(s)| < |s|
    ensures Head(Normalized(s)) == DropBreaks(TrimLeft(Head(s)))
  {
    var h, t := Head(s), s[|Head(s)|..];
    assert s == h + t;
    TrimLeftOfConcat(h, t);
    var left := TrimLeft(h);
    TrimRightOfConcat(left, t);
    DropBreaksOfConcat(left, TrimRight(t));
    HeadAfter(left, h, TrimRight(t));
  }

  lemma HeadAfter(left: string, h: string, t: string)
    requires left == TrimLeft(h) && (forall i :: 0 <= i < |h| ==> h[i] !in "?#") && t != [] && t[0] in "?#"
    ensures Head(DropBreaks(left) + DropBreaks(t)) == DropBreaks(left)
  {
    hide TrimLeft, DropBreaks, Find;
    TrimLeftTidies(h);
    DropBreaksMembers(left);
    DropBreaksTidies(t);
    var d := DropBreaks(left);
    forall i | 0 <= i < |d| ensures d[i] !in "?#" {
      assert d[i] in left;
    }
    FindIs(d + DropBreaks(t), "?#", |d|);
  }

  lemma NoTail(s: string, mask: string)
    requires |Head(s)| == |s|
    ensures MaskTail(s, mask) == s
  {
    FindIs(s, "#", |s|);
    assert s[..|s|] == s;
    FindIs(s, "?", |s|);
  }

  /** A text with a query or fragment still has it when its values are masked. */
  lemma TailStays(s: string, mask: string)
    requires SafeMask(mask) && |Head(s)| < |s|
    ensures Head(MaskTail(s, mask)) == Head(s) && |Head(s)| < |MaskTail(s, mask)|
  {
    hide MaskParameters;
    MaskTailTwice(s, mask);
    var hash := Find(s, "#");
    if hash < |s| {
      KeptTwice(s[..hash], mask);
    } else {
      assert s[..hash] == s;
      KeptTwice(s, mask);
    }
  }

  /** Without userinfo: the result has none either. */
  lemma UnmaskedOnce(s: string, mask: string)
    requires SafeMask(mask) && UserinfoRange(Normalized(s)).None?
    ensures UserinfoRange(Normalized(Mask(s, mask))).None?
    ensures MaskUserinfo(Mask(s, mask), mask) == Mask(s, mask)
  {
    hide UserinfoRange, MaskTail, Normalized, SafeMask;
    var out := MaskTail(s, mask);
    if |Head(s)| == |s| {
      NoTail(s, mask);
    } else {
      TailStays(s, mask);
      NormalizedHead(s);
      NormalizedHead(out);
      RangeIsLocal(Normalized(s));
      RangeIsLocal(Normalized(out));
    }
  }

  /** Masking twice is masking once, on every string. */
  lemma MaskTwice(s: string, mask: string)
    requires SafeMask(mask)
    ensures Mask(Mask(s, mask), mask) == Mask(s, mask)
  {
    hide UserinfoRange, MaskTail, Normalized, SafeMask, MaskUserinfo;
    if UserinfoRange(Normalized(s)).Some? {
      MaskedOnce(s, mask);
    } else {
      UnmaskedOnce(s, mask);
    }
    MaskTailTwice(MaskUserinfo(s, mask), mask);
  }

  /** No userinfo survives: what a masked text has for userinfo is the mask. */
  lemma NoUserinfoSurvives(s: string, mask: string)
    requires SafeMask(mask)
    ensures var n := Normalized(Mask(s, mask));
            UserinfoRange(n).Some? ==> n[UserinfoRange(n).value.0..UserinfoRange(n).value.1] == mask
  {
    hide UserinfoRange, MaskTail, Normalized, SafeMask, MaskUserinfo;
    if UserinfoRange(Normalized(s)).Some? {
      MaskedOnce(s, mask);
    } else {
      UnmaskedOnce(s, mask);
    }
  }

  /** The parameters stay apart: each is masked by itself, and keeps its name. */
  lemma ParametersStay(s: string, mask: string, barePrivate: bool)
    requires SafeMask(mask)
    ensures Split(MaskParameters(s, mask, barePrivate), '&') == MaskEach(Split(s, '&'), mask, barePrivate)
    ensures forall i :: 0 <= i < |Split(s, '&')| ==>
              KeepsName(Split(s, '&')[i], Split(MaskParameters(s, mask, barePrivate), '&')[i])
  {
    hide MaskParameter, SafeMask, Split, Join, KeepsName;
    var parts := Split(s, '&');
    var once := MaskEach(parts, mask, barePrivate);
    forall i | 0 <= i < |once| ensures '&' !in once[i] && KeepsName(parts[i], once[i]) {
      MaskParameterTwice(parts[i], mask, barePrivate);
      NameStays(parts[i], mask, barePrivate);
    }
    SplitJoin(once, '&');
  }

  /** What a parameter with a value has before the value. */
  predicate KeepsName(p: string, masked: string) {
    var k := Find(p, "=");
    k < |p| ==> p[..k + 1] <= masked
  }

  lemma NameStays(p: string, mask: string, barePrivate: bool)
    ensures KeepsName(p, MaskParameter(p, mask, barePrivate))
  {
    hide Find;
    var k := Find(p, "=");
    assert k < |p| ==> (p[..k] + "=" + mask)[..k + 1] == p[..k] + "=" == p[..k + 1];
  }

  /** Host and path stay: before the query, a masked text differs from the normalised one in the userinfo alone, and a
      text without userinfo not at all. */
  lemma HostStays(s: string, mask: string)
    requires SafeMask(mask)
    ensures var n := Normalized(s);
            match UserinfoRange(n) {
              case None => Head(Mask(s, mask)) == Head(s)
              case Some((start, end)) =>
                end < |Head(n)| && Head(Mask(s, mask)) == Head(n)[..start] + mask + Head(n)[end..]
            }
  {
    hide UserinfoRange, MaskTail, Normalized, SafeMask, Find;
    MaskTailTwice(MaskUserinfo(s, mask), mask);
    var n := Normalized(s);
    if UserinfoRange(n).Some? {
      RangeInHead(n);
      HeadOfMasked(n, mask);
    }
  }

  lemma HeadOfMasked(n: string, mask: string)
    requires SafeMask(mask) && UserinfoRange(n).Some? && UserinfoRange(n).value.1 < |Head(n)|
    ensures var (start, end) := UserinfoRange(n).value;
            Head(n[..start] + mask + "@" + n[end + 1..]) == Head(n)[..start] + mask + Head(n)[end..]
  {
    hide UserinfoRange;
    var (start, end) := UserinfoRange(n).value;
    var h := Find(n, "?#");
    var o := n[..start] + mask + "@" + n[end + 1..];
    var k := start + |mask| + h - end;
    assert n[end] == '@';
    assert o == n[..start] + mask + n[end..];
    assert o[..k] == n[..start] + mask + n[end..h];
    forall i | 0 <= i < k ensures o[i] !in "?#" {
      assert o[i] == o[..k][i];
      assert n[end..h] == n[..h][end..];
    }
    assert k < |o| ==> o[k] == n[h];
    FindIs(o, "?#", k);
  }

  /** Nothing is nothing. */
  lemma MaskEmpty(mask: string)
    ensures Mask([], mask) == []
  {
    NoTail([], mask);
    assert UserinfoRange([]).None?;
  }

  // ----- what the mask hides --------------------------------------------------------------------------------------

  /** Two parameters that differ at most in what is hidden: both have a value under one name, or both have none and are
      private, or they are the same. */
  predicate SameParameter(p: string, q: string, barePrivate: bool) {
    var k, l := Find(p, "="), Find(q, "=");
    if k < |p| || l < |q| then k < |p| && l < |q| && p[..k] == q[..l]
    else if barePrivate then p == [] <==> q == []
    else p == q
  }

  predicate SameParameters(s: string, t: string, barePrivate: bool) {
    && |Split(s, '&')| == |Split(t, '&')|
    && forall i :: 0 <= i < |Split(s, '&')| ==> SameParameter(Split(s, '&')[i], Split(t, '&')[i], barePrivate)
  }

  /** Before the fragment: the same text before the query, and a query in both or in none. */
  predicate SameBody(a: string, b: string) {
    var k, l := Find(a, "?"), Find(b, "?");
    && a[..k] == b[..l] && (k < |a| <==> l < |b|)
    && (k < |a| ==> SameParameters(a[k + 1..], b[l + 1..], false))
  }

  /** The same but for the values in query and fragment. */
  predicate SameButValues(s: string, t: string) {
    var k, l := Find(s, "#"), Find(t, "#");
    && SameBody(s[..k], t[..l]) && (k < |s| <==> l < |t|)
    && (k < |s| ==> SameParameters(s[k + 1..], t[l + 1..], true))
  }

  /** Two URLs that differ at most in credentials: userinfo in both or in none, and the same around it. */
  predicate SameUrl(s: string, t: string) {
    var n, m := Normalized(s), Normalized(t);
    match (UserinfoRange(n), UserinfoRange(m))
    case (None, None) => SameButValues(s, t)
    case (Some((a, b)), Some((c, d))) => n[..a] == m[..c] && SameButValues(n[b..], m[d..])
    case _ => false
  }

  lemma ParameterExactly(p: string, q: string, mask: string, barePrivate: bool)
    requires SafeMask(mask) && mask != []
    ensures MaskParameter(p, mask, barePrivate) == MaskParameter(q, mask, barePrivate) <==>
              SameParameter(p, q, barePrivate)
  {
    MaskedFind(p, mask, barePrivate);
    MaskedFind(q, mask, barePrivate);
    hide Find;
    var k, l := Find(p, "="), Find(q, "=");
    var x, y := MaskParameter(p, mask, barePrivate), MaskParameter(q, mask, barePrivate);
    if x == y && k < |p| {
      assert p[..k] == x[..k] && q[..l] == y[..l];
    }
  }

  lemma MaskedFind(p: string, mask: string, barePrivate: bool)
    requires SafeMask(mask)
    ensures var m := MaskParameter(p, mask, barePrivate);
            if Find(p, "=") < |p| then Find(m, "=") == Find(p, "=") && Find(m, "=") < |m| else Find(m, "=") == |m|
  {
    var k, m := Find(p, "="), MaskParameter(p, mask, barePrivate);
    FindIs(m, "=", if k < |p| then k else |m|);
  }

  lemma ParametersExactly(s: string, t: string, mask: string, barePrivate: bool)
    requires SafeMask(mask) && mask != []
    ensures MaskParameters(s, mask, barePrivate) == MaskParameters(t, mask, barePrivate) <==>
              SameParameters(s, t, barePrivate)
  {
    hide SafeMask, Split, Join, MaskParameter, SameParameter, KeepsName;
    ParametersStay(s, mask, barePrivate);
    ParametersStay(t, mask, barePrivate);
    var ps, qs := Split(s, '&'), Split(t, '&');
    var xs, ys := MaskEach(ps, mask, barePrivate), MaskEach(qs, mask, barePrivate);
    forall i | 0 <= i < |ps| && i < |qs| ensures xs[i] == ys[i] <==> SameParameter(ps[i], qs[i], barePrivate) {
      ParameterExactly(ps[i], qs[i], mask, barePrivate);
    }
    if SameParameters(s, t, barePrivate) { assert xs == ys; }
  }

  lemma BodyExactly(a: string, b: string, mask: string)
    requires SafeMask(mask) && mask != []
    ensures KeptOf(a, mask) == KeptOf(b, mask) <==> SameBody(a, b)
  {
    hide SafeMask, MaskParameters, SameParameters;
    KeptFind(a, mask);
    KeptFind(b, mask);
    hide Find;
    var k, l := Find(a, "?"), Find(b, "?");
    var x, y := KeptOf(a, mask), KeptOf(b, mask);
    if k < |a| && l < |b| {
      ParametersExactly(a[k + 1..], b[l + 1..], mask, false);
    }
  }

  /** Where the query starts, before and after. */
  lemma KeptFind(a: string, mask: string)
    ensures var k, m := Find(a, "?"), KeptOf(a, mask);
            && Find(m, "?") == k && k <= |m| && m[..k] == a[..k] && (k < |m| <==> k < |a|)
            && (k < |a| ==> m[k + 1..] == MaskParameters(a[k + 1..], mask, false))
  {
    hide MaskParameters;
    FindIs(KeptOf(a, mask), "?", Find(a, "?"));
  }

  lemma TailExactly(s: string, t: string, mask: string)
    requires SafeMask(mask) && mask != []
    ensures MaskTail(s, mask) == MaskTail(t, mask) <==> SameButValues(s, t)
  {
    hide SafeMask, MaskParameters, SameParameters, SameBody, KeptOf;
    TailFind(s, mask);
    TailFind(t, mask);
    hide Find;
    var k, l := Find(s, "#"), Find(t, "#");
    BodyExactly(s[..k], t[..l], mask);
    if k < |s| && l < |t| {
      ParametersExactly(s[k + 1..], t[l + 1..], mask, true);
    }
  }

  /** Where the fragment starts in the masked text. */
  lemma TailFind(s: string, mask: string)
    requires SafeMask(mask)
    ensures var k, m := Find(s, "#"), MaskTail(s, mask);
            var h := Find(m, "#");
            && m[..h] == KeptOf(s[..k], mask) && (h < |m| <==> k < |s|)
            && (k < |s| ==> m[h + 1..] == MaskParameters(s[k + 1..], mask, true))
  {
    hide SafeMask, MaskParameters, KeptOf;
    var k := Find(s, "#");
    var kept := KeptOf(s[..k], mask);
    assert '#' !in s[..k];
    KeptTwice(s[..k], mask);
    FindIs(MaskTail(s, mask), "#", |kept|);
    assert MaskTail(s, mask)[..|kept|] == kept;
  }

  /** Masking the tail leaves what is before query and fragment alone. */
  lemma TailBehind(pre: string, rest: string, mask: string)
    requires Find(pre, "?#") == |pre|
    ensures MaskTail(pre + rest, mask) == pre + MaskTail(rest, mask)
  {
    hide MaskParameters, Find, KeptOf, MaskTail;
    var k := Find(rest, "#");
    var body := rest[..k];
    assert '#' !in pre && '#' !in body;
    KeptBehind(pre, body, mask);
    if k < |rest| {
      var g := rest[k + 1..];
      assert rest == body + ("#" + g);
      FragmentBehind(pre, body, g, mask);
    } else {
      assert rest == body;
      NoFragment(rest, mask);
      NoFragment(pre + rest, mask);
    }
  }

  lemma Behind(pre: string, a: string, b: string)
    ensures pre + a + b == pre + (a + b)
  {
  }

  lemma FragmentBehind(pre: string, body: string, g: string, mask: string)
    requires '#' !in pre && '#' !in body && KeptOf(pre + body, mask) == pre + KeptOf(body, mask)
    ensures MaskTail(pre + (body + ("#" + g)), mask) == pre + MaskTail(body + ("#" + g), mask)
  {
    hide MaskParameters, KeptOf, MaskTail;
    TailParts(body, g, mask);
    TailParts(pre + body, g, mask);
    Behind(pre, body, "#" + g);
    Behind(pre, KeptOf(body, mask), "#" + MaskParameters(g, mask, true));
  }

  lemma QueryBehind(pre: string, h: string, r: string, mask: string)
    requires Find(h, "?#") == |h| && Find(pre + h, "?#") == |pre + h|
    ensures KeptOf(pre + (h + ("?" + r)), mask) == pre + KeptOf(h + ("?" + r), mask)
  {
    hide MaskParameters, KeptOf, Find;
    KeptParts(h, r, mask);
    KeptParts(pre + h, r, mask);
    Behind(pre, h, "?" + r);
    Behind(pre, h, "?" + MaskParameters(r, mask, false));
  }

  lemma KeptBehind(pre: string, body: string, mask: string)
    requires Find(pre, "?#") == |pre| && '#' !in body
    ensures KeptOf(pre + body, mask) == pre + KeptOf(body, mask)
  {
    hide MaskParameters, Find, KeptOf;
    var q := Find(body, "?");
    var h := body[..q];
    FindIs(h, "?#", |h|);
    FindIs(pre + h, "?#", |pre + h|);
    if q < |body| {
      var r := body[q + 1..];
      assert body == h + ("?" + r);
      QueryBehind(pre, h, r, mask);
    } else {
      assert h == body;
      NoQuery(body, mask);
      NoQuery(pre + body, mask);
    }
  }

  lemma NoQuery(s: string, mask: string)
    requires Find(s, "?#") == |s|
    ensures KeptOf(s, mask) == s
  {
    FindIs(s, "?", |s|);
  }

  /** A URL with userinfo, masked: the text before the userinfo, the mask, and the masked rest. */
  lemma MaskedParts(s: string, mask: string)
    requires SafeMask(mask) && UserinfoRange(Normalized(s)).Some?
    ensures var n := Normalized(s);
            var (a, b) := UserinfoRange(n).value;
            Mask(s, mask) == n[..a] + mask + MaskTail(n[b..], mask)
  {
    hide MaskTail, UserinfoRange, Normalized;
    var n := Normalized(s);
    var (a, b) := UserinfoRange(n).value;
    RangeInHead(n);
    assert n[b..] == "@" + n[b + 1..];
    assert n[..a] + mask + "@" + n[b + 1..] == n[..a] + mask + n[b..];
    FindIs(n[..a] + mask, "?#", |n[..a] + mask|);
    TailBehind(n[..a] + mask, n[b..], mask);
  }

  /** Two strings look the same once they are masked if and only if they differ at most in credentials. */
  lemma MaskedAlikeExactly(s: string, t: string, mask: string)
    requires SafeMask(mask) && mask != []
    ensures Mask(s, mask) == Mask(t, mask) <==> SameUrl(s, t)
  {
    hide UserinfoRange, MaskTail, Normalized, SafeMask, MaskUserinfo, SameButValues;
    var n, m := Normalized(s), Normalized(t);
    if UserinfoRange(n).Some? { MaskedOnce(s, mask); } else { UnmaskedOnce(s, mask); }
    if UserinfoRange(m).Some? { MaskedOnce(t, mask); } else { UnmaskedOnce(t, mask); }
    match (UserinfoRange(n), UserinfoRange(m)) {
      case (None, None) =>
        MaskIsTail(s, mask);
        MaskIsTail(t, mask);
        TailExactly(s, t, mask);
      case (Some((a, b)), Some((c, d))) =>
        MaskedParts(s, mask);
        MaskedParts(t, mask);
        TailExactly(n[b..], m[d..], mask);
        if Mask(s, mask) == Mask(t, mask) {
          SameParts(n[..a], m[..c], mask, MaskTail(n[b..], mask), MaskTail(m[d..], mask));
        }
      case _ =>
    }
  }

  lemma MaskIsTail(s: string, mask: string)
    requires UserinfoRange(Normalized(s)).None?
    ensures Mask(s, mask) == MaskTail(s, mask)
  {
    hide UserinfoRange, MaskTail, Normalized;
  }

  lemma SameParts(p: string, q: string, mask: string, x: string, y: string)
    requires |p| == |q| && p + mask + x == q + mask + y
    ensures p == q && x == y
  {
    var all := p + mask + x;
    assert p == all[..|p|] && q == (q + mask + y)[..|p|];
    assert x == all[|p| + |mask|..] && y == (q + mask + y)[|p| + |mask|..];
  }
}
