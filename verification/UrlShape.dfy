/** The masking of credentials, said by the shape of the URL: what stands before the userinfo, the userinfo, the host,
    the path, the query and the fragment. */
module UrlShape {
  import opened Options
  import opened Texts
  import opened UrlMask

  // ----- userinfo -------------------------------------------------------------------------------------------------

  /** The schemes whose authority may follow any number of slashes of either kind. */
  predicate IsSpecial(scheme: string) {
    || Spells(scheme, "http", "HTTP") || Spells(scheme, "https", "HTTPS") || Spells(scheme, "ftp", "FTP")
    || Spells(scheme, "ws", "WS") || Spells(scheme, "wss", "WSS")
  }

  /** A letter, then letters, digits and `+-.`. */
  predicate IsScheme(scheme: string) {
    && scheme != "" && ('a' <= scheme[0] <= 'z' || 'A' <= scheme[0] <= 'Z')
    && forall i :: 0 < i < |scheme| ==>
         || 'a' <= scheme[i] <= 'z' || 'A' <= scheme[i] <= 'Z' || '0' <= scheme[i] <= '9'
         || scheme[i] == '+' || scheme[i] == '-' || scheme[i] == '.'
  }

  predicate OnlySlashes(s: string) {
    forall i :: 0 <= i < |s| ==> s[i] == '/' || s[i] == '\\'
  }

  /** `lead` is a scheme, its colon and what may stand between it and an authority that ends at any of `ends`: slashes
      of either kind after a special scheme, two slashes after any other. */
  predicate SchemeLead(lead: string, k: nat, ends: string) {
    && k < |lead| && lead[k] == ':'
    && var scheme, slashes := lead[..k], lead[k + 1..];
    if IsSpecial(scheme) then OnlySlashes(slashes) && ends == "/?#\\"
    else
      && IsScheme(scheme) && slashes == "//"
      && ends == if Spells(scheme, "file", "FILE") then "/?#\\" else "/?#"
  }

  /** What stands before an authority: a scheme as above, or two or more slashes of either kind. */
  ghost predicate IsLead(lead: string, ends: string) {
    || (|lead| >= 2 && OnlySlashes(lead) && ends == "/?#\\")
    || exists k: nat :: SchemeLead(lead, k, ends)
  }

  /** A URL with userinfo; `ends` are the characters that end its authority. */
  datatype Parts = Parts(lead: string, ends: string, user: string, host: string, tail: string)

  /** `n` is taken apart as `p`: the last `@` before the end of the authority ends the userinfo. */
  ghost predicate Splits(n: string, p: Parts) {
    && n == p.lead + p.user + "@" + p.host + p.tail
    && IsLead(p.lead, p.ends)
    && (forall i :: 0 <= i < |p.user| ==> p.user[i] !in p.ends)
    && (forall i :: 0 <= i < |p.host| ==> p.host[i] !in p.ends && p.host[i] != '@')
    && (p.tail != "" ==> p.tail[0] in p.ends)
  }

  lemma SpecialMeans(scheme: string)
    ensures IsSpecial(scheme) <==> Lower(scheme) in ["http", "https", "ftp", "ws", "wss"]
    ensures Spells(scheme, "file", "FILE") <==> Lower(scheme) == "file"
    ensures IsSpecial(scheme) ==> IsScheme(scheme)
  {
    LowerIs(scheme, "http", "HTTP");
    LowerIs(scheme, "https", "HTTPS");
    LowerIs(scheme, "ftp", "FTP");
    LowerIs(scheme, "ws", "WS");
    LowerIs(scheme, "wss", "WSS");
    LowerIs(scheme, "file", "FILE");
    SpecialIsScheme(scheme);
  }

  lemma SpecialIsScheme(scheme: string)
    ensures IsSpecial(scheme) ==> IsScheme(scheme)
  {
  }

  /** The scheme ends at the first colon, if a scheme stands before it. */
  lemma SchemeMeans(n: string, k: nat)
    ensures SchemeEnd(n) == Some(k) <==> k < |n| && n[k] == ':' && IsScheme(n[..k])
  {
    if k < |n| && n[k] == ':' && IsScheme(n[..k]) {
      forall i | 0 <= i < k ensures n[i] != ':' && (i > 0 ==> IsSchemeChar(n[i])) {
        assert n[i] == n[..k][i];
      }
      FindIs(n, ":", k);
    }
  }

  lemma SchemeAuthority(lead: string, k: nat, ends: string, rest: string)
    requires SchemeLead(lead, k, ends) && (ends == "/?#\\" && rest != "" ==> !IsSlash(rest[0]))
    ensures Authority(lead + rest) == Some((|lead|, ends))
  {
    hide Lower, Spells, SchemeEnd, IsScheme, IsSpecial;
    var n := lead + rest;
    assert n[..k] == lead[..k];
    SpecialMeans(lead[..k]);
    SchemeMeans(n, k);
    assert forall i :: k < i < |lead| ==> n[i] == lead[k + 1..][i - k - 1];
    SkipsTo(n, k + 1, |lead|);
  }

  lemma SkipsTo(n: string, at: nat, k: nat)
    requires at <= k <= |n|
    ensures (forall i :: at <= i < k ==> IsSlash(n[i])) && (k < |n| ==> !IsSlash(n[k])) ==> SkipSlashes(n, at) == k
  {
    if (forall i :: at <= i < k ==> IsSlash(n[i])) && (k < |n| ==> !IsSlash(n[k])) {
      SkipIs(n, at, k);
    }
  }

  lemma SlashAuthority(lead: string, rest: string)
    requires |lead| >= 2 && OnlySlashes(lead) && (rest != "" ==> !IsSlash(rest[0]))
    ensures Authority(lead + rest) == Some((|lead|, "/?#\\"))
  {
    hide Lower;
    SkipsTo(lead + rest, 0, |lead|);
  }

  lemma LeadIsAuthority(lead: string, ends: string, rest: string)
    requires IsLead(lead, ends) && (ends == "/?#\\" && rest != "" ==> !IsSlash(rest[0]))
    ensures Authority(lead + rest) == Some((|lead|, ends))
  {
    hide Authority;
    if |lead| >= 2 && OnlySlashes(lead) && ends == "/?#\\" {
      SlashAuthority(lead, rest);
    } else {
      var k: nat :| SchemeLead(lead, k, ends);
      SchemeAuthority(lead, k, ends, rest);
    }
  }

  lemma AuthorityIsLead(n: string)
    requires Authority(n).Some?
    ensures var (start, ends) := Authority(n).value; IsLead(n[..start], ends)
  {
    hide Lower, Spells, SchemeEnd, IsScheme, IsSpecial;
    var (start, ends) := Authority(n).value;
    var lead := n[..start];
    match SchemeEnd(n) {
      case None => TwoSlashes(n);
      case Some(k) =>
        SchemeMeans(n, k);
        SpecialMeans(n[..k]);
        assert lead[..k] == n[..k] && lead[k + 1..] == n[k + 1..start];
        assert SchemeLead(lead, k, ends);
    }
  }

  /** The userinfo is found where the shape of the text has it, and nowhere else. */
  lemma UserinfoMeans(n: string, a: nat, b: nat)
    ensures UserinfoRange(n) == Some((a, b)) <==>
              exists p :: Splits(n, p) && a == |p.lead| && b == |p.lead| + |p.user|
  {
    hide Splits;
    if UserinfoRange(n) == Some((a, b)) {
      var p := RangeSplits(n);
    }
    forall p | Splits(n, p) ensures UserinfoRange(n) == Some((|p.lead|, |p.lead| + |p.user|)) {
      SplitsRange(n, p);
    }
  }

  lemma EndsOfLead(lead: string, ends: string)
    requires IsLead(lead, ends)
    ensures ends == "/?#" || ends == "/?#\\"
  {
  }

  lemma Grouped(lead: string, user: string, host: string, tail: string)
    ensures lead + user + "@" + host + tail == lead + (user + "@" + host + tail)
    ensures lead + user + "@" + host + tail == lead + user + "@" + (host + tail)
  {
  }

  lemma UserStart(p: Parts)
    requires p.ends == "/?#\\" && forall i :: 0 <= i < |p.user| ==> p.user[i] !in p.ends
    ensures !IsSlash((p.user + "@" + p.host + p.tail)[0])
  {
  }

  lemma SplitsRange(n: string, p: Parts)
    requires Splits(n, p)
    ensures UserinfoRange(n) == Some((|p.lead|, |p.lead| + |p.user|))
  {
    hide IsLead, Authority, Find, FindLast;
    var rest := p.user + "@" + p.host + p.tail;
    Grouped(p.lead, p.user, p.host, p.tail);
    EndsOfLead(p.lead, p.ends);
    if p.ends == "/?#\\" { UserStart(p); }
    LeadIsAuthority(p.lead, p.ends, rest);
    RangeOfParts(p.user, p.host, p.tail, p.ends);
    assert n[|p.lead|..] == rest;
    SliceOfRest(n, |p.lead|, Find(rest, p.ends));
  }

  lemma RangeSplits(n: string) returns (p: Parts)
    requires UserinfoRange(n).Some?
    ensures Splits(n, p) && UserinfoRange(n) == Some((|p.lead|, |p.lead| + |p.user|))
  {
    hide IsLead, Authority, Find, FindLast, Splits;
    var (start, end) := UserinfoRange(n).value;
    var ends := Authority(n).value.1;
    AuthorityIsLead(n);
    var rest := n[start..];
    SliceOfRest(n, start, Find(rest, ends));
    var host, tail := RangeParts(rest, ends);
    p := Parts(n[..start], ends, n[start..end], host, tail);
    SplitsInto(n, start, end, p);
  }

  lemma SplitsInto(n: string, a: nat, b: nat, p: Parts)
    requires a <= b < |n| && n[b] == '@' && p.lead == n[..a] && p.user == n[a..b] && IsLead(p.lead, p.ends)
    requires Clear(n[a..][..b - a], p.ends) && n[a..][b - a + 1..] == p.host + p.tail
    requires Clear(p.host, p.ends) && Clear(p.host, "@") && (p.tail != "" ==> p.tail[0] in p.ends)
    ensures Splits(n, p)
  {
    hide IsLead;
    assert n[a..][..b - a] == n[a..b];
    ThreeParts(n, a, b);
    Grouped(n[..a], n[a..b], p.host, p.tail);
  }

  lemma ThreeParts(n: string, a: nat, b: nat)
    requires a <= b < |n| && n[b] == '@'
    ensures n == n[..a] + n[a..b] + "@" + n[a..][b - a + 1..]
  {
    assert n[a..][b - a + 1..] == n[b + 1..];
  }

  /** What the masking does to a URL with userinfo: lead and host stay, the userinfo is the mask, and the tail is
      masked; without userinfo the text itself is masked from its query on. */
  lemma MaskMeans(s: string, mask: string)
    requires SafeMask(mask)
    ensures forall p :: Splits(Normalized(s), p) ==>
              Mask(s, mask) == p.lead + mask + "@" + p.host + MaskTail(p.tail, mask)
    ensures (forall p :: !Splits(Normalized(s), p)) ==> Mask(s, mask) == MaskTail(s, mask)
  {
    hide Splits, MaskTail, Normalized, UserinfoRange, SafeMask;
    var n := Normalized(s);
    forall p | Splits(n, p) ensures Mask(s, mask) == p.lead + mask + "@" + p.host + MaskTail(p.tail, mask) {
      SplitsRange(n, p);
      MaskedParts(s, mask);
      RestOfParts(n, p, mask);
    }
    if forall p :: !Splits(n, p) {
      if UserinfoRange(n).Some? {
        var p := RangeSplits(n);
        assert false;
      }
      MaskIsTail(s, mask);
    }
  }

  lemma RestOfParts(n: string, p: Parts, mask: string)
    requires Splits(n, p)
    ensures n[..|p.lead|] == p.lead
    ensures p.lead + mask + MaskTail(n[|p.lead| + |p.user|..], mask)
            == p.lead + mask + "@" + p.host + MaskTail(p.tail, mask)
  {
    hide IsLead, MaskTail, Find;
    EndsOfLead(p.lead, p.ends);
    var pre := "@" + p.host;
    assert n[|p.lead| + |p.user|..] == pre + p.tail;
    FindIs(pre, "?#", |pre|);
    TailBehind(pre, p.tail, mask);
  }

  /** No userinfo survives: whatever way the masked text is taken apart, its userinfo is the mask. */
  lemma NoUserSurvives(s: string, mask: string)
    requires SafeMask(mask)
    ensures forall p :: Splits(Normalized(Mask(s, mask)), p) ==> p.user == mask
  {
    hide Splits, Mask, Normalized, UserinfoRange, SafeMask;
    NoUserinfoSurvives(s, mask);
    var n := Normalized(Mask(s, mask));
    forall p | Splits(n, p) ensures p.user == mask {
      SplitsRange(n, p);
      UserOfParts(n, p);
    }
  }

  lemma UserOfParts(n: string, p: Parts)
    requires Splits(n, p)
    ensures n[|p.lead|..|p.lead| + |p.user|] == p.user && n[..|p.lead|] == p.lead
    ensures n[|p.lead| + |p.user|..] == "@" + p.host + p.tail
  {
    hide IsLead;
  }

  /** Both have userinfo behind the same lead, and the same goes on behind it; or neither has, and they are the same;
      but for the values in query and fragment. */
  ghost predicate SameShape(s: string, t: string) {
    var n, m := Normalized(s), Normalized(t);
    || (&& (forall p :: !Splits(n, p)) && (forall q :: !Splits(m, q)) && SameButValues(s, t))
    || exists p, q ::
         && Splits(n, p) && Splits(m, q) && p.lead == q.lead
         && SameButValues("@" + p.host + p.tail, "@" + q.host + q.tail)
  }

  /** Two URLs look the same once they are masked if and only if by their shape they differ at most in credentials. */
  lemma AlikeByShape(s: string, t: string, mask: string)
    requires SafeMask(mask) && mask != ""
    ensures Mask(s, mask) == Mask(t, mask) <==> SameShape(s, t)
  {
    hide Splits, Mask, Normalized, UserinfoRange, SafeMask, SameButValues;
    MaskedAlikeExactly(s, t, mask);
    var n, m := Normalized(s), Normalized(t);
    forall p | Splits(n, p) ensures UserinfoRange(n) == Some((|p.lead|, |p.lead| + |p.user|)) {
      SplitsRange(n, p);
    }
    forall q | Splits(m, q) ensures UserinfoRange(m) == Some((|q.lead|, |q.lead| + |q.user|)) {
      SplitsRange(m, q);
    }
    if UserinfoRange(n).Some? && UserinfoRange(m).Some? {
      BothSplit(s, t);
    } else if UserinfoRange(n).Some? {
      var p := RangeSplits(n);
    } else if UserinfoRange(m).Some? {
      var q := RangeSplits(m);
    }
  }

  lemma BothSplit(s: string, t: string)
    requires UserinfoRange(Normalized(s)).Some? && UserinfoRange(Normalized(t)).Some?
    ensures SameUrl(s, t) <==> SameShape(s, t)
  {
    hide Splits, Normalized, UserinfoRange, SameButValues;
    var n, m := Normalized(s), Normalized(t);
    forall p, q | Splits(n, p) && Splits(m, q)
      ensures SameUrl(s, t) <==>
                p.lead == q.lead && SameButValues("@" + p.host + p.tail, "@" + q.host + q.tail)
    {
      SplitsRange(n, p);
      SplitsRange(m, q);
      UserOfParts(n, p);
      UserOfParts(m, q);
    }
    var p := RangeSplits(n);
    var q := RangeSplits(m);
  }

  // ----- query and fragment ---------------------------------------------------------------------------------------

  /** A part that may be missing, behind its mark. */
  function Marked(mark: char, part: Option<string>): string {
    match part
    case None => ""
    case Some(text) => [mark] + text
  }

  function MaskPart(part: Option<string>, mask: string, barePrivate: bool): Option<string> {
    match part
    case None => None
    case Some(text) => Some(MaskParameters(text, mask, barePrivate))
  }

  lemma QueryMeans(path: string, query: Option<string>, mask: string)
    requires forall i :: 0 <= i < |path| ==> path[i] !in "?#"
    ensures KeptOf(path + Marked('?', query), mask) == path + Marked('?', MaskPart(query, mask, false))
  {
    hide MaskParameters, KeptOf;
    FindIs(path, "?#", |path|);
    match query {
      case None =>
        assert path + "" == path;
        NoQuery(path, mask);
      case Some(text) => KeptParts(path, text, mask);
    }
  }

  /** The path stays, and what stands behind the first `?` and behind the first `#` is masked parameter by
      parameter. */
  lemma TailMeans(path: string, query: Option<string>, fragment: Option<string>, mask: string)
    requires forall i :: 0 <= i < |path| ==> path[i] !in "?#"
    requires query.Some? ==> '#' !in query.value
    ensures MaskTail(path + Marked('?', query) + Marked('#', fragment), mask)
            == path + Marked('?', MaskPart(query, mask, false)) + Marked('#', MaskPart(fragment, mask, true))
  {
    hide MaskParameters, KeptOf, MaskTail, Find;
    var body := path + Marked('?', query);
    QueryMeans(path, query, mask);
    assert '#' !in body;
    match fragment {
      case None =>
        assert body + "" == body;
        NoFragment(body, mask);
        assert KeptOf(body, mask) + "" == KeptOf(body, mask);
      case Some(text) => TailParts(body, text, mask);
    }
  }

  datatype Parameter = Named(name: string, value: string) | Bare(text: string)

  predicate IsParameter(p: Parameter) {
    match p
    case Named(name, value) => '=' !in name && '&' !in name && '&' !in value
    case Bare(text) => '=' !in text && '&' !in text
  }

  function Written(p: Parameter): string {
    match p
    case Named(name, value) => name + "=" + value
    case Bare(text) => text
  }

  function Hidden(p: Parameter, mask: string, barePrivate: bool): string {
    match p
    case Named(name, value) => name + "=" + mask
    case Bare(text) => if barePrivate && text != "" then mask else text
  }

  function AllWritten(ps: seq<Parameter>): seq<string> {
    seq(|ps|, i requires 0 <= i < |ps| => Written(ps[i]))
  }

  function AllHidden(ps: seq<Parameter>, mask: string, barePrivate: bool): seq<string> {
    seq(|ps|, i requires 0 <= i < |ps| => Hidden(ps[i], mask, barePrivate))
  }

  lemma ParameterMeans(p: Parameter, mask: string, barePrivate: bool)
    requires IsParameter(p)
    ensures MaskParameter(Written(p), mask, barePrivate) == Hidden(p, mask, barePrivate) && '&' !in Written(p)
  {
    match p {
      case Named(name, value) =>
        FindIs(Written(p), "=", |name|);
        assert Written(p)[..|name|] == name;
      case Bare(text) => FindIs(text, "=", |text|);
    }
  }

  /** Parameters between `&`: each named one keeps its name and has the mask for its value, and one without `=` is
      masked where it is private. */
  lemma ParametersMean(ps: seq<Parameter>, mask: string, barePrivate: bool)
    requires ps != [] && forall i :: 0 <= i < |ps| ==> IsParameter(ps[i])
    ensures MaskParameters(Join(AllWritten(ps), '&'), mask, barePrivate) == Join(AllHidden(ps, mask, barePrivate), '&')
  {
    hide MaskParameter, Split, Join, IsParameter, Written, Hidden;
    forall i | 0 <= i < |ps|
      ensures MaskParameter(Written(ps[i]), mask, barePrivate) == Hidden(ps[i], mask, barePrivate)
              && '&' !in Written(ps[i])
    {
      ParameterMeans(ps[i], mask, barePrivate);
    }
    SplitJoin(AllWritten(ps), '&');
    assert MaskEach(AllWritten(ps), mask, barePrivate) == AllHidden(ps, mask, barePrivate);
  }

  // ----- blanks and line breaks -----------------------------------------------------------------------------------

  predicate IsBlank(s: string) {
    forall i :: 0 <= i < |s| ==> s[i] <= ' '
  }

  lemma {:induction false} TrimLeftIs(before: string, s: string)
    requires IsBlank(before) && (s != "" ==> s[0] > ' ')
    ensures TrimLeft(before + s) == s
  {
    if before == "" {
      assert before + s == s;
    } else {
      assert (before + s)[1..] == before[1..] + s;
      TrimLeftIs(before[1..], s);
    }
  }

  lemma {:induction false} TrimRightIs(s: string, behind: string)
    requires IsBlank(behind) && (s != "" ==> s[|s| - 1] > ' ')
    ensures TrimRight(s + behind) == s
  {
    if behind == "" {
      assert s + behind == s;
    } else {
      assert (s + behind)[..|s + behind| - 1] == s + behind[..|behind| - 1];
      TrimRightIs(s, behind[..|behind| - 1]);
    }
  }

  lemma {:induction false} TrimAllBlank(s: string)
    requires IsBlank(s)
    ensures TrimLeft(s) == ""
  {
    if s != "" { TrimAllBlank(s[1..]); }
  }

  lemma {:induction false} DropBreaksJoins(s: string, t: string)
    ensures DropBreaks(s + t) == DropBreaks(s) + DropBreaks(t)
  {
    if s == "" {
      assert s + t == t;
    } else {
      assert (s + t)[1..] == s[1..] + t;
      DropBreaksJoins(s[1..], t);
    }
  }

  /** Blanks around a URL are taken off, and what is between them goes on without its line breaks. */
  lemma NormalizedMeans(before: string, core: string, behind: string)
    requires IsBlank(before) && IsBlank(behind)
    requires core != "" ==> core[0] > ' ' && core[|core| - 1] > ' '
    ensures Normalized(before + core + behind) == DropBreaks(core)
  {
    hide TrimLeft, TrimRight, DropBreaks;
    if core == "" {
      TrimAllBlank(before + core + behind);
      TrimRightIs("", "");
      assert "" + "" == "";
    } else {
      assert before + core + behind == before + (core + behind);
      TrimLeftIs(before, core + behind);
      TrimRightIs(core, behind);
    }
  }

  /** Exactly tabs and line ends are dropped, whatever stands around them. */
  lemma BreaksMean(s: string, c: char, t: string)
    ensures DropBreaks(s + [c] + t) == DropBreaks(s) + (if c in "\t\n\r" then "" else [c]) + DropBreaks(t)
    ensures DropBreaks("") == ""
  {
    DropBreaksJoins(s + [c], t);
    DropBreaksJoins(s, [c]);
    DropOne(c);
  }

  lemma DropOne(c: char)
    ensures DropBreaks([c]) == if c in "\t\n\r" then "" else [c]
  {
    assert [c][1..] == "";
  }
}
