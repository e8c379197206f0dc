/** What the audit accepts, said without the audit: an archive is a sequence of local records, a sequence of central
    records and one end record, and the accepted files are exactly the byte strings of well-formed archives. */
module ZipLayout {
  import opened Bytes
  import opened ZipAudit
  import Folding
  import opened Options
  import opened Sequences
  import opened ZipRules

  datatype LocalRecord = LocalRecord(
    header: seq<Byte>, name: seq<Byte>, extra: seq<Byte>, data: seq<Byte>, descriptor: seq<Byte>)

  /** `place[k]` is the index of the central record of `locals[k]`. */
  datatype Archive = Archive(
    locals: seq<LocalRecord>, centrals: seq<seq<Byte>>, place: seq<nat>, eocd: seq<Byte>)

  function Head(l: LocalRecord): seq<Byte> {
    l.header + l.name + l.extra
  }

  function Record(l: LocalRecord): seq<Byte> {
    Head(l) + l.data + l.descriptor
  }

  function LocalBytes(locals: seq<LocalRecord>): seq<Byte> {
    if locals == [] then [] else Record(locals[0]) + LocalBytes(locals[1..])
  }

  function FileBytes(a: Archive): seq<Byte> {
    LocalBytes(a.locals) + Concat(a.centrals) + a.eocd
  }

  ghost function Parsed(hs: seq<seq<Byte>>, limits: Limits, text: Text): (cs: seq<Central>)
    requires forall i :: 0 <= i < |hs| ==> RecordOk(hs[i], limits, text)
    ensures |cs| == |hs| && forall i :: 0 <= i < |hs| ==> cs[i] == Parse(hs[i], limits, text)
  {
    seq(|hs|, i requires 0 <= i < |hs| => Parse(hs[i], limits, text))
  }

  function Names(cs: seq<Central>): (names: seq<string>)
    ensures |names| == |cs| && forall i :: 0 <= i < |cs| ==> names[i] == cs[i].name
  {
    seq(|cs|, i requires 0 <= i < |cs| => cs[i].name)
  }

  function Declared(cs: seq<Central>): nat {
    if cs == [] then 0 else cs[0].uncompressed + Declared(cs[1..])
  }

  function Triple(c: Central): (nat, nat, nat) {
    (c.crc32, c.compressed, c.uncompressed)
  }

  ghost predicate DescriptorAgrees(descriptor: seq<Byte>, c: Central) {
    || (|descriptor| == 12 && Sizes(descriptor, 0) == Triple(c))
    || (|descriptor| == 16 && U32(descriptor, 0) == SIG_DESCRIPTOR && Sizes(descriptor, 4) == Triple(c))
  }

  /** The local record says what the central record says. */
  ghost predicate Agrees(l: LocalRecord, c: Central) {
    && |l.header| == LOCAL_LEN && U32(l.header, 0) == SIG_LOCAL
    && |l.name| == U16(l.header, 26) && |l.extra| == U16(l.header, 28)
    && l.name == c.raw && !ForbiddenExtra(l.extra)
    && U16(l.header, 6) == c.flags && U16(l.header, 8) == c.compression
    && |l.data| == c.compressed
    && if Bit(c.flags, 3) then
         (Sizes(l.header, 14) == (0, 0, 0) || Sizes(l.header, 14) == Triple(c)) && DescriptorAgrees(l.descriptor, c)
       else Sizes(l.header, 14) == Triple(c) && l.descriptor == []
  }

  /** A permutation of the indices below `n`. */
  ghost predicate IsPermutation(place: seq<nat>, n: nat) {
    && |place| == n
    && (forall k :: 0 <= k < n ==> place[k] < n)
    && (forall i :: 0 <= i < n ==> i in place)
    && (forall j, k :: 0 <= j < k < n ==> place[j] != place[k])
  }

  ghost predicate EocdOk(eocd: seq<Byte>, count: nat, cdSize: nat, cdOffset: nat) {
    && |eocd| == EOCD_LEN
    && U32(eocd, 0) == SIG_EOCD
    && U16(eocd, 4) == 0 && U16(eocd, 6) == 0
    && U16(eocd, 8) == count && U16(eocd, 10) == count && count != U16_MAX
    && U32(eocd, 12) == cdSize && cdSize != U32_MAX
    && U32(eocd, 16) == cdOffset && cdOffset != U32_MAX
    && U16(eocd, 20) == 0
  }

  /** The local records lie one after another from offset `at`, each where its central record says. */
  ghost predicate Placed(locals: seq<LocalRecord>, cs: seq<Central>, place: seq<nat>, at: nat) {
    && |locals| == |place|
    && forall k :: 0 <= k < |locals| ==>
         && place[k] < |cs|
         && Agrees(locals[k], cs[place[k]])
         && cs[place[k]].offset == at + |LocalBytes(locals[..k])|
  }

  ghost predicate WellFormed(a: Archive, limits: Limits, text: Text) {
    && (forall i :: 0 <= i < |a.centrals| ==> RecordOk(a.centrals[i], limits, text))
    && var cs := Parsed(a.centrals, limits, text);
    && IsPermutation(a.place, |cs|)
    && Placed(a.locals, cs, a.place, 0)
    && EocdOk(a.eocd, |cs|, |Concat(a.centrals)|, |LocalBytes(a.locals)|)
    && Folding.Compatible(Names(cs), text.fold)
    && |cs| <= limits.maxEntries
    && Declared(cs) <= limits.packageBytes
    && |FileBytes(a)| <= limits.packageBytes
  }

  /** Entry `place[k]` starts its data behind the head of `locals[k]`. */
  ghost predicate EntriesOf(entries: seq<Entry>, a: Archive, limits: Limits, text: Text)
    requires WellFormed(a, limits, text)
  {
    var cs := Parsed(a.centrals, limits, text);
    && |entries| == |cs|
    && (forall i :: 0 <= i < |cs| ==>
          entries[i] == Entry(cs[i].name, if cs[i].compression == 0 then Stored else Deflate, cs[i].compressed,
                              cs[i].uncompressed, cs[i].crc32, cs[i].exec, entries[i].dataOffset))
    && (forall k :: 0 <= k < |a.locals| ==>
          entries[a.place[k]].dataOffset == |LocalBytes(a.locals[..k])| + |Head(a.locals[k])|)
  }

  // ----- the scan of the central directory ------------------------------------------------------------------------

  function InsertFrom(index: Folding.Index, cs: seq<Central>, fold: string -> string): Option<Folding.Index>
    decreases cs
  {
    if cs == [] then Some(index)
    else
      match Folding.InsertName(index, cs[0].name, fold)
      case None => None
      case Some(next) => InsertFrom(next, cs[1..], fold)
  }

  lemma {:induction false} InsertFromSnoc(index: Folding.Index, cs: seq<Central>, c: Central, fold: string -> string)
    ensures InsertFrom(index, cs + [c], fold) ==
            match InsertFrom(index, cs, fold) {
              case None => None
              case Some(next) => Folding.InsertName(next, c.name, fold)
            }
    decreases cs
  {
    hide Folding.InsertName;
    if cs == [] {
      assert cs + [c] == [c] && [c][1..] == [];
    } else {
      assert (cs + [c])[1..] == cs[1..] + [c];
      match Folding.InsertName(index, cs[0].name, fold) {
        case None =>
        case Some(next) => InsertFromSnoc(next, cs[1..], c, fold);
      }
    }
  }

  lemma {:induction false} InsertFromEmpty(cs: seq<Central>, fold: string -> string)
    ensures InsertFrom(Folding.EMPTY, cs, fold) == Folding.InsertAll(Names(cs), fold)
  {
    hide Folding.InsertName;
    if cs != [] {
      var init, last := cs[..|cs| - 1], cs[|cs| - 1];
      assert cs == init + [last];
      assert Names(cs)[..|cs| - 1] == Names(init);
      InsertFromEmpty(init, fold);
      InsertFromSnoc(Folding.EMPTY, init, last, fold);
    }
  }

  /** Whether the scan from `s` can take the records `hs`. */
  ghost predicate Scannable(s: Scan, hs: seq<seq<Byte>>, limits: Limits, text: Text) {
    && (forall i :: 0 <= i < |hs| ==> RecordOk(hs[i], limits, text))
    && InsertFrom(s.index, Parsed(hs, limits, text), text.fold).Some?
    && (hs != [] ==> s.declared + Declared(Parsed(hs, limits, text)) <= limits.packageBytes)
  }

  ghost function After(s: Scan, hs: seq<seq<Byte>>, limits: Limits, text: Text): Scan
    requires Scannable(s, hs, limits, text)
  {
    var cs := Parsed(hs, limits, text);
    Scan(s.p + |Concat(hs)|, s.centrals + cs, InsertFrom(s.index, cs, text.fold).value, s.declared + Declared(cs))
  }

  lemma ParsedTail(hs: seq<seq<Byte>>, limits: Limits, text: Text)
    requires hs != [] && forall i :: 0 <= i < |hs| ==> RecordOk(hs[i], limits, text)
    ensures forall i :: 0 <= i < |hs[1..]| ==> RecordOk(hs[1..][i], limits, text)
    ensures Parsed(hs, limits, text) == [Parse(hs[0], limits, text)] + Parsed(hs[1..], limits, text)
    ensures Parsed(hs, limits, text)[1..] == Parsed(hs[1..], limits, text)
  {
    hide RecordOk, Parse;
  }

  /** One turn of the loop, said with `RecordOk`. */
  lemma EntryScans(cd: seq<Byte>, s: Scan, limits: Limits, text: Text)
    requires s.p <= |cd|
    ensures ScanEntry(cd, s, limits, text).Ok? <==>
              && RecordAt(cd, s.p).Some?
              && RecordOk(RecordAt(cd, s.p).value, limits, text)
              && var c := Parse(RecordAt(cd, s.p).value, limits, text);
              && Folding.InsertName(s.index, c.name, text.fold).Some?
              && s.declared + c.uncompressed <= limits.packageBytes
    ensures ScanEntry(cd, s, limits, text).Ok? ==>
              var h := RecordAt(cd, s.p).value;
              var c := Parse(h, limits, text);
              ScanEntry(cd, s, limits, text).value
              == Scan(s.p + |h|, s.centrals + [c], Folding.InsertName(s.index, c.name, text.fold).value,
                      s.declared + c.uncompressed)
  {
    hide ReadRecord, TooBig, Folding.InsertName, RecordAt, RecordOk, Parse;
    if RecordAt(cd, s.p).Some? {
      RecordMeans(RecordAt(cd, s.p).value, limits, text);
    }
  }

  lemma StepTail(s: Scan, next: Scan, c: Central, cs: seq<Central>, fold: string -> string)
    requires Folding.InsertName(s.index, c.name, fold) == Some(next.index)
    requires next.declared == s.declared + c.uncompressed && next.centrals == s.centrals + [c]
    ensures InsertFrom(s.index, [c] + cs, fold) == InsertFrom(next.index, cs, fold)
    ensures s.declared + Declared([c] + cs) == next.declared + Declared(cs)
    ensures s.centrals + ([c] + cs) == next.centrals + cs
    ensures cs == [] ==> Declared(cs) == 0
  {
    hide Folding.InsertName;
    assert ([c] + cs)[1..] == cs;
  }

  lemma ScannableTail(s: Scan, next: Scan, hs: seq<seq<Byte>>, limits: Limits, text: Text)
    requires hs != [] && forall i :: 0 <= i < |hs| ==> RecordOk(hs[i], limits, text)
    requires var c := Parse(hs[0], limits, text);
             && Folding.InsertName(s.index, c.name, text.fold) == Some(next.index)
             && next == Scan(s.p + |hs[0]|, s.centrals + [c], next.index, s.declared + c.uncompressed)
             && next.declared <= limits.packageBytes
    ensures Scannable(s, hs, limits, text) <==> Scannable(next, hs[1..], limits, text)
    ensures Scannable(s, hs, limits, text) ==> After(s, hs, limits, text) == After(next, hs[1..], limits, text)
  {
    hide RecordOk, Parse, Folding.InsertName, InsertFrom, Declared;
    ParsedTail(hs, limits, text);
    var c, rest := Parse(hs[0], limits, text), Parsed(hs[1..], limits, text);
    StepTail(s, next, c, rest, text.fold);
    assert |Concat(hs)| == |hs[0]| + |Concat(hs[1..])|;
    assert hs[1..] == [] ==> rest == [];
  }

  /** Every successful scan is the reading of a sequence of records that fill the bytes it passed over. */
  lemma {:induction false} ScanSound(cd: seq<Byte>, s: Scan, count: nat, limits: Limits, text: Text)
    returns (hs: seq<seq<Byte>>)
    requires s.p <= |cd| && ScanAll(cd, s, count, limits, text).Ok?
    ensures |hs| == count && Scannable(s, hs, limits, text)
    ensures s.p + |Concat(hs)| <= |cd| && cd[s.p..s.p + |Concat(hs)|] == Concat(hs)
    ensures ScanAll(cd, s, count, limits, text) == Ok(After(s, hs, limits, text))
    decreases count
  {
    hide ScanEntry, RecordOk, Parse, Folding.InsertName, RecordAt;
    if count == 0 {
      hs := [];
      assert s.centrals + [] == s.centrals;
    } else {
      EntryScans(cd, s, limits, text);
      var next := ScanEntry(cd, s, limits, text).value;
      var h := RecordAt(cd, s.p).value;
      var rest := ScanSound(cd, next, count - 1, limits, text);
      hs := [h] + rest;
      assert hs[1..] == rest;
      ScannableTail(s, next, hs, limits, text);
      assert cd[s.p..s.p + |Concat(hs)|] == cd[s.p..next.p] + cd[next.p..next.p + |Concat(rest)|];
    }
  }

  lemma ConcatCons(hs: seq<seq<Byte>>)
    requires hs != []
    ensures Concat(hs) == hs[0] + Concat(hs[1..])
  {
  }

  /** The next record that can be taken is taken. */
  lemma StepComplete(cd: seq<Byte>, s: Scan, hs: seq<seq<Byte>>, limits: Limits, text: Text)
    requires s.p + |Concat(hs)| <= |cd| && cd[s.p..s.p + |Concat(hs)|] == Concat(hs)
    requires hs != [] && Scannable(s, hs, limits, text)
    ensures ScanEntry(cd, s, limits, text).Ok?
    ensures var next := ScanEntry(cd, s, limits, text).value;
            && next.p == s.p + |hs[0]| && next.p + |Concat(hs[1..])| <= |cd|
            && cd[next.p..next.p + |Concat(hs[1..])|] == Concat(hs[1..])
            && Scannable(next, hs[1..], limits, text)
            && After(next, hs[1..], limits, text) == After(s, hs, limits, text)
  {
    hide ScanEntry, Parse, Folding.InsertName, RecordAt, After, Concat, Scannable, RecordOk;
    ScanTakes(s, hs, limits, text);
    ConcatCons(hs);
    var h := hs[0];
    RecordIsRead(cd, s.p, h, Concat(hs[1..]));
    EntryScans(cd, s, limits, text);
    var next := ScanEntry(cd, s, limits, text).value;
    ScannableTail(s, next, hs, limits, text);
    assert cd[next.p..next.p + |Concat(hs[1..])|] == cd[s.p..s.p + |Concat(hs)|][|h|..];
  }

  lemma ScanTakes(s: Scan, hs: seq<seq<Byte>>, limits: Limits, text: Text)
    requires hs != [] && Scannable(s, hs, limits, text)
    ensures (forall i :: 0 <= i < |hs| ==> RecordOk(hs[i], limits, text)) && IsRecord(hs[0])
    ensures var c := Parse(hs[0], limits, text);
            Folding.InsertName(s.index, c.name, text.fold).Some? && s.declared + c.uncompressed <= limits.packageBytes
  {
    hide RecordOk, Parse, Folding.InsertName, IsRecord;
    ParsedTail(hs, limits, text);
    RecordMeans(hs[0], limits, text);
  }

  /** Records that can be taken are taken. */
  lemma {:induction false} ScanComplete(cd: seq<Byte>, s: Scan, hs: seq<seq<Byte>>, limits: Limits, text: Text)
    requires s.p + |Concat(hs)| <= |cd| && cd[s.p..s.p + |Concat(hs)|] == Concat(hs)
    requires Scannable(s, hs, limits, text)
    ensures ScanAll(cd, s, |hs|, limits, text) == Ok(After(s, hs, limits, text))
    decreases |hs|
  {
    hide ScanEntry, Parse, Folding.InsertName, RecordAt, Scannable, RecordOk;
    if hs == [] {
      assert s.centrals + [] == s.centrals;
    } else {
      StepComplete(cd, s, hs, limits, text);
      ScanComplete(cd, ScanEntry(cd, s, limits, text).value, hs[1..], limits, text);
    }
  }

  lemma RecordIsRead(cd: seq<Byte>, p: nat, h: seq<Byte>, rest: seq<Byte>)
    requires IsRecord(h) && p + |h| + |rest| <= |cd| && cd[p..p + |h| + |rest|] == h + rest
    ensures RecordAt(cd, p) == Some(h)
  {
    forall i | 0 <= i < |h| ensures cd[p + i] == h[i] {
      assert cd[p..p + |h| + |rest|][i] == (h + rest)[i];
    }
    assert cd[p..p + |h|] == h;
  }

  // ----- the walk over the local headers --------------------------------------------------------------------------

  /** Fields read inside a part of the file are the fields of that part. */
  lemma FieldsOfPart(file: seq<Byte>, at: nat, part: seq<Byte>)
    requires at + |part| <= |file| && file[at..at + |part|] == part
    ensures forall k: nat :: k + 2 <= |part| ==> U16(part, k) == U16(file, at + k)
    ensures forall k: nat :: k + 4 <= |part| ==> U32(part, k) == U32(file, at + k)
    ensures forall k: nat :: k + 12 <= |part| ==> Sizes(part, k) == Sizes(file, at + k)
  {
    forall i | 0 <= i < |part| ensures part[i] == file[at + i] {}
  }

  lemma DescriptorSound(file: seq<Byte>, end: nat, limit: nat, c: Central)
    requires end <= limit <= |file| && DescriptorLength(file, end, limit, c).Some?
    ensures var d := DescriptorLength(file, end, limit, c).value;
            end + d <= limit && DescriptorAgrees(file[end..end + d], c)
  {
    hide U32;
    var d := DescriptorLength(file, end, limit, c).value;
    FieldsOfPart(file, end, file[end..end + d]);
    assert if d == 12 then Sizes(file[end..end + d], 0) == Sizes(file, end + 0)
           else Sizes(file[end..end + d], 4) == Sizes(file, end + 4);
  }

  /** What follows a local record: the end of the local part, or another local header. */
  ghost predicate Follows(file: seq<Byte>, end: nat, limit: nat) {
    end <= limit <= |file| && (end < limit ==> end + 4 <= limit && U32(file, end) == SIG_LOCAL)
  }

  /** The descriptor without its signature cannot be taken for the longer one: that would need the next word to be
      the descriptor signature. */
  lemma DescriptorComplete(file: seq<Byte>, end: nat, limit: nat, c: Central, descriptor: seq<Byte>)
    requires end + |descriptor| <= |file| && file[end..end + |descriptor|] == descriptor
    requires DescriptorAgrees(descriptor, c) && Follows(file, end + |descriptor|, limit)
    ensures DescriptorLength(file, end, limit, c) == Some(|descriptor|)
  {
    hide U32;
    FieldsOfPart(file, end, descriptor);
    assert if |descriptor| == 12 then Sizes(descriptor, 0) == Sizes(file, end + 0)
           else Sizes(descriptor, 4) == Sizes(file, end + 4);
  }

  lemma LocalSound(file: seq<Byte>, c: Central, limit: nat) returns (l: LocalRecord)
    requires limit <= |file| && CheckLocal(file, c, limit).Some?
    ensures var (data, end) := CheckLocal(file, c, limit).value;
            && Agrees(l, c) && end == c.offset + |Record(l)| && data == c.offset + |Head(l)|
            && file[c.offset..end] == Record(l)
  {
    hide U32, U16, DescriptorLength, DescriptorAgrees, ForbiddenExtra;
    var at := c.offset;
    var n, m := U16(file, at + 26), U16(file, at + 28);
    var (data, end) := CheckLocal(file, c, limit).value;
    var stop := data + c.compressed;
    var named := at + LOCAL_LEN + n;
    var header := file[at..at + LOCAL_LEN];
    FieldsOfPart(file, at, header);
    assert U16(header, 26) == n && U16(header, 28) == m;
    assert U32(header, 0) == U32(file, at + 0);
    assert Sizes(header, 14) == Sizes(file, at + 14);
    assert U16(header, 6) == U16(file, at + 6) && U16(header, 8) == U16(file, at + 8);
    l := LocalRecord(header, file[at + LOCAL_LEN..named], file[named..data], file[data..stop], file[stop..end]);
    if Bit(c.flags, 3) {
      DescriptorSound(file, stop, limit, c);
    }
    assert file[at..data] == Head(l);
    ThreeParts(file, at, data, stop, end);
  }

  lemma ThreeParts(file: seq<Byte>, a: nat, b: nat, c: nat, d: nat)
    requires a <= b <= c <= d <= |file|
    ensures file[a..d] == file[a..b] + file[b..c] + file[c..d]
  {
  }

  /** The two halves of a part of the file. */
  lemma Halves(file: seq<Byte>, at: nat, x: seq<Byte>, y: seq<Byte>)
    requires at + |x| + |y| <= |file| && file[at..at + |x| + |y|] == x + y
    ensures file[at..at + |x|] == x && file[at + |x|..at + |x| + |y|] == y
  {
    assert file[at..at + |x|] == (x + y)[..|x|];
    assert file[at + |x|..at + |x| + |y|] == (x + y)[|x|..];
  }

  lemma RecordParts(file: seq<Byte>, at: nat, l: LocalRecord)
    requires at + |Record(l)| <= |file| && file[at..at + |Record(l)|] == Record(l)
    ensures var named := at + |l.header| + |l.name|;
            var data := named + |l.extra|;
            var stop := data + |l.data|;
            && |Head(l)| == data - at && |Record(l)| == stop + |l.descriptor| - at
            && file[at..at + |l.header|] == l.header && file[at + |l.header|..named] == l.name
            && file[named..data] == l.extra && file[stop..stop + |l.descriptor|] == l.descriptor
  {
    Halves(file, at, Head(l) + l.data, l.descriptor);
    Halves(file, at, Head(l), l.data);
    Halves(file, at, l.header + l.name, l.extra);
    Halves(file, at, l.header, l.name);
  }

  lemma LocalComplete(file: seq<Byte>, c: Central, limit: nat, l: LocalRecord)
    requires Agrees(l, c) && c.offset + |Record(l)| <= |file|
    requires file[c.offset..c.offset + |Record(l)|] == Record(l) && Follows(file, c.offset + |Record(l)|, limit)
    ensures CheckLocal(file, c, limit) == Some((c.offset + |Head(l)|, c.offset + |Record(l)|))
  {
    hide U32, U16, DescriptorLength, DescriptorAgrees, ForbiddenExtra, Head, Record;
    var at := c.offset;
    RecordParts(file, at, l);
    FieldsOfPart(file, at, l.header);
    assert U16(l.header, 26) == U16(file, at + 26) && U16(l.header, 28) == U16(file, at + 28);
    assert U32(l.header, 0) == U32(file, at + 0);
    assert Sizes(l.header, 14) == Sizes(file, at + 14);
    assert U16(l.header, 6) == U16(file, at + 6) && U16(l.header, 8) == U16(file, at + 8);
    if Bit(c.flags, 3) {
      DescriptorComplete(file, at + |Head(l)| + |l.data|, limit, c, l.descriptor);
    }
  }

  /** `result` is `before` with the data offsets of `locals`, laid out from `at`, written at the places of `order`. */
  ghost predicate Recorded(result: seq<nat>, before: seq<nat>, locals: seq<LocalRecord>, order: seq<nat>, at: nat) {
    && |result| == |before| && |locals| == |order|
    && (forall k :: 0 <= k < |order| ==>
          order[k] < |result| && result[order[k]] == at + |LocalBytes(locals[..k])| + |Head(locals[k])|)
    && (forall i :: 0 <= i < |before| && i !in order ==> result[i] == before[i])
  }

  lemma LocalBytesPrefix(l: LocalRecord, rest: seq<LocalRecord>, k: nat)
    requires k <= |rest|
    ensures |LocalBytes(([l] + rest)[..k + 1])| == |Record(l)| + |LocalBytes(rest[..k])|
  {
    assert ([l] + rest)[..k + 1][1..] == rest[..k];
  }

  lemma PlacedCons(l: LocalRecord, rest: seq<LocalRecord>, cs: seq<Central>, order: seq<nat>, at: nat)
    requires order != [] && order[0] < |cs|
    ensures Placed([l] + rest, cs, order, at) <==>
              && Agrees(l, cs[order[0]]) && cs[order[0]].offset == at
              && Placed(rest, cs, order[1..], at + |Record(l)|)
  {
    hide Agrees, Record, LocalBytes;
    var locals := [l] + rest;
    assert |LocalBytes(locals[..0])| == 0 by { assert locals[..0] == []; LocalBytesEmpty(); }
    forall k | 0 <= k < |rest| ensures |LocalBytes(locals[..k + 1])| == |Record(l)| + |LocalBytes(rest[..k])| {
      LocalBytesPrefix(l, rest, k);
    }
    if Placed(locals, cs, order, at) {
      assert Agrees(locals[0], cs[order[0]]);
      forall k | 0 <= k < |rest|
        ensures order[1..][k] < |cs| && Agrees(rest[k], cs[order[1..][k]])
                && cs[order[1..][k]].offset == at + |Record(l)| + |LocalBytes(rest[..k])|
      {
        assert locals[k + 1] == rest[k] && order[k + 1] == order[1..][k];
      }
    }
    if Agrees(l, cs[order[0]]) && cs[order[0]].offset == at && Placed(rest, cs, order[1..], at + |Record(l)|) {
      forall k | 0 <= k < |locals|
        ensures order[k] < |cs| && Agrees(locals[k], cs[order[k]])
                && cs[order[k]].offset == at + |LocalBytes(locals[..k])|
      {
        if k > 0 {
          assert locals[k] == rest[k - 1] && order[k] == order[1..][k - 1];
        }
      }
    }
  }

  lemma LocalBytesEmpty()
    ensures LocalBytes([]) == []
  {
  }

  lemma NoLocals(cs: seq<Central>, at: nat, before: seq<nat>)
    ensures LocalBytes([]) == [] && Placed([], cs, [], at) && Recorded(before, before, [], [], at)
  {
  }

  lemma PlacedLength(locals: seq<LocalRecord>, cs: seq<Central>, order: seq<nat>, at: nat)
    requires Placed(locals, cs, order, at)
    ensures |locals| == |order| && forall k :: 0 <= k < |order| ==> order[k] < |cs|
  {
  }

  lemma DistinctTail(order: seq<nat>)
    requires order != [] && Distinct(order)
    ensures Distinct(order[1..])
  {
    assert forall k :: 0 <= k < |order[1..]| ==> order[1..][k] == order[k + 1];
  }

  lemma RecordedCons(result: seq<nat>, before: seq<nat>, l: LocalRecord, rest: seq<LocalRecord>, order: seq<nat>,
                     at: nat)
    requires order != [] && order[0] < |before| && Distinct(order)
    requires Recorded(result, before[order[0] := at + |Head(l)|], rest, order[1..], at + |Record(l)|)
    ensures Recorded(result, before, [l] + rest, order, at)
  {
    hide Record, Head, LocalBytes;
    forall k: nat | k < |[l] + rest|
      ensures order[k] < |result|
              && result[order[k]] == at + |LocalBytes(([l] + rest)[..k])| + |Head(([l] + rest)[k])|
    {
      RecordedAt(result, before, l, rest, order, at, k);
    }
    RecordedElsewhere(result, before, l, rest, order, at);
  }

  lemma RecordedAt(result: seq<nat>, before: seq<nat>, l: LocalRecord, rest: seq<LocalRecord>, order: seq<nat>,
                   at: nat, k: nat)
    requires order != [] && order[0] < |before| && Distinct(order) && k <= |rest|
    requires Recorded(result, before[order[0] := at + |Head(l)|], rest, order[1..], at + |Record(l)|)
    ensures k < |order| && order[k] < |result|
            && result[order[k]] == at + |LocalBytes(([l] + rest)[..k])| + |Head(([l] + rest)[k])|
  {
    hide Record, Head, LocalBytes;
    var locals := [l] + rest;
    if k == 0 {
      assert locals[..0] == [];
      LocalBytesEmpty();
      assert order[0] !in order[1..];
    } else {
      LocalBytesPrefix(l, rest, k - 1);
      assert locals[k] == rest[k - 1] && order[k] == order[1..][k - 1];
    }
  }

  lemma RecordedElsewhere(result: seq<nat>, before: seq<nat>, l: LocalRecord, rest: seq<LocalRecord>, order: seq<nat>,
                          at: nat)
    requires order != [] && order[0] < |before|
    requires Recorded(result, before[order[0] := at + |Head(l)|], rest, order[1..], at + |Record(l)|)
    ensures forall i :: 0 <= i < |before| && i !in order ==> result[i] == before[i]
  {
    hide Record, Head, LocalBytes;
    forall i | 0 <= i < |before| && i !in order ensures result[i] == before[i] {
      assert i != order[0] && i !in order[1..];
    }
  }

  /** A successful walk finds local records that fill the bytes it passed over. */
  lemma {:induction false} WalkSound(file: seq<Byte>, cs: seq<Central>, order: seq<nat>, at: nat, limit: nat,
                                     before: seq<nat>) returns (locals: seq<LocalRecord>)
    requires at <= limit <= |file| && |before| == |cs| && Distinct(order)
    requires forall k :: 0 <= k < |order| ==> order[k] < |cs|
    requires Walk(file, cs, order, at, limit, before).Some?
    ensures Placed(locals, cs, order, at) && file[at..limit] == LocalBytes(locals)
    ensures Recorded(Walk(file, cs, order, at, limit, before).value, before, locals, order, at)
    decreases |order|
  {
    hide CheckLocal, Agrees, Record, Head, Placed, Recorded, Distinct;
    if order == [] {
      locals := [];
      NoLocals(cs, at, before);
    } else {
      var c := cs[order[0]];
      DistinctTail(order);
      var l := LocalSound(file, c, limit);
      var (data, end) := CheckLocal(file, c, limit).value;
      var rest := WalkSound(file, cs, order[1..], end, limit, before[order[0] := data]);
      locals := [l] + rest;
      PlacedCons(l, rest, cs, order, at);
      RecordedCons(Walk(file, cs, order, at, limit, before).value, before, l, rest, order, at);
      assert locals[1..] == rest;
      assert file[at..limit] == file[at..end] + file[end..limit];
    }
  }

  /** Local records where they belong are walked over. */
  lemma {:induction false} WalkComplete(file: seq<Byte>, cs: seq<Central>, order: seq<nat>, at: nat, limit: nat,
                                        before: seq<nat>, locals: seq<LocalRecord>)
    requires at <= limit <= |file| && |before| == |cs| && Distinct(order)
    requires forall k :: 0 <= k < |order| ==> order[k] < |cs|
    requires Placed(locals, cs, order, at) && file[at..limit] == LocalBytes(locals)
    ensures Walk(file, cs, order, at, limit, before).Some?
    ensures Recorded(Walk(file, cs, order, at, limit, before).value, before, locals, order, at)
    decreases |order|
  {
    hide CheckLocal, Agrees, Record, Head, Placed, Recorded, Distinct, Follows;
    PlacedLength(locals, cs, order, at);
    if order == [] {
      NoLocals(cs, at, before);
    } else {
      var c := cs[order[0]];
      DistinctTail(order);
      var l, rest := locals[0], locals[1..];
      assert locals == [l] + rest;
      PlacedCons(l, rest, cs, order, at);
      var end := at + |Record(l)|;
      assert LocalBytes(locals) == Record(l) + LocalBytes(rest);
      Halves(file, at, Record(l), LocalBytes(rest));
      FollowedByLocal(file, cs, order[1..], end, limit, rest);
      LocalComplete(file, c, limit, l);
      var data := at + |Head(l)|;
      WalkComplete(file, cs, order[1..], end, limit, before[order[0] := data], rest);
      RecordedCons(Walk(file, cs, order, at, limit, before).value, before, l, rest, order, at);
    }
  }

  lemma FollowedByLocal(file: seq<Byte>, cs: seq<Central>, order: seq<nat>, at: nat, limit: nat,
                        locals: seq<LocalRecord>)
    requires at <= limit <= |file| && Placed(locals, cs, order, at) && file[at..limit] == LocalBytes(locals)
    ensures Follows(file, at, limit)
  {
    hide U32, DescriptorAgrees;
    if locals != [] {
      var l := locals[0];
      assert Agrees(l, cs[order[0]]);
      Halves(file, at, Record(l), LocalBytes(locals[1..]));
      RecordParts(file, at, l);
      FieldsOfPart(file, at, l.header);
      assert U32(l.header, 0) == U32(file, at + 0);
    }
  }

  // ----- the order of the local headers ---------------------------------------------------------------------------

  ghost predicate Ascending(order: seq<nat>, offsets: seq<nat>) {
    && (forall k :: 0 <= k < |order| ==> order[k] < |offsets|)
    && (forall j, k :: 0 <= j < k < |order| ==> offsets[order[j]] <= offsets[order[k]])
  }

  ghost predicate StrictlyAscending(order: seq<nat>, offsets: seq<nat>) {
    && (forall k :: 0 <= k < |order| ==> order[k] < |offsets|)
    && (forall j, k :: 0 <= j < k < |order| ==> offsets[order[j]] < offsets[order[k]])
  }

  lemma {:induction false} InsertAscending(order: seq<nat>, i: nat, offsets: seq<nat>)
    requires i < |offsets| && Ascending(order, offsets)
    ensures Ascending(InsertByOffset(order, i, offsets), offsets)
  {
    if order != [] && offsets[order[|order| - 1]] > offsets[i] {
      var init, last := order[..|order| - 1], order[|order| - 1];
      InsertAscending(init, i, offsets);
      InsertMembers(init, i, offsets);
      var r := InsertByOffset(init, i, offsets);
      forall k | 0 <= k < |r| ensures offsets[r[k]] <= offsets[last] {
        assert r[k] in init || r[k] == i;
      }
    }
  }

  lemma {:induction false} SortAscending(offsets: seq<nat>, n: nat)
    requires n <= |offsets|
    ensures Ascending(SortByOffset(offsets, n), offsets)
  {
    hide InsertByOffset, Ascending;
    if n == 0 {
      AscendingEmpty(offsets);
    } else {
      SortAscending(offsets, n - 1);
      InsertAscending(SortByOffset(offsets, n - 1), n - 1, offsets);
    }
  }

  lemma AscendingEmpty(offsets: seq<nat>)
    ensures Ascending([], offsets)
  {
  }

  lemma {:induction false} SortKeepsAll(offsets: seq<nat>, n: nat)
    requires n <= |offsets|
    ensures forall i: nat :: multiset(SortByOffset(offsets, n))[i] == if i < n then 1 else 0
  {
    hide InsertByOffset;
    if n > 0 {
      SortKeepsAll(offsets, n - 1);
      InsertMembers(SortByOffset(offsets, n - 1), n - 1, offsets);
    }
  }

  /** The sort gives every index once. */
  lemma SortPermutes(offsets: seq<nat>)
    ensures IsPermutation(SortByOffset(offsets, |offsets|), |offsets|)
  {
    hide SortByOffset;
    var order := SortByOffset(offsets, |offsets|);
    SortKeepsAll(offsets, |offsets|);
    forall i: nat | i < |offsets| ensures i in order {
      assert multiset(order)[i] == 1;
    }
    forall j, k | 0 <= j < k < |order| ensures order[j] != order[k] {
      assert order == order[..k] + order[k..];
      assert order[j] == order[..k][j] && order[k] == order[k..][0];
      assert multiset(order)[order[j]] == multiset(order[..k])[order[j]] + multiset(order[k..])[order[j]];
    }
  }

  /** Only one order of the indices is strictly ascending, and no other is ascending. */
  lemma {:induction false} AscendingIsUnique(p: seq<nat>, q: seq<nat>, offsets: seq<nat>, k: nat)
    requires IsPermutation(p, |offsets|) && IsPermutation(q, |offsets|)
    requires StrictlyAscending(p, offsets) && Ascending(q, offsets)
    requires k <= |offsets|
    ensures p[..k] == q[..k]
  {
    if k > 0 {
      AscendingIsUnique(p, q, offsets, k - 1);
      var at := k - 1;
      assert forall i :: 0 <= i < at ==> p[..at][i] == p[i] && q[..at][i] == q[i];
      assert p[at] in q && q[at] in p;
      var j: nat :| j < |q| && q[j] == p[at];
      var i: nat :| i < |p| && p[i] == q[at];
      assert j >= at && i >= at;
      assert offsets[p[at]] <= offsets[p[i]];
      assert offsets[q[at]] <= offsets[q[j]];
    }
  }

  // ----- the audit accepts exactly the well-formed archives --------------------------------------------------------

  /** The records of a central directory can all be taken exactly when their names can be told apart and they declare
      no more than the limit. */
  lemma ScannableFromStart(hs: seq<seq<Byte>>, limits: Limits, text: Text)
    requires forall i :: 0 <= i < |hs| ==> RecordOk(hs[i], limits, text)
    ensures Scannable(START, hs, limits, text) <==>
              && Folding.Compatible(Names(Parsed(hs, limits, text)), text.fold)
              && (hs != [] ==> Declared(Parsed(hs, limits, text)) <= limits.packageBytes)
  {
    hide RecordOk, Folding.Compatible, Folding.InsertAll, Declared, InsertFrom, Names, Parse;
    var cs := Parsed(hs, limits, text);
    InsertFromEmpty(cs, text.fold);
    Folding.AcceptedIffCompatible(Names(cs), text.fold);
  }

  lemma AfterStart(hs: seq<seq<Byte>>, limits: Limits, text: Text)
    requires Scannable(START, hs, limits, text)
    ensures forall i :: 0 <= i < |hs| ==> RecordOk(hs[i], limits, text)
    ensures After(START, hs, limits, text).p == |Concat(hs)|
    ensures After(START, hs, limits, text).centrals == Parsed(hs, limits, text)
  {
    hide RecordOk, Declared, Concat, InsertFrom, Parse;
    assert [] + Parsed(hs, limits, text) == Parsed(hs, limits, text);
  }

  lemma DeclaredNone()
    ensures Declared([]) == 0
  {
  }

  lemma EocdMeaning(file: seq<Byte>, limits: Limits)
    requires |file| >= EOCD_LEN
    ensures var e := |file| - EOCD_LEN;
            var (total, cdSize, cdOffset) := (U16(file, e + 10), U32(file, e + 12), U32(file, e + 16));
            CheckEocd(file, limits).None? <==>
              EocdOk(file[e..], total, cdSize, cdOffset) && total <= limits.maxEntries && cdOffset + cdSize == e
  {
    hide U16, U32;
    var e := |file| - EOCD_LEN;
    var eocd := file[e..];
    assert file[e..e + |eocd|] == eocd;
    FieldsOfPart(file, e, eocd);
    assert U32(eocd, 0) == U32(file, e + 0) && U16(eocd, 4) == U16(file, e + 4) && U16(eocd, 6) == U16(file, e + 6);
    assert U16(eocd, 8) == U16(file, e + 8) && U16(eocd, 10) == U16(file, e + 10) && U16(eocd, 20) == U16(file, e + 20);
    assert U32(eocd, 12) == U32(file, e + 12) && U32(eocd, 16) == U32(file, e + 16);
  }

  lemma EntriesAreOf(cs: seq<Central>, dataOffsets: seq<nat>, a: Archive, limits: Limits, text: Text)
    requires WellFormed(a, limits, text) && cs == Parsed(a.centrals, limits, text)
    requires Recorded(dataOffsets, Zeros(|cs|), a.locals, a.place, 0)
    ensures EntriesOf(Entries(cs, dataOffsets), a, limits, text)
  {
    hide RecordOk, Agrees, LocalBytes, Head, Folding.Compatible, Declared, EocdOk, FileBytes;
  }

  /** Every accepted file is the byte string of a well-formed archive, which has the entries that the audit returns. */
  lemma AuditSound(file: seq<Byte>, limits: Limits, text: Text) returns (a: Archive)
    requires Audit(file, limits, text).Ok?
    ensures WellFormed(a, limits, text) && FileBytes(a) == file
    ensures EntriesOf(Audit(file, limits, text).value, a, limits, text)
  {
    hide U16, U32, CheckEocd, EocdOk, ScanAll, Walk, Scannable, After, SortByOffset, Declared, LocalBytes, Concat,
      RecordOk, Recorded, Folding.Compatible, IsPermutation, Placed, EntriesOf, Entries;
    var e := |file| - EOCD_LEN;
    EocdMeaning(file, limits);
    var total, cdOffset := U16(file, e + 10), U32(file, e + 16);
    var cd := file[cdOffset..e];
    var hs := ScanSound(cd, START, total, limits, text);
    var scan := After(START, hs, limits, text);
    AfterStart(hs, limits, text);
    ScannableFromStart(hs, limits, text);
    var cs := Parsed(hs, limits, text);
    var order := SortByOffset(Offsets(cs), |cs|);
    SortPermutes(Offsets(cs));
    PermutationDistinct(order, |cs|);
    var locals := WalkSound(file, cs, order, 0, cdOffset, Zeros(|cs|));
    a := Archive(locals, hs, order, file[e..]);
    assert cd[0..|cd|] == cd;
    assert file == file[..cdOffset] + cd + file[e..];
    DeclaredNone();
    EntriesAreOf(cs, Walk(file, cs, order, 0, cdOffset, Zeros(|cs|)).value, a, limits, text);
  }

  lemma PermutationDistinct(order: seq<nat>, n: nat)
    requires IsPermutation(order, n)
    ensures Distinct(order) && |order| == n && forall k :: 0 <= k < n ==> order[k] < n
  {
  }

  lemma {:induction false} LocalBytesGrow(locals: seq<LocalRecord>, cs: seq<Central>, place: seq<nat>, at: nat,
                                          j: nat, k: nat)
    requires Placed(locals, cs, place, at) && j < k < |locals|
    ensures |LocalBytes(locals[..j])| < |LocalBytes(locals[..k])|
  {
    hide Agrees, Head;
    if j + 1 < k { LocalBytesGrow(locals, cs, place, at, j, k - 1); }
    LocalBytesSnoc(locals[..k - 1], locals[k - 1]);
    assert locals[..k] == locals[..k - 1] + [locals[k - 1]];
    assert |Record(locals[k - 1])| > 0 by {
      assert Agrees(locals[k - 1], cs[place[k - 1]]);
      AgreesLength(locals[k - 1], cs[place[k - 1]]);
    }
  }

  lemma AgreesLength(l: LocalRecord, c: Central)
    requires Agrees(l, c)
    ensures |Record(l)| >= LOCAL_LEN
  {
  }

  lemma {:induction false} LocalBytesSnoc(locals: seq<LocalRecord>, l: LocalRecord)
    ensures LocalBytes(locals + [l]) == LocalBytes(locals) + Record(l)
  {
    hide Record;
    if locals == [] {
      assert [] + [l] == [l] && [l][1..] == [];
    } else {
      assert (locals + [l])[1..] == locals[1..] + [l];
      LocalBytesSnoc(locals[1..], l);
    }
  }

  /** The order in which the local records lie is the order the sort finds. */
  lemma PlaceIsSorted(locals: seq<LocalRecord>, cs: seq<Central>, place: seq<nat>)
    requires IsPermutation(place, |cs|) && Placed(locals, cs, place, 0)
    ensures place == SortByOffset(Offsets(cs), |cs|)
  {
    hide LocalBytes, Agrees, SortByOffset;
    var offsets := Offsets(cs);
    forall j, k | 0 <= j < k < |place| ensures offsets[place[j]] < offsets[place[k]] {
      LocalBytesGrow(locals, cs, place, 0, j, k);
    }
    SortPermutes(offsets);
    SortAscending(offsets, |cs|);
    var sorted := SortByOffset(offsets, |cs|);
    AscendingIsUnique(place, sorted, offsets, |cs|);
    assert place[..|cs|] == place && sorted[..|cs|] == sorted;
  }

  /** The byte string of every well-formed archive is accepted. */
  lemma AuditComplete(a: Archive, limits: Limits, text: Text)
    requires WellFormed(a, limits, text)
    ensures Audit(FileBytes(a), limits, text).Ok?
    ensures EntriesOf(Audit(FileBytes(a), limits, text).value, a, limits, text)
  {
    hide U16, U32, CheckEocd, EocdOk, ScanAll, Walk, Scannable, After, SortByOffset, Declared, LocalBytes, Concat,
      RecordOk, Recorded, Folding.Compatible, IsPermutation, Placed, EntriesOf, Entries;
    var file, cs := FileBytes(a), Parsed(a.centrals, limits, text);
    var cdOffset, cdSize := |LocalBytes(a.locals)|, |Concat(a.centrals)|;
    EocdFields(a.eocd, |cs|, cdSize, cdOffset);
    var e := cdOffset + cdSize;
    assert file[e..] == a.eocd;
    assert file[e..e + |a.eocd|] == a.eocd;
    FieldsOfPart(file, e, a.eocd);
    assert U16(a.eocd, 10) == U16(file, e + 10) && U32(a.eocd, 12) == U32(file, e + 12)
           && U32(a.eocd, 16) == U32(file, e + 16);
    EocdMeaning(file, limits);
    var cd := file[cdOffset..e];
    assert cd == Concat(a.centrals);
    assert cd[0..|cd|] == cd;
    ScannableFromStart(a.centrals, limits, text);
    AfterStart(a.centrals, limits, text);
    ScanComplete(cd, START, a.centrals, limits, text);
    PlaceIsSorted(a.locals, cs, a.place);
    PermutationDistinct(a.place, |cs|);
    assert file[0..cdOffset] == LocalBytes(a.locals);
    WalkComplete(file, cs, a.place, 0, cdOffset, Zeros(|cs|), a.locals);
    EntriesAreOf(cs, Walk(file, cs, a.place, 0, cdOffset, Zeros(|cs|)).value, a, limits, text);
  }

  lemma EocdFields(eocd: seq<Byte>, count: nat, cdSize: nat, cdOffset: nat)
    requires EocdOk(eocd, count, cdSize, cdOffset)
    ensures |eocd| == EOCD_LEN
    ensures U16(eocd, 10) == count && U32(eocd, 12) == cdSize && U32(eocd, 16) == cdOffset
  {
  }

  /** The audit accepts exactly the byte strings of well-formed archives. */
  lemma AuditExact(file: seq<Byte>, limits: Limits, text: Text)
    ensures Audit(file, limits, text).Ok? <==> exists a: Archive :: WellFormed(a, limits, text) && FileBytes(a) == file
  {
    hide Audit, WellFormed, FileBytes;
    if Audit(file, limits, text).Ok? {
      var a := AuditSound(file, limits, text);
    }
    forall a: Archive | WellFormed(a, limits, text) && FileBytes(a) == file ensures Audit(file, limits, text).Ok? {
      AuditComplete(a, limits, text);
    }
  }

  /** An entry that is safe to extract. */
  ghost predicate SafeEntry(e: Entry, limits: Limits, text: Text) {
    && SafeName(e.name) && text.nfc(e.name) && multiset(e.name)['/'] + 1 <= limits.maxSegments
    && SizesOk(e.uncompressed, e.compressed, limits)
  }

  /** What a caller may rely on: every entry of an accepted file has a safe name and sizes within the limits, and no
      two names can be confused. */
  lemma AcceptedIsSafe(file: seq<Byte>, limits: Limits, text: Text)
    requires Audit(file, limits, text).Ok?
    ensures var entries := Audit(file, limits, text).value;
            && (forall i :: 0 <= i < |entries| ==> SafeEntry(entries[i], limits, text))
            && Folding.Compatible(seq(|entries|, i requires 0 <= i < |entries| => entries[i].name), text.fold)
            && |entries| <= limits.maxEntries
  {
    hide Audit, FileBytes, RecordOk, Parse, Folding.Compatible, IsPermutation, Placed, EocdOk, Declared, LocalBytes,
      Concat, SafeName, SizesOk;
    var entries := Audit(file, limits, text).value;
    var a := AuditSound(file, limits, text);
    var cs := Parsed(a.centrals, limits, text);
    assert Names(cs) == seq(|entries|, i requires 0 <= i < |entries| => entries[i].name);
    forall i | 0 <= i < |entries| ensures SafeEntry(entries[i], limits, text) {
      SafeRecord(a.centrals[i], limits, text);
    }
  }

  lemma SafeRecord(h: seq<Byte>, limits: Limits, text: Text)
    requires RecordOk(h, limits, text)
    ensures var c := Parse(h, limits, text);
            && SafeName(c.name) && text.nfc(c.name) && multiset(c.name)['/'] + 1 <= limits.maxSegments
            && SizesOk(c.uncompressed, c.compressed, limits)
  {
    hide IsCentral, IsPlain, IsRegular, SafeName, Little;
  }
}
