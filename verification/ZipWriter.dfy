/** A writer for the layout of APPNOTE.TXT sections 4.3.7, 4.3.9, 4.3.12 and 4.3.16, and what the audit makes of its
    files; and that no file has two readings. */
module ZipWriter {
  import opened Bytes
  import opened ZipAudit
  import opened ZipLayout
  import opened ZipRules
  import Folding
  import opened Options
  import opened Sequences

  // ----- where the data of an entry is ----------------------------------------------------------------------------

  lemma {:induction false} LocalBytesSplit(locals: seq<LocalRecord>, k: nat)
    requires k < |locals|
    ensures LocalBytes(locals) == LocalBytes(locals[..k]) + Record(locals[k]) + LocalBytes(locals[k + 1..])
  {
    hide Record;
    if k == 0 {
      assert locals[..0] == [];
    } else {
      LocalBytesSplit(locals[1..], k - 1);
      assert locals[1..][..k - 1] == locals[..k][1..];
      assert locals[1..][k..] == locals[k + 1..];
    }
  }

  /** The bytes an entry points at are the data of its local record, before the central directory. */
  lemma EntryData(a: Archive, entries: seq<Entry>, k: nat, limits: Limits, text: Text)
    requires WellFormed(a, limits, text) && EntriesOf(entries, a, limits, text) && k < |a.locals|
    ensures a.place[k] < |entries|
    ensures var entry := entries[a.place[k]];
            && entry.dataOffset + entry.compressed <= |LocalBytes(a.locals)|
            && FileBytes(a)[entry.dataOffset..entry.dataOffset + entry.compressed] == a.locals[k].data
            && entry.dataOffset + entry.compressed <= |LocalBytes(a.locals[..k + 1])|
            && |LocalBytes(a.locals[..k])| < entry.dataOffset
  {
    hide RecordOk, LocalBytes, Concat, Folding.Compatible, Declared, EocdOk, IsPermutation, DescriptorAgrees;
    PermutationDistinct(a.place, |a.centrals|);
    var l, entry := a.locals[k], entries[a.place[k]];
    assert Agrees(l, Parsed(a.centrals, limits, text)[a.place[k]]);
    LocalBytesSplit(a.locals, k);
    assert a.locals[..k + 1] == a.locals[..k] + [l];
    LocalBytesSnoc(a.locals[..k], l);
    DataWithin(LocalBytes(a.locals[..k]), l, LocalBytes(a.locals[k + 1..]), Concat(a.centrals), a.eocd);
  }

  lemma DataWithin(before: seq<Byte>, l: LocalRecord, after: seq<Byte>, directory: seq<Byte>, eocd: seq<Byte>)
    ensures var file := before + Record(l) + after + directory + eocd;
            var at := |before| + |Head(l)|;
            at + |l.data| <= |file| && file[at..at + |l.data|] == l.data
  {
    hide Head;
    var pre, post := before + Head(l), l.descriptor + after + directory + eocd;
    assert before + Record(l) + after + directory + eocd == pre + l.data + post;
    assert (pre + l.data + post)[|pre|..|pre| + |l.data|] == l.data;
  }

  lemma {:induction false} LocalBytesMonotone(locals: seq<LocalRecord>, j: nat, k: nat)
    requires j <= k <= |locals|
    ensures |LocalBytes(locals[..j])| <= |LocalBytes(locals[..k])|
  {
    if j < k {
      LocalBytesMonotone(locals, j, k - 1);
      assert locals[..k] == locals[..k - 1] + [locals[k - 1]];
      LocalBytesSnoc(locals[..k - 1], locals[k - 1]);
    }
  }

  lemma EarlierDataEndsFirst(a: Archive, entries: seq<Entry>, x: nat, y: nat, limits: Limits, text: Text)
    requires WellFormed(a, limits, text) && EntriesOf(entries, a, limits, text) && x < y < |a.locals|
    ensures a.place[x] < |entries| && a.place[y] < |entries|
    ensures entries[a.place[x]].dataOffset + entries[a.place[x]].compressed <= entries[a.place[y]].dataOffset
  {
    hide WellFormed, EntriesOf, LocalBytes;
    EntryData(a, entries, x, limits, text);
    EntryData(a, entries, y, limits, text);
    LocalBytesMonotone(a.locals, x + 1, y);
  }

  /** The end record says where the central directory starts. */
  lemma DirectoryOffset(a: Archive, limits: Limits, text: Text)
    requires WellFormed(a, limits, text)
    ensures |FileBytes(a)| >= EOCD_LEN && U32(FileBytes(a), |FileBytes(a)| - 6) == |LocalBytes(a.locals)|
  {
    hide U32, LocalBytes, Concat, RecordOk, Placed, Folding.Compatible, Declared, IsPermutation;
    var file, e := FileBytes(a), |LocalBytes(a.locals)| + |Concat(a.centrals)|;
    assert file[e..e + |a.eocd|] == a.eocd;
    FieldsOfPart(file, e, a.eocd);
    assert U32(a.eocd, 16) == U32(file, e + 16);
  }

  lemma PlaceOf(a: Archive, i: nat, limits: Limits, text: Text) returns (k: nat)
    requires WellFormed(a, limits, text) && i < |a.centrals|
    ensures k < |a.locals| && k < |a.place| && a.place[k] == i
  {
    hide RecordOk, Agrees, Folding.Compatible, Declared, EocdOk, FileBytes;
    assert i in a.place;
    k :| k < |a.place| && a.place[k] == i;
  }

  lemma EntryCount(a: Archive, entries: seq<Entry>, limits: Limits, text: Text)
    requires WellFormed(a, limits, text) && EntriesOf(entries, a, limits, text)
    ensures |entries| == |a.centrals|
  {
  }

  /** The data ranges of two entries of an accepted file do not overlap, and none reaches into the central directory. */
  lemma DataRangesDisjoint(file: seq<Byte>, limits: Limits, text: Text, i: nat, j: nat)
    requires Audit(file, limits, text).Ok?
    requires var entries := Audit(file, limits, text).value; i < |entries| && j < |entries| && i != j
    ensures |file| >= EOCD_LEN
    ensures var entries := Audit(file, limits, text).value;
            && entries[i].dataOffset + entries[i].compressed <= U32(file, |file| - 6)
            && (|| entries[i].dataOffset + entries[i].compressed <= entries[j].dataOffset
                || entries[j].dataOffset + entries[j].compressed <= entries[i].dataOffset)
  {
    hide Audit, WellFormed, EntriesOf, FileBytes, U32, LocalBytes;
    var a := AuditSound(file, limits, text);
    var entries := Audit(file, limits, text).value;
    EntryCount(a, entries, limits, text);
    var x := PlaceOf(a, i, limits, text);
    var y := PlaceOf(a, j, limits, text);
    EntryData(a, entries, x, limits, text);
    DirectoryOffset(a, limits, text);
    if x < y {
      EarlierDataEndsFirst(a, entries, x, y, limits, text);
    } else {
      EarlierDataEndsFirst(a, entries, y, x, limits, text);
    }
  }

  // ----- one reading ----------------------------------------------------------------------------------------------

  lemma {:induction false} RecordsAreDelimited(hs: seq<seq<Byte>>, others: seq<seq<Byte>>)
    requires |hs| == |others| && Concat(hs) == Concat(others)
    requires forall i :: 0 <= i < |hs| ==> IsRecord(hs[i]) && IsRecord(others[i])
    ensures hs == others
  {
    if hs != [] {
      var all := Concat(hs);
      ConcatCons(hs);
      ConcatCons(others);
      var h, other := hs[0], others[0];
      assert all[0..|h|] == h && all[0..|other|] == other;
      RecordIsRead(all, 0, h, Concat(hs[1..]));
      RecordIsRead(all, 0, other, Concat(others[1..]));
      assert Concat(hs[1..]) == all[|h|..] == Concat(others[1..]);
      RecordsAreDelimited(hs[1..], others[1..]);
    }
  }

  lemma {:induction false} LocalsAreDetermined(file: seq<Byte>, cs: seq<Central>, place: seq<nat>, at: nat, limit: nat,
                                               locals: seq<LocalRecord>, others: seq<LocalRecord>)
    requires at <= limit <= |file| && file[at..limit] == LocalBytes(locals) == LocalBytes(others)
    requires Placed(locals, cs, place, at) && Placed(others, cs, place, at)
    ensures locals == others
    decreases |locals|
  {
    hide Agrees, Record, CheckLocal, Placed, Follows;
    PlacedLength(locals, cs, place, at);
    PlacedLength(others, cs, place, at);
    if locals != [] {
      var l, other, c := locals[0], others[0], cs[place[0]];
      PlacedCons(l, locals[1..], cs, place, at);
      PlacedCons(other, others[1..], cs, place, at);
      assert locals == [l] + locals[1..] && others == [other] + others[1..];
      Halves(file, at, Record(l), LocalBytes(locals[1..]));
      Halves(file, at, Record(other), LocalBytes(others[1..]));
      var end := at + |Record(l)|;
      FollowedByLocal(file, cs, place[1..], end, limit, locals[1..]);
      FollowedByLocal(file, cs, place[1..], at + |Record(other)|, limit, others[1..]);
      LocalComplete(file, c, limit, l);
      LocalComplete(file, c, limit, other);
      SameRecord(l, other, c);
      LocalsAreDetermined(file, cs, place[1..], end, limit, locals[1..], others[1..]);
    }
  }

  /** Two local records with the same bytes that agree with the same central record are the same. */
  lemma SameRecord(l: LocalRecord, other: LocalRecord, c: Central)
    requires Agrees(l, c) && Agrees(other, c) && Record(l) == Record(other)
    ensures l == other
  {
    hide U32, DescriptorAgrees, ForbiddenExtra;
    var r := Record(l);
    assert r[0..|r|] == r;
    RecordParts(r, 0, l);
    RecordParts(r, 0, other);
    assert l.header == other.header;
    var stop := |Head(l)| + |l.data|;
    assert r[|Head(l)|..stop] == l.data;
    assert r[|Head(other)|..|Head(other)| + |other.data|] == other.data;
  }

  /** No file has two readings: two well-formed archives with the same bytes are the same archive. */
  lemma DecompositionIsUnique(a: Archive, b: Archive, limits: Limits, text: Text)
    requires WellFormed(a, limits, text) && WellFormed(b, limits, text) && FileBytes(a) == FileBytes(b)
    ensures a == b
  {
    hide RecordOk, Placed, Folding.Compatible, Declared, IsPermutation, LocalBytes, Concat, U16, U32;
    var file := FileBytes(a);
    DirectoryOffset(a, limits, text);
    DirectoryOffset(b, limits, text);
    assert a.eocd == file[|file| - EOCD_LEN..] == b.eocd;
    var cdOffset := |LocalBytes(a.locals)|;
    assert file[0..cdOffset] == LocalBytes(a.locals) == LocalBytes(b.locals);
    assert file[cdOffset..|file| - EOCD_LEN] == Concat(a.centrals) == Concat(b.centrals);
    RecordsAreRecords(a, limits, text);
    RecordsAreRecords(b, limits, text);
    RecordsAreDelimited(a.centrals, b.centrals);
    var cs := Parsed(a.centrals, limits, text);
    PlaceIsSorted(a.locals, cs, a.place);
    PlaceIsSorted(b.locals, cs, b.place);
    LocalsAreDetermined(file, cs, a.place, 0, cdOffset, a.locals, b.locals);
  }

  lemma RecordsAreRecords(a: Archive, limits: Limits, text: Text)
    requires WellFormed(a, limits, text)
    ensures forall i :: 0 <= i < |a.centrals| ==> IsRecord(a.centrals[i])
    ensures |a.eocd| == EOCD_LEN && U16(a.eocd, 8) == |a.centrals|
  {
    hide RecordOk, IsRecord;
    forall i | 0 <= i < |a.centrals| ensures IsRecord(a.centrals[i]) {
      RecordMeans(a.centrals[i], limits, text);
    }
  }

  // ----- the writer -----------------------------------------------------------------------------------------------

  /** A file to be written: `data` is what is stored, `mode` the Unix mode, and a streamed member has its sizes in a
      data descriptor. */
  datatype Member = Member(
    raw: seq<Byte>, deflate: bool, crc32: nat, data: seq<Byte>, uncompressed: nat, mode: nat, streamed: bool)

  predicate Writable(m: Member) {
    && |m.raw| <= U16_MAX && m.mode <= U16_MAX
    && m.crc32 <= U32_MAX && |m.data| < U32_MAX && m.uncompressed < U32_MAX
  }

  function Flags(m: Member): nat {
    0x800 + if m.streamed then 8 else 0
  }

  function Method8(m: Member): nat {
    if m.deflate then 8 else 0
  }

  function SizeFields(crc32: nat, compressed: nat, uncompressed: nat): (b: seq<Byte>)
    requires crc32 <= U32_MAX && compressed <= U32_MAX && uncompressed <= U32_MAX
    ensures |b| == 12 && Sizes(b, 0) == (crc32, compressed, uncompressed)
  {
    hide Le32;
    var b := Le32(crc32) + Le32(compressed) + Le32(uncompressed);
    assert b[0..4] == Le32(crc32) && b[4..8] == Le32(compressed) && b[8..12] == Le32(uncompressed);
    b
  }

  function LocalHeader(m: Member): (b: seq<Byte>)
    requires Writable(m)
  {
    Le32(SIG_LOCAL) + Le16(20) + Le16(Flags(m)) + Le16(Method8(m)) + Le32(0)
    + (if m.streamed then SizeFields(0, 0, 0) else SizeFields(m.crc32, |m.data|, m.uncompressed))
    + Le16(|m.raw|) + Le16(0)
  }

  function LocalOf(m: Member): LocalRecord
    requires Writable(m)
  {
    LocalRecord(LocalHeader(m), m.raw, [], m.data,
      if m.streamed then Le32(SIG_DESCRIPTOR) + SizeFields(m.crc32, |m.data|, m.uncompressed) else [])
  }

  function CentralOf(m: Member, offset: nat): (b: seq<Byte>)
    requires Writable(m) && offset <= U32_MAX
  {
    Le32(SIG_CENTRAL) + Le16(0x314) + Le16(20) + Le16(Flags(m)) + Le16(Method8(m)) + Le32(0)
    + SizeFields(m.crc32, |m.data|, m.uncompressed)
    + Le16(|m.raw|) + Le16(0) + Le16(0) + Le16(0) + Le16(0) + Le32(m.mode * 0x1_0000) + Le32(offset)
    + m.raw
  }

  lemma LocalHeaderFields(m: Member)
    requires Writable(m)
    ensures var b := LocalHeader(m);
            && |b| == LOCAL_LEN && U32(b, 0) == SIG_LOCAL && U16(b, 6) == Flags(m) && U16(b, 8) == Method8(m)
            && Sizes(b, 14) == (if m.streamed then (0, 0, 0) else (m.crc32, |m.data|, m.uncompressed))
            && U16(b, 26) == |m.raw| && U16(b, 28) == 0
  {
    hide Le16, Le32, SizeFields, Flags, Method8;
  }

  lemma CentralFields(m: Member, offset: nat)
    requires Writable(m) && offset <= U32_MAX
    ensures var b := CentralOf(m, offset);
            && IsRecord(b) && |b| == CENTRAL_LEN + |m.raw| && b[CENTRAL_LEN..] == m.raw
            && U16(b, 8) == Flags(m) && U16(b, 10) == Method8(m)
            && U32(b, 16) == m.crc32 && U32(b, 20) == |m.data| && U32(b, 24) == m.uncompressed
            && U16(b, 28) == |m.raw| && U16(b, 30) == 0 && U16(b, 34) == 0
            && U32(b, 38) == m.mode * 0x1_0000 && U32(b, 42) == offset
  {
    hide Le16, Le32, SizeFields, Flags, Method8;
  }

  /** What a member says, as the audit reads it. */
  ghost predicate Acceptable(m: Member, limits: Limits, text: Text) {
    && Writable(m)
    && NameOk(m.raw, limits, text)
    && IsRegular(m.mode * 0x1_0000)
    && SizesOk(m.uncompressed, |m.data|, limits)
  }

  function NameOf(m: Member, text: Text): string
    requires text.decode(m.raw).Some?
  {
    text.decode(m.raw).value
  }

  ghost function CentralRead(m: Member, offset: nat, limits: Limits, text: Text): Central
    requires Acceptable(m, limits, text)
  {
    Central(NameOf(m, text), m.raw, Flags(m), Method8(m), m.crc32, |m.data|, m.uncompressed,
      IsExecutable(m.mode * 0x1_0000), offset)
  }

  lemma FlagBits(m: Member)
    ensures !Encrypted(Flags(m)) && (Bit(Flags(m), 3) <==> m.streamed)
  {
    assert Pow2(3) == 8 && Pow2(6) == 64;
    assert Pow2(9) == 8 * Pow2(6) && Pow2(13) == 16 * Pow2(9);
  }

  lemma CentralIsRead(m: Member, offset: nat, limits: Limits, text: Text)
    requires Acceptable(m, limits, text) && offset < U32_MAX
    ensures RecordOk(CentralOf(m, offset), limits, text)
    ensures Parse(CentralOf(m, offset), limits, text) == CentralRead(m, offset, limits, text)
  {
    hide U16, U32, CentralOf, IsRecord, CheckName, CheckType, Flags, Encrypted, RecordOk, Parse, NameOk, IsRegular,
      IsExecutable;
    CentralFields(m, offset);
    FlagBits(m);
    var b := CentralOf(m, offset);
    assert b[CENTRAL_LEN..CENTRAL_LEN + |m.raw|] == m.raw;
    RecordMeans(b, limits, text);
    NameMeans(m.raw, limits, text);
    TypeMeans(m.mode * 0x1_0000);
    NameDecodes(m.raw, limits, text);
  }

  lemma LocalIsRead(m: Member, offset: nat, limits: Limits, text: Text)
    requires Acceptable(m, limits, text)
    ensures Agrees(LocalOf(m), CentralRead(m, offset, limits, text))
  {
    hide U16, Flags, LocalHeader, NameOk, IsRegular, IsExecutable, SizesOk, Le32, SizeFields, Bit;
    LocalHeaderFields(m);
    FlagBits(m);
    if m.streamed {
      var d := LocalOf(m).descriptor;
      var sizes := SizeFields(m.crc32, |m.data|, m.uncompressed);
      assert d[4..16] == sizes && d[..4] == Le32(SIG_DESCRIPTOR);
      FieldsOfPart(d, 4, sizes);
      FieldsOfPart(d, 0, Le32(SIG_DESCRIPTOR));
      assert Sizes(sizes, 0) == Sizes(d, 4 + 0) && U32(Le32(SIG_DESCRIPTOR), 0) == U32(d, 0 + 0);
    }
  }

  function LocalsOf(members: seq<Member>): (locals: seq<LocalRecord>)
    requires forall k :: 0 <= k < |members| ==> Writable(members[k])
    ensures |locals| == |members| && forall k :: 0 <= k < |members| ==> locals[k] == LocalOf(members[k])
  {
    seq(|members|, k requires 0 <= k < |members| => LocalOf(members[k]))
  }

  function OffsetOf(members: seq<Member>, k: nat): nat
    requires k <= |members| && forall i :: 0 <= i < |members| ==> Writable(members[i])
  {
    |LocalBytes(LocalsOf(members)[..k])|
  }

  function CentralsOf(members: seq<Member>): (hs: seq<seq<Byte>>)
    requires forall k :: 0 <= k < |members| ==> Writable(members[k])
    requires OffsetOf(members, |members|) < U32_MAX
    ensures |hs| == |members|
    ensures forall k :: 0 <= k < |members| ==>
              OffsetOf(members, k) < U32_MAX && hs[k] == CentralOf(members[k], OffsetOf(members, k))
  {
    hide LocalBytes;
    assert forall k :: 0 <= k < |members| ==> OffsetOf(members, k) < U32_MAX by {
      forall k | 0 <= k < |members| ensures OffsetOf(members, k) < U32_MAX {
        LocalBytesMonotone(LocalsOf(members), k, |members|);
      }
    }
    seq(|members|, k requires 0 <= k < |members| => CentralOf(members[k], OffsetOf(members, k)))
  }

  function EndRecord(count: nat, cdSize: nat, cdOffset: nat): (b: seq<Byte>)
    requires count < U16_MAX && cdSize < U32_MAX && cdOffset < U32_MAX
    ensures EocdOk(b, count, cdSize, cdOffset)
  {
    hide Le16, Le32;
    Le32(SIG_EOCD) + Le16(0) + Le16(0) + Le16(count) + Le16(count) + Le32(cdSize) + Le32(cdOffset) + Le16(0)
  }

  /** A set of members that the writer can write, within the limits and with names that can be told apart. */
  ghost predicate Packable(members: seq<Member>, limits: Limits, text: Text) {
    && (forall k :: 0 <= k < |members| ==> Acceptable(members[k], limits, text))
    && |members| < U16_MAX && |members| <= limits.maxEntries
    && OffsetOf(members, |members|) < U32_MAX
    && |Concat(CentralsOf(members))| < U32_MAX
    && OffsetOf(members, |members|) + |Concat(CentralsOf(members))| + EOCD_LEN <= limits.packageBytes
    && TotalSize(members) <= limits.packageBytes
    && Folding.Compatible(MemberNames(members, text), text.fold)
  }

  /** The fields of the format hold the members. */
  predicate Fits(members: seq<Member>) {
    && (forall k :: 0 <= k < |members| ==> Writable(members[k]))
    && |members| < U16_MAX && OffsetOf(members, |members|) < U32_MAX && |Concat(CentralsOf(members))| < U32_MAX
  }

  function TotalSize(members: seq<Member>): nat {
    if members == [] then 0 else members[0].uncompressed + TotalSize(members[1..])
  }

  function MemberNames(members: seq<Member>, text: Text): (names: seq<string>)
    requires forall k :: 0 <= k < |members| ==> text.decode(members[k].raw).Some?
    ensures |names| == |members|
    ensures forall k :: 0 <= k < |members| ==> names[k] == NameOf(members[k], text)
  {
    seq(|members|, k requires 0 <= k < |members| => NameOf(members[k], text))
  }

  /** The writer: the members in order, the central records in the same order, the end record. */
  function Write(members: seq<Member>): Archive
    requires forall k :: 0 <= k < |members| ==> Writable(members[k])
    requires |members| < U16_MAX && OffsetOf(members, |members|) < U32_MAX
    requires |Concat(CentralsOf(members))| < U32_MAX
  {
    Archive(LocalsOf(members), CentralsOf(members), seq(|members|, k => k),
      EndRecord(|members|, |Concat(CentralsOf(members))|, OffsetOf(members, |members|)))
  }

  lemma {:induction false} DeclaredIsTotal(cs: seq<Central>, members: seq<Member>)
    requires |cs| == |members| && forall k :: 0 <= k < |cs| ==> cs[k].uncompressed == members[k].uncompressed
    ensures Declared(cs) == TotalSize(members)
  {
    if cs != [] { DeclaredIsTotal(cs[1..], members[1..]); }
  }

  /** Member `k`: writable, with an acceptable name, at an offset below the limit. */
  lemma MemberFacts(members: seq<Member>, k: nat, limits: Limits, text: Text)
    requires Packable(members, limits, text) && k < |members|
    ensures Acceptable(members[k], limits, text) && OffsetOf(members, k) < U32_MAX
    ensures CentralsOf(members)[k] == CentralOf(members[k], OffsetOf(members, k))
  {
    hide OffsetOf, CentralOf, Concat, TotalSize, Folding.Compatible;
  }

  lemma CentralsAreRead(members: seq<Member>, limits: Limits, text: Text)
    requires Packable(members, limits, text)
    ensures var hs := CentralsOf(members);
            && (forall i :: 0 <= i < |hs| ==> RecordOk(hs[i], limits, text))
            && |Parsed(hs, limits, text)| == |members|
            && (forall i :: 0 <= i < |hs| ==>
                  Parsed(hs, limits, text)[i] == CentralRead(members[i], OffsetOf(members, i), limits, text))
  {
    hide RecordOk, CentralOf, Folding.Compatible, Concat, OffsetOf, CentralRead, TotalSize, Parse, NameOk, IsRegular,
      IsExecutable, SizesOk;
    var hs := CentralsOf(members);
    forall i | 0 <= i < |hs|
      ensures RecordOk(hs[i], limits, text)
              && Parse(hs[i], limits, text) == CentralRead(members[i], OffsetOf(members, i), limits, text)
    {
      MemberFacts(members, i, limits, text);
      CentralIsRead(members[i], OffsetOf(members, i), limits, text);
    }
  }

  lemma WrittenIsPlaced(members: seq<Member>, cs: seq<Central>, limits: Limits, text: Text)
    requires Packable(members, limits, text) && |cs| == |members|
    requires forall i :: 0 <= i < |cs| ==>
               Acceptable(members[i], limits, text)
               && cs[i] == CentralRead(members[i], OffsetOf(members, i), limits, text)
    ensures Placed(Write(members).locals, cs, Write(members).place, 0)
    ensures IsPermutation(Write(members).place, |cs|)
  {
    hide CentralOf, Folding.Compatible, Concat, TotalSize, Agrees, EocdOk, LocalBytes, LocalOf, NameOk, IsRegular,
      IsExecutable, SizesOk, Writable, EndRecord;
    var a := Write(members);
    forall k | 0 <= k < |members| ensures Agrees(a.locals[k], cs[k]) && cs[k].offset == |LocalBytes(a.locals[..k])| {
      LocalIsRead(members[k], OffsetOf(members, k), limits, text);
    }
    forall i: nat | i < |members| ensures i in a.place {
      assert a.place[i] == i;
    }
  }

  lemma WrittenIsWellFormed(members: seq<Member>, limits: Limits, text: Text)
    requires Packable(members, limits, text)
    ensures WellFormed(Write(members), limits, text)
  {
    hide RecordOk, CentralOf, Folding.Compatible, Concat, TotalSize, Declared, EocdOk, LocalBytes, Placed,
      IsPermutation, LocalOf, Parse, SafeName, IsRegular, IsExecutable, SizesOk, Writable;
    var a := Write(members);
    CentralsAreRead(members, limits, text);
    var cs := Parsed(a.centrals, limits, text);
    WrittenIsPlaced(members, cs, limits, text);
    DeclaredIsTotal(cs, members);
    assert Names(cs) == MemberNames(members, text);
    assert LocalsOf(members)[..|members|] == LocalsOf(members);
    EocdFields(a.eocd, |members|, |Concat(a.centrals)|, |LocalBytes(a.locals)|);
  }

  /** Entry `k` of the written file is member `k`. */
  lemma EntryIsMember(members: seq<Member>, entries: seq<Entry>, k: nat, limits: Limits, text: Text)
    requires Packable(members, limits, text) && k < |members| && WellFormed(Write(members), limits, text)
    requires EntriesOf(entries, Write(members), limits, text)
    ensures |entries| == |members| && Acceptable(members[k], limits, text)
    ensures var m := members[k];
            entries[k] == Entry(NameOf(m, text), if m.deflate then Deflate else Stored, |m.data|,
                                m.uncompressed, m.crc32, IsExecutable(m.mode * 0x1_0000), entries[k].dataOffset)
  {
    hide WellFormed, CentralOf, Folding.Compatible, Concat, TotalSize, LocalBytes, LocalOf, Parse, SafeName,
      IsRegular, IsExecutable, SizesOk, Head, OffsetOf, RecordOk;
    CentralsAreRead(members, limits, text);
    MemberFacts(members, k, limits, text);
    assert CentralRead(members[k], OffsetOf(members, k), limits, text) == Parsed(CentralsOf(members), limits, text)[k];
  }

  /** Where the data of member `k` is in the written file. */
  lemma MemberData(members: seq<Member>, entries: seq<Entry>, k: nat, limits: Limits, text: Text)
    requires Packable(members, limits, text) && k < |members| && WellFormed(Write(members), limits, text)
    requires EntriesOf(entries, Write(members), limits, text)
    ensures k < |entries| && entries[k].dataOffset + entries[k].compressed <= |FileBytes(Write(members))|
    ensures FileBytes(Write(members))[entries[k].dataOffset..entries[k].dataOffset + entries[k].compressed]
            == members[k].data
  {
    hide WellFormed, EntriesOf, CentralOf, Folding.Compatible, Concat, TotalSize, LocalBytes, LocalHeader, OffsetOf,
      EndRecord, NameOk, IsRegular, IsExecutable, SizesOk;
    EntryData(Write(members), entries, k, limits, text);
  }

  /** Entry `k` is member `k`: name, method, sizes, checksum and exec bit, and the bytes at its data offset. */
  ghost predicate ReadBack(file: seq<Byte>, entry: Entry, m: Member, limits: Limits, text: Text) {
    && NameOk(m.raw, limits, text) && text.decode(m.raw) == Some(entry.name)
    && entry.compression == (if m.deflate then Deflate else Stored)
    && entry.compressed == |m.data| && entry.uncompressed == m.uncompressed && entry.crc32 == m.crc32
    && IsRegular(m.mode * 0x1_0000) && entry.exec == IsExecutable(m.mode * 0x1_0000)
    && entry.dataOffset + |m.data| <= |file|
    && file[entry.dataOffset..entry.dataOffset + |m.data|] == m.data
  }

  /** What is written is accepted, and read back in order. */
  lemma WriterRoundTrip(members: seq<Member>, limits: Limits, text: Text)
    requires Packable(members, limits, text)
    ensures Audit(FileBytes(Write(members)), limits, text).Ok?
    ensures var file := FileBytes(Write(members));
            var entries := Audit(file, limits, text).value;
            && |entries| == |members|
            && forall k :: 0 <= k < |members| ==> ReadBack(file, entries[k], members[k], limits, text)
  {
    hide WellFormed, FileBytes, Audit, EntriesOf, SafeName, IsRegular, IsExecutable, CentralOf, LocalOf, Concat,
      LocalBytes, TotalSize, Folding.Compatible, SizesOk, OffsetOf;
    var a := Write(members);
    WrittenIsWellFormed(members, limits, text);
    AuditComplete(a, limits, text);
    var entries := Audit(FileBytes(a), limits, text).value;
    EntryCount(a, entries, limits, text);
    forall k | 0 <= k < |members| ensures ReadBack(FileBytes(a), entries[k], members[k], limits, text) {
      EntryIsMember(members, entries, k, limits, text);
      MemberData(members, entries, k, limits, text);
    }
  }

  // ----- only what is packable is accepted ------------------------------------------------------------------------

  lemma RecordAccepts(m: Member, offset: nat, limits: Limits, text: Text)
    requires Writable(m) && offset < U32_MAX && RecordOk(CentralOf(m, offset), limits, text)
    ensures Acceptable(m, limits, text)
    ensures Parse(CentralOf(m, offset), limits, text) == CentralRead(m, offset, limits, text)
  {
    hide U16, U32, CentralOf, IsRecord, CheckName, CheckType, Flags, Encrypted, RecordOk, Parse, NameOk, IsRegular,
      IsExecutable;
    CentralFields(m, offset);
    FlagBits(m);
    var b := CentralOf(m, offset);
    assert b[CENTRAL_LEN..CENTRAL_LEN + |m.raw|] == m.raw;
    RecordMeans(b, limits, text);
    NameMeans(m.raw, limits, text);
    TypeMeans(m.mode * 0x1_0000);
    NameDecodes(m.raw, limits, text);
  }

  /** The central records of an accepted file are the ones that were written. */
  lemma AcceptedCentrals(members: seq<Member>, a: Archive, limits: Limits, text: Text)
    requires Fits(members) && WellFormed(a, limits, text) && FileBytes(a) == FileBytes(Write(members))
    ensures a.centrals == CentralsOf(members) && |LocalBytes(a.locals)| == OffsetOf(members, |members|)
  {
    hide RecordOk, Placed, Folding.Compatible, Declared, IsPermutation, LocalBytes, Concat, U16, U32, CentralOf,
      LocalOf, OffsetOf;
    var b, file := Write(members), FileBytes(a);
    assert |LocalBytes(b.locals)| == OffsetOf(members, |members|) by { AllLocals(members); }
    assert a.eocd == file[|file| - EOCD_LEN..] == b.eocd;
    EocdFields(a.eocd, |members|, |Concat(b.centrals)|, |LocalBytes(b.locals)|);
    var cdOffset := |LocalBytes(b.locals)|;
    assert file[cdOffset..|file| - EOCD_LEN] == Concat(a.centrals) == Concat(b.centrals);
    RecordsAreRecords(a, limits, text);
    forall i | 0 <= i < |b.centrals| ensures IsRecord(b.centrals[i]) {
      CentralFields(members[i], OffsetOf(members, i));
    }
    RecordsAreDelimited(a.centrals, b.centrals);
  }

  lemma AllLocals(members: seq<Member>)
    requires Fits(members)
    ensures |LocalBytes(Write(members).locals)| == OffsetOf(members, |members|)
  {
    hide LocalBytes, Concat, CentralOf, LocalOf;
    assert LocalsOf(members)[..|members|] == LocalsOf(members);
  }

  /** The audit accepts what is written exactly when it is packable. */
  lemma AcceptedIffPackable(members: seq<Member>, limits: Limits, text: Text)
    requires Fits(members)
    ensures Audit(FileBytes(Write(members)), limits, text).Ok? <==> Packable(members, limits, text)
  {
    hide Audit, WellFormed, FileBytes, Packable, LocalBytes, Concat, CentralOf, LocalOf, OffsetOf;
    if Packable(members, limits, text) {
      WriterRoundTrip(members, limits, text);
    } else if Audit(FileBytes(Write(members)), limits, text).Ok? {
      var a := AuditSound(FileBytes(Write(members)), limits, text);
      AcceptedCentrals(members, a, limits, text);
      AcceptedIsPackable(members, a, limits, text);
    }
  }

  lemma AcceptedIsPackable(members: seq<Member>, a: Archive, limits: Limits, text: Text)
    requires Fits(members) && WellFormed(a, limits, text)
    requires a.centrals == CentralsOf(members) && |LocalBytes(a.locals)| == OffsetOf(members, |members|)
    ensures Packable(members, limits, text)
  {
    hide RecordOk, CentralOf, Folding.Compatible, Concat, TotalSize, Declared, LocalBytes, Placed, OffsetOf, Parse,
      IsPermutation, LocalOf, NameOk, IsRegular, IsExecutable, SizesOk, Writable, Acceptable, CentralRead;
    var cs := Parsed(a.centrals, limits, text);
    forall k | 0 <= k < |members|
      ensures Acceptable(members[k], limits, text)
      ensures cs[k] == CentralRead(members[k], OffsetOf(members, k), limits, text)
    {
      RecordAccepts(members[k], OffsetOf(members, k), limits, text);
    }
    ReadNames(members, cs, limits, text);
    DeclaredIsTotal(cs, members);
  }

  lemma ReadNames(members: seq<Member>, cs: seq<Central>, limits: Limits, text: Text)
    requires |cs| == |members| && Fits(members)
    requires forall k :: 0 <= k < |members| ==>
               Acceptable(members[k], limits, text)
               && cs[k] == CentralRead(members[k], OffsetOf(members, k), limits, text)
    ensures forall k :: 0 <= k < |members| ==> text.decode(members[k].raw).Some?
    ensures Names(cs) == MemberNames(members, text)
    ensures forall k :: 0 <= k < |cs| ==> cs[k].uncompressed == members[k].uncompressed
  {
    hide SafeName, IsRegular, IsExecutable, SizesOk, Writable, OffsetOf, CentralOf, Concat;
  }
}
