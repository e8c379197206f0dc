/** Packing as a whole: a package is written as an archive that the audit reads back; when that succeeds, and that the
    verifier then accepts what was packed. */
module PackedArchive {
  import opened Bytes
  import opened Options
  import Folding
  import Package
  import ZipAudit
  import ZipLayout
  import ZipRules
  import ZipWriter

  /** Library behaviour on bytes: the UTF-8 form of a name, deflate and its inverse, the checksum. */
  datatype Codec = Codec(
    encode: string -> seq<Byte>, deflate: seq<Byte> -> seq<Byte>, inflate: seq<Byte> -> Option<seq<Byte>>,
    crc: seq<Byte> -> nat)

  ghost predicate Faithful(codec: Codec, text: ZipAudit.Text) {
    && (forall name :: text.decode(codec.encode(name)) == Some(name))
    && (forall bytes :: codec.inflate(codec.deflate(bytes)) == Some(bytes))
  }

  /** Three bytes a character. */
  function Encoded(s: string): seq<Byte> {
    if s == [] then []
    else
      var c := s[0] as int;
      [c / 0x1_0000, c / 0x100 % 0x100, c % 0x100] + Encoded(s[1..])
  }

  function CodeOf(a: Byte, b: Byte, c: Byte): nat {
    a as int * 0x1_0000 + b as int * 0x100 + c as int
  }

  function Decoded(b: seq<Byte>): Option<string> {
    if b == [] then Some([])
    else if |b| < 3 then None
    else
      var c := CodeOf(b[0], b[1], b[2]);
      var rest := Decoded(b[3..]);
      if rest.None? || 0xD800 <= c < 0xE000 || c >= 0x11_0000 then None else Some([c as char] + rest.value)
  }

  lemma {:induction false} EncodedIsDecoded(s: string)
    ensures Decoded(Encoded(s)) == Some(s)
  {
    if s != [] {
      EncodedIsDecoded(s[1..]);
      CharIsDecoded(s[0], Encoded(s[1..]));
      assert s == [s[0]] + s[1..];
    }
  }

  lemma CharIsDecoded(c: char, rest: seq<Byte>)
    requires Decoded(rest).Some?
    ensures var code := c as int;
            Decoded([code / 0x1_0000, code / 0x100 % 0x100, code % 0x100] + rest) == Some([c] + Decoded(rest).value)
  {
    hide CodeOf;
    var code := c as int;
    var b: seq<Byte> := [code / 0x1_0000, code / 0x100 % 0x100, code % 0x100] + rest;
    ThreeBytes(code);
    assert b[3..] == rest;
  }

  lemma ThreeBytes(c: nat)
    requires c < 0x11_0000
    ensures CodeOf(c / 0x1_0000, c / 0x100 % 0x100, c % 0x100) == c
  {
    assert c / 0x100 / 0x100 == c / 0x1_0000;
  }

  /** There are faithful codecs. */
  lemma SomeCodecIsFaithful()
    ensures Faithful(Codec(Encoded, bytes => bytes, bytes => Some(bytes), bytes => 0),
                     ZipAudit.Text(Decoded, name => true, name => name))
  {
    forall name ensures Decoded(Encoded(name)) == Some(name) { EncodedIsDecoded(name); }
  }

  // ----- writing --------------------------------------------------------------------------------------------------

  const FILE_MODE: nat := 0x81A4
  const EXEC_MODE: nat := 0x81ED

  /** A file of the archive: deflated, with Unix mode 0644 or 0755. */
  function MemberOf(e: Package.Entry, codec: Codec): ZipWriter.Member {
    ZipWriter.Member(codec.encode(e.name), true, codec.crc(e.bytes), codec.deflate(e.bytes), |e.bytes|,
      if e.exec then EXEC_MODE else FILE_MODE, false)
  }

  function MembersOf(entries: seq<Package.Entry>, codec: Codec): (members: seq<ZipWriter.Member>)
    ensures |members| == |entries| && forall i :: 0 <= i < |entries| ==> members[i] == MemberOf(entries[i], codec)
  {
    seq(|entries|, i requires 0 <= i < |entries| => MemberOf(entries[i], codec))
  }

  /** The mode of a written file is read as a regular file with that exec bit. */
  lemma ModeIsRead(exec: bool)
    ensures var mode := if exec then EXEC_MODE else FILE_MODE;
            ZipRules.IsRegular(mode * 0x1_0000) && ZipRules.IsExecutable(mode * 0x1_0000) == exec
  {
  }

  /** The file that is written. */
  function Written(members: seq<ZipWriter.Member>): seq<Byte>
    requires ZipWriter.Fits(members)
  {
    ZipLayout.FileBytes(ZipWriter.Write(members))
  }

  lemma WrittenIsAccepted(members: seq<ZipWriter.Member>, limits: ZipAudit.Limits, text: ZipAudit.Text)
    requires ZipWriter.Fits(members)
    ensures ZipAudit.Audit(Written(members), limits, text).Ok? <==> ZipWriter.Packable(members, limits, text)
  {
    hide ZipWriter.Packable, ZipAudit.Audit, ZipWriter.Fits, ZipLayout.FileBytes;
    ZipWriter.AcceptedIffPackable(members, limits, text);
  }

  lemma PackableFits(members: seq<ZipWriter.Member>, limits: ZipAudit.Limits, text: ZipAudit.Text)
    requires ZipWriter.Packable(members, limits, text)
    ensures ZipWriter.Fits(members)
  {
    hide ZipWriter.OffsetOf, ZipWriter.TotalSize, Folding.Compatible;
  }

  /** `checked_zip`: the entries are written, and handed out if the audit accepts them. */
  method CheckedZip(entries: seq<Package.Entry>, codec: Codec, limits: ZipAudit.Limits, text: ZipAudit.Text)
    returns (r: Option<seq<Byte>>)
    ensures r.Some? <==> ZipWriter.Packable(MembersOf(entries, codec), limits, text)
    ensures r.Some? ==> ZipWriter.Fits(MembersOf(entries, codec)) && r.value == Written(MembersOf(entries, codec))
  {
    hide ZipWriter.Packable, ZipWriter.Fits, ZipAudit.Audit, MembersOf, Written;
    var members := MembersOf(entries, codec);
    if !ZipWriter.Fits(members) {
      if ZipWriter.Packable(members, limits, text) { PackableFits(members, limits, text); }
      return None;
    }
    var file := Written(members);
    var audited := ZipAudit.AuditZip(file, limits, text);
    WrittenIsAccepted(members, limits, text);
    return if audited.Ok? then Some(file) else None;
  }

  // ----- reading --------------------------------------------------------------------------------------------------

  /** The bytes of an entry, inflated, with the size and the checksum it declares. */
  function Unpacked(file: seq<Byte>, e: ZipAudit.Entry, codec: Codec): Option<Package.Entry> {
    if e.dataOffset + e.compressed > |file| then None
    else
      var data := file[e.dataOffset..e.dataOffset + e.compressed];
      var bytes := if e.compression == ZipAudit.Deflate then codec.inflate(data) else Some(data);
      if bytes.None? || |bytes.value| != e.uncompressed || codec.crc(bytes.value) != e.crc32 then None
      else Some(Package.Entry(e.name, bytes.value, e.exec))
  }

  function AllUnpacked(file: seq<Byte>, found: seq<ZipAudit.Entry>, codec: Codec): Option<seq<Package.Entry>> {
    if found == [] then Some([])
    else
      var init, last := AllUnpacked(file, found[..|found| - 1], codec), Unpacked(file, found[|found| - 1], codec);
      if init.None? || last.None? then None else Some(init.value + [last.value])
  }

  /** An entry is read if and only if its bytes lie in the file, are the data of the entry, inflated where they were
      deflated, and have the declared length and checksum. */
  lemma UnpackedMeans(file: seq<Byte>, e: ZipAudit.Entry, codec: Codec, bytes: seq<Byte>)
    ensures Unpacked(file, e, codec) == Some(Package.Entry(e.name, bytes, e.exec)) <==>
              && e.dataOffset + e.compressed <= |file|
              && |bytes| == e.uncompressed && codec.crc(bytes) == e.crc32
              && match e.compression
                 case Stored => bytes == file[e.dataOffset..e.dataOffset + e.compressed]
                 case Deflate => codec.inflate(file[e.dataOffset..e.dataOffset + e.compressed]) == Some(bytes)
    ensures Unpacked(file, e, codec).Some? ==>
              Unpacked(file, e, codec).value.name == e.name && Unpacked(file, e, codec).value.exec == e.exec
  {
  }

  /** All entries are read exactly when each is, in order. */
  lemma {:induction false} AllUnpackedMeans(file: seq<Byte>, found: seq<ZipAudit.Entry>, codec: Codec,
                                            entries: seq<Package.Entry>)
    ensures AllUnpacked(file, found, codec) == Some(entries) <==>
              && |entries| == |found|
              && forall i :: 0 <= i < |found| ==> Unpacked(file, found[i], codec) == Some(entries[i])
  {
    hide Unpacked;
    if found == [] {
    } else if entries == [] {
      assert AllUnpacked(file, found, codec) != Some([]);
    } else {
      AllUnpackedMeans(file, found[..|found| - 1], codec, entries[..|entries| - 1]);
      assert entries == entries[..|entries| - 1] + [entries[|entries| - 1]];
    }
  }

  /** The entries of an archive, read one after another. */
  method UnpackAll(file: seq<Byte>, found: seq<ZipAudit.Entry>, codec: Codec) returns (r: Option<seq<Package.Entry>>)
    ensures r == AllUnpacked(file, found, codec)
  {
    hide Unpacked;
    var unpacked: seq<Package.Entry> := [];
    var i := 0;
    while i < |found|
      invariant i <= |found| && AllUnpacked(file, found[..i], codec) == Some(unpacked)
    {
      assert found[..i + 1][..i] == found[..i];
      var e := Unpacked(file, found[i], codec);
      if e.None? {
        NotUnpacked(file, found, codec, i + 1);
        return None;
      }
      unpacked := unpacked + [e.value];
      i := i + 1;
    }
    assert found[..i] == found;
    return Some(unpacked);
  }

  lemma {:induction false} NotUnpacked(file: seq<Byte>, found: seq<ZipAudit.Entry>, codec: Codec, i: nat)
    requires i <= |found| && AllUnpacked(file, found[..i], codec).None?
    ensures AllUnpacked(file, found, codec).None?
    decreases |found| - i
  {
    hide Unpacked;
    if i == |found| {
      assert found[..i] == found;
    } else {
      assert found[..i + 1][..i] == found[..i];
      NotUnpacked(file, found, codec, i + 1);
    }
  }

  lemma {:induction false} UnpackedEach(file: seq<Byte>, found: seq<ZipAudit.Entry>, codec: Codec,
                                        entries: seq<Package.Entry>)
    requires |found| == |entries|
    requires forall i :: 0 <= i < |found| ==> Unpacked(file, found[i], codec) == Some(entries[i])
    ensures AllUnpacked(file, found, codec) == Some(entries)
  {
    hide Unpacked;
    if found != [] {
      UnpackedEach(file, found[..|found| - 1], codec, entries[..|entries| - 1]);
      assert entries == entries[..|entries| - 1] + [entries[|entries| - 1]];
    }
  }

  // ----- verifying ------------------------------------------------------------------------------------------------

  /** The manifest found by its place in the root, if it parses. */
  function ManifestIn(entries: seq<Package.Entry>, format: Package.Format): Option<Package.Manifest> {
    var l := Package.PlaceAll(entries);
    if l.None? || l.value.manifest.None? then None else format.parse(l.value.manifest.value.bytes)
  }

  /** The checks on the entries of an archive: layout, manifest, file set, digests, exec bits and, for a signed package,
      the script set. */
  ghost predicate Consistent(entries: seq<Package.Entry>, hash: seq<Byte> -> string, format: Package.Format) {
    && ManifestIn(entries, format).Some?
    && var l, m := Package.PlaceAll(entries).value, ManifestIn(entries, format).value;
    && Package.Names(l.payload) == m.files.Keys
    && (forall i :: 0 <= i < |l.payload| ==> Package.EntryAgrees(l.payload[i], m, hash))
    && (l.signature.Some? ==> ListsScripts(entries, format))
  }

  /** The manifest lists the scripts that are derived from the payload. */
  ghost predicate ListsScripts(entries: seq<Package.Entry>, format: Package.Format)
    requires ManifestIn(entries, format).Some?
  {
    Package.Derived(Package.PlaceAll(entries).value.payload) == Package.Declared(ManifestIn(entries, format).value)
  }

  method CheckEntries(entries: seq<Package.Entry>, hash: seq<Byte> -> string, format: Package.Format)
    returns (r: Package.Result<bool>)
    ensures r.Ok? <==> Consistent(entries, hash, format)
    ensures r.Ok? ==> (r.value <==> ListsScripts(entries, format))
  {
    hide Package.PlaceAll, Package.IsScript;
    var l := Package.CheckLayout(entries);
    if l.Refused? {
      return Package.Refused(l.why);
    }
    var m := format.parse(l.value.manifest.value.bytes);
    if m.None? {
      return Package.Refused(Package.PackageInvalid);
    }
    r := Package.CheckPayload(l.value.payload, m.value, hash, l.value.signature.Some?);
  }

  /** The verifier on a file: it passes exactly when the audit accepts the file, every entry inflates to its size and
      checksum, and the entries are consistent. */
  method Inspect(file: seq<Byte>, codec: Codec, limits: ZipAudit.Limits, text: ZipAudit.Text, hash: seq<Byte> -> string,
                 format: Package.Format) returns (r: Package.Result<bool>)
    ensures r.Ok? <==>
              && ZipAudit.Audit(file, limits, text).Ok?
              && var entries := AllUnpacked(file, ZipAudit.Audit(file, limits, text).value, codec);
              entries.Some? && Consistent(entries.value, hash, format)
    ensures r.Ok? ==>
              var entries := AllUnpacked(file, ZipAudit.Audit(file, limits, text).value, codec).value;
              r.value <==> ListsScripts(entries, format)
  {
    hide ZipAudit.Audit, AllUnpacked, Consistent, ListsScripts;
    var audited := ZipAudit.AuditZip(file, limits, text);
    if audited.Refused? {
      return Package.Refused(Package.PackageInvalid);
    }
    var unpacked := UnpackAll(file, audited.value, codec);
    if unpacked.None? {
      return Package.Refused(Package.DigestMismatch);
    }
    r := CheckEntries(unpacked.value, hash, format);
  }

  // ----- packing --------------------------------------------------------------------------------------------------

  /** The files can be packed: no path appears twice, the manifest parses, and the archive of the entries passes the
      audit: every name is safe, no two can be confused, and the sizes are within the limits. */
  ghost predicate CanPack(files: seq<Package.PayloadFile>, signature: Option<seq<Byte>>, hash: seq<Byte> -> string,
                          format: Package.Format, codec: Codec, limits: ZipAudit.Limits, text: ZipAudit.Text)
  {
    var sorted := Package.SortFiles(files);
    var raw := format.write(Package.ManifestOf(sorted, hash));
    && !Package.Repeats(files)
    && format.parse(raw).Some?
    && ZipWriter.Packable(MembersOf(Package.EntriesOf(sorted, raw, signature), codec), limits, text)
  }

  /** `pack_files`: prepare, lay out, write, audit. */
  method PackFiles(files: seq<Package.PayloadFile>, signature: Option<seq<Byte>>, hash: seq<Byte> -> string,
                   format: Package.Format, codec: Codec, limits: ZipAudit.Limits, text: ZipAudit.Text)
    returns (r: Option<seq<Byte>>)
    ensures r.Some? <==> CanPack(files, signature, hash, format, codec, limits, text)
    ensures r.Some? ==>
              var sorted := Package.SortFiles(files);
              var members :=
                MembersOf(Package.EntriesOf(sorted, format.write(Package.ManifestOf(sorted, hash)), signature), codec);
              ZipWriter.Fits(members) && r.value == Written(members)
  {
    hide ZipWriter.Packable, ZipWriter.Fits, MembersOf, Written, Package.SortFiles, Package.Repeats, Package.FileTable,
      Package.ScriptList, Package.EntriesOf;
    var prepared := Package.Prepare(files, hash, format);
    if prepared.Refused? {
      return None;
    }
    var p := prepared.value;
    r := CheckedZip(Package.EntriesOf(p.files, p.raw, signature), codec, limits, text);
  }

  /** What the writer wrote of the entries is what the reader finds. */
  lemma WrittenIsUnpacked(entries: seq<Package.Entry>, codec: Codec, limits: ZipAudit.Limits, text: ZipAudit.Text)
    requires Faithful(codec, text) && ZipWriter.Packable(MembersOf(entries, codec), limits, text)
    ensures ZipWriter.Fits(MembersOf(entries, codec))
    ensures var file := Written(MembersOf(entries, codec));
            && ZipAudit.Audit(file, limits, text).Ok?
            && AllUnpacked(file, ZipAudit.Audit(file, limits, text).value, codec) == Some(entries)
  {
    hide ZipWriter.Packable, ZipWriter.Fits, ZipAudit.Audit, Unpacked, AllUnpacked, ZipLayout.FileBytes,
      ZipWriter.ReadBack, ZipWriter.Write, Faithful;
    var members := MembersOf(entries, codec);
    PackableFits(members, limits, text);
    ZipWriter.WriterRoundTrip(members, limits, text);
    var file := Written(members);
    var found := ZipAudit.Audit(file, limits, text).value;
    forall i | 0 <= i < |found| ensures Unpacked(file, found[i], codec) == Some(entries[i]) {
      ReadIsUnpacked(file, found[i], entries[i], codec, limits, text);
    }
    UnpackedEach(file, found, codec, entries);
  }

  lemma ReadIsUnpacked(file: seq<Byte>, found: ZipAudit.Entry, e: Package.Entry, codec: Codec, limits: ZipAudit.Limits,
                       text: ZipAudit.Text)
    requires Faithful(codec, text) && ZipWriter.ReadBack(file, found, MemberOf(e, codec), limits, text)
    ensures Unpacked(file, found, codec) == Some(e)
  {
    hide ZipRules.IsRegular, ZipRules.IsExecutable, ZipRules.NameOk;
    ModeIsRead(e.exec);
    NameIsRead(codec.encode(e.name), limits, text);
  }

  /** A name that passes is the decoded one, and does not end with a slash. */
  lemma NameIsRead(raw: seq<Byte>, limits: ZipAudit.Limits, text: ZipAudit.Text)
    ensures ZipRules.NameOk(raw, limits, text) ==>
              text.decode(raw).Some? && text.decode(raw).value != []
              && text.decode(raw).value[|text.decode(raw).value| - 1] != '/'
  {
    if ZipRules.NameOk(raw, limits, text) {
      ZipRules.EndPieces(text.decode(raw).value);
    }
  }

  /** Packable entries have safe names that can be told apart. */
  lemma PackableNames(entries: seq<Package.Entry>, codec: Codec, limits: ZipAudit.Limits, text: ZipAudit.Text)
    requires Faithful(codec, text) && ZipWriter.Packable(MembersOf(entries, codec), limits, text)
    ensures forall i :: 0 <= i < |entries| ==> entries[i].name != [] && entries[i].name[|entries[i].name| - 1] != '/'
    ensures Folding.Compatible(NamesOf(entries), text.fold)
  {
    hide ZipRules.NameOk, ZipRules.IsRegular, ZipRules.SizesOk, ZipWriter.OffsetOf, ZipWriter.TotalSize,
      ZipWriter.Writable, Folding.Compatible, Faithful;
    var members := MembersOf(entries, codec);
    forall i | 0 <= i < |entries|
      ensures text.decode(members[i].raw) == Some(entries[i].name)
      ensures entries[i].name != [] && entries[i].name[|entries[i].name| - 1] != '/'
    {
      assert ZipWriter.Acceptable(members[i], limits, text);
      NameIsRead(members[i].raw, limits, text);
      NameDecodes(codec, text, entries[i].name);
    }
    assert ZipWriter.MemberNames(members, text) == NamesOf(entries);
  }

  lemma NameDecodes(codec: Codec, text: ZipAudit.Text, name: string)
    requires Faithful(codec, text)
    ensures text.decode(codec.encode(name)) == Some(name)
  {
  }

  function NamesOf(entries: seq<Package.Entry>): (names: seq<string>)
    ensures |names| == |entries| && forall i :: 0 <= i < |entries| ==> names[i] == entries[i].name
  {
    seq(|entries|, i requires 0 <= i < |entries| => entries[i].name)
  }

  /** What can be packed has no empty path, and no two files whose paths fold equal. */
  lemma PackedPaths(files: seq<Package.PayloadFile>, signature: Option<seq<Byte>>, hash: seq<Byte> -> string,
                    format: Package.Format, codec: Codec, limits: ZipAudit.Limits, text: ZipAudit.Text)
    requires Faithful(codec, text) && CanPack(files, signature, hash, format, codec, limits, text)
    ensures var sorted := Package.SortFiles(files);
            && (forall i :: 0 <= i < |sorted| ==> sorted[i].rel != [])
            && (forall i, j :: 0 <= i < j < |sorted| ==>
                  text.fold(Package.PathOf(sorted[i])) != text.fold(Package.PathOf(sorted[j])))
  {
    hide ZipWriter.Packable, Package.SortFiles, Package.Repeats, Package.FileTable, Package.ScriptList, Faithful;
    var sorted := Package.SortFiles(files);
    var raw := format.write(Package.ManifestOf(sorted, hash));
    var entries := Package.EntriesOf(sorted, raw, signature);
    PackableNames(entries, codec, limits, text);
    var names, first := NamesOf(entries), if signature.Some? then 2 else 1;
    forall i | 0 <= i < |sorted| ensures names[first + i] == Package.PathOf(sorted[i]) && sorted[i].rel != [] {
      assert entries[first + i] == Package.AsEntries(sorted)[i];
      LastOfPath(sorted[i]);
    }
  }

  lemma LastOfPath(f: Package.PayloadFile)
    ensures var path := Package.PathOf(f); path != [] && (path[|path| - 1] == '/' || f.rel != [])
  {
  }

  /** What was packed is consistent, its scripts listed. */
  lemma PackedIsConsistent(files: seq<Package.PayloadFile>, raw: seq<Byte>, signature: Option<seq<Byte>>,
                           hash: seq<Byte> -> string, format: Package.Format)
    requires !Package.Repeats(files) && forall i :: 0 <= i < |files| ==> files[i].rel != []
    requires format.parse(raw) == Some(Package.ManifestOf(files, hash))
    ensures var entries := Package.EntriesOf(files, raw, signature);
            Consistent(entries, hash, format) && ListsScripts(entries, format)
  {
    hide Package.PlaceAll, Package.EntriesOf, Package.IsScript, Package.FileTable, Package.ScriptList, Package.Repeats;
    Package.PayloadIsPlaced(files, raw, signature);
    Package.PackedVerifies(files, hash);
  }

  /** Packing and then inspecting: an archive is handed out exactly when the files can be packed, and then the verifier
      passes it, with the scripts listed. */
  method PackAndInspect(files: seq<Package.PayloadFile>, signature: Option<seq<Byte>>, hash: seq<Byte> -> string,
                        format: Package.Format, codec: Codec, limits: ZipAudit.Limits, text: ZipAudit.Text)
    returns (packed: Option<seq<Byte>>, verdict: Package.Result<bool>)
    requires Faithful(codec, text)
    requires forall m :: format.parse(format.write(m)).Some? ==> format.parse(format.write(m)).value == m
    ensures packed.Some? <==> CanPack(files, signature, hash, format, codec, limits, text)
    ensures packed.Some? ==> verdict == Package.Ok(true)
  {
    hide ZipWriter.Packable, ZipWriter.Fits, ZipAudit.Audit, MembersOf, Written, AllUnpacked, Consistent, ListsScripts,
      Package.SortFiles, Package.Repeats, Package.FileTable, Package.ScriptList, Package.EntriesOf, Faithful;
    packed := PackFiles(files, signature, hash, format, codec, limits, text);
    if packed.None? {
      return None, Package.Refused(Package.PackageInvalid);
    }
    ghost var sorted := Package.SortFiles(files);
    ghost var raw := format.write(Package.ManifestOf(sorted, hash));
    ghost var entries := Package.EntriesOf(sorted, raw, signature);
    Package.RepeatsOfSame(files, sorted);
    PackedPaths(files, signature, hash, format, codec, limits, text);
    WrittenIsUnpacked(entries, codec, limits, text);
    PackedIsConsistent(sorted, raw, signature, hash, format);
    verdict := Inspect(packed.value, codec, limits, text, hash, format);
  }
}
