/** The strict ZIP audit: it reads the end-of-central-directory record, the central directory and every local header
    itself, and accepts a file only when each byte has its place in the layout of APPNOTE.TXT sections 4.3.7, 4.3.9,
    4.3.12 and 4.3.16. The file is a byte sequence; UTF-8 decoding, NFC and case folding are parameters. */
module ZipAudit {
  import opened Bytes
  import Folding
  import opened Texts
  import opened Options

  const SIG_LOCAL: nat := 0x0403_4b50
  const SIG_CENTRAL: nat := 0x0201_4b50
  const SIG_EOCD: nat := 0x0605_4b50
  const SIG_DESCRIPTOR: nat := 0x0807_4b50
  const LOCAL_LEN: nat := 30
  const CENTRAL_LEN: nat := 46
  const EOCD_LEN: nat := 22
  const EXTRA_ZIP64: nat := 0x0001
  const EXTRA_UNICODE_PATH: nat := 0x7075
  const EXTRA_UNICODE_COMMENT: nat := 0x6375

  datatype Limits = Limits(
    packageBytes: nat, entryBytes: nat, maxEntries: nat, maxRatio: nat, maxSegments: nat, maxNameBytes: nat)

  /** Library behaviour on text: UTF-8 decoding, the NFC test and the fold of the collision index. */
  datatype Text = Text(decode: seq<Byte> -> Option<string>, nfc: string -> bool, fold: string -> string)

  datatype Reason = Unsupported | UnsafeEntry | TooLarge
  datatype Result<T> = Ok(value: T) | Refused(reason: Reason)

  datatype Method = Stored | Deflate

  datatype Entry = Entry(
    name: string, compression: Method, compressed: nat, uncompressed: nat, crc32: nat, exec: bool, dataOffset: nat)

  /** A central-directory entry as parsed, before its local header is checked. */
  datatype Central = Central(
    name: string, raw: seq<Byte>, flags: nat, compression: nat, crc32: nat, compressed: nat, uncompressed: nat,
    exec: bool, offset: nat)

  // ----- names and types ------------------------------------------------------------------------------------------

  function TrimEnd(s: string, c: char): string {
    if s != [] && s[|s| - 1] == c then TrimEnd(s[..|s| - 1], c) else s
  }

  predicate IsReservedDevice(segment: string) {
    var stem := Lower(TrimEnd(Split(segment, '.')[0], ' '));
    || stem in ["con", "prn", "aux", "nul"]
    || (|stem| == 4 && stem[..3] in ["com", "lpt"] && ('1' <= stem[3] <= '9' || stem[3] in "\U{b9}\U{b2}\U{b3}"))
  }

  predicate IsBidiControl(c: char) {
    || c in "\U{200e}\U{200f}" || '\U{202a}' <= c <= '\U{202e}' || '\U{2066}' <= c <= '\U{2069}'
  }

  predicate SafeSegment(segment: string) {
    && segment != [] && segment != "." && segment != ".."
    && segment[|segment| - 1] != '.' && segment[|segment| - 1] != ' '
    && !IsReservedDevice(segment)
  }

  /** `check_name`; every refusal has the same reason. */
  function CheckName(raw: seq<Byte>, limits: Limits, text: Text): Option<string> {
    var decoded := text.decode(raw);
    if decoded.None? then None
    else
      var name := decoded.value;
      var segments := Split(name, '/');
      if && name != []
         && |raw| <= limits.maxNameBytes
         && name[|name| - 1] != '/' && name[0] != '/'
         && (forall c :: c in name ==> c != '\\' && !IsControl(c) && !IsBidiControl(c) && c !in ":<>\"|?*")
         && text.nfc(name)
         && |segments| <= limits.maxSegments
         && (forall segment :: segment in segments ==> SafeSegment(segment))
      then Some(name) else None
  }

  /** The exec bit of a regular file; `None` for every other type. */
  function CheckType(external: nat): Option<bool> {
    var mode := external / 0x1_0000;
    var kind := mode / 0x1000 % 0x10;
    if Bit(external, 4) then None
    else if kind == 0 || kind == 8 then Some(Bit(mode, 0) || Bit(mode, 3) || Bit(mode, 6))
    else None
  }

  predicate IsForbidden(id: nat) {
    id == EXTRA_ZIP64 || id == EXTRA_UNICODE_PATH || id == EXTRA_UNICODE_COMMENT
  }

  predicate ForbiddenExtra(extra: seq<Byte>) {
    if |extra| < 4 then false
    else
      var id, len := U16(extra, 0), U16(extra, 2);
      if IsForbidden(id) then true
      else if 4 + len <= |extra| then ForbiddenExtra(extra[4 + len..])
      else false
  }

  /** Field heads of the block, each where the one before it ends, the first at `start`. */
  predicate FieldHeads(extra: seq<Byte>, start: nat, heads: seq<nat>) {
    && heads != [] && heads[0] == start
    && (forall i :: 0 <= i < |heads| ==> heads[i] + 4 <= |extra|)
    && (forall i :: 0 < i < |heads| ==> IsNextHead(extra, heads[i - 1], heads[i]))
  }

  predicate IsNextHead(extra: seq<Byte>, at: nat, next: nat) {
    at + 4 <= |extra| && next == at + 4 + U16(extra, at + 2)
  }

  /** A forbidden id stands at a field head reached from `start`. */
  ghost predicate ForbiddenField(extra: seq<Byte>, start: nat) {
    exists heads :: FieldHeads(extra, start, heads) && Overrides(U16(extra, heads[|heads| - 1]))
  }

  /** ZIP64 sizes, a Unicode path or a Unicode comment (sections 4.5.3, 4.6.9 and 4.6.8 of APPNOTE.TXT). */
  predicate Overrides(id: nat) {
    id == 0x0001 || id == 0x7075 || id == 0x6375
  }

  /** What the scan computes: whether some field head reached from the start of the block has a forbidden id, be the
      field itself whole or cut off by the end of the block. */
  lemma ForbiddenExtraMeans(extra: seq<Byte>)
    ensures ForbiddenExtra(extra) <==> ForbiddenField(extra, 0)
  {
    assert extra[0..] == extra;
    ForbiddenFrom(extra, 0);
  }

  lemma {:induction false} ForbiddenFrom(extra: seq<Byte>, p: nat)
    requires p <= |extra|
    ensures ForbiddenExtra(extra[p..]) <==> ForbiddenField(extra, p)
    decreases |extra| - p
  {
    hide U16;
    if p + 4 <= |extra| {
      HeadsMove(extra, p);
      var next := p + 4 + U16(extra, p + 2);
      if IsForbidden(U16(extra, p)) {
        assert FieldHeads(extra, p, [p]);
      } else {
        NextField(extra, p);
        if next <= |extra| {
          assert extra[p..][4 + U16(extra, p + 2)..] == extra[next..];
          ForbiddenFrom(extra, next);
        }
      }
    }
  }

  lemma HeadsMove(extra: seq<Byte>, p: nat)
    requires p + 4 <= |extra|
    ensures U16(extra[p..], 0) == U16(extra, p) && U16(extra[p..], 2) == U16(extra, p + 2)
  {
  }

  /** A forbidden field after an allowed one is reached from the next head. */
  lemma NextField(extra: seq<Byte>, p: nat)
    requires p + 4 <= |extra| && !IsForbidden(U16(extra, p))
    ensures ForbiddenField(extra, p) <==> ForbiddenField(extra, p + 4 + U16(extra, p + 2))
  {
    hide U16;
    var next := p + 4 + U16(extra, p + 2);
    if heads :| FieldHeads(extra, p, heads) && Overrides(U16(extra, heads[|heads| - 1])) {
      assert IsNextHead(extra, heads[0], heads[1]);
      assert FieldHeads(extra, next, heads[1..]) by {
        forall i | 0 < i < |heads[1..]| ensures IsNextHead(extra, heads[1..][i - 1], heads[1..][i]) {
          assert IsNextHead(extra, heads[i], heads[i + 1]);
        }
      }
    }
    if heads :| FieldHeads(extra, next, heads) && Overrides(U16(extra, heads[|heads| - 1])) {
      var all := [p] + heads;
      assert IsNextHead(extra, p, next);
      forall i | 0 < i < |all| ensures IsNextHead(extra, all[i - 1], all[i]) {
        if i > 1 { assert IsNextHead(extra, heads[i - 2], heads[i - 1]); }
      }
      assert FieldHeads(extra, p, all);
    }
  }

  /** The scan of one extra field block. */
  method ScanExtra(block: seq<Byte>) returns (forbidden: bool)
    ensures forbidden == ForbiddenExtra(block)
  {
    var extra := block;
    while |extra| >= 4
      invariant ForbiddenExtra(extra) == ForbiddenExtra(block)
      decreases |extra|
    {
      var id, len := U16(extra, 0), U16(extra, 2);
      if IsForbidden(id) {
        return true;
      }
      var skip := if 4 + len <= |extra| then 4 + len else |extra|;
      extra := extra[skip..];
    }
    return false;
  }

  // ----- the central directory ------------------------------------------------------------------------------------

  predicate Encrypted(flags: nat) {
    Bit(flags, 0) || Bit(flags, 6) || Bit(flags, 13)
  }

  /** Where the scan of the central directory stands. */
  datatype Scan = Scan(p: nat, centrals: seq<Central>, index: Folding.Index, declared: nat)

  /** A central record: 46 bytes, and as many more as its three length fields say. */
  predicate IsRecord(h: seq<Byte>) {
    && |h| >= CENTRAL_LEN
    && U32(h, 0) == SIG_CENTRAL
    && |h| == CENTRAL_LEN + U16(h, 28) + U16(h, 30) + U16(h, 32)
  }

  /** The record at `p`, if its fixed part and its three variable parts fit. */
  function RecordAt(cd: seq<Byte>, p: nat): (r: Option<seq<Byte>>)
    requires p <= |cd|
    ensures r.Some? ==> IsRecord(r.value) && p + |r.value| <= |cd| && cd[p..p + |r.value|] == r.value
  {
    if |cd| - p < CENTRAL_LEN || U32(cd, p) != SIG_CENTRAL then None
    else
      var n, m, k := U16(cd, p + 28), U16(cd, p + 30), U16(cd, p + 32);
      if |cd| - p - CENTRAL_LEN < n + m + k then None else Some(cd[p..p + CENTRAL_LEN + n + m + k])
  }

  /** The checks on the fields of the record `h`. */
  function CheckFields(h: seq<Byte>): Option<Reason>
    requires IsRecord(h)
  {
    var n, m := U16(h, 28), U16(h, 30);
    if Encrypted(U16(h, 8)) then Some(Unsupported)
    else if U16(h, 10) != 0 && U16(h, 10) != 8 then Some(Unsupported)
    else if U32(h, 20) == U32_MAX || U32(h, 24) == U32_MAX || U32(h, 42) == U32_MAX || U16(h, 34) == U16_MAX then
      Some(Unsupported)
    else if ForbiddenExtra(h[CENTRAL_LEN + n..CENTRAL_LEN + n + m]) then Some(Unsupported)
    else if U16(h, 34) != 0 then Some(Unsupported)
    else None
  }

  /** A central record by itself: its fields, its name and its type. */
  function ReadRecord(h: seq<Byte>, limits: Limits, text: Text): Result<Central>
    requires IsRecord(h)
  {
    var fields := CheckFields(h);
    if fields.Some? then Refused(fields.value)
    else
      var raw := h[CENTRAL_LEN..CENTRAL_LEN + U16(h, 28)];
      var name, exec := CheckName(raw, limits, text), CheckType(U32(h, 38));
      if name.None? || exec.None? then Refused(UnsafeEntry)
      else
        Ok(Central(name.value, raw, U16(h, 8), U16(h, 10), U32(h, 16), U32(h, 20), U32(h, 24), exec.value, U32(h, 42)))
  }

  predicate TooBig(u: nat, c: nat, limits: Limits) {
    u > limits.entryBytes || u > c * limits.maxRatio
  }

  /** One turn of the central-directory loop. */
  function ScanEntry(cd: seq<Byte>, s: Scan, limits: Limits, text: Text): (r: Result<Scan>)
    requires s.p <= |cd|
    ensures r.Ok? ==> s.p < r.value.p <= |cd| && |r.value.centrals| == |s.centrals| + 1
  {
    var h := RecordAt(cd, s.p);
    if h.None? then Refused(Unsupported)
    else
      match ReadRecord(h.value, limits, text)
      case Refused(reason) => Refused(reason)
      case Ok(c) =>
        var index := Folding.InsertName(s.index, c.name, text.fold);
        if index.None? then Refused(UnsafeEntry)
        else if TooBig(c.uncompressed, c.compressed, limits) || s.declared + c.uncompressed > limits.packageBytes then
          Refused(TooLarge)
        else Ok(Scan(s.p + |h.value|, s.centrals + [c], index.value, s.declared + c.uncompressed))
  }

  function ScanAll(cd: seq<Byte>, s: Scan, count: nat, limits: Limits, text: Text): (r: Result<Scan>)
    requires s.p <= |cd|
    ensures r.Ok? ==> |r.value.centrals| == |s.centrals| + count && r.value.p <= |cd|
    decreases count
  {
    if count == 0 then Ok(s)
    else
      match ScanEntry(cd, s, limits, text)
      case Refused(reason) => Refused(reason)
      case Ok(next) => ScanAll(cd, next, count - 1, limits, text)
  }

  // ----- local headers --------------------------------------------------------------------------------------------

  function DescriptorLength(file: seq<Byte>, end: nat, limit: nat, c: Central): Option<nat>
    requires end <= limit <= |file|
  {
    var avail := limit - end;
    if && avail >= 16 && U32(file, end) == SIG_DESCRIPTOR
       && Sizes(file, end + 4) == (c.crc32, c.compressed, c.uncompressed)
    then Some(16)
    else if avail >= 12 && Sizes(file, end) == (c.crc32, c.compressed, c.uncompressed) then Some(12)
    else None
  }

  function Sizes(file: seq<Byte>, at: nat): (nat, nat, nat)
    requires at + 12 <= |file|
  {
    (U32(file, at), U32(file, at + 4), U32(file, at + 8))
  }

  /** Checks the local header and data descriptor of `c`: its data offset and its end. Every refusal is
      `Unsupported`. */
  function CheckLocal(file: seq<Byte>, c: Central, limit: nat): (r: Option<(nat, nat)>)
    requires limit <= |file|
    ensures r.Some? ==> c.offset + LOCAL_LEN <= r.value.0 <= r.value.1 <= limit
  {
    var at := c.offset;
    if at + LOCAL_LEN > limit || U32(file, at) != SIG_LOCAL then None
    else
      var n, m := U16(file, at + 26), U16(file, at + 28);
      var data := at + LOCAL_LEN + n + m;
      if data > limit then None
      else if file[at + LOCAL_LEN..at + LOCAL_LEN + n] != c.raw then None
      else if ForbiddenExtra(file[at + LOCAL_LEN + n..data]) then None
      else if U16(file, at + 6) != c.flags || U16(file, at + 8) != c.compression then None
      else
        var central := (c.crc32, c.compressed, c.uncompressed);
        var local := Sizes(file, at + 14);
        var end := data + c.compressed;
        if end > limit then None
        else if !Bit(c.flags, 3) then
          if local == central then Some((data, end)) else None
        else if local != (0, 0, 0) && local != central then None
        else
          var d := DescriptorLength(file, end, limit, c);
          if d.None? then None else Some((data, end + d.value))
  }

  /** Visits the entries in `order` from `expected` and records where the data of each starts. */
  function Walk(file: seq<Byte>, centrals: seq<Central>, order: seq<nat>, expected: nat, limit: nat,
                dataOffsets: seq<nat>): (r: Option<seq<nat>>)
    requires limit <= |file| && |dataOffsets| == |centrals| && forall k :: 0 <= k < |order| ==> order[k] < |centrals|
    ensures r.Some? ==> |r.value| == |centrals|
    decreases |order|
  {
    if order == [] then
      if expected == limit then Some(dataOffsets) else None
    else
      var c := centrals[order[0]];
      if c.offset != expected then None
      else
        var local := CheckLocal(file, c, limit);
        if local.None? then None
        else Walk(file, centrals, order[1..], local.value.1, limit, dataOffsets[order[0] := local.value.0])
  }

  // ----- the order of the local headers ---------------------------------------------------------------------------

  /** `i` goes behind every index of no greater offset: the sort is stable. */
  function InsertByOffset(order: seq<nat>, i: nat, offsets: seq<nat>): seq<nat>
    requires i < |offsets| && forall k :: 0 <= k < |order| ==> order[k] < |offsets|
  {
    if order == [] || offsets[order[|order| - 1]] <= offsets[i] then order + [i]
    else InsertByOffset(order[..|order| - 1], i, offsets) + [order[|order| - 1]]
  }

  function SortByOffset(offsets: seq<nat>, n: nat): (order: seq<nat>)
    requires n <= |offsets|
    ensures |order| == n && forall k :: 0 <= k < n ==> order[k] < n
  {
    if n == 0 then []
    else
      var order := SortByOffset(offsets, n - 1);
      InsertMembers(order, n - 1, offsets);
      InsertByOffset(order, n - 1, offsets)
  }

  lemma {:induction false} InsertMembers(order: seq<nat>, i: nat, offsets: seq<nat>)
    requires i < |offsets| && forall k :: 0 <= k < |order| ==> order[k] < |offsets|
    ensures var r := InsertByOffset(order, i, offsets);
            && multiset(r) == multiset(order) + multiset{i}
            && |r| == |order| + 1
            && forall k :: 0 <= k < |r| ==> r[k] in order || r[k] == i
  {
    if order != [] {
      var init, last := order[..|order| - 1], order[|order| - 1];
      assert order == init + [last];
      if offsets[last] > offsets[i] {
        InsertMembers(init, i, offsets);
      }
    }
  }

  // ----- the audit ------------------------------------------------------------------------------------------------

  /** The checks on the record at the end of the file. */
  function CheckEocd(file: seq<Byte>, limits: Limits): Option<Reason>
    requires |file| >= EOCD_LEN
  {
    var e := |file| - EOCD_LEN;
    var onDisk, total, cdSize, cdOffset := U16(file, e + 8), U16(file, e + 10), U32(file, e + 12), U32(file, e + 16);
    if U32(file, e) != SIG_EOCD || U16(file, e + 20) != 0 then Some(Unsupported)
    else if onDisk == U16_MAX || total == U16_MAX || cdSize == U32_MAX || cdOffset == U32_MAX then Some(Unsupported)
    else if U16(file, e + 4) != 0 || U16(file, e + 6) != 0 || onDisk != total then Some(Unsupported)
    else if total > limits.maxEntries then Some(TooLarge)
    else if cdOffset + cdSize != e then Some(Unsupported)
    else None
  }

  function Entries(centrals: seq<Central>, dataOffsets: seq<nat>): (entries: seq<Entry>)
    requires |dataOffsets| == |centrals|
  {
    seq(|centrals|, i requires 0 <= i < |centrals| =>
      var c := centrals[i];
      Entry(c.name, if c.compression == 0 then Stored else Deflate, c.compressed, c.uncompressed, c.crc32, c.exec,
            dataOffsets[i]))
  }

  function Offsets(centrals: seq<Central>): (offsets: seq<nat>)
    ensures |offsets| == |centrals| && forall i :: 0 <= i < |centrals| ==> offsets[i] == centrals[i].offset
  {
    seq(|centrals|, i requires 0 <= i < |centrals| => centrals[i].offset)
  }

  function Zeros(n: nat): (zeros: seq<nat>)
    ensures |zeros| == n && forall i :: 0 <= i < n ==> zeros[i] == 0
  {
    seq(n, i => 0)
  }

  const START := Scan(0, [], Folding.EMPTY, 0)

  /** The audit as a function of the file. */
  function Audit(file: seq<Byte>, limits: Limits, text: Text): Result<seq<Entry>> {
    if |file| > limits.packageBytes then Refused(TooLarge)
    else if |file| < EOCD_LEN then Refused(Unsupported)
    else
      var eocd := CheckEocd(file, limits);
      if eocd.Some? then Refused(eocd.value)
      else
        var e := |file| - EOCD_LEN;
        var cdOffset := U32(file, e + 16);
        match ScanAll(file[cdOffset..e], START, U16(file, e + 10), limits, text)
        case Refused(reason) => Refused(reason)
        case Ok(scan) =>
          if scan.p != e - cdOffset then Refused(Unsupported)
          else
            var n := |scan.centrals|;
            var order := SortByOffset(Offsets(scan.centrals), n);
            match Walk(file, scan.centrals, order, 0, cdOffset, Zeros(n))
            case None => Refused(Unsupported)
            case Some(dataOffsets) => Ok(Entries(scan.centrals, dataOffsets))
  }

  /** The loop over the central directory. */
  method ScanDirectory(cd: seq<Byte>, total: nat, limits: Limits, text: Text) returns (r: Result<Scan>)
    ensures r == ScanAll(cd, START, total, limits, text)
  {
    hide RecordAt, ReadRecord, TooBig, Folding.InsertName;
    var centrals: seq<Central>, declared: nat, p: nat := [], 0, 0;
    var folded := new Folding.Folded();
    var i := 0;
    while i < total
      invariant i <= total && p <= |cd|
      invariant ScanAll(cd, START, total, limits, text)
                == ScanAll(cd, Scan(p, centrals, folded.Value(), declared), total - i, limits, text)
    {
      var h := RecordAt(cd, p);
      if h.None? {
        return Refused(Unsupported);
      }
      var record := ReadRecord(h.value, limits, text);
      if record.Refused? {
        return Refused(record.reason);
      }
      var c := record.value;
      var accepted := folded.Insert(c.name, text.fold);
      if !accepted {
        return Refused(UnsafeEntry);
      }
      if TooBig(c.uncompressed, c.compressed, limits) || declared + c.uncompressed > limits.packageBytes {
        return Refused(TooLarge);
      }
      p, declared, centrals := p + |h.value|, declared + c.uncompressed, centrals + [c];
      i := i + 1;
    }
    return Ok(Scan(p, centrals, folded.Value(), declared));
  }

  /** The loop over the local headers. */
  method WalkLocals(file: seq<Byte>, centrals: seq<Central>, order: seq<nat>, limit: nat) returns (r: Option<seq<nat>>)
    requires limit <= |file| && forall k :: 0 <= k < |order| ==> order[k] < |centrals|
    ensures r == Walk(file, centrals, order, 0, limit, Zeros(|centrals|))
  {
    var dataOffsets: seq<nat>, expected: nat := Zeros(|centrals|), 0;
    var k := 0;
    while k < |order|
      invariant k <= |order| && |dataOffsets| == |centrals|
      invariant Walk(file, centrals, order, 0, limit, Zeros(|centrals|))
                == Walk(file, centrals, order[k..], expected, limit, dataOffsets)
    {
      var c := centrals[order[k]];
      if c.offset != expected {
        return None;
      }
      var local := CheckLocal(file, c, limit);
      if local.None? {
        return None;
      }
      dataOffsets := dataOffsets[order[k] := local.value.0];
      expected := local.value.1;
      assert order[k..][1..] == order[k + 1..];
      k := k + 1;
    }
    if expected != limit {
      return None;
    }
    return Some(dataOffsets);
  }

  /** `audit_zip`. */
  method AuditZip(file: seq<Byte>, limits: Limits, text: Text) returns (r: Result<seq<Entry>>)
    ensures r == Audit(file, limits, text)
  {
    hide ScanAll, Walk, SortByOffset, Entries;
    if |file| > limits.packageBytes {
      return Refused(TooLarge);
    }
    if |file| < EOCD_LEN {
      return Refused(Unsupported);
    }
    var eocd := CheckEocd(file, limits);
    if eocd.Some? {
      return Refused(eocd.value);
    }
    var e := |file| - EOCD_LEN;
    var total, cdOffset := U16(file, e + 10), U32(file, e + 16);
    var scanned := ScanDirectory(file[cdOffset..e], total, limits, text);
    if scanned.Refused? {
      return Refused(scanned.reason);
    }
    var centrals := scanned.value.centrals;
    if scanned.value.p != e - cdOffset {
      return Refused(Unsupported);
    }
    var dataOffsets := WalkLocals(file, centrals, SortByOffset(Offsets(centrals), |centrals|), cdOffset);
    if dataOffsets.None? {
      return Refused(Unsupported);
    }
    return Ok(Entries(centrals, dataOffsets.value));
  }
}
