/** What one entry of an archive must be, said without the audit: which names are safe, character by character, and what
    the bytes of its central record say. */
module ZipRules {
  import opened Bytes
  import opened Options
  import opened Texts
  import opened ZipAudit

  // ----- names ----------------------------------------------------------------------------------------------------

  /** CON, PRN, AUX, NUL, COM1 to COM9 and LPT1 to LPT9, the last two also with a superscript 1, 2 or 3. */
  predicate IsDevice(s: string) {
    || Spells(s, "con", "CON") || Spells(s, "prn", "PRN") || Spells(s, "aux", "AUX") || Spells(s, "nul", "NUL")
    || (&& |s| == 4 && (Spells(s[..3], "com", "COM") || Spells(s[..3], "lpt", "LPT"))
        && (s[3] in ['1', '2', '3', '4', '5', '6', '7', '8', '9'] || s[3] in ['\U{b9}', '\U{b2}', '\U{b3}']))
  }

  /** Before its first dot `piece` is a device, then nothing but spaces. */
  ghost predicate NamesDevice(piece: string) {
    exists m: nat, n: nat :: DeviceUpTo(piece, m, n)
  }

  ghost predicate DeviceUpTo(piece: string, m: nat, n: nat) {
    && m <= n <= |piece| && '.' !in piece[..n] && (n < |piece| ==> piece[n] == '.')
    && (forall k :: m <= k < n ==> piece[k] == ' ')
    && IsDevice(piece[..m])
  }

  ghost predicate SafePiece(piece: string) {
    && piece != "" && piece != "." && piece != ".."
    && piece[|piece| - 1] != '.' && piece[|piece| - 1] != ' '
    && !NamesDevice(piece)
  }

  /** Control characters, bidirectional controls, the backslash and what Windows forbids. */
  predicate IsBarred(c: char) {
    var code := c as int;
    || code < 0x20 || 0x7f <= code < 0xa0
    || code == 0x200e || code == 0x200f || 0x202a <= code <= 0x202e || 0x2066 <= code <= 0x2069
    || c == '\\' || c == ':' || c == '<' || c == '>' || c == '"' || c == '|' || c == '?' || c == '*'
  }

  /** A file name that may be extracted on any of the supported systems. */
  ghost predicate SafeName(name: string) {
    && name != ""
    && (forall c :: c in name ==> !IsBarred(c))
    && (forall i: nat, j: nat :: IsPiece(name, i, j) ==> SafePiece(name[i..j]))
  }

  /** The bytes of a name that may stand in an archive. */
  ghost predicate NameOk(raw: seq<Byte>, limits: Limits, text: Text) {
    && |raw| <= limits.maxNameBytes
    && text.decode(raw).Some?
    && var name := text.decode(raw).value;
    SafeName(name) && text.nfc(name) && multiset(name)['/'] + 1 <= limits.maxSegments
  }

  lemma {:induction false} FirstPart(s: string, c: char)
    ensures var n := |Split(s, c)[0]|;
            n <= |s| && Split(s, c)[0] == s[..n] && (n < |s| ==> s[n] == c)
  {
    if s != [] && s[0] != c {
      FirstPart(s[1..], c);
      var n := |Split(s[1..], c)[0]|;
      assert s[..n + 1] == [s[0]] + s[1..][..n];
    }
  }

  lemma {:induction false} TrimmedEnd(s: string, m: nat)
    requires m <= |s| && (forall k :: m <= k < |s| ==> s[k] == ' ') && (m > 0 ==> s[m - 1] != ' ')
    ensures TrimEnd(s, ' ') == s[..m]
  {
    if m < |s| {
      TrimmedEnd(s[..|s| - 1], m);
      assert s[..|s| - 1][..m] == s[..m];
    } else {
      assert s[..m] == s;
    }
  }

  lemma {:induction false} TrimEndIs(s: string) returns (m: nat)
    ensures m <= |s| && TrimEnd(s, ' ') == s[..m] && forall k :: m <= k < |s| ==> s[k] == ' '
  {
    m := |s|;
    if s != [] && s[|s| - 1] == ' ' {
      m := TrimEndIs(s[..|s| - 1]);
      assert s[..|s| - 1][..m] == s[..m];
    } else {
      assert s[..m] == s;
    }
  }

  lemma LowerSpells(s: string)
    ensures Lower(s) == "con" <==> Spells(s, "con", "CON")
    ensures Lower(s) == "prn" <==> Spells(s, "prn", "PRN")
    ensures Lower(s) == "aux" <==> Spells(s, "aux", "AUX")
    ensures Lower(s) == "nul" <==> Spells(s, "nul", "NUL")
    ensures Lower(s) == "com" <==> Spells(s, "com", "COM")
    ensures Lower(s) == "lpt" <==> Spells(s, "lpt", "LPT")
  {
    hide Lower, Spells;
    LowerIs(s, "con", "CON");
    LowerIs(s, "prn", "PRN");
    LowerIs(s, "aux", "AUX");
    LowerIs(s, "nul", "NUL");
    LowerIs(s, "com", "COM");
    LowerIs(s, "lpt", "LPT");
  }

  lemma DeviceMeans(s: string)
    ensures IsDevice(s) <==>
              var stem := Lower(s);
              || stem in ["con", "prn", "aux", "nul"]
              || (&& |stem| == 4 && stem[..3] in ["com", "lpt"]
                  && ('1' <= stem[3] <= '9' || stem[3] in "\U{b9}\U{b2}\U{b3}"))
  {
    hide Spells;
    LowerSpells(s);
    if |s| == 4 {
      LowerSpells(s[..3]);
      assert Lower(s)[..3] == Lower(s[..3]);
    }
  }

  lemma NamesDeviceMeans(piece: string)
    ensures IsReservedDevice(piece) <==> NamesDevice(piece)
  {
    hide Lower, IsDevice;
    FirstPart(piece, '.');
    var first := Split(piece, '.')[0];
    if IsReservedDevice(piece) {
      var m := TrimEndIs(first);
      DeviceMeans(first[..m]);
      assert piece[..m] == first[..m];
      assert DeviceUpTo(piece, m, |first|);
    }
    if NamesDevice(piece) {
      var m: nat, n: nat :| DeviceUpTo(piece, m, n);
      StemIsFirst(piece, n);
      DeviceEnds(piece[..m]);
      TrimmedEnd(first, m);
      DeviceMeans(piece[..m]);
      assert piece[..m] == first[..m];
    }
  }

  lemma StemIsFirst(piece: string, n: nat)
    requires n <= |piece| && '.' !in piece[..n] && (n < |piece| ==> piece[n] == '.')
    ensures Split(piece, '.')[0] == piece[..n]
  {
    FirstPart(piece, '.');
    var first := Split(piece, '.')[0];
    InPrefix(piece, |first|, n);
    InPrefix(piece, n, |first|);
  }

  lemma DeviceEnds(s: string)
    requires IsDevice(s)
    ensures s != [] && s[|s| - 1] != ' '
  {
  }

  lemma SafePieceMeans(piece: string)
    ensures SafeSegment(piece) <==> SafePiece(piece)
  {
    hide IsReservedDevice, NamesDevice;
    NamesDeviceMeans(piece);
  }

  lemma SegmentsArePieces(name: string)
    ensures (forall segment :: segment in Split(name, '/') ==> SafeSegment(segment))
            <==> forall i: nat, j: nat :: IsPiece(name, i, j) ==> SafePiece(name[i..j])
  {
    hide SafeSegment, SafePiece, Split;
    if forall segment :: segment in Split(name, '/') ==> SafeSegment(segment) {
      forall i: nat, j: nat | IsPiece(name, i, j) ensures SafePiece(name[i..j]) {
        PieceFound(name, i, j);
        SafePieceMeans(name[i..j]);
      }
    }
    if forall i: nat, j: nat :: IsPiece(name, i, j) ==> SafePiece(name[i..j]) {
      forall segment | segment in Split(name, '/') ensures SafeSegment(segment) {
        var k :| 0 <= k < |Split(name, '/')| && Split(name, '/')[k] == segment;
        var i, j := SegmentIsPiece(name, k);
        SafePieceMeans(segment);
      }
    }
  }

  lemma PieceFound(name: string, i: nat, j: nat)
    requires IsPiece(name, i, j)
    ensures i <= j <= |name| && name[i..j] in Split(name, '/')
  {
    var _ := PieceIsSegment(name, i, j);
  }

  /** A slash at an end leaves an empty piece there. */
  lemma EndPieces(name: string)
    requires name != "" && forall i: nat, j: nat :: IsPiece(name, i, j) ==> SafePiece(name[i..j])
    ensures name[0] != '/' && name[|name| - 1] != '/'
  {
    EmptyPieces(name);
  }

  lemma EmptyPieces(name: string)
    requires name != ""
    ensures name[0] == '/' ==> IsPiece(name, 0, 0) && name[0..0] == ""
    ensures name[|name| - 1] == '/' ==> IsPiece(name, |name|, |name|) && name[|name|..|name|] == ""
  {
  }

  lemma BarredMeans(c: char)
    ensures IsBarred(c) <==> c == '\\' || IsControl(c) || IsBidiControl(c) || c in ":<>\"|?*"
  {
  }

  /** Which names the audit lets through. */
  lemma NameMeans(raw: seq<Byte>, limits: Limits, text: Text)
    ensures CheckName(raw, limits, text) == if NameOk(raw, limits, text) then text.decode(raw) else None
  {
    hide SafeSegment, SafePiece, IsPiece, Split, IsBarred, IsControl, IsBidiControl;
    if text.decode(raw).Some? {
      var name := text.decode(raw).value;
      SegmentsArePieces(name);
      SegmentCount(name);
      forall c ensures IsBarred(c) <==> c == '\\' || IsControl(c) || IsBidiControl(c) || c in ":<>\"|?*" {
        BarredMeans(c);
      }
      if SafeName(name) { EndPieces(name); }
    }
  }

  // ----- central records ------------------------------------------------------------------------------------------

  /** The number that the bytes spell, the least significant first. */
  function Little(b: seq<Byte>): nat {
    if b == [] then 0 else b[0] as int + 256 * Little(b[1..])
  }

  lemma LittleStep(b: seq<Byte>, i: nat, j: nat)
    requires i <= j <= |b|
    ensures Little(b[i..j]) == if i == j then 0 else b[i] as int + 256 * Little(b[i + 1..j])
  {
    if i < j {
      assert b[i..j][1..] == b[i + 1..j];
    }
  }

  lemma {:induction false} LittleIs(b: seq<Byte>, at: nat)
    ensures at + 2 <= |b| ==> Little(b[at..at + 2]) == U16(b, at)
    ensures at + 4 <= |b| ==> Little(b[at..at + 4]) == U32(b, at)
  {
    hide Little;
    if at + 2 <= |b| {
      LittleStep(b, at, at + 2);
      LittleStep(b, at + 1, at + 2);
      LittleStep(b, at + 2, at + 2);
    }
    if at + 4 <= |b| {
      LittleStep(b, at, at + 4);
      LittleStep(b, at + 1, at + 4);
      LittleStep(b, at + 2, at + 4);
      LittleStep(b, at + 3, at + 4);
      LittleStep(b, at + 4, at + 4);
    }
  }

  /** External attributes of a regular file: no DOS directory, and the Unix type is a regular file or absent. */
  predicate IsRegular(external: nat) {
    external / 0x10 % 2 == 0 && (external / 0x1000_0000 % 0x10 == 0 || external / 0x1000_0000 % 0x10 == 8)
  }

  /** Any of the three execute bits of the Unix mode. */
  predicate IsExecutable(external: nat) {
    external / 0x1_0000 % 2 == 1 || external / 0x8_0000 % 2 == 1 || external / 0x40_0000 % 2 == 1
  }

  /** A central record: 46 bytes, and as many more as its length fields say. */
  ghost predicate IsCentral(h: seq<Byte>) {
    && |h| >= 46 && h[..4] == [0x50, 0x4b, 0x01, 0x02]
    && |h| == 46 + Little(h[28..30]) + Little(h[30..32]) + Little(h[32..34])
  }

  /** Not encrypted (bits 0, 6 and 13 of the flags), stored or deflated, on the first disk, without ZIP64 and without an
      extra field that overrides the record. */
  ghost predicate IsPlain(h: seq<Byte>)
    requires IsCentral(h)
  {
    && h[8] % 2 == 0 && h[8] / 64 % 2 == 0 && h[9] / 32 % 2 == 0
    && (h[10] == 0 || h[10] == 8) && h[11] == 0
    && h[20..24] != [0xFF, 0xFF, 0xFF, 0xFF] && h[24..28] != [0xFF, 0xFF, 0xFF, 0xFF]
    && h[42..46] != [0xFF, 0xFF, 0xFF, 0xFF]
    && h[34] == 0 && h[35] == 0
    && !ForbiddenField(ExtraOf(h), 0)
  }

  function NameBytes(h: seq<Byte>): seq<Byte>
    requires |h| >= 46 && |h| >= 46 + Little(h[28..30])
  {
    h[46..46 + Little(h[28..30])]
  }

  function ExtraOf(h: seq<Byte>): seq<Byte>
    requires |h| >= 46 && |h| >= 46 + Little(h[28..30]) + Little(h[30..32])
  {
    h[46 + Little(h[28..30])..46 + Little(h[28..30]) + Little(h[30..32])]
  }

  /** Within the entry limit and the ratio limit. */
  predicate SizesOk(uncompressed: nat, compressed: nat, limits: Limits) {
    uncompressed <= limits.entryBytes && uncompressed <= compressed * limits.maxRatio
  }

  /** A central record that may stand in an archive. */
  ghost predicate RecordOk(h: seq<Byte>, limits: Limits, text: Text) {
    && IsCentral(h) && IsPlain(h)
    && NameOk(NameBytes(h), limits, text)
    && IsRegular(Little(h[38..42]))
    && SizesOk(Little(h[24..28]), Little(h[20..24]), limits)
  }

  /** What the record says. */
  ghost function Parse(h: seq<Byte>, limits: Limits, text: Text): Central
    requires RecordOk(h, limits, text)
  {
    Central(text.decode(NameBytes(h)).value, NameBytes(h), Little(h[8..10]), Little(h[10..12]), Little(h[16..20]),
      Little(h[20..24]), Little(h[24..28]), IsExecutable(Little(h[38..42])), Little(h[42..46]))
  }

  lemma TypeMeans(external: nat)
    requires external <= U32_MAX
    ensures CheckType(external) == if IsRegular(external) then Some(IsExecutable(external)) else None
  {
    Powers();
    assert external / 0x1_0000 / 0x1000 == external / 0x1000_0000;
    assert external / 0x1_0000 / 8 == external / 0x8_0000 && external / 0x1_0000 / 64 == external / 0x40_0000;
  }

  lemma Powers()
    ensures Pow2(0) == 1 && Pow2(3) == 8 && Pow2(4) == 16 && Pow2(6) == 64 && Pow2(13) == 8192
  {
    assert Pow2(3) == 8 && Pow2(6) == 8 * Pow2(3) && Pow2(9) == 8 * Pow2(6) && Pow2(12) == 8 * Pow2(9);
  }

  lemma EncryptedMeans(low: Byte, high: Byte)
    ensures Encrypted(low + 256 * high) <==> low % 2 == 1 || low / 64 % 2 == 1 || high / 32 % 2 == 1
  {
    Powers();
    assert (low + 256 * high) % 2 == low % 2;
    assert (low + 256 * high) / 64 == low / 64 + 4 * high;
    assert (low + 256 * high) / 8192 == high / 32;
  }

  lemma CentralMeans(h: seq<Byte>)
    ensures IsRecord(h) <==> IsCentral(h)
  {
    hide Little;
    if |h| >= 46 {
      LittleIs(h, 0);
      LittleIs(h, 28);
      LittleIs(h, 30);
      LittleIs(h, 32);
      assert U32(h, 0) == SIG_CENTRAL <==> h[..4] == [0x50, 0x4b, 0x01, 0x02];
    }
  }

  lemma FieldsMean(h: seq<Byte>)
    requires IsRecord(h)
    ensures IsCentral(h) && CheckFields(h) == if IsPlain(h) then None else Some(Unsupported)
  {
    hide Little, ForbiddenExtra, ForbiddenField, Encrypted;
    CentralMeans(h);
    LittleIs(h, 28);
    LittleIs(h, 30);
    EncryptedMeans(h[8], h[9]);
    ForbiddenExtraMeans(ExtraOf(h));
    AllOnes(h, 20);
    AllOnes(h, 24);
    AllOnes(h, 42);
  }

  lemma AllOnes(h: seq<Byte>, at: nat)
    requires at + 4 <= |h|
    ensures U32(h, at) == U32_MAX <==> h[at..at + 4] == [0xFF, 0xFF, 0xFF, 0xFF]
  {
  }

  /** The audit of one record lets through what may stand in an archive, and reads what it says; an encrypted, odd or
      spread record is unsupported, and otherwise a bad name or type is an unsafe entry. */
  lemma RecordMeans(h: seq<Byte>, limits: Limits, text: Text)
    ensures RecordOk(h, limits, text) <==>
              && IsRecord(h) && ReadRecord(h, limits, text).Ok?
              && var c := ReadRecord(h, limits, text).value; !TooBig(c.uncompressed, c.compressed, limits)
    ensures RecordOk(h, limits, text) ==> Parse(h, limits, text) == ReadRecord(h, limits, text).value
    ensures IsRecord(h) ==>
              && IsCentral(h)
              && (ReadRecord(h, limits, text) == Refused(Unsupported) <==> !IsPlain(h))
              && (ReadRecord(h, limits, text) == Refused(UnsafeEntry) <==>
                    IsPlain(h) && !(NameOk(NameBytes(h), limits, text) && IsRegular(Little(h[38..42]))))
  {
    hide Little, CheckFields, CheckName, CheckType, IsPlain, NameOk, IsRegular, IsExecutable, U16, U32;
    CentralMeans(h);
    if IsRecord(h) {
      FieldsMean(h);
      LittleIs(h, 8);
      LittleIs(h, 10);
      LittleIs(h, 16);
      LittleIs(h, 20);
      LittleIs(h, 24);
      LittleIs(h, 28);
      LittleIs(h, 38);
      LittleIs(h, 42);
      NameMeans(NameBytes(h), limits, text);
      TypeMeans(U32(h, 38));
      assert NameBytes(h) == h[46..46 + U16(h, 28)];
      NameDecodes(NameBytes(h), limits, text);
    }
  }

  lemma NameDecodes(raw: seq<Byte>, limits: Limits, text: Text)
    ensures NameOk(raw, limits, text) ==> text.decode(raw).Some?
  {
  }
}
