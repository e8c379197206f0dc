/** The packer and the verifier of a package: what `prepare` and `entries_of` produce passes the layout, file-set,
    digest, exec-bit and script-set checks, although the packer looks at 4 bytes of a file and the verifier at 512. */
module Package {
  import opened Bytes
  import Canonical
  import opened Options
  import opened Texts

  const HEAD_BYTES: nat := 512
  const ROOT := "p1x.json"
  const SIGNATURE := "p1x.json.minisig"
  const PREFIX := "payload/"

  datatype PayloadFile = PayloadFile(rel: string, bytes: seq<Byte>, exec: bool)

  datatype FileEntry = FileEntry(digest: string, size: nat, exec: bool)

  datatype Manifest = Manifest(files: map<string, FileEntry>, scripts: seq<string>)

  /** An entry of the archive, read back. */
  datatype Entry = Entry(name: string, bytes: seq<Byte>, exec: bool)

  datatype Refusal = PackageInvalid | UnsafeEntry | DigestMismatch | ScriptsMismatch
  datatype Result<T> = Ok(value: T) | Refused(why: Refusal)

  // ----- scripts --------------------------------------------------------------------------------------------------

  function Head(bytes: seq<Byte>, n: nat): seq<Byte> {
    if |bytes| <= n then bytes else bytes[..n]
  }

  predicate IsMagic(head: seq<Byte>) {
    |head| >= 4 && head[..4] in [
      [0x7F, 0x45, 0x4C, 0x46], [0xFE, 0xED, 0xFA, 0xCE], [0xFE, 0xED, 0xFA, 0xCF], [0xCE, 0xFA, 0xED, 0xFE],
      [0xCF, 0xFA, 0xED, 0xFE], [0xCA, 0xFE, 0xBA, 0xBE]]
  }

  predicate StartsLikeScript(head: seq<Byte>) {
    |head| >= 2 && (head[..2] == [0x23, 0x21] || head[..2] == [0x4D, 0x5A])
  }

  /** A directory `scripts` or `bin` on the way, the leading `payload` aside. */
  predicate InScriptDirectory(path: string) {
    var segments := Split(path, '/');
    var first := if |segments| > 1 && segments[0] == "payload" then 1 else 0;
    exists i :: first <= i < |segments| - 1 && (segments[i] == "scripts" || segments[i] == "bin")
  }

  /** `is_script`. */
  predicate IsScript(path: string, exec: bool, head: seq<Byte>) {
    exec || StartsLikeScript(head) || IsMagic(head) || InScriptDirectory(path)
  }

  /** The files that belong to the script set: executables, what starts with `#!` or `MZ` or as an ELF or Mach-O binary,
      and everything below a directory that is called `scripts` or `bin`. */
  lemma ScriptsAre(path: string, exec: bool, head: seq<Byte>)
    ensures IsScript(path, exec, head) <==>
              || exec
              || [0x23, 0x21] <= head || [0x4D, 0x5A] <= head
              || [0x7F, 0x45, 0x4C, 0x46] <= head || [0xCA, 0xFE, 0xBA, 0xBE] <= head
              || [0xFE, 0xED, 0xFA, 0xCE] <= head || [0xFE, 0xED, 0xFA, 0xCF] <= head
              || [0xCE, 0xFA, 0xED, 0xFE] <= head || [0xCF, 0xFA, 0xED, 0xFE] <= head
              || BelowScripts(path)
  {
    hide InScriptDirectory, BelowScripts;
    DirectoryMeans(path);
    StartsWith(head, [0x23, 0x21]);
    StartsWith(head, [0x4D, 0x5A]);
    StartsWith(head, [0x7F, 0x45, 0x4C, 0x46]);
    StartsWith(head, [0xCA, 0xFE, 0xBA, 0xBE]);
    StartsWith(head, [0xFE, 0xED, 0xFA, 0xCE]);
    StartsWith(head, [0xFE, 0xED, 0xFA, 0xCF]);
    StartsWith(head, [0xCE, 0xFA, 0xED, 0xFE]);
    StartsWith(head, [0xCF, 0xFA, 0xED, 0xFE]);
  }

  lemma StartsWith(head: seq<Byte>, start: seq<Byte>)
    ensures start <= head <==> |head| >= |start| && head[..|start|] == start
  {
    if |head| >= |start| { assert head == head[..|start|] + head[|start|..]; }
  }

  /** Between two slashes, or before the first, the path has `scripts` or `bin`. */
  ghost predicate BelowScripts(path: string) {
    exists i: nat, j: nat :: IsScriptPiece(path, i, j)
  }

  ghost predicate IsScriptPiece(path: string, i: nat, j: nat) {
    IsPiece(path, i, j) && j < |path| && (path[i..j] == "scripts" || path[i..j] == "bin")
  }

  lemma DirectoryMeans(path: string)
    ensures InScriptDirectory(path) <==> BelowScripts(path)
  {
    hide Split;
    var segments := Split(path, '/');
    if InScriptDirectory(path) {
      var k: nat :| k < |segments| - 1 && (segments[k] == "scripts" || segments[k] == "bin");
      var i, j := SegmentIsPiece(path, k);
      assert IsScriptPiece(path, i, j);
    }
    if BelowScripts(path) {
      var i: nat, j: nat :| IsScriptPiece(path, i, j);
      var k := PieceIsSegment(path, i, j);
      assert segments[k] != "payload";
    }
  }

  /** Four bytes of the head are enough: any longer head gives the same verdict. */
  lemma FourBytesSuffice(path: string, exec: bool, bytes: seq<Byte>, n: nat)
    requires n >= 4
    ensures IsScript(path, exec, Head(bytes, n)) <==> IsScript(path, exec, Head(bytes, 4))
  {
    hide InScriptDirectory;
    var long, short := Head(bytes, n), Head(bytes, 4);
    if |bytes| >= 4 {
      assert long[..4] == short[..4] && long[..2] == short[..2];
    } else {
      assert long == short;
    }
  }

  // ----- the packer -----------------------------------------------------------------------------------------------

  function PathOf(f: PayloadFile): string {
    PREFIX + f.rel
  }

  function FileEntryOf(f: PayloadFile, hash: seq<Byte> -> string): FileEntry {
    FileEntry(hash(f.bytes), |f.bytes|, f.exec)
  }

  predicate Repeats(files: seq<PayloadFile>) {
    exists i, j :: 0 <= i < j < |files| && files[i].rel == files[j].rel
  }

  function FileTable(files: seq<PayloadFile>, hash: seq<Byte> -> string): map<string, FileEntry> {
    if files == [] then map[]
    else
      var last := files[|files| - 1];
      FileTable(files[..|files| - 1], hash)[PathOf(last) := FileEntryOf(last, hash)]
  }

  function ScriptList(files: seq<PayloadFile>): seq<string> {
    if files == [] then []
    else
      var rest, last := ScriptList(files[..|files| - 1]), files[|files| - 1];
      if IsScript(PathOf(last), last.exec, Head(last.bytes, 4)) then rest + [PathOf(last)] else rest
  }

  // --- the order of the files ---

  /** `f` behind the files whose path is not above its own. */
  function Insert(files: seq<PayloadFile>, f: PayloadFile): (sorted: seq<PayloadFile>)
    ensures multiset(sorted) == multiset(files) + multiset{f}
  {
    if files == [] || Canonical.Leq(files[|files| - 1].rel, f.rel) then files + [f]
    else
      assert files == files[..|files| - 1] + [files[|files| - 1]];
      Insert(files[..|files| - 1], f) + [files[|files| - 1]]
  }

  /** The files by path, those of one path in the order they came in. */
  function SortFiles(files: seq<PayloadFile>): (sorted: seq<PayloadFile>)
    ensures multiset(sorted) == multiset(files)
  {
    if files == [] then []
    else
      assert files == files[..|files| - 1] + [files[|files| - 1]];
      Insert(SortFiles(files[..|files| - 1]), files[|files| - 1])
  }

  ghost predicate Ascending(files: seq<PayloadFile>) {
    forall i, j :: 0 <= i < j < |files| ==> Canonical.Leq(files[i].rel, files[j].rel)
  }

  lemma {:induction false} InsertAscends(files: seq<PayloadFile>, f: PayloadFile)
    requires Ascending(files)
    ensures Ascending(Insert(files, f))
  {
    hide Canonical.Leq;
    if files != [] {
      var init, last := files[..|files| - 1], files[|files| - 1];
      if Canonical.Leq(last.rel, f.rel) {
        forall i | 0 <= i < |files| ensures Canonical.Leq(files[i].rel, f.rel) {
          if i < |files| - 1 { Canonical.LeqTransitive(files[i].rel, last.rel, f.rel); }
        }
      } else {
        InsertAscends(init, f);
        Canonical.LeqTotal(last.rel, f.rel);
        var some := Insert(init, f);
        forall i | 0 <= i < |some| ensures Canonical.Leq(some[i].rel, last.rel) {
          assert some[i] in multiset(some);
          if some[i] != f { assert some[i] in init; }
        }
      }
    }
  }

  lemma {:induction false} SortAscends(files: seq<PayloadFile>)
    ensures Ascending(SortFiles(files))
  {
    if files != [] {
      SortAscends(files[..|files| - 1]);
      InsertAscends(SortFiles(files[..|files| - 1]), files[|files| - 1]);
    }
  }

  lemma RepeatsCount(files: seq<PayloadFile>)
    ensures Repeats(files) <==>
              exists f, g :: f in files && g in files && f.rel == g.rel && (f == g ==> multiset(files)[f] > 1)
  {
    if i, j :| 0 <= i < j < |files| && files[i].rel == files[j].rel {
      var f, g := files[i], files[j];
      if f == g { TwoPlaces(files, i, j); }
      assert f in files && g in files;
    }
    if f, g :| f in files && g in files && f.rel == g.rel && (f == g ==> multiset(files)[f] > 1) {
      if f == g {
        var i, j := PlacesOfTwo(files, f);
        assert files[i].rel == files[j].rel;
      } else {
        var i :| 0 <= i < |files| && files[i] == f;
        var j :| 0 <= j < |files| && files[j] == g;
        assert i < j || j < i;
      }
    }
  }

  lemma TwoPlaces(files: seq<PayloadFile>, i: nat, j: nat)
    requires i < j < |files| && files[i] == files[j]
    ensures multiset(files)[files[i]] > 1
  {
    assert files == files[..j] + files[j..];
    assert files[i] in files[..j] && files[i] in files[j..];
  }

  lemma {:induction false} PlacesOfTwo(files: seq<PayloadFile>, f: PayloadFile) returns (i: nat, j: nat)
    requires multiset(files)[f] > 1
    ensures i < j < |files| && files[i] == files[j]
  {
    var rest := files[1..];
    assert files == [files[0]] + rest;
    if files[0] == f {
      assert f in multiset(rest);
      var k :| 0 <= k < |rest| && rest[k] == f;
      i, j := 0, k + 1;
    } else {
      i, j := PlacesOfTwo(rest, f);
      i, j := i + 1, j + 1;
    }
  }

  lemma RepeatsOfSame(files: seq<PayloadFile>, others: seq<PayloadFile>)
    requires multiset(files) == multiset(others)
    ensures Repeats(files) <==> Repeats(others)
  {
    RepeatsCount(files);
    RepeatsCount(others);
    forall f ensures f in files <==> f in others {
      assert f in multiset(files) <==> f in multiset(others);
    }
  }

  /** Without repeated paths there is one order. */
  lemma {:induction false} OneOrder(files: seq<PayloadFile>, others: seq<PayloadFile>)
    requires multiset(files) == multiset(others) && Ascending(files) && Ascending(others) && !Repeats(files)
    ensures files == others
  {
    hide Canonical.Leq, Ascending, Repeats;
    assert |files| == |multiset(files)| == |others|;
    if files != [] {
      LastIsSame(files, others);
      WithoutLast(files);
      WithoutLast(others);
      OneOrder(files[..|files| - 1], others[..|others| - 1]);
    }
  }

  lemma WithoutLast(files: seq<PayloadFile>)
    requires files != []
    ensures var init, last := files[..|files| - 1], files[|files| - 1];
            files == init + [last] && multiset(init) == multiset(files) - multiset{last}
    ensures Ascending(files) ==> Ascending(files[..|files| - 1])
    ensures Repeats(files[..|files| - 1]) ==> Repeats(files)
  {
    hide Canonical.Leq;
    assert files == files[..|files| - 1] + [files[|files| - 1]];
  }

  lemma LastIsSame(files: seq<PayloadFile>, others: seq<PayloadFile>)
    requires multiset(files) == multiset(others) && Ascending(files) && Ascending(others) && !Repeats(files)
    requires files != [] && others != []
    ensures files[|files| - 1] == others[|others| - 1]
  {
    hide Canonical.Leq;
    var a, b := files[|files| - 1], others[|others| - 1];
    assert a in multiset(others) && b in multiset(files);
    var i :| 0 <= i < |others| && others[i] == a;
    var j :| 0 <= j < |files| && files[j] == b;
    if i < |others| - 1 && j < |files| - 1 {
      Canonical.LeqAntisymmetric(files[j].rel, files[|files| - 1].rel);
    }
  }

  /** The order in which the files come does not matter: they repeat a path or not, and sort to the same list. */
  lemma OrderIsIrrelevant(files: seq<PayloadFile>, others: seq<PayloadFile>)
    requires multiset(files) == multiset(others)
    ensures Repeats(files) <==> Repeats(others)
    ensures !Repeats(files) ==> SortFiles(files) == SortFiles(others)
  {
    hide Repeats;
    RepeatsOfSame(files, others);
    RepeatsOfSame(files, SortFiles(files));
    SortAscends(files);
    SortAscends(others);
    if !Repeats(files) { OneOrder(SortFiles(files), SortFiles(others)); }
  }

  function ManifestOf(files: seq<PayloadFile>, hash: seq<Byte> -> string): Manifest {
    Manifest(FileTable(files, hash), ScriptList(files))
  }

  /** The manifest read back, its bytes and the sorted files. */
  datatype Prepared = Prepared(manifest: Manifest, raw: seq<Byte>, files: seq<PayloadFile>)

  /** How a manifest is written, the rest of it being that of the template, and how it is parsed. */
  datatype Format = Format(write: Manifest -> seq<Byte>, parse: seq<Byte> -> Option<Manifest>)

  /** `prepare`: the files are sorted and listed, and the manifest made of them is written and parsed. */
  method Prepare(files: seq<PayloadFile>, hash: seq<Byte> -> string, format: Format) returns (r: Result<Prepared>)
    ensures var sorted := SortFiles(files);
            var raw := format.write(ManifestOf(sorted, hash));
            r == if Repeats(files) then Refused(UnsafeEntry)
                 else if format.parse(raw).None? then Refused(PackageInvalid)
                 else Ok(Prepared(format.parse(raw).value, raw, sorted))
  {
    hide Repeats, SortFiles, FileTable, ScriptList;
    var sorted := SortFiles(files);
    RepeatsOfSame(files, sorted);
    var listed := ListFiles(sorted, hash);
    if listed.Refused? {
      return Refused(listed.why);
    }
    var raw := format.write(listed.value);
    var manifest := format.parse(raw);
    return if manifest.None? then Refused(PackageInvalid) else Ok(Prepared(manifest.value, raw, sorted));
  }

  /** Its loop over the sorted files. */
  method ListFiles(files: seq<PayloadFile>, hash: seq<Byte> -> string) returns (r: Result<Manifest>)
    ensures r == if Repeats(files) then Refused(UnsafeEntry) else Ok(ManifestOf(files, hash))
  {
    hide IsScript, Repeats, FileTable, ScriptList;
    var table: map<string, FileEntry>, scripts: seq<string> := map[], [];
    NothingPrepared(files, hash);
    var i := 0;
    while i < |files|
      invariant i <= |files| && !Repeats(files[..i])
      invariant table == FileTable(files[..i], hash) && scripts == ScriptList(files[..i])
    {
      PrepareStep(files, i, hash);
      var f := files[i];
      if IsScript(PathOf(f), f.exec, Head(f.bytes, 4)) {
        scripts := scripts + [PathOf(f)];
      }
      if PathOf(f) in table {
        RepeatsStay(files, i + 1);
        return Refused(UnsafeEntry);
      }
      table := table[PathOf(f) := FileEntryOf(f, hash)];
      i := i + 1;
    }
    assert files[..i] == files;
    return Ok(Manifest(table, scripts));
  }

  lemma NothingPrepared(files: seq<PayloadFile>, hash: seq<Byte> -> string)
    ensures !Repeats(files[..0]) && FileTable(files[..0], hash) == map[] && ScriptList(files[..0]) == []
  {
  }

  lemma PrepareStep(files: seq<PayloadFile>, i: nat, hash: seq<Byte> -> string)
    requires i < |files| && !Repeats(files[..i])
    ensures PathOf(files[i]) in FileTable(files[..i], hash) <==> Repeats(files[..i + 1])
    ensures FileTable(files[..i + 1], hash)
            == FileTable(files[..i], hash)[PathOf(files[i]) := FileEntryOf(files[i], hash)]
    ensures ScriptList(files[..i + 1])
            == if IsScript(PathOf(files[i]), files[i].exec, Head(files[i].bytes, 4))
               then ScriptList(files[..i]) + [PathOf(files[i])] else ScriptList(files[..i])
  {
    hide IsScript, Repeats;
    assert files[..i + 1][..i] == files[..i] && files[..i + 1] == files[..i] + [files[i]];
    TableKeys(files[..i], hash);
    PathsDiffer(files[..i], files[i]);
  }

  /** The keys of the table are the paths, each with the entry of its file. */
  lemma {:induction false} TableKeys(files: seq<PayloadFile>, hash: seq<Byte> -> string)
    ensures forall p :: p in FileTable(files, hash) <==> exists i :: 0 <= i < |files| && PathOf(files[i]) == p
    ensures !Repeats(files) ==> forall i :: 0 <= i < |files| ==>
              PathOf(files[i]) in FileTable(files, hash)
              && FileTable(files, hash)[PathOf(files[i])] == FileEntryOf(files[i], hash)
  {
    if files != [] {
      var init, last := files[..|files| - 1], files[|files| - 1];
      assert files == init + [last];
      TableKeys(init, hash);
      PathsDiffer(init, last);
      if !Repeats(files) { assert !Repeats(init); }
    }
  }

  lemma SamePath(f: PayloadFile, g: PayloadFile)
    ensures PathOf(f) == PathOf(g) <==> f.rel == g.rel
  {
    assert PathOf(f)[|PREFIX|..] == f.rel && PathOf(g)[|PREFIX|..] == g.rel;
  }

  lemma PathsDiffer(files: seq<PayloadFile>, f: PayloadFile)
    ensures Repeats(files + [f]) <==> Repeats(files) || exists i :: 0 <= i < |files| && PathOf(files[i]) == PathOf(f)
  {
    var more := files + [f];
    forall i | 0 <= i < |files| ensures PathOf(files[i]) == PathOf(f) <==> more[i].rel == more[|files|].rel {
      SamePath(files[i], f);
    }
    if i, j :| 0 <= i < j < |files| && files[i].rel == files[j].rel {
      assert more[i].rel == more[j].rel;
    }
    if i, j :| 0 <= i < j < |more| && more[i].rel == more[j].rel {
      assert j < |files| ==> files[i].rel == files[j].rel;
    }
  }

  lemma RepeatsStay(files: seq<PayloadFile>, i: nat)
    requires i <= |files| && Repeats(files[..i])
    ensures Repeats(files)
  {
  }

  function AsEntries(files: seq<PayloadFile>): (entries: seq<Entry>)
    ensures |entries| == |files|
    ensures forall i :: 0 <= i < |files| ==> entries[i] == Entry(PathOf(files[i]), files[i].bytes, files[i].exec)
  {
    seq(|files|, i requires 0 <= i < |files| => Entry(PathOf(files[i]), files[i].bytes, files[i].exec))
  }

  /** `entries_of`: the manifest, the signature if there is one, the payload. */
  function EntriesOf(files: seq<PayloadFile>, raw: seq<Byte>, signature: Option<seq<Byte>>): seq<Entry> {
    [Entry(ROOT, raw, false)]
    + (if signature.Some? then [Entry(SIGNATURE, signature.value, false)] else [])
    + AsEntries(files)
  }

  // ----- the verifier ---------------------------------------------------------------------------------------------

  datatype Layout = Layout(manifest: Option<Entry>, signature: Option<Entry>, payload: seq<Entry>)

  /** One entry of the root. */
  function Place(l: Layout, e: Entry): Option<Layout> {
    if e.name == ROOT && l.manifest.None? then Some(l.(manifest := Some(e)))
    else if e.name == SIGNATURE && l.signature.None? then Some(l.(signature := Some(e)))
    else if PREFIX <= e.name && |e.name| > |PREFIX| then Some(l.(payload := l.payload + [e]))
    else None
  }

  function PlaceAll(entries: seq<Entry>): Option<Layout> {
    if entries == [] then Some(Layout(None, None, []))
    else
      match PlaceAll(entries[..|entries| - 1])
      case None => None
      case Some(l) => Place(l, entries[|entries| - 1])
  }

  /** How many entries have the name. */
  function CountOf(entries: seq<Entry>, name: string): nat {
    if entries == [] then 0
    else CountOf(entries[..|entries| - 1], name) + if entries[|entries| - 1].name == name then 1 else 0
  }

  /** The entries that are neither the manifest nor the signature, in order. */
  function Others(entries: seq<Entry>): seq<Entry> {
    if entries == [] then []
    else
      var rest, last := Others(entries[..|entries| - 1]), entries[|entries| - 1];
      if last.name == "p1x.json" || last.name == "p1x.json.minisig" then rest else rest + [last]
  }

  predicate IsPayloadName(name: string) {
    |name| > 8 && name[..8] == "payload/"
  }

  predicate AllPayload(entries: seq<Entry>) {
    forall i :: 0 <= i < |entries| ==> IsPayloadName(entries[i].name)
  }

  lemma OneMorePayload(entries: seq<Entry>, last: Entry)
    ensures AllPayload(entries + [last]) <==> AllPayload(entries) && IsPayloadName(last.name)
  {
    hide IsPayloadName;
    var all := entries + [last];
    assert all[|entries|] == last && forall i :: 0 <= i < |entries| ==> all[i] == entries[i];
  }

  /** The root is accepted if and only if it has at most one `p1x.json` and one `p1x.json.minisig`, and everything else
      lies under `payload/`; then these are what was found. */
  lemma {:induction false} LayoutMeans(entries: seq<Entry>)
    ensures PlaceAll(entries).Some? <==>
              && CountOf(entries, "p1x.json") <= 1 && CountOf(entries, "p1x.json.minisig") <= 1
              && AllPayload(Others(entries))
    ensures PlaceAll(entries).Some? ==>
              var l := PlaceAll(entries).value;
              && l.payload == Others(entries)
              && (l.manifest.Some? <==> CountOf(entries, "p1x.json") == 1)
              && (l.manifest.Some? ==> l.manifest.value in entries && l.manifest.value.name == "p1x.json")
              && (l.signature.Some? <==> CountOf(entries, "p1x.json.minisig") == 1)
              && (l.signature.Some? ==> l.signature.value in entries && l.signature.value.name == "p1x.json.minisig")
  {
    hide IsPayloadName, AllPayload;
    if entries == [] {
      assert AllPayload([]) by { NoPayload(); }
    } else {
      var init, last := entries[..|entries| - 1], entries[|entries| - 1];
      LayoutMeans(init);
      assert entries == init + [last];
      PayloadName(last.name);
      OneMorePayload(Others(init), last);
    }
  }

  lemma NoPayload()
    ensures AllPayload([])
  {
  }

  lemma PayloadName(name: string)
    ensures IsPayloadName(name) <==> PREFIX <= name && |name| > |PREFIX|
    ensures IsPayloadName(name) ==> name != "p1x.json" && name != "p1x.json.minisig"
  {
    if |name| >= 8 {
      assert name == name[..8] + name[8..];
      assert name[1] == name[..8][1];
    }
  }

  /** `layout`. */
  method CheckLayout(entries: seq<Entry>) returns (r: Result<Layout>)
    ensures r == if PlaceAll(entries).Some? && PlaceAll(entries).value.manifest.Some? then Ok(PlaceAll(entries).value)
                 else Refused(PackageInvalid)
  {
    hide Place;
    var l := Layout(None, None, []);
    var i := 0;
    while i < |entries|
      invariant i <= |entries| && PlaceAll(entries[..i]) == Some(l)
    {
      assert entries[..i + 1][..i] == entries[..i];
      var placed := Place(l, entries[i]);
      if placed.None? {
        Misplaced(entries, i + 1);
        return Refused(PackageInvalid);
      }
      l := placed.value;
      i := i + 1;
    }
    assert entries[..i] == entries;
    return if l.manifest.Some? then Ok(l) else Refused(PackageInvalid);
  }

  lemma {:induction false} Misplaced(entries: seq<Entry>, i: nat)
    requires i <= |entries| && PlaceAll(entries[..i]).None?
    ensures PlaceAll(entries).None?
    decreases |entries| - i
  {
    hide Place;
    if i == |entries| {
      assert entries[..i] == entries;
    } else {
      assert entries[..i + 1][..i] == entries[..i];
      Misplaced(entries, i + 1);
    }
  }

  /** The packer's root has the layout the verifier asks for, exactly when no payload file has an empty path. */
  lemma {:induction false} PayloadIsPlaced(files: seq<PayloadFile>, raw: seq<Byte>, signature: Option<seq<Byte>>)
    ensures var placed := PlaceAll(EntriesOf(files, raw, signature));
            && (placed.Some? <==> forall i :: 0 <= i < |files| ==> files[i].rel != [])
            && (placed.Some? ==>
                  placed.value
                  == Layout(Some(Entry(ROOT, raw, false)),
                            if signature.Some? then Some(Entry(SIGNATURE, signature.value, false)) else None,
                            AsEntries(files)))
    decreases |files|
  {
    var entries := EntriesOf(files, raw, signature);
    if files == [] {
      RootIsPlaced(raw, signature);
      assert AsEntries(files) == [];
      assert entries == EntriesOf([], raw, signature);
    } else {
      var init, last := files[..|files| - 1], files[|files| - 1];
      assert AsEntries(files) == AsEntries(init) + [Entry(PathOf(last), last.bytes, last.exec)];
      assert entries == EntriesOf(init, raw, signature) + [Entry(PathOf(last), last.bytes, last.exec)];
      assert entries[..|entries| - 1] == EntriesOf(init, raw, signature);
      PayloadIsPlaced(init, raw, signature);
      PathIsPayload(last);
    }
  }

  lemma PathIsPayload(f: PayloadFile)
    ensures PathOf(f) != ROOT && PathOf(f) != SIGNATURE && PREFIX <= PathOf(f)
    ensures |PathOf(f)| > |PREFIX| <==> f.rel != []
  {
    assert PathOf(f)[1] == 'a' && ROOT[1] == '1' && SIGNATURE[1] == '1';
  }

  lemma RootIsPlaced(raw: seq<Byte>, signature: Option<seq<Byte>>)
    ensures PlaceAll(EntriesOf([], raw, signature))
            == Some(Layout(Some(Entry(ROOT, raw, false)),
                           if signature.Some? then Some(Entry(SIGNATURE, signature.value, false)) else None, []))
  {
    var root := Entry(ROOT, raw, false);
    assert |SIGNATURE| != |ROOT|;
    assert PlaceAll([root]) == Some(Layout(Some(root), None, [])) by {
      assert [root][..0] == [];
    }
    assert AsEntries([]) == [];
    if signature.Some? {
      var sig := Entry(SIGNATURE, signature.value, false);
      assert EntriesOf([], raw, signature) == [root, sig] && [root, sig][..1] == [root];
    } else {
      assert EntriesOf([], raw, signature) == [root];
    }
  }

  // ----- the payload checks ---------------------------------------------------------------------------------------

  function Names(payload: seq<Entry>): set<string> {
    set i | 0 <= i < |payload| :: payload[i].name
  }

  predicate EntryAgrees(e: Entry, m: Manifest, hash: seq<Byte> -> string) {
    e.name in m.files && m.files[e.name] == FileEntry(hash(e.bytes), |e.bytes|, e.exec)
  }

  function Derived(payload: seq<Entry>): set<string> {
    set i | 0 <= i < |payload| && IsScript(payload[i].name, payload[i].exec, Head(payload[i].bytes, HEAD_BYTES)) ::
      payload[i].name
  }

  function Declared(m: Manifest): set<string> {
    set i | 0 <= i < |m.scripts| :: m.scripts[i]
  }

  /** What the checks of files and scripts come to: whether the script set is as listed. A listed set that differs
      refuses a signed package and is noted for an unsigned one. */
  method CheckPayload(payload: seq<Entry>, m: Manifest, hash: seq<Byte> -> string, isSigned: bool)
    returns (r: Result<bool>)
    ensures r.Ok? <==>
              && Names(payload) == m.files.Keys
              && (forall i :: 0 <= i < |payload| ==> EntryAgrees(payload[i], m, hash))
              && (isSigned ==> Derived(payload) == Declared(m))
    ensures r.Ok? ==> (r.value <==> Derived(payload) == Declared(m))
  {
    hide IsScript;
    if Names(payload) != m.files.Keys {
      return Refused(PackageInvalid);
    }
    var derived: set<string> := {};
    var i := 0;
    while i < |payload|
      invariant i <= |payload| && derived == Derived(payload[..i])
      invariant forall k :: 0 <= k < i ==> EntryAgrees(payload[k], m, hash)
    {
      var e := payload[i];
      assert e.name in Names(payload);
      var f := m.files[e.name];
      if |e.bytes| != f.size || hash(e.bytes) != f.digest {
        return Refused(DigestMismatch);
      }
      if e.exec != f.exec {
        return Refused(PackageInvalid);
      }
      OneMoreDerived(payload, i);
      if IsScript(e.name, e.exec, Head(e.bytes, HEAD_BYTES)) {
        derived := derived + {e.name};
      }
      i := i + 1;
    }
    assert payload[..i] == payload;
    if derived == Declared(m) {
      return Ok(true);
    }
    return if isSigned then Refused(ScriptsMismatch) else Ok(false);
  }

  lemma OneMoreDerived(payload: seq<Entry>, i: nat)
    requires i < |payload|
    ensures Derived(payload[..i + 1])
            == Derived(payload[..i])
               + (if IsScript(payload[i].name, payload[i].exec, Head(payload[i].bytes, HEAD_BYTES)) then
                    {payload[i].name}
                  else {})
  {
    hide IsScript;
    assert payload[..i + 1][i] == payload[i];
    assert forall k :: 0 <= k < i ==> payload[..i + 1][k] == payload[..i][k];
  }

  // ----- agreement ------------------------------------------------------------------------------------------------

  lemma {:induction false} ListedScripts(files: seq<PayloadFile>)
    ensures forall p :: p in ScriptList(files) <==>
              exists i :: 0 <= i < |files| && PathOf(files[i]) == p
                          && IsScript(PathOf(files[i]), files[i].exec, Head(files[i].bytes, 4))
  {
    hide IsScript;
    if files != [] {
      var init, last := files[..|files| - 1], files[|files| - 1];
      assert files == init + [last];
      ListedScripts(init);
    }
  }

  /** The script set derived from the archive, 512 bytes a file, is the one listed from the files, 4 bytes a file. */
  lemma ScriptSetsAgree(files: seq<PayloadFile>, table: map<string, FileEntry>)
    ensures Derived(AsEntries(files)) == Declared(Manifest(table, ScriptList(files)))
  {
    hide IsScript;
    ListedScripts(files);
    var entries, list := AsEntries(files), ScriptList(files);
    forall i | 0 <= i < |files|
      ensures IsScript(entries[i].name, entries[i].exec, Head(entries[i].bytes, HEAD_BYTES)) <==>
                IsScript(PathOf(files[i]), files[i].exec, Head(files[i].bytes, 4))
    {
      FourBytesSuffice(PathOf(files[i]), files[i].exec, files[i].bytes, HEAD_BYTES);
    }
    forall p ensures p in Derived(entries) <==> p in list {
      if p in Derived(entries) {
        var i :| 0 <= i < |entries| && entries[i].name == p
                 && IsScript(entries[i].name, entries[i].exec, Head(entries[i].bytes, HEAD_BYTES));
        assert PathOf(files[i]) == p;
      }
      if p in list {
        var i :| 0 <= i < |files| && PathOf(files[i]) == p
                 && IsScript(PathOf(files[i]), files[i].exec, Head(files[i].bytes, 4));
        assert entries[i].name == p;
      }
    }
    forall p ensures p in list <==> p in Declared(Manifest(table, list)) {}
  }

  /** What the packer produces passes every payload check of the verifier. */
  lemma PackedVerifies(files: seq<PayloadFile>, hash: seq<Byte> -> string)
    requires !Repeats(files)
    ensures var m := ManifestOf(files, hash);
            var payload := AsEntries(files);
            && Names(payload) == m.files.Keys
            && (forall i :: 0 <= i < |payload| ==> EntryAgrees(payload[i], m, hash))
            && Derived(payload) == Declared(m)
  {
    hide IsScript, Repeats, FileTable, ScriptList;
    TableKeys(files, hash);
    ScriptSetsAgree(files, FileTable(files, hash));
    var payload := AsEntries(files);
    forall p ensures p in Names(payload) <==> p in FileTable(files, hash) {
      if p in FileTable(files, hash) {
        var i :| 0 <= i < |files| && PathOf(files[i]) == p;
        assert payload[i].name == p;
      }
    }
  }

  /** Packing and then checking: the payload is found, and every check passes. What parses is read as it was written. */
  method PackAndCheck(files: seq<PayloadFile>, signature: Option<seq<Byte>>, hash: seq<Byte> -> string, format: Format)
    returns (r: Result<bool>)
    requires forall m :: format.parse(format.write(m)).Some? ==> format.parse(format.write(m)).value == m
    ensures r == Ok(true) <==>
              && !Repeats(files) && (forall i :: 0 <= i < |files| ==> files[i].rel != [])
              && format.parse(format.write(ManifestOf(SortFiles(files), hash))).Some?
  {
    hide Repeats, PlaceAll, IsScript, EntriesOf, SortFiles, FileTable, ScriptList;
    var prepared := Prepare(files, hash, format);
    if prepared.Refused? {
      return Refused(prepared.why);
    }
    var p := prepared.value;
    RepeatsOfSame(files, p.files);
    SameElements(files, p.files);
    PayloadIsPlaced(p.files, p.raw, signature);
    var l := CheckLayout(EntriesOf(p.files, p.raw, signature));
    if l.Refused? {
      return Refused(l.why);
    }
    PackedVerifies(p.files, hash);
    r := CheckPayload(l.value.payload, p.manifest, hash, l.value.signature.Some?);
  }

  lemma SameElements(files: seq<PayloadFile>, others: seq<PayloadFile>)
    requires multiset(files) == multiset(others)
    ensures (forall i :: 0 <= i < |files| ==> files[i].rel != []) <==>
              (forall i :: 0 <= i < |others| ==> others[i].rel != [])
  {
    forall i | 0 <= i < |files| ensures files[i] in others { assert files[i] in multiset(files); }
    forall i | 0 <= i < |others| ensures others[i] in files { assert others[i] in multiset(others); }
  }
}
