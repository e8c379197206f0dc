# Models of the plur1bus core

A Dafny project that models the self-contained algorithms behind the plur1bus crates and proves what they are for.
Where the code works step by step, the model does too: methods with loops, classes with fields, proved against a
specification; the theorems are about that specification. `dafny verify dfyconfig.toml` checks everything.

- **`BackgroundRpc.dfy`** the multi-threaded RPC client as a state machine: calls, a reader and closers interleave at
  every lock, and the theorems hold over every schedule.
- **`RpcClient.dfy`** the blocking RPC client: resumable framing, the poison flag, one call in flight, a bounded
  notification queue. The socket is a script of what each deadline check, read and write comes to.
- **`ZipAudit.dfy`, `ZipRules.dfy`, `ZipLayout.dfy`, `ZipWriter.dfy`, `Folding.dfy`** the strict ZIP audit. `ZipRules`
  says what a name and a central record must be, byte by byte and character by character. `ZipLayout` says what a
  well-formed archive is (APPNOTE.TXT sections 4.3.7, 4.3.9, 4.3.12 and 4.3.16) and that the audit accepts exactly its
  byte strings; `ZipWriter` has the round trip and the uniqueness of the reading; `Folding` gives the incremental
  collision index a meaning without an order.
- **`Package.dfy`, `PackedArchive.dfy`** packer and verifier agree on what the packer makes, from the files to the
  archive and back.
- **`ScalarUnions.dfy`, `UnionWalk.dfy`, `SchemaConstants.dfy`** the schema rewriting of the two generators, with a
  semantics of JSON Schema draft-07 (Validation sections 6.7.2 and 6.7.3 for `anyOf` and `oneOf`).
- **`Resolution.dfy`, `References.dfy`, `Redaction.dfy`, `UrlMask.dfy`, `UrlShape.dfy`, `PolicyRedaction.dfy`,
  `Disclosure.dfy`** redaction of configuration: references are resolved under a budget, `References` reads off the
  raw schema which marks survive that, `NodeCount` when the budget lasts, the projection masks what is protected, URLs
  lose their credentials, and all of it together hides what the schema protects. `ReferenceConflict.dfy` is the schema
  for which it does not.
- **`ConfigTree.dfy`** put, get, diff and defaults on configuration trees.
- **`Stack.dfy`** `up`, `down` and `upgrade_image` over a runtime in which every request can fail.
- **`Canonical.dfy`, `JsonText.dfy`** the texts and bytes that consent and content versions hash are injective, and
  the texts are JSON.
- **`LogDemux.dfy`** the incremental Docker log demultiplexer refines the batch decoder.
- **`Sftp.dfy`** session budgets, listings, and replies that fit their cap.
- **`Names.dfy`** name normalisation and the search for a bundle name.
- **`Bytes.dfy`, `Texts.dfy`, `Sequences.dfy`, `Json.dfy`, `Options.dfy`** shared definitions.

Where the code falls short of what one would like, there is a lemma for the case and the exact condition beside it:

- A union of an `integer` and a `number` branch loses the values both accept (`ScalarUnions.IntegerAndNumber`);
  `ScalarUnions.UnionExact` has the condition.
- A reference with a union beside it can come out of the walk as a scalar union that was not replaced
  (`UnionWalk.UnionBesideReference`); where no reference has one, nothing is left (`WalkLeavesNothing`), and in
  general nothing is left exactly if a second walk would change nothing (`UnchangedExactly`).
- Pinning a `const` forgets an `enum` beside it (`SchemaConstants.PinForgetsEnum`), and in the engine's generator the
  type too (`OverForgetsType`); splitting an `enum` forgets the type, the listed arrays and objects and a `oneOf`
  (`SplitForgetsArrays`, `SplitOverwritesOneOf`). The conditions in `PinExact`, `OverExact` and `SplitExact` are
  sufficient for every node, and necessary for nodes of nothing but type and values.
- A `create` that fails after the container exists, when it is connected to its egress network, leaves that container
  behind after a failed `up`: it is not among the created ones (`Stack.LeaveOneBehind`). A stack without egress
  networks is always restored, and every service with one can be left behind (`Stack.StackManager.Up`,
  `SomeScriptSpoils`).
- When a property and the target it overlays have different references, the outer one is followed and a mark behind
  the inner one is lost (`ReferenceConflict.SecondReferenceLost`, through to the redacted configuration). Which marks
  survive is computed from the raw schema by `References.Follows`, exactly (`References.PolicyProtectsExactly`); all
  of them do where no two different references come together (`References.Clear`, `ReachedIsProtected`,
  `ReachedExactly`).
- Acknowledged capabilities that are no object do not show the declared endpoints, and an own member `endpoints` is
  overwritten by them (`Canonical.EndpointsLost`, `EndpointsOverwritten`, `EndpointsForged`); the comment at
  `crates/plur1bus-ext/src/compat.rs:186` claims more. Objects without that member are exactly the blocks for which it
  holds (`Canonical.ConsentTellsExactly`). A manifest that went through `parse_manifest` has such a block, because its
  schema of `capabilities` is closed (`crates/plur1bus-ext/src/compat.rs:168-170`); the others arise only in a
  `P1xManifest` built in another way.

## Model

| member | source | states |
|---|---|---|
| `BackgroundRpc.WireIntegrity` | crates/plur1bus-rpc/src/client.rs:670-796 | In every schedule of calls, short writes, timeouts, cancellations, closes and poisoned locks the bytes written are the whole frames of distinct registered calls, then at most one proper prefix of the frame of one more; every call that waits for a reply or has one is among the whole frames. |
| `BackgroundRpc.NothingAfterTruncation` | crates/plur1bus-rpc/src/client.rs:737-796 | Once the stream ends inside a frame and nobody holds the writer lock, no byte is ever written again. |
| `BackgroundRpc.RepliesNeverCross` | crates/plur1bus-rpc/src/client.rs:856-895 | In every reachable state each call has been sent at most one outcome, what a call returned was sent to it and is what an earlier line the reader read says of this call (its own result or error, or the error of a line that names no call), or the refusal of the drain, and at most 64 calls are pending. |
| `BackgroundRpc.RepliesAreRead` | crates/plur1bus-rpc/src/client.rs:856-895 | The same for every delivery in a channel or in the hands of the reader: over all schedules it comes from an earlier dispatched line, read member by member, which took this call out of the pending map and no other delivery came from; a refusal comes from the drain alone. |
| `BackgroundRpc.LineIsDispatched` | crates/plur1bus-rpc/src/client.rs:856-895 | What each line does: a response to a pending call takes exactly that call out of the map and is on its way to it, an error with a null id goes to the only pending call, one to a call that is not pending and a line without an id change nothing, and any other id, or a line that is not JSON, ends the reader. |
| `BackgroundRpc.GivenStays` | crates/plur1bus-rpc/src/client.rs:856-895 | What the reader has taken for a call stays with it in every later state, and is in its reply channel once the reader has sent. |
| `BackgroundRpc.NoOrphans` | crates/plur1bus-rpc/src/client.rs:590-612 | After the first `finish` has drained the pending map it stays empty and nobody registers any more; every call that ever registered is answered, about to be answered, or has withdrawn itself. |
| `BackgroundRpc.AttributionIsUnique` | crates/plur1bus-rpc/src/client.rs:870-881 | An error line without an id is given to a call only when every other registered call that is still there has its answer already. |
| `BackgroundRpc.RunKeeps` | crates/plur1bus-rpc/src/client.rs:670-895 | The invariant over locks, phases, pending map, reply channels and bytes written holds in every state of every schedule, for some list of the calls whose frames are out. |
| `BackgroundRpc.StepKeeps` | crates/plur1bus-rpc/src/client.rs:670-895 | Every atomic step of every thread keeps that invariant. |
| `BackgroundRpc.StepFrame` | crates/plur1bus-rpc/src/client.rs:590-612 | No step undoes the drain, registers a call after it, or writes behind a torn frame. |
| `BackgroundRpc.RunFrame` | crates/plur1bus-rpc/src/client.rs:590-612 | The same between any two states of a schedule. |
| `BackgroundRpc.WirePuts` | crates/plur1bus-rpc/src/client.rs:758-789 | A write of any length by the holder of the writer lock extends its progress, and turns it into a whole frame exactly when the last byte is out. |
| `RpcClient.LinesJoin` | crates/plur1bus-rpc/src/client.rs:471-499 | Splitting at newlines loses nothing: joined by newlines the pieces are the bytes, and no piece has a newline. |
| `RpcClient.LinesOfJoin` | crates/plur1bus-rpc/src/client.rs:471-499 | Pieces without newlines come back from the joined bytes. |
| `RpcClient.LinesExtend` | crates/plur1bus-rpc/src/client.rs:483-489 | Bytes without a newline extend the piece that is not ended. |
| `RpcClient.LinesEnd` | crates/plur1bus-rpc/src/client.rs:490-494 | A newline ends that piece and starts an empty one. |
| `RpcClient.Client.constructor` | crates/plur1bus-rpc/src/client.rs:225-234 | A new client is valid, not poisoned, without a call and without a queue. |
| `RpcClient.Client.Absorb` | crates/plur1bus-rpc/src/client.rs:483-497 | The bytes up to the first newline, as far as the cap allows, are consumed; the lines delivered and the bytes kept are the consumed bytes split at newlines; a line is too long exactly when the buffer outgrows the cap. |
| `RpcClient.Client.ReadLine` | crates/plur1bus-rpc/src/client.rs:471-499 | For every chunking and every interruption a delivered line is the next piece of the stream, at most MAX_LINE bytes; the buffer stays within MAX_LINE + 1; reading ends without a line only for a line over the cap or a stop of the stream, and reports that stop. |
| `RpcClient.Client.EnableNotifications` | crates/plur1bus-rpc/src/client.rs:227-234 | Notifications read from now on are kept; enabling twice changes nothing. |
| `RpcClient.Client.TakeNotification` | crates/plur1bus-rpc/src/client.rs:237-253 | Gives the oldest queued notification and keeps the byte count right; refuses exactly when poisoned or not enabled. |
| `RpcClient.Client.NextNotification` | crates/plur1bus-rpc/src/client.rs:257-291 | Gives the oldest queued notification, else the next one read; `None` only at a deadline; any other stop of the stream, an over-long line and a line that is no notification are errors; a closed or broken stream and an over-long line poison. |
| `RpcClient.Client.ReadNotification` | crates/plur1bus-rpc/src/client.rs:266-290 | The loop behind it, with the reason of every failure. |
| `RpcClient.Client.QueueNotification` | crates/plur1bus-rpc/src/client.rs:293-309 | A notification is queued exactly when there is room for it within 256 frames and 8 MiB; one that finds no room poisons the client. |
| `RpcClient.Client.WriteFrame` | crates/plur1bus-rpc/src/client.rs:348-371 | What goes out is a prefix of the frame, all of it when the stream does not stop; a failure is a stop of the stream. |
| `RpcClient.Client.StartCall` | crates/plur1bus-rpc/src/client.rs:328-378 | A frame with the next, larger id goes out whole, or the client is poisoned and at most a prefix is on the wire; at most one call is in flight. |
| `RpcClient.Client.ResponseLine` | crates/plur1bus-rpc/src/client.rs:438-468 | A line is passed over exactly when it is empty, a notification or a reply to another call; otherwise it settles the call with the verdict the line has. |
| `RpcClient.Client.PollResponse` | crates/plur1bus-rpc/src/client.rs:406-436 | All lines before the one that settles the call were rightly passed over; `None` only at a deadline; every failure is a stop of the stream, a line over the cap, a full queue, or what the settling line says. |
| `RpcClient.Client.PollCall` | crates/plur1bus-rpc/src/client.rs:385-404 | The same for the pending call, which survives exactly the deadline; a closed or broken stream poisons for good, and a poisoned client never reads again. |
| `RpcClient.Client.BlockingCall` | crates/plur1bus-rpc/src/client.rs:311-325 | A result comes from the line that settles the id this call sent; without a reply at the deadline the client is poisoned; every failure has one of the reasons of starting or polling. |
| `RpcClient.ResultHasTheId` | crates/plur1bus-rpc/src/client.rs:453-467 | A settling line with a result has the id of the call, the result and no error, so late replies to abandoned calls are never taken. |
| `RpcClient.LineMeans` | crates/plur1bus-rpc/src/client.rs:438-468 | What a line is to a call, by the members of its JSON object: a notification, passed over, an error that is handed on, a result, or a protocol error; an error counts before a result. |
| `ZipAudit.AuditZip` | crates/plur1bus-ext/src/zipaudit.rs:183-382 | The audit, with its loops, computes the function of the file that the theorems below are about. |
| `ZipAudit.ScanDirectory` | crates/plur1bus-ext/src/zipaudit.rs:244-333 | The loop over the central directory, against its specification. |
| `ZipAudit.WalkLocals` | crates/plur1bus-ext/src/zipaudit.rs:335-358 | The loop over the local headers, against its specification. |
| `ZipAudit.ScanExtra` | crates/plur1bus-ext/src/zipaudit.rs:156-168 | The scan of an extra block finds a forbidden field exactly when the block, taken apart field by field, has one. |
| `ZipAudit.ForbiddenExtraMeans` | crates/plur1bus-ext/src/zipaudit.rs:156-168 | An extra block is refused if and only if a forbidden id stands at a field head that is reached from its start, each head where the field before it ends; the field itself may be cut off. |
| `ZipAudit.RecordAt` | crates/plur1bus-ext/src/zipaudit.rs:251-266 | A record that is read is a central record and lies in the directory at that place. |
| `ZipLayout.AuditExact` | crates/plur1bus-ext/src/zipaudit.rs:183-462 | A file is accepted if and only if it is the byte string of a well-formed archive: local records without gap or overlap, central records whose bytes meet `RecordOk`, one end record, each local record agreeing with its central one, names that can be told apart, sizes within the limits. |
| `ZipLayout.AcceptedIsSafe` | crates/plur1bus-ext/src/zipaudit.rs:464-556 | Every entry of an accepted file has a safe name (no empty, `.` or `..` piece between slashes, none that ends in a dot or a space or names a Windows device, no barred character), in NFC, within the segment, size and ratio limits, and no two names can be confused. |
| `ZipRules.NameMeans` | crates/plur1bus-ext/src/zipaudit.rs:464-556 | A name is let through if and only if its bytes decode, within the length limit, to a text in NFC with at most so many slashes, without control or bidirectional characters, backslash or what Windows forbids, whose pieces, each a run without slash between two slashes or ends, are all safe; it comes back as it is. |
| `ZipRules.NamesDeviceMeans` | crates/plur1bus-ext/src/zipaudit.rs:464-482 | A segment is reserved if and only if before its first dot it spells, in any case, a device, followed by spaces alone. |
| `ZipRules.SegmentsArePieces` | crates/plur1bus-ext/src/zipaudit.rs:545-558 | All segments of the split are safe if and only if every run without slash between two slashes or ends is. |
| `ZipRules.TypeMeans` | crates/plur1bus-ext/src/zipaudit.rs:605-627 | Exactly the external attributes of a regular file pass, read bit by bit, with the exec bit if any of the three execute bits is set. |
| `ZipRules.RecordMeans` | crates/plur1bus-ext/src/zipaudit.rs:251-313 | A central record passes if and only if its bytes say what they must: signature, flag bits, method, no ZIP64 value, first disk, no overriding extra field, a good name, a regular file, sizes within entry and ratio limits. It is read as these bytes say, little-endian, and the two other reasons of refusal are told apart. |
| `ZipLayout.AuditSound` | crates/plur1bus-ext/src/zipaudit.rs:183-382 | Every accepted file is taken apart into such an archive, byte for byte, and the entries returned are its central records with the offsets of its data. |
| `ZipLayout.AuditComplete` | crates/plur1bus-ext/src/zipaudit.rs:183-382 | The byte string of every well-formed archive is accepted, with those entries. |
| `ZipLayout.ScanSound` | crates/plur1bus-ext/src/zipaudit.rs:251-333 | A successful scan has read a sequence of records that fill the bytes it passed over, each acceptable and none colliding. |
| `ZipLayout.ScanComplete` | crates/plur1bus-ext/src/zipaudit.rs:251-333 | Acceptable records that lie one after another are scanned. |
| `ZipLayout.LocalSound` | crates/plur1bus-ext/src/zipaudit.rs:385-462 | A checked local header belongs to a local record that agrees with the central one and fills the bytes up to the reported end. |
| `ZipLayout.LocalComplete` | crates/plur1bus-ext/src/zipaudit.rs:385-462 | A local record that agrees, with its descriptor of 0, 12 or 16 bytes, is checked to exactly its end. |
| `ZipLayout.DescriptorComplete` | crates/plur1bus-ext/src/zipaudit.rs:441-459 | With the next local header or the directory behind it, a data descriptor with or without signature is measured right. |
| `ZipLayout.WalkSound` | crates/plur1bus-ext/src/zipaudit.rs:335-358 | A successful walk has found local records that fill the bytes from its start to the central directory. |
| `ZipLayout.WalkComplete` | crates/plur1bus-ext/src/zipaudit.rs:335-358 | Local records where their central records say are walked over. |
| `ZipLayout.SortPermutes` | crates/plur1bus-ext/src/zipaudit.rs:335-337 | The order of the walk visits every entry once. |
| `ZipLayout.PlaceIsSorted` | crates/plur1bus-ext/src/zipaudit.rs:335-337 | The order in which the local records lie is the order the sort finds. |
| `ZipLayout.AscendingIsUnique` | crates/plur1bus-ext/src/zipaudit.rs:335-337 | No other order of the entries is ascending. |
| `ZipLayout.EocdMeaning` | crates/plur1bus-ext/src/zipaudit.rs:213-243 | The checks on the end record pass exactly for one end record without comment, ZIP64 or further disks whose directory ends at it. |
| `ZipWriter.DataRangesDisjoint` | crates/plur1bus-ext/src/zipaudit.rs:339-358 | In an accepted file the data ranges of two entries do not overlap and lie before the central directory. |
| `ZipWriter.DecompositionIsUnique` | crates/plur1bus-ext/src/zipaudit.rs:183-462 | No file has two readings: two well-formed archives with the same bytes are the same. |
| `ZipWriter.RecordsAreDelimited` | crates/plur1bus-ext/src/zipaudit.rs:251-266 | A run of central records is taken apart in one way. |
| `ZipWriter.LocalsAreDetermined` | crates/plur1bus-ext/src/zipaudit.rs:385-462 | The local records are determined by the bytes and the central records. |
| `ZipWriter.EntryData` | crates/plur1bus-ext/src/zipaudit.rs:360-376 | The bytes an entry points at are the data of its local record. |
| `ZipWriter.WriterRoundTrip` | crates/plur1bus-ext/src/zipaudit.rs:183-462 | What a writer following the layout makes of acceptable members, stored or deflated, with sizes in the header or in a signed descriptor, is accepted and read back in order: names, methods, sizes, checksums, exec bits and data. |
| `ZipWriter.AcceptedIffPackable` | crates/plur1bus-ext/src/zipaudit.rs:183-382 | Of the archives the writer writes the audit accepts exactly those whose members have names that are safe character by character and can be told apart, regular file types and sizes within the limits, none of it said with the functions of the audit. |
| `ZipWriter.WrittenIsWellFormed` | crates/plur1bus-ext/src/zipaudit.rs:183-462 | What that writer makes is a well-formed archive. |
| `Folding.Folded.Insert` | crates/plur1bus-ext/src/zipaudit.rs:569-603 | The loop over the slashes of a name, against the specification of one insertion. |
| `Folding.AcceptedIffCompatible` | crates/plur1bus-ext/src/zipaudit.rs:558-603 | Names are accepted one after another exactly when no two files fold equal, no file folds equal to an implied directory, its own included, and every folded directory has one spelling; for any fold. |
| `Folding.OrderIsIrrelevant` | crates/plur1bus-ext/src/zipaudit.rs:558-603 | The verdict is the same for every order of the names. |
| `Folding.AddDirsMeaning` | crates/plur1bus-ext/src/zipaudit.rs:582-600 | The directories of one name are taken exactly when they fit the index and each other. |
| `Folding.DirsArePrefixes` | crates/plur1bus-ext/src/zipaudit.rs:582-583 | The implied directories are the prefixes before the slashes. |
| `Package.PackAndCheck` | crates/plur1bus-ext/src/verify.rs:320-387 | A packed payload passes layout, file set, digests, exec bits and script set exactly when no path appears twice, none is empty and the manifest written parses. |
| `PackedArchive.CheckedZip` | crates/plur1bus-ext/src/pack.rs:186-190 | Entries are written and handed out exactly when the audit accepts the archive. |
| `PackedArchive.PackFiles` | crates/plur1bus-ext/src/pack.rs:193-217 | Packing succeeds exactly when no path repeats, the manifest written parses, and the entries are packable; what is handed out is the archive written of them. |
| `PackedArchive.PackedPaths` | crates/plur1bus-ext/src/pack.rs:193-217 | What can be packed has no empty path and no two files whose paths fold equal. |
| `PackedArchive.WrittenIsUnpacked` | crates/plur1bus-ext/src/pack.rs:85-106 | The entries read from an archive that was handed out are the ones written into it, in order, byte for byte. |
| `PackedArchive.Inspect` | crates/plur1bus-ext/src/verify.rs:320-387 | The verifier passes a file exactly when the audit accepts it, every entry inflates to its size and checksum, the root is laid out as it should be, the manifest parses, and files, digests, exec bits and, if signed, the script set agree. |
| `PackedArchive.UnpackedMeans` | crates/plur1bus-ext/src/zipaudit.rs:668-720 | An entry is read exactly if its data lie in the file and are, inflated where they were deflated, bytes of the declared length and checksum. |
| `PackedArchive.AllUnpackedMeans` | crates/plur1bus-ext/src/verify.rs:330-345 | An archive is read exactly if each of its entries is, in order. |
| `PackedArchive.PackAndInspect` | crates/plur1bus-ext/src/pack.rs:193-217 | Packing and then inspecting: an archive is handed out exactly when the files can be packed, and then the verifier passes it with its scripts listed. |
| `PackedArchive.SomeCodecIsFaithful` | crates/plur1bus-ext/src/pack.rs:85-106 | There are text and byte codecs as the round trip asks for. |
| `Package.PackedVerifies` | crates/plur1bus-ext/src/verify.rs:320-387 | What the packer lists passes every payload check of the verifier. |
| `Package.ScriptSetsAgree` | crates/plur1bus-ext/src/verify.rs:350-371 | The script set derived from 512 head bytes is the one listed from 4. |
| `Package.FourBytesSuffice` | crates/plur1bus-ext/src/scripts.rs:17-31 | Any head of at least four bytes gives the same verdict on a script. |
| `Package.ScriptsAre` | crates/plur1bus-ext/src/scripts.rs:17-31 | The script set is exactly the executables, what starts with `#!`, `MZ` or an ELF or Mach-O magic number, and what has `scripts` or `bin` between two slashes, or before the first, of its path. |
| `Package.Prepare` | crates/plur1bus-ext/src/pack.rs:117-165 | The files are sorted by path and listed, the manifest made of them is written and parsed; refused exactly when a path repeats or the written manifest does not parse. |
| `Package.ListFiles` | crates/plur1bus-ext/src/pack.rs:130-152 | The loop over the sorted files: their table and script list, refused exactly when a path repeats. |
| `Package.OrderIsIrrelevant` | crates/plur1bus-ext/src/pack.rs:129-129 | The order in which the files come decides neither the refusal nor what is listed. |
| `Package.CheckLayout` | crates/plur1bus-ext/src/verify.rs:120-136 | The loop of `layout`, against its specification. |
| `Package.LayoutMeans` | crates/plur1bus-ext/src/verify.rs:119-138 | A root is placed if and only if it has at most one `p1x.json`, at most one `p1x.json.minisig`, and nothing else outside `payload/`; the parts found are these and the others in order. |
| `Package.PayloadIsPlaced` | crates/plur1bus-ext/src/pack.rs:168-184 | The archive root the packer lays out is accepted by the verifier exactly when no payload path is empty, with the payload in order. |
| `Package.CheckPayload` | crates/plur1bus-ext/src/verify.rs:320-387 | The checks pass exactly when the archive and the manifest have the same files, every file agrees with its entry, and, for a signed package, the script sets are equal. |
| `ScalarUnions.ScalarBranches` | crates/plur1bus-rpc/build.rs:55-96 | Ends on every definitions graph, cyclic ones included, computes the scalar branches, and gives back `seen` as it was whenever it succeeds. |
| `ScalarUnions.UnionExact` | crates/plur1bus-rpc/build.rs:98-151 | For unions of the intended shape the `oneOf` that is written accepts the same values as the `anyOf` it replaces, for every value, if and only if the integer and the number group share no value, which is decidable from the groups. |
| `ScalarUnions.UnionMeaning` | crates/plur1bus-rpc/build.rs:98-151 | The rewritten union accepts exactly the values of the old one that are not in both number groups. |
| `ScalarUnions.BranchesMean` | crates/plur1bus-rpc/build.rs:55-96 | The scalar branches of a shaped node, through nested unions and references, accept together what the node accepts. |
| `ScalarUnions.GroupsMean` | crates/plur1bus-rpc/build.rs:113-129 | A value is accepted by a branch exactly when it is in a group. |
| `ScalarUnions.AlternativesMean` | crates/plur1bus-rpc/build.rs:131-147 | The alternatives accept a value exactly when some group has it and not both number groups do. |
| `ScalarUnions.RewriteMeans` | crates/plur1bus-rpc/build.rs:105-150 | A rewritten node accepts what it accepted, its other keywords included. |
| `ScalarUnions.PassMeans` | crates/plur1bus-rpc/build.rs:27-53 | The walk over all subschemas keeps the accepted values of every shaped schema. |
| `ScalarUnions.NormalizeKeepsMeaning` | crates/plur1bus-rpc/build.rs:100-151 | The whole rewriting keeps the accepted values of a schema and of all its definitions, under every interpretation of the references that satisfies them. |
| `UnionWalk.WalkMeans` | crates/plur1bus-rpc/build.rs:27-151 | Position by position, each a path of hops over the keywords that hold schemas: a position outside replaced alternatives is there after the walk exactly when it was before; a node with an `anyOf` that comes down to scalars has, for it, a `oneOf` with one branch for each type of those scalars, of pairwise different types, with their values once each unless one lists none; every other node keeps its members; what holds no schemas stays. |
| `UnionWalk.BranchesComeDown` | crates/plur1bus-rpc/build.rs:55-96 | A node has scalar branches if and only if every way down from it, through alternatives and references with their siblings laid over the target and none followed in a circle, goes on until it ends at a scalar. |
| `UnionWalk.BranchesAreScalars` | crates/plur1bus-rpc/build.rs:55-96 | The branches are exactly the scalars at the ends of those ways. |
| `UnionWalk.AlternativesMeant` | crates/plur1bus-rpc/build.rs:113-147 | What is written for a union is one branch for each type of the scalars below it, no two of one type. |
| `UnionWalk.WalkLeavesNothing` | crates/plur1bus-rpc/build.rs:27-151 | Where no reference has a union beside it, no position of the walked schema still has an `anyOf` that comes down to scalars. |
| `UnionWalk.NormalizeLeavesNothing` | crates/plur1bus-rpc/build.rs:98-151 | The same for the whole rewriting, with the definitions of the root; another walk changes nothing. |
| `UnionWalk.UnchangedExactly` | crates/plur1bus-rpc/build.rs:27-151 | The walk changes a schema if and only if a scalar union stands at one of its positions, so it leaves none if and only if a second walk would change nothing. |
| `UnionWalk.UnionBesideReference` | crates/plur1bus-rpc/build.rs:60-76 | A reference to a string with a union beside it, whose inner union refers to the same string, is kept on the first walk and comes down to scalars after it. |
| `ScalarUnions.PassKeepsAlternative` | crates/plur1bus-rpc/build.rs:27-53 | The walk, which goes on into what has just been written, leaves the new alternatives alone. |
| `ScalarUnions.OverlapsShares` | crates/plur1bus-rpc/build.rs:113-147 | When the groups overlap there is a value that the old union accepts and the new one does not. |
| `ScalarUnions.SharedOverlaps` | crates/plur1bus-rpc/build.rs:113-147 | A value in both number groups shows up in the decidable overlap. |
| `ScalarUnions.IntegerAndNumber` | crates/plur1bus-rpc/build.rs:113-147 | A union of an integer and a number accepts 0; rewritten, it does not. |
| `ScalarUnions.SchemaNode.Normalize` | crates/plur1bus-rpc/build.rs:105-150 | The closure that rewrites one node in place. |
| `ScalarUnions.Group` | crates/plur1bus-engine/build.rs:99-115 | The loop that groups the branches by type. |
| `ScalarUnions.Collect` | crates/plur1bus-engine/build.rs:117-132 | The loop that writes one alternative a group. |
| `ScalarUnions.DropRepeats` | crates/plur1bus-engine/build.rs:122-127 | The loop that drops repeated values. |
| `SchemaConstants.PinExact` | crates/plur1bus-rpc/build.rs:263-280 | Pinning a constant keeps the accepted values if an `enum` beside it has the constant or the type refuses it; for nodes of nothing but type and values, only then. |
| `SchemaConstants.PinForgetsEnum` | crates/plur1bus-rpc/build.rs:263-280 | A `const` beside an `enum` without it: no value is accepted before, the constant is after. |
| `SchemaConstants.PinnedMeans` | crates/plur1bus-rpc/build.rs:263-280 | What a pinned node accepts. |
| `SchemaConstants.ConstantNode.Pin` | crates/plur1bus-rpc/build.rs:266-280 | `pin_const` in place. |
| `SchemaConstants.OverExact` | crates/plur1bus-engine/build.rs:183-192 | The engine generator, which overwrites the type, keeps the accepted values if type and `enum` beside the constant allow it; for nodes of nothing but type and values, only then. |
| `SchemaConstants.OverForgetsType` | crates/plur1bus-engine/build.rs:183-192 | A `const` beside a type that refuses it: no value is accepted before, the constant is after. |
| `SchemaConstants.OverMeans` | crates/plur1bus-engine/build.rs:183-192 | What a node pinned that way accepts. |
| `SchemaConstants.ConstantNode.PinEngine` | crates/plur1bus-engine/build.rs:183-192 | That pinning in place; it stops on structured constants. |
| `SchemaConstants.SplitExact` | crates/plur1bus-engine/build.rs:193-221 | Splitting an `enum` of several JSON types keeps the accepted values of any node without an own `oneOf` if the type beside it allows the listed scalars and none of the listed arrays and objects; for nodes of nothing but type and `enum`, only then. |
| `SchemaConstants.SplitNodeMeans` | crates/plur1bus-engine/build.rs:193-221 | A split node that is no reference accepts exactly the listed scalars that its other keywords accept, whatever its type and own `oneOf`. |
| `SchemaConstants.SplitForgetsArrays` | crates/plur1bus-engine/build.rs:193-221 | A listed array is accepted before and refused after. |
| `SchemaConstants.SplitForgetsOneOf` | crates/plur1bus-engine/build.rs:193-221 | An own `oneOf` makes no difference to the split node. |
| `SchemaConstants.SplitOverwritesOneOf` | crates/plur1bus-engine/build.rs:193-221 | A node whose own `oneOf` accepts nothing accepts a listed value once it is split. |
| `SchemaConstants.SplitMeans` | crates/plur1bus-engine/build.rs:206-219 | The branches accept exactly the equals of the listed scalars. |
| `SchemaConstants.GroupValues` | crates/plur1bus-engine/build.rs:197-207 | The loop that groups the values by JSON type. |
| `SchemaConstants.ConstantNode.SplitMixed` | crates/plur1bus-engine/build.rs:196-221 | The split in place. |
| `PolicyRedaction.RedactionHides` | crates/plur1bus-config/src/sensitive.rs:291-300 | A text at a position of the value that the raw schema marks along the references that are followed is shown as the mask (an endpoint perhaps as its URL without credentials), unless it is in a secret reference that is kept; the steps of the position are read off the raw schema too. |
| `PolicyRedaction.ReachedIsHidden` | crates/plur1bus-config/src/sensitive.rs:291-300 | The same for every mark the raw schema reaches over any references, if along the path no two different references come together. |
| `PolicyRedaction.KeyedProtects` | crates/plur1bus-config/src/resolution.rs:205-258 | A position of the value marked along the followed references is protected in the resolved schema, at the place where the projection looks. |
| `PolicyRedaction.StepIs` | crates/plur1bus-config/src/sensitive.rs:46-88 | The step the projection takes for a key is determined by the raw nodes that come together. |
| `PolicyRedaction.RedactedTwice` | crates/plur1bus-config/src/sensitive.rs:291-300 | Redacting twice, each time with the schema prepared for the value at hand, is redacting once. |
| `PolicyRedaction.RedactedShape` | crates/plur1bus-config/src/sensitive.rs:285-300 | A redacted configuration has the kinds, keys and lengths of the original. |
| `PolicyRedaction.ProtectedIsMasked` | crates/plur1bus-config/src/sensitive.rs:143-231 | With a prepared schema the projection masks every text at a protected position. |
| `PolicyRedaction.AlongResolved` | crates/plur1bus-config/src/resolution.rs:205-258 | Along every path of the value the prepared schema carries no `x-value-schema`, and the values reach every step. |
| `PolicyRedaction.ShapesDecide` | crates/plur1bus-config/src/resolution.rs:205-258 | The prepared schema depends on the shapes of the values alone. |
| `Redaction.DisplayKeepsShape` | crates/plur1bus-config/src/sensitive.rs:143-231 | The display keeps every JSON kind, key set and array length. |
| `Redaction.DisplayTwice` | crates/plur1bus-config/src/sensitive.rs:143-231 | Projecting twice is projecting once, whatever the reference matcher makes of the masked values. |
| `Redaction.DisplayHides` | crates/plur1bus-config/src/sensitive.rs:143-231 | Two values that differ only in secret texts, in sensitive numbers and booleans and in the credentials of endpoint URLs, all told by the members of the schema, are displayed the same. |
| `Disclosure.TextDisclosed` | crates/plur1bus-config/src/sensitive.rs:81-231 | Anywhere in a configuration, outside references that are shown, a text is shown as the mask exactly if a schema on the way marks it sensitive or declares secret references, or if neither the last schema nor its `x-value-schema` has a type, values or a mark while the last word on unknown members does not make them public (the same for the schema of its items), or if its type excludes texts; as a URL without credentials if one is marked so and none of this holds; and as itself in every other case. |
| `Disclosure.NumberDisclosed` | crates/plur1bus-config/src/sensitive.rs:81-231 | Numbers and booleans are 0 and false exactly at sensitive positions, and shown elsewhere. |
| `Disclosure.ReferenceDisclosed` | crates/plur1bus-config/src/sensitive.rs:144-152 | A reference the matcher allows, not below one that is shown already and not at a URL position, is shown whole. |
| `Disclosure.InheritedMeans` | crates/plur1bus-config/src/sensitive.rs:81-126 | What is handed down along a path: sensitive and URL marks of any schema above, and the last word on unknown members. |
| `Disclosure.CredentialsMean` | crates/plur1bus-config/src/sensitive.rs:416-430 | A URL counts as having credentials exactly with userinfo, with a fragment that is not empty, or with an `=` in its query. |
| `Disclosure.KeysMean` | crates/plur1bus-config/src/sensitive.rs:143-240 | The keys that are reported are exactly the dotted paths of the values that are replaced and noted, everything on the way being taken apart. |
| `Redaction.TextIsShown` | crates/plur1bus-config/src/sensitive.rs:143-231 | What the display makes of one text, by the members of its schema and what is handed down. |
| `Redaction.ArchiveJudges` | crates/plur1bus-config/src/sensitive.rs:143-231 | What the archive makes of any value and whether it reports the key, by the members of the schema: sensitive values are replaced whole unless they are taken apart, empty or null, other secret texts are replaced, URLs lose their credentials. |
| `Redaction.FlagsMean` | crates/plur1bus-config/src/sensitive.rs:81-126 | The flags of a position, each by the members of its schema, of the `x-value-schema` and of the schema of its items. |
| `Redaction.NothingNotedNothingChanged` | crates/plur1bus-config/src/sensitive.rs:256-283 | An archive for which no key is reported is the value itself. |
| `Redaction.Projection.Run` | crates/plur1bus-config/src/sensitive.rs:144-230 | The recursive projection, with the key set it fills, against its specification. |
| `Redaction.Projection.RunItems` | crates/plur1bus-config/src/sensitive.rs:199-212 | Its loop over the items of an array. |
| `Redaction.Projection.RunFields` | crates/plur1bus-config/src/sensitive.rs:213-227 | Its loop over the members of an object, in any order. |
| `UrlMask.MaskTwice` | crates/plur1bus-config/src/sensitive.rs:449-471 | Masking twice is masking once, on every string. |
| `UrlShape.MaskMeans` | crates/plur1bus-config/src/sensitive.rs:387-471 | By the shape of the URL: where the normalised text is a lead (a special scheme in any case with any slashes, two or more slashes, or any other scheme with `//`), userinfo without a character that ends the authority, `@`, a host without `@`, and a tail that is empty or starts with such a character, the result is lead, mask, `@`, host and the masked tail; a text of no such shape keeps everything before its query. |
| `UrlShape.UserinfoMeans` | crates/plur1bus-config/src/sensitive.rs:387-414 | The userinfo is found exactly where that shape has it, and only in texts of that shape. |
| `UrlShape.TailMeans` | crates/plur1bus-config/src/sensitive.rs:455-470 | Path, query and fragment, each as it stands behind its mark: the path stays and the other two are masked parameter by parameter, the fragment also where a parameter has no value. |
| `UrlShape.ParametersMean` | crates/plur1bus-config/src/sensitive.rs:437-447 | Of parameters between `&` each named one keeps its name and has the mask for its value; one without `=` is the mask where it is private and not empty, and stays otherwise. |
| `UrlShape.NormalizedMeans` | crates/plur1bus-config/src/sensitive.rs:353-359 | Blanks around the text are taken off and what is between them goes on without its line breaks. |
| `UrlShape.BreaksMean` | crates/plur1bus-config/src/sensitive.rs:353-359 | Exactly tabs, line feeds and carriage returns are dropped, whatever stands around them. |
| `UrlShape.AlikeByShape` | crates/plur1bus-config/src/sensitive.rs:449-471 | Two strings look the same once they are masked if and only if they differ at most in credentials, by their shape: userinfo behind the same lead in both or none in either, the same host and path, the same parameter names in query and fragment, with values in the same places. |
| `UrlShape.NoUserSurvives` | crates/plur1bus-config/src/sensitive.rs:387-414 | Whatever way a masked text is taken apart by that shape, its userinfo is the mask. |
| `UrlMask.NoValueSurvives` | crates/plur1bus-config/src/sensitive.rs:437-447 | Every parameter of a masked query or fragment that has a value has the mask for it. |
| `UrlMask.ParametersStay` | crates/plur1bus-config/src/sensitive.rs:437-447 | The parameters stay apart, each masked by itself under its own name. |
| `UrlMask.HostStays` | crates/plur1bus-config/src/sensitive.rs:449-471 | Before the query a masked text differs from the normalised one in the userinfo alone; without userinfo it does not differ. |
| `UrlMask.RangeIsLocal` | crates/plur1bus-config/src/sensitive.rs:387-414 | The userinfo depends on the text before the first `?` or `#` alone. |
| `UrlMask.MaskedRange` | crates/plur1bus-config/src/sensitive.rs:451-452 | In the masked text the userinfo is found again, and is the mask. |
| `UrlMask.MaskTailTwice` | crates/plur1bus-config/src/sensitive.rs:455-470 | The values of query and fragment are settled by one masking, which keeps what is before them. |
| `UrlMask.NormalizedHead` | crates/plur1bus-config/src/sensitive.rs:353-359 | Trimming and dropping line breaks act on the part before the query as on the whole. |
| `Resolution.MergeKeeps` | crates/plur1bus-config/src/resolution.rs:41-140 | A merge protects every nested property, item and additional position that either side protects, by either mark. |
| `Resolution.MergeMarks` | crates/plur1bus-config/src/resolution.rs:41-140 | The marks a merge puts on a node: a URL mark exactly when either side has it, `x-sensitive` exactly then too or when the two declare different secret references. |
| `Resolution.MergedReference` | crates/plur1bus-config/src/resolution.rs:93-102 | Of two references brought together the wrapper's stays. |
| `Resolution.MergeNodes` | crates/plur1bus-config/src/resolution.rs:41-140 | The loop of `merge`, in any order of the members. |
| `Resolution.FlattenMetadata` | crates/plur1bus-config/src/resolution.rs:142-154 | The loop of `flatten_metadata`, with its budget. |
| `Resolution.FlattenKeeps` | crates/plur1bus-config/src/resolution.rs:142-154 | Flattening protects whatever the node or its chain of metadata protects. |
| `Resolution.FlattenBudget` | crates/plur1bus-config/src/resolution.rs:142-154 | A smaller budget gives the same node or hides it. |
| `Resolution.ResolveNode` | crates/plur1bus-config/src/resolution.rs:156-199 | The recursion of `resolve_head` ends by its budget, and takes out of `visited` what it put in. |
| `Resolution.HeadKeeps` | crates/plur1bus-config/src/resolution.rs:156-199 | Whatever the node or a target on the way of its references protects, at any path, the resolved head protects. |
| `Resolution.HeadIsMarked` | crates/plur1bus-config/src/resolution.rs:156-199 | A mark on the node, in its metadata or on a target reached is a member of the resolved head, or the head is sensitive. |
| `Resolution.HeadIsFlat` | crates/plur1bus-config/src/resolution.rs:156-199 | A resolved head has no `x-value-schema` left. |
| `Resolution.Resolve` | crates/plur1bus-config/src/resolution.rs:205-258 | The recursion of `resolve`, with its partition of the values, computes the resolved schema; it ends on cyclic schemas because the values are finite. |
| `Resolution.Partition` | crates/plur1bus-config/src/resolution.rs:216-241 | Each member of the values is listed with its property, else with the additional ones, and with the items if its name is a number. |
| `Resolution.ResolvedParts` | crates/plur1bus-config/src/resolution.rs:242-257 | Each part of the resolved schema is the part of the head, resolved for exactly the members that belong there; all other members are the head's. |
| `Resolution.HeadIsKept` | crates/plur1bus-config/src/resolution.rs:205-258 | Whatever the head protects, reached by values or not, the resolved schema protects. |
| `Resolution.PolicyCovers` | crates/plur1bus-config/src/resolution.rs:261-267 | Preparation never takes protection away. |
| `Resolution.PolicySchema` | crates/plur1bus-config/src/resolution.rs:261-267 | `policy_schema` computes that schema. |
| `Resolution.DepthOf` | crates/plur1bus-config/src/resolution.rs:201-204 | Every value has a finite depth, which bounds the structural recursion. |
| `References.MergeSight` | crates/plur1bus-config/src/resolution.rs:41-140 | What a merge shows at any place below it, metadata included, is what the two sides show there, the labels of the wrapper (`$ref`, `type`) first. |
| `References.FlattenStands` | crates/plur1bus-config/src/resolution.rs:142-154 | A flattened node shows at every place what its nodes and their metadata show laid over each other, the deepest metadata outermost. |
| `References.HeadStands` | crates/plur1bus-config/src/resolution.rs:156-199 | A resolved head shows at every place what the raw nodes that come together there show: the nodes, over those of the target of the outermost reference, and so on. |
| `References.HeadFailsWhen` | crates/plur1bus-config/src/resolution.rs:156-199 | Resolving a head hides it for every budget where the raw nodes break off, and elsewhere only when the budget runs out. |
| `References.MergeOnly` | crates/plur1bus-config/src/resolution.rs:41-140 | Where secret references are declared alike, a merge protects no position that neither side protects. |
| `References.FollowedProtects` | crates/plur1bus-config/src/resolution.rs:205-258 | A position that the values reach and that the raw nodes mark along the followed references is protected in the resolved schema, whatever depth and budget are left. |
| `References.OnlyFollowed` | crates/plur1bus-config/src/resolution.rs:205-258 | While the budget lasts and secret references are declared alike, nothing else is protected. |
| `References.PolicyProtects` | crates/plur1bus-config/src/resolution.rs:261-267 | In the schema that redaction uses, prepared or not, every reached position is protected that the raw schema marks along the followed references. |
| `References.PolicyProtectsExactly` | crates/plur1bus-config/src/resolution.rs:261-267 | Where secret references are declared alike that is exact: a mark that is reached only over a reference that is not followed is absent, until the budget is used up. |
| `References.ReachesFollows` | crates/plur1bus-config/src/resolution.rs:173-199 | Where along the path no two different references come together, every mark the raw schema reaches, over any references, is reached along the followed ones. |
| `References.FollowsReaches` | crates/plur1bus-config/src/resolution.rs:173-199 | What is marked along the followed references is reached, unless the way breaks off. |
| `References.ReachedIsProtected` | crates/plur1bus-config/src/resolution.rs:261-267 | Under that condition on the raw schema every mark it reaches is in the prepared schema. |
| `References.ReachedExactly` | crates/plur1bus-config/src/resolution.rs:261-267 | And a position is protected if and only if the raw schema reaches a mark there or breaks off, secret references being declared alike and the budget lasting. |
| `NodeCount.HeadCount` | crates/plur1bus-config/src/resolution.rs:156-199 | With enough budget, resolving a head takes as many nodes from the budget as are counted on the raw schema, broken ones included. |
| `NodeCount.ResolvedCount` | crates/plur1bus-config/src/resolution.rs:205-258 | The same for a schema with everything below it that the values reach. |
| `NodeCount.BudgetLasts` | crates/plur1bus-config/src/resolution.rs:261-267 | For a schema and a value that need no more than 10 000 nodes the budget lasts, and what is left is the rest. |
| `NodeCount.ProtectedExactly` | crates/plur1bus-config/src/resolution.rs:261-267 | So with everything checked beforehand, on the raw schema and the value, a position is protected if and only if the raw schema reaches a mark there or breaks off. |
| `ReferenceConflict.PolicyIs` | crates/plur1bus-config/src/resolution.rs:261-267 | The prepared form of a schema in which a secret and an open reference meet at one property. |
| `ReferenceConflict.SecondReferenceLost` | crates/plur1bus-config/src/resolution.rs:173-199 | In that schema the secret mark is reached and is not in the prepared schema, and the redacted configuration shows the text. |
| `ConfigTree.GetPut` | crates/plur1bus-config/src/lib.rs:917-946 | What was put is what is read. |
| `ConfigTree.PutFrame` | crates/plur1bus-config/src/lib.rs:928-946 | A put changes nothing at incomparable paths. |
| `ConfigTree.PutFails` | crates/plur1bus-config/src/lib.rs:928-946 | A put fails exactly when something on the way is there and no object. |
| `ConfigTree.PutAllFrame` | crates/plur1bus-config/src/lib.rs:950-954 | A series of changes leaves every path alone that is comparable with none of them. |
| `ConfigTree.SetManyReports` | crates/plur1bus-config/src/lib.rs:950-964 | Every path reported as changed is comparable with a changed key. |
| `ConfigTree.Differences` | crates/plur1bus-config/src/lib.rs:714-731 | The recursion of `diff` appends exactly the differing paths. |
| `ConfigTree.DiffIsExact` | crates/plur1bus-config/src/lib.rs:714-731 | The difference has a path exactly when the two trees are objects all the way above it and differ there, a missing member counting as null. |
| `ConfigTree.RootDiffers` | crates/plur1bus-config/src/lib.rs:728-730 | The root, which is never reported, is in the difference only when one of the roots is no object. |
| `ConfigTree.DiffIsSymmetric` | crates/plur1bus-config/src/lib.rs:708-731 | The difference does not depend on the direction. |
| `ConfigTree.DiffIsAntichain` | crates/plur1bus-config/src/lib.rs:714-731 | No reported path is above another. |
| `ConfigTree.DiffRebuilds` | crates/plur1bus-config/src/lib.rs:714-731 | Copying the reported paths from the new tree into the old one, in any order, rebuilds the new tree up to missing versus null members and the spelling of numbers. |
| `ConfigTree.NoDifference` | crates/plur1bus-config/src/lib.rs:693-731 | Nothing is reported exactly when the trees are equal up to that. |
| `ConfigTree.FillDefaults` | crates/plur1bus-config/src/lib.rs:290-308 | The loop of `fill_defaults`, in any order of the properties. |
| `ConfigTree.FillTwice` | crates/plur1bus-config/src/lib.rs:290-308 | Filling twice is filling once. |
| `ConfigTree.FillKeeps` | crates/plur1bus-config/src/lib.rs:290-308 | Filling never overwrites: what is there stays, and objects only gain members. |
| `ConfigTree.FillCompletes` | crates/plur1bus-config/src/lib.rs:295-300 | Every declared property: one that was missing has its default, filled in turn where it is an object, one that was there is filled if it is an object, and what has neither stays missing. |
| `Stack.Runtime.Create` | crates/plur1bus-containers/src/docker.rs:395-433 | A container is created whole, not at all, or, on an egress network, left behind by a failed call. |
| `Stack.StackManager.Up` | crates/plur1bus-containers/src/stack.rs:65-113 | A success leaves every service owned, running, with its canonical image and seen healthy after it was last touched, each container made after its dependencies were seen healthy; a failure with a clean clean-up leaves every container as it was, if and only if no failed `create` left one, hence always in a stack without egress networks; for each service with one, a script of requests that spoils its creation ends in a clean clean-up with its container left; containers of others are never touched; a trouble-free runtime with nothing in the way brings the stack up. |
| `Stack.StackManager.SomeScriptSpoils` | crates/plur1bus-containers/src/docker.rs:395-433 | For every service with an egress network there is such a script. |
| `Stack.LeaveOneBehind` | crates/plur1bus-containers/src/stack.rs:65-113 | `up` of one service with an egress network, run on such a script: the clean-up succeeds and the container is left. |
| `Stack.StackManager.BringAll` | crates/plur1bus-containers/src/stack.rs:72-95 | The loop of `up`, with what it created and started. |
| `Stack.StackManager.Bring` | crates/plur1bus-containers/src/stack.rs:73-93 | The turn of one service: what it did, that it passed its gate, and that it fails only for a cause. |
| `Stack.StackManager.Undo` | crates/plur1bus-containers/src/stack.rs:96-107 | Stopping what was started and removing what was created, in reverse, restores the containers; it fails only when the runtime does. |
| `Stack.StackManager.Undone` | crates/plur1bus-containers/src/stack.rs:96-107 | Why: started ones are stopped, created ones gone, all others untouched. |
| `Stack.StackManager.Configured` | crates/plur1bus-containers/src/stack.rs:18-42 | The environment gets one entry a connection, and every dependency was seen running and healthy before. |
| `Stack.WiredExact` | crates/plur1bus-containers/src/stack.rs:32-40 | The configured environment has exactly the entries that no connection replaces, and for each name the entry of its last connection. |
| `Stack.EntryReads` | crates/plur1bus-containers/src/stack.rs:36-39 | Read back, an entry has the variable of the connection up to its first `=`, and behind it a URL with its scheme, the host of the address, and then port and path. |
| `Stack.StackManager.Owned` | crates/plur1bus-containers/src/stack.rs:43-52 | Looks only, and refuses a container that is somebody else's. |
| `Stack.StackManager.Gate` | crates/plur1bus-containers/src/stack.rs:53-64 | Looks only; passes exactly on an observation of running and healthy as its last event. |
| `Stack.StackManager.Down` | crates/plur1bus-containers/src/stack.rs:114-138 | With any container of the stack unowned nothing is touched; a success removes exactly the containers of the stack; a trouble-free runtime lets it succeed. |
| `Stack.StackManager.Preflight` | crates/plur1bus-containers/src/stack.rs:115-118 | The ownership check of the whole stack, before anything is stopped. |
| `Stack.StackManager.UpgradeImage` | crates/plur1bus-containers/src/stack.rs:156-200 | The new image runs behind its gate, or nothing was touched, or the old container is back, or the rollback brought up exactly the old image, or both ways failed; no other container changes; a trouble-free runtime upgrades. |
| `Stack.StackManager.Take` | crates/plur1bus-containers/src/stack.rs:173-177 | A container that cannot be removed is started again; the outcome says exactly what became of it. |
| `Stack.StackManager.Replace` | crates/plur1bus-containers/src/stack.rs:178-182 | Create, start and gate of the new container. |
| `Stack.StackManager.Rollback` | crates/plur1bus-containers/src/stack.rs:184-196 | A successful rollback runs exactly the old image. |
| `Stack.StackManager.Clear` | crates/plur1bus-containers/src/stack.rs:185-190 | Whatever the failed upgrade left is gone. |
| `Canonical.CanonicalIsInjective` | crates/plur1bus-ext/src/compat.rs:118-146 | Two values have the same canonical text exactly when they are the same JSON up to the order of keys. |
| `Canonical.ConsentIsInjective` | crates/plur1bus-ext/src/compat.rs:165-190 | The acknowledged text determines the capabilities and both declared endpoints, for capability objects without a member `endpoints`. |
| `Canonical.EndpointsShown` | crates/plur1bus-ext/src/compat.rs:167-184 | A block that is an object shows its own members and, if the manifest declares an endpoint as a text, exactly the declared ones under `endpoints`, each under its key. |
| `Canonical.EndpointsLost` | crates/plur1bus-ext/src/compat.rs:177-183 | A capability block that is no object does not show the endpoints. |
| `Canonical.EndpointsOverwritten` | crates/plur1bus-ext/src/compat.rs:177-183 | An own member `endpoints` of a block is overwritten by the declared ones, so the block looks like the one without it. |
| `Canonical.EndpointsForged` | crates/plur1bus-ext/src/compat.rs:165-184 | A block that writes its endpoints out itself looks like the empty block with that endpoint declared. |
| `Canonical.ConsentTellsExactly` | crates/plur1bus-ext/src/compat.rs:165-190 | The text tells a block apart from itself with other endpoints and from every block of the allowed form if and only if it is of the allowed form itself: an object without a member `endpoints`. |
| `Canonical.DecimalIsFaithful` | crates/plur1bus-ext/src/compat.rs:143-143 | There is a way to print doubles as the theorems on canonical texts ask: number characters, a dot or an exponent, no two alike. |
| `Canonical.TextSplits` | crates/plur1bus-ext/src/compat.rs:118-146 | A value is read back from its text and whatever follows. |
| `JsonText.TextIsJson` | crates/plur1bus-ext/src/compat.rs:118-146 | The canonical text is the JSON text of its value: the literals, integers without leading zeros, strings that read back by the escapes of RFC 8259 section 7, arrays, and objects with every member once in ascending order. |
| `JsonText.QuotedIsString` | crates/plur1bus-ext/src/compat.rs:118-146 | A quoted string reads back as itself. |
| `Canonical.QuotedSplits` | crates/plur1bus-ext/src/compat.rs:128-128 | A quoted string ends at its closing quote and reads back. |
| `Canonical.NumberSplits` | crates/plur1bus-ext/src/compat.rs:144-144 | A number ends where its characters end. |
| `Canonical.Append` | crates/plur1bus-ext/src/compat.rs:118-146 | The recursion of `canonical`, which appends to the text. |
| `Canonical.Sorted` | crates/plur1bus-ext/src/compat.rs:121-122 | The keys once each, in ascending order. |
| `Canonical.ContentStreamIsInjective` | crates/plur1bus-ext/src/pack.rs:26-57 | The hashed bytes determine the stripped template and the sorted files. |
| `Canonical.HashedBytes` | crates/plur1bus-ext/src/pack.rs:32-50 | The loop that feeds the hash, against that byte string. |
| `Canonical.ContentStreamIsRead` | crates/plur1bus-ext/src/pack.rs:27-50 | The hashed bytes are read back as the tag, the template and the files, by eight-byte big-endian lengths and a byte for the exec bit. |
| `LogDemux.ReadToEnd` | crates/plur1bus-containers/src/process.rs:108-141 | For every sequence of buffer sizes and short reads a clean end comes exactly when the headers are valid, the batch decoder finds nothing cut off and the transport succeeded; then what was delivered is what the batch decoder gives. |
| `LogDemux.LogStream.Read` | crates/plur1bus-containers/src/process.rs:109-141 | One read delivers the next payload bytes, or the end or failure that the rest of the stream calls for. |
| `LogDemux.LogStream.NextFrame` | crates/plur1bus-containers/src/process.rs:117-130 | The loop over headers, which passes empty frames over. |
| `LogDemux.LogStream.FrameStarts` | crates/plur1bus-containers/src/process.rs:118-129 | A header starts a frame of its length, for both decoders. |
| `LogDemux.LogStream.FrameGoesOn` | crates/plur1bus-containers/src/process.rs:131-140 | Payload bytes delivered are the next bytes of the batch decoding. |
| `LogDemux.DecodeStream` | crates/plur1bus-containers/src/docker.rs:551-566 | The batch decoder's loop, against its specification. |
| `LogDemux.WrittenIsDecoded` | crates/plur1bus-containers/src/docker.rs:551-566 | Frames written with their stream number and big-endian length are read back as their payloads, in order. |
| `LogDemux.DecodedIsWritten` | crates/plur1bus-containers/src/docker.rs:551-566 | Whatever is decoded with valid headers is such frames, byte for byte. |
| `Sftp.Session.Directory` | crates/plur1bus-remote-fs/src/session.rs:178-220 | A listing succeeds exactly when the server sends pages and then the end, in time, within the budgets, with fit names that do not repeat and fit the cap; it comes back sorted, once each, without the dots. |
| `Sftp.Session.TakePage` | crates/plur1bus-remote-fs/src/session.rs:191-217 | A page is taken exactly when the entry budget holds it and the names stay good. |
| `Sftp.Session.TakeEntry` | crates/plur1bus-remote-fs/src/session.rs:191-216 | One entry is taken exactly when there is budget and its name is good beside the earlier ones. |
| `Sftp.NameMeans` | crates/plur1bus-remote-fs/src/session.rs:198-204 | A name is good if and only if it is not empty, at most 8192 bytes, and has no slash, backslash or control character. |
| `Sftp.Session.NoRoom` | crates/plur1bus-remote-fs/src/session.rs:191-217 | A page without room ends every way to go on. |
| `Sftp.DispatchReaddir` | crates/plur1bus-remote-fs/src/worker.rs:127-144 | A successful listing makes a reply that fits the metadata cap for any id, so sending never refuses it; and it succeeds exactly when path, server and budgets allow. |
| `Sftp.ReplySize` | crates/plur1bus-remote-fs/src/worker.rs:131-144 | A reply is its running count and at most 56 bytes more. |
| `Sftp.SameCount` | crates/plur1bus-remote-fs/src/session.rs:207-213 | The running count does not depend on the order of the names. |
| `Sftp.WidthMeans` | crates/plur1bus-remote-fs/src/session.rs:207-211 | A character counts for the fewest bytes of UTF-8 that hold it. |
| `Sftp.IdLength` | crates/plur1bus-remote-fs/src/worker.rs:131-131 | A 64-bit id is at most 20 bytes long. |
| `Sftp.Read` | crates/plur1bus-remote-fs/src/session.rs:223-258 | Returns data exactly when the server served it within the request, the packet, the file limit and the rest of the budget, which then counts it. |
| `Sftp.File` | crates/plur1bus-remote-fs/src/session.rs:260-283 | The data of a regular file no larger than the limit, at most as long as asked. |
| `Sftp.Session.Request` | crates/plur1bus-remote-fs/src/session.rs:69-76 | A request is granted exactly in time and within the budget, and is counted. |
| `Sftp.Session.Path` | crates/plur1bus-remote-fs/src/session.rs:77-92 | A path is accepted exactly when a request is and its shape is safe. |
| `Sftp.PathMeans` | crates/plur1bus-remote-fs/src/session.rs:77-92 | A shape is safe if and only if it starts with a slash, has at most 8192 bytes and no backslash or control character, and is the root or has behind its slashes, at most as many as the depth, neither an empty piece nor a dot or two. |
| `Names.ValidIsSlug` | crates/plur1bus-ext/src/manifest.rs:76-86 | The segment check and the pattern in its documentation are the same language. |
| `Names.NormalizedIsValid` | crates/plur1bus-ext/src/claude.rs:25-43 | Every name is normalised to a valid one, and a valid one is left as it is. |
| `Names.NormalizedMeans` | crates/plur1bus-ext/src/claude.rs:25-43 | What an invalid name becomes: the runs of letters and digits of its lower-cased text, each as it is and in order, with one dash for every gap between them, behind the prefix if no letter comes first, cut to 62 characters and without dashes at the end. |
| `Names.ImportsAreValid` | crates/plur1bus-ext/src/mcpb.rs:177-196 | Both importers give valid names, with the prefixes `plugin-` and `mcp-`. |
| `Names.NormalizeName` | crates/plur1bus-ext/src/claude.rs:25-43 | The loop of the normaliser, for both importers. |
| `Names.CandidateIsValid` | crates/plur1bus-ext/src/claude.rs:153-159 | Every suffixed candidate is a valid name of at most 62 bytes. |
| `Names.CandidateMeans` | crates/plur1bus-ext/src/claude.rs:153-160 | A candidate is as much of the base as leaves room for the suffix in 62 characters, without dashes at its end, and then `-bundle`, numbered from the second on. |
| `Names.CandidatesDiffer` | crates/plur1bus-ext/src/claude.rs:153-159 | No two candidates are the same. |
| `Names.Pigeonhole` | crates/plur1bus-ext/src/claude.rs:151-152 | Different names that are all taken are no more than the takers. |
| `Names.SomeCandidateIsFree` | crates/plur1bus-ext/src/claude.rs:151-167 | Of N + 1 candidates one is no member's name. |
| `Names.BundleName` | crates/plur1bus-ext/src/claude.rs:146-167 | The search ends with a valid name that no member has: the base if it is free, else the first free candidate. |

## Left out

- Library behaviour is a parameter: UTF-8 decoding, NFC and case folding of archive names, JSON parsing, SHA-256, the
  printing of floating-point numbers (assumed faithful and made of number characters), lower-casing, the reference
  matcher, JSON pointers, regular expressions.
- Deadlines, sockets, the container runtime and the SFTP server are scripts of outcomes; time itself is not modelled,
  and error messages are not.
- `BackgroundRpc` takes what the code does under one lock as one step, on a sequentially consistent memory;
  notifications to the callback, the bounded `Drop` and liveness are not modelled.
- The walk over subschemas and the edits of `each_schema` are a function on values; one node is rewritten in place. In
  the engine's generator the walk does not enter `items` arrays, and its other edits (defaults, `$id`, descriptions,
  the configuration mode) are not modelled.
- References are interpreted by any function that satisfies the definitions, not unfolded; a `$ref` hides its
  siblings, as in draft-07.
- A node with its own `oneOf` beside the `anyOf`, references or nested unions with siblings that are not annotations,
  and nested `oneOf`s whose branches overlap are outside the shape the rewriting is proved for.
- The SHA-256 of the file, reading in chunks and streaming of entries (`pump`) are not part of the audit's model; the
  file is a byte sequence.
- ConfigTree.GetPut: `put` is modelled by recursion on values instead of a descent through mutable references; keys
  are lists of parts, so a key with a dot inside a part does not arise; validation after `set_many` is not modelled.
- Restart classes and tiers, schema validation and media checks are tables or library behaviour.
- Stack.StackManager.Up: networks and volumes that a failed `up` created are kept by design and not modelled; each
  request other than `create` has its effect or none; nothing else changes the containers meanwhile.
- Service validation and the canonical form of image names are parameters.
- Canonical.ContentStreamIsInjective: the files come sorted, and their names and contents are shorter than 2^64 bytes.
- Package.PackAndCheck: writing and parsing of a manifest are any functions for which what parses is read as written;
  signatures, revocation, size limits and nested bundles are not modelled; digests are any function of the bytes.
- PackedArchive.PackFiles: deflate, its inverse, the checksum and UTF-8 are any functions that invert each other, and
  the archive is that of `ZipWriter` (flags, versions and dates of the library's writer may differ).
- Package.Prepare: the members of the template and the date are part of how a manifest is written; a template that is
  no object and the files a skill package may not carry are not modelled.
- References.PolicyProtectsExactly: for a schema that needs more nodes than the budget has (`NodeCount.NodesVisited`),
  only that marks are kept is proved (`References.PolicyProtects`); so it is where nodes that declare different secret
  references come together, as the merge adds `x-sensitive` there.
- Canonical.CanonicalIsInjective: doubles are the finite ones, and negative zero is zero.
- PolicyRedaction.RedactionHides: the display projection; of the archive projection, that nothing changes without
  being reported is proved (`Redaction.NothingNotedNothingChanged`), and the check of reference metadata before it is
  not modelled. Extraction of endpoint secrets from URLs and texts is not modelled.
- Sftp: metadata, `realpath` and `readlink` replies, authentication and the framing of requests.
- Platform probes, process handling, the attestation tables, the workspace identity, TypeScript and Python code:
  foreign effects, lookup tables or glue.
