# LoadingInfo: the adaptive log-source loader, in Dafny

OtrosLogViewer opens a log source through `LoadingInfo`. The constructor does four things:

- it sniffs whether the file is gzip-compressed, from its first two bytes;
- it captures a probe of at most 10 000 leading bytes, decoded when compressed;
- it opens the stream that consumers read, either from byte 0 or, for a plain file opened `FROM_END`, from the current end;
- it records the file size.

`reloadIfFileSizeChanged` then reconciles the loader with the file on each poll. If the file grew, it reopens at the old size. If it shrank (rotation), it reopens from byte 0. If the size is unchanged, it does nothing.

The model has four modules:

- `JavaIo` (`java_io.dfy`): bytes, Java's signed byte and `(byte)` cast, and one `InputStream.read(byte[])` call. The number of bytes the stream hands over, or whether it throws, is an input (`Reply`). This is how short reads are modelled.
- `Sniff` (`sniff.dfy`): `checkIfIsGzipped`, `loadProbe` and `ungzip` as functions. The gzip decoder is a function-valued parameter (`Decoder`): it gives the decoded bytes, or IOException when the header is rejected.
- `LoaderSpec` (`loader_spec.dfy`): the loader's state on values.
  - `OpenSpec` is what the constructor produces.
  - `Reconcile` is one `reloadIfFileSizeChanged`, written as the explicit three-way branch `Grown | Shrunk | Unchanged`.
  - `Run` chains several reconciliations; the lemmas over runs are proved by induction.
  - A tracked stream (`ObservableInputStreamImpl`) is a record `Tracked(serial, startOffset, counterSeed)`. The serial stands for object identity: each new stream takes the next one.
- `Loading` (`loading_info.dfy`): the class `LoadingInfo`.
  - Its final fields are `const`.
  - `observable`, `observableOpen`, `contentStream`, `lastFileSize` and the stream counter are fields that the methods overwrite in the source's order.
  - `Open` and `ReloadIfFileSizeChanged` are proved to end in the state `LoaderSpec` describes; `ResetLastFileSize` states its new state directly.
  - `loadProbe` and `ungzip` are static methods that fill a `byte[]` array, proved to compute what the `Sniff` functions say.
  - The getters are functions over the fields.
  - `TailScenario` is a client. It opens a plain 100-byte log `FROM_END`, grows it to 150 bytes, rotates it down to 20 bytes (25 at the second size read), and shows the resulting fields.

Every I/O call that can throw an IOException out of the constructor or the reconciliation has a name (`OpenFault`, `ReloadFault`). A call is told which single one throws, so the state left after each partial failure is stated too. The file's content at construction, and the sizes each poll reads, are inputs.

Behaviour of the code that the model keeps as written:

- Growth assigns `lastFileSize` right after the seek succeeds (LoadingInfo.java:121-122). That is before `getInputStream()` and before the new tracked stream is built. So a failure of `getInputStream()` leaves the new size recorded over the old, closed stream, and polls that see that size never reopen it (`TailStreamFailureLeavesClosedStream`).
- The probe comes from a single `read`. It is a prefix of at most 10 000 bytes, not necessarily `min(length, 10 000)` bytes. It is exactly that many when the read hands over a full buffer.
- The tail-mode tracked stream starts at the file length with counter seed 0. Streams opened by growth have the seed equal to their start offset. So the counter is an absolute position only after the first reconciliation.
- On a gzipped source, growth layers a new `GZIPInputStream` over a stream that starts mid-file. That constructor reads a gzip header there, which in general is not one. When it throws, the new size is already recorded and the consumer stream is left over the closed stream. Polls that see the same size never repair this (`GzipGrowthFailureLeavesStaleConsumer`).

## Model

| member | source | states |
|---|---|---|
| `JavaIo.Signed` | OtrosLogViewer-app/src/main/java/pl/otros/logview/api/io/LoadingInfo.java:166-167 | a Java byte is the two's-complement reading of its eight bits, in -128..127 |
| `JavaIo.JavaByteCast` | OtrosLogViewer-app/src/main/java/pl/otros/logview/api/io/LoadingInfo.java:166-167 | `(byte) x` lies in -128..127 and agrees with `x` modulo 256 |
| `JavaIo.Read` | OtrosLogViewer-app/src/main/java/pl/otros/logview/api/io/LoadingInfo.java:150 | one `read(b)`: throws exactly when the stream throws; -1 exactly on an empty stream with a non-empty buffer; otherwise a non-empty prefix of the remaining bytes, at most `b.length` long; the whole `min(b.length, available)` prefix when the stream hands over a full buffer |
| `JavaIo.Buffer` | OtrosLogViewer-app/src/main/java/pl/otros/logview/api/io/LoadingInfo.java:149-152 | the `byte[size]` after a read has length `size` and holds the bytes read at its front |
| `Sniff.CheckIfIsGzipped` | OtrosLogViewer-app/src/main/java/pl/otros/logview/api/io/LoadingInfo.java:161-171 | gzipped exactly when the read returns 2 bytes and they are 0x1F then 0x8B; a short read or an IOException yields false |
| `Sniff.LoadProbe` | OtrosLogViewer-app/src/main/java/pl/otros/logview/api/io/LoadingInfo.java:147-155 | the probe is a prefix of the content of length at most the buffer size; an empty source gives an empty probe, not an error; a non-empty source gives a non-empty probe; an IOException propagates exactly when the read throws |
| `Sniff.Ungzip` | OtrosLogViewer-app/src/main/java/pl/otros/logview/api/io/LoadingInfo.java:177-186 | succeeds exactly when the decoder accepts the header and the read does not throw; the probe is then a prefix of the decoded bytes of length at most `size` |
| `LoaderSpec.Layer` | OtrosLogViewer-app/src/main/java/pl/otros/logview/api/io/LoadingInfo.java:124-128 | the consumer stream wraps the given tracked stream and decompresses exactly when the source is gzipped |
| `LoaderSpec.OpenSpec` | OtrosLogViewer-app/src/main/java/pl/otros/logview/api/io/LoadingInfo.java:51-79 | `gzipped` is the sniff's verdict; probe at most 10 000 bytes, a prefix of the content (plain) or of the decoded content (gzip); `FROM_START` or gzipped: stream at offset 0, seed 0, gzip layer exactly when gzipped; otherwise: stream at the file length, seed 0, no layer; `lastFileSize` is the size when the file has content and 0 otherwise; construction throws exactly when a call it reaches throws: the refresh or the sniffing open, the probe read or the decoder's header check (gzip), the re-refresh or sequential open (`FROM_START` or gzip), the gzip layer (gzip), the random-access open, seek or tail stream (plain `FROM_END`), the type query, or the size query (file with content) |
| `LoaderSpec.Compare` | OtrosLogViewer-app/src/main/java/pl/otros/logview/api/io/LoadingInfo.java:117-129 | the three-way branch: Grown exactly when the size rose, Shrunk exactly when it fell |
| `LoaderSpec.Reconcile` | OtrosLogViewer-app/src/main/java/pl/otros/logview/api/io/LoadingInfo.java:113-140 | failing refresh or size read: nothing changes; equal sizes: nothing changes; growth: the new stream starts at the old `lastFileSize` with that seed and `lastFileSize` becomes the size read; when opening or seeking fails, `lastFileSize` is unchanged; growth whose `getInputStream()` throws: the new size is recorded over the old, closed stream; growth whose gzip layer throws: the new stream and size are installed, the consumer stays the old one; shrink: the new stream starts at 0 with seed 0 and `lastFileSize` becomes the second size read; a failing reopen leaves only the old stream closed, a failing gzip layer installs the new stream under the old consumer, a failing second size read keeps the old size over the new pair; after a change that returns normally (whatever call the fault names, if the branch does not make it), the whole state is the new size and the gzip-or-plain layer over the new, open, freshly numbered stream; the call fails exactly when a call its branch makes throws |
| `LoaderSpec.RunSameSizeIsNoop` | OtrosLogViewer-app/src/main/java/pl/otros/logview/api/io/LoadingInfo.java:113-140 | any number of reconciliations that observe the recorded size leave the whole state unchanged |
| `LoaderSpec.ReconcileSettles` | OtrosLogViewer-app/src/main/java/pl/otros/logview/api/io/LoadingInfo.java:113-140 | after one reconciliation, further ones observing the size it recorded are no-ops (idempotence) |
| `LoaderSpec.ResetLastFileSizeKeepsInv` | OtrosLogViewer-app/src/main/java/pl/otros/logview/api/io/LoadingInfo.java:105-107 | storing a size without reopening keeps the invariant exactly when the size is not below the active stream's start; a plain file opened at its end (100) then truncated and reset to 50 breaks it |
| `LoaderSpec.OpenEstablishesInv` | OtrosLogViewer-app/src/main/java/pl/otros/logview/api/io/LoadingInfo.java:65-78 | for a source whose bytes exist only if it has content, construction yields a state satisfying the loader invariant |
| `LoaderSpec.ReconcilePreservesInv` | OtrosLogViewer-app/src/main/java/pl/otros/logview/api/io/LoadingInfo.java:117-139 | one reconciliation keeps the invariant: the stream starts at or before `lastFileSize`; its seed is 0 or its offset; serials are issued in order; the consumer decompresses exactly when gzipped |
| `LoaderSpec.RunPreservesInv` | OtrosLogViewer-app/src/main/java/pl/otros/logview/api/io/LoadingInfo.java:113-140 | every sequence of reconciliations, whatever fails, keeps the invariant |
| `LoaderSpec.RunAppendsEndsAtLastSize` | OtrosLogViewer-app/src/main/java/pl/otros/logview/api/io/LoadingInfo.java:117-128 | under successful appends only, `lastFileSize` ends at the last size read, and the active stream starts at the size recorded just before (seed equal to it), one new stream per poll |
| `LoaderSpec.TailStreamFailureLeavesClosedStream` | OtrosLogViewer-app/src/main/java/pl/otros/logview/api/io/LoadingInfo.java:120-123 | a growth whose `getInputStream()` throws records the new size and leaves the old stream closed and active; later polls of that size never reopen it |
| `LoaderSpec.GzipGrowthFailureLeavesStaleConsumer` | OtrosLogViewer-app/src/main/java/pl/otros/logview/api/io/LoadingInfo.java:120-128 | on a gzipped source, a growth whose GZIPInputStream throws records the new size but leaves the consumer over an older stream, and later polls of that size never replace it |
| `Loading.LoadingInfo.Init` | OtrosLogViewer-app/src/main/java/pl/otros/logview/api/io/LoadingInfo.java:34-41 | the fields hold exactly what construction computed |
| `Loading.LoadingInfo.LoadProbe` | OtrosLogViewer-app/src/main/java/pl/otros/logview/api/io/LoadingInfo.java:147-155 | `loadProbe` on a `byte[buffSize]` array and an output buffer: its result is exactly `Sniff.LoadProbe`'s, so a prefix of the content of at most `buffSize` bytes |
| `Loading.LoadingInfo.Ungzip` | OtrosLogViewer-app/src/main/java/pl/otros/logview/api/io/LoadingInfo.java:177-186 | `ungzip`: fails when the decoder rejects the header, otherwise the same single bounded read over the decoded bytes; its result is exactly `Sniff.Ungzip`'s |
| `Loading.LoadingInfo.OpenFromStart` | OtrosLogViewer-app/src/main/java/pl/otros/logview/api/io/LoadingInfo.java:43-49 | the shorter constructors delegate with `FROM_START`: they throw exactly when `OpenSpec` with `FROM_START` does; otherwise the URL, tailing flag, sniff verdict, probe and state are `OpenSpec`'s, so the sniff decides `gzipped`, `lastFileSize` is the size when the file has content and 0 otherwise, the tracked stream starts at 0 with seed 0 and the consumer decompresses exactly when gzipped |
| `Loading.LoadingInfo.Open` | OtrosLogViewer-app/src/main/java/pl/otros/logview/api/io/LoadingInfo.java:51-79 | the constructor, step by step: it throws exactly when `OpenSpec` says so; otherwise a fresh object with the given URL and tailing flag, whose sniff verdict, probe and streams are those of `OpenSpec` |
| `Loading.LoadingInfo.ResetLastFileSize` | OtrosLogViewer-app/src/main/java/pl/otros/logview/api/io/LoadingInfo.java:105-107 | `lastFileSize` becomes the size read and nothing else changes; a failing size read changes nothing; from a state satisfying the invariant, the invariant still holds exactly when the read failed or the size is not below the active stream's start |
| `Loading.LoadingInfo.ReloadIfFileSizeChanged` | OtrosLogViewer-app/src/main/java/pl/otros/logview/api/io/LoadingInfo.java:113-140 | the in-place reconciliation ends in `Reconcile`'s state and returns normally exactly when `Reconcile` does; `getObservableInputStreamImpl` and `getContentInputStream` then return the new state's streams; the final fields (`gzipped`, `tailing`, `friendlyUrl`, probe) are constants, so their getters never change |

## Left out

- Commons-VFS (`FileObject.refresh`, `getContent`, `getRandomAccessContent`, `getType`, `getName().getFriendlyURI()`): the effects are inputs. These are the file's bytes and `hasContent` flag at construction, the sizes each poll reads, the friendly URL, and the fault saying which call throws. The file is taken not to change during construction.
- The sniffing stream: it is not modelled. The source never closes it for a plain (uncompressed) file; only `ungzip` closes it, through try-with-resources.
- Streams opened by a construction that then throws (the real stream, when `new GZIPInputStream`, `getType()` or `getSize()` throws afterwards): they are not modelled, and the source leaks them. A failed construction is only `IOException`, with no state.
- `BufferedInputStream` mark/reset: the sniff and the probe both read from byte 0, which is what the reset guarantees here. `reset()` is taken not to throw.
- Gzip decompression itself: `GZIPInputStream` and the internals of `ungzip` are the abstract `Decoder`.
- `ungzip`'s try-with-resources close: it is taken not to throw.
- `ObservableInputStreamImpl` and `Utils` are not part of this model.
  - Only the offset and counter seed a stream is created with are modelled, plus whether the loader has closed it. Closing is taken not to throw.
  - The byte counter's running value is not modelled.
  - The one-argument constructor is taken to seed the counter with 0.
- `close()` (`closeQuietly(fileObject)`): I/O plumbing with no state of the loader.
- `getFileObject`: the file object itself is not modelled, only what it reports.
- `getInputStreamBufferedStart` returns the Java array itself, which the caller could mutate. The model's probe is an immutable sequence.
- The one-argument constructor is `OpenFromStart` with `tailing == false`; it has no member of its own.
- `long` sizes are unbounded naturals. Overflow of a 63-bit file size is not modelled.
- Concurrency between polling and reading: the model is single-threaded.
- `OpenMode` is not part of this model beyond its two values `FROM_START` and `FROM_END`. The source only tests `== FROM_START`, so every other mode takes the tail branch.
- The SFTP authentication dialog of the VFS browser: user-interface code, outside the loader.
