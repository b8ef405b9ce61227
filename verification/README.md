# Migration grain storage proxy, in Dafny

This project models `MigrationGrainStorage`, the grain storage provider of Orleans'
persistence-migration tooling. The provider sits in front of two grain storage
backends, a *source* (the old store) and a *destination* (the new one). It exposes
the usual per-grain operations — read, write and clear — and routes each through a
**compound ETag** `MigrationEtag { SourceETag, DestinationETag }`, serialised into the
single opaque ETag string the grain holds between calls.

Files:

- `wrappers.dfy` — `Option` (a nullable string) and `Result` (an operation that may throw).
- `etag_codec.dfy` — module `EtagCodec`: the compound tag, its JSON-shaped encoding
  `{"SourceETag":…,"DestinationETag":…}` and decoding, and the proved round trip.
- `backend.dfy` — module `Backend`: a backend as a finite map from grain key to
  `(state, tag)`, the caller's grain state `(State, ETag, RecordExists)`, and what a
  backend read, write or clear does given the backend's reply.
- `migration_storage.dfy` — module `MigrationStorage`: the proxy's `ReadState`,
  `WriteState` and `ClearState`. Each is one sequential step over both stores. It
  returns both stores, the caller's grain state, the ordered list of backend calls
  made (each with the expected tag it was handed), and the error raised, if any.
- `migration_properties.dfy` — module `MigrationProperties`: lemmas relating the
  operations to each other and to the codec.

Behaviours of the code that the model keeps, as written:

- Read asks the destination first and falls back to the source when
  `RecordExists` is false after the destination read (line 55). A backend read that
  misses resets `RecordExists` by the convention below, so the fallback happens
  exactly when the destination has no record. When neither has a record, the grain
  still gets an encoded tag `(tag as left by the source read, null)`, not an absent
  tag.
- Write goes to the destination only. If `RecordExists` holds, the caller's tag is
  decoded and its destination part is the expected tag. After a source-served read
  that part is null, so the write is a blind insert. If `RecordExists` is false, the
  caller's tag string is handed to the destination undecoded. That string can be a
  whole compound tag, as after a read that found nothing.
- The `finally` block rewrites the caller's tag to `(null, new destination tag)` on
  success. On failure it writes `(null, null)`, so a retry on an existing record
  (`RecordExists` true) is a blind write; otherwise the encoded `(null, null)` string
  is passed through as the expected tag. A malformed tag throws before the `try`, so
  the grain state is left unchanged.
- Clear has no `try`/`finally`. A failing source clear skips the destination clear.
  The caller's tag is then left holding the raw source part (line 46) or, when the
  destination clear fails, the raw destination part (line 48).

Environment conventions the model fixes are stated in `backend.dfy`. The backends
themselves are not part of this model.

- A read hit fills state, tag and `RecordExists = true`.
- A read miss sets `RecordExists = false` and leaves the state and the tag alone.
- A successful write stores the state under the backend's fresh tag and sets
  `RecordExists = true`.
- A successful clear removes the record and resets the tag and `RecordExists`.
- A throwing call changes nothing.
- Whether a backend accepts or rejects a write or clear is a parameter (the reply).

## Model

| member | source | states |
|---|---|---|
| EtagCodec.DecodeEncode | src/Orleans.Persistence.Migration/MigrationGrainStorage.cs:23-31 | parsing a serialised compound tag gives back both components, for every pair including both-null |
| EtagCodec.DecodeSound | src/Orleans.Persistence.Migration/MigrationGrainStorage.cs:23-31 | a string parses only if it is the serialisation of the tag it parses to |
| EtagCodec.DecodeIffEncode | src/Orleans.Persistence.Migration/MigrationGrainStorage.cs:23-31 | parsing and serialising are inverse in both directions |
| EtagCodec.EncodeInjective | src/Orleans.Persistence.Migration/MigrationGrainStorage.cs:23-29 | distinct compound tags serialise to distinct strings |
| MigrationProperties.ParseTagIff | src/Orleans.Persistence.Migration/MigrationGrainStorage.cs:31 | parsing the grain's tag succeeds with `t` exactly when the tag is the serialisation of `t`; a null tag never parses |
| MigrationStorage.ReadState | src/Orleans.Persistence.Migration/MigrationGrainStorage.cs:52-64 | stores untouched and nothing thrown. A destination record is returned with tag `(null, dest tag)` and the source is never read. Otherwise the source is read: its record gets tag `(source tag, null)`, and a double miss gives `RecordExists` false with tag `(incoming tag, null)` |
| MigrationStorage.WriteState | src/Orleans.Persistence.Migration/MigrationGrainStorage.cs:66-83 | the source store never changes. A malformed tag on an existing record throws before any backend call and leaves the grain alone. Otherwise exactly one destination write happens: its expected tag is the decoded destination part when `RecordExists`, else the raw caller tag. Success stores the state and yields `(null, new tag)`. Failure propagates the fault, leaves the destination unchanged and yields `(null, null)` |
| MigrationStorage.ClearState | src/Orleans.Persistence.Migration/MigrationGrainStorage.cs:43-50 | an unparsable tag throws before any clear. Otherwise the source is cleared with the source part, then the destination with the destination part. A failing source clear stops there, with the destination unchanged and the grain's tag set to the raw source part. Both succeeding removes the key from both stores |
| MigrationProperties.ReadTagNamesOneSide | src/Orleans.Persistence.Migration/MigrationGrainStorage.cs:52-63 | every tag Read hands out parses to the tag of the side that answered (the incoming tag as source part after a double miss), has at most one non-null part, and has a destination part exactly when the destination holds the grain |
| MigrationProperties.WriteTagIsDestinationOnly | src/Orleans.Persistence.Migration/MigrationGrainStorage.cs:68-82 | an attempted Write succeeds exactly when the destination accepts it. The tag it hands out parses to `(null, new tag)` on success and to `(null, null)` on failure, so its source part is always null |
| MigrationProperties.WriteExpectsDestinationComponent | src/Orleans.Persistence.Migration/MigrationGrainStorage.cs:69-76 | with `RecordExists`, a grain tag serialising `t` makes the destination write expect `t`'s destination part |
| MigrationProperties.ReadThenWriteExpectedTag | src/Orleans.Persistence.Migration/MigrationGrainStorage.cs:52-76 | a Write after a Read expects the destination's own tag if the destination served the read. It is a blind insert if the source served it, and it passes the whole compound string through if neither had the grain |
| MigrationProperties.Promotion | src/Orleans.Persistence.Migration/MigrationGrainStorage.cs:54-77 | after a successful Write, Read answers from the destination alone. It returns the written state and the same tag the Write handed back, whatever the source holds |
| MigrationProperties.FailedWriteForgetsDestinationTag | src/Orleans.Persistence.Migration/MigrationGrainStorage.cs:66-83 | after a failed Write, retrying with the grain state left behind sends the destination no expected tag when `RecordExists` is true, and the encoded `(null, null)` string otherwise |
| MigrationProperties.ReadThenClearExpectedTags | src/Orleans.Persistence.Migration/MigrationGrainStorage.cs:43-63 | a Clear after a Read hands each backend the tag it reported, and hands the side that did not serve no tag. After a read that found nothing, the source gets the incoming tag and the destination none. A failing source clear leaves the destination alone |
| MigrationProperties.ClearThenReadFindsNothing | src/Orleans.Persistence.Migration/MigrationGrainStorage.cs:43-64 | after a Clear whose two backend clears succeed, neither store holds the grain and a Read reports no record after consulting both |
| MigrationProperties.ClearAllScenario | test/Extensions/Tester.AzureUtils.Migration/Abstractions/MigrationGrainsBaseTests.cs:78-102 | when both backends hold the grain, Read then Clear through the proxy (both clears succeeding) empties both without error |
| MigrationProperties.ReadFromSourceThenWriteScenario | test/Extensions/Tester.AzureUtils.Migration/Abstractions/MigrationGrainsBaseTests.cs:55-76 | with the grain only in the source, Read serves the source state. A Write is then a blind insert into the destination alone, and the next Read serves the new state |

## Left out

- `GetAll` (line 85) only throws `NotImplementedException`; it is not modelled.
- The `Create` factory and `MigrationGrainStorageOptions` (lines 87-103) are
  dependency-injection lookup of the two named backends, not routing logic.
- The Newtonsoft JSON serialiser is replaced by a canonical JSON-shaped encoding.
  It escapes only `"` and `\`, which is enough for the encoding to be injective. The
  decoder accepts exactly the strings the encoder produces. Newtonsoft's tolerance
  of whitespace, field order, missing fields and `\uXXXX` escapes is not modelled.
- Backend reads never fail in the model. A throwing backend read would propagate
  unchanged and is not represented.
- The concurrency checks real backends apply to expected tags are not modelled; the
  backend's reply is a parameter. The "already exists" message matching and the Azure
  blob configuration are left out too.
- The offline bulk migrator and its migrated/skipped/failed statistics are left
  out: the migrator's source is not part of this model.
- `OrleansMigrationJsonSerializer` (grain-reference serialisation) is not part of
  this model.
- `async`/`Task` plumbing and concurrent callers: each operation is one
  sequential step over the two stores.
