# Verification of the lad logging pipeline

lad is a structured, levelled logger for Go. An entry passes through a tree of cores that
decide who logs it, an encoder that writes it as one line of JSON, and a buffered sink. This
project models that pipeline in Dafny and proves what the parts promise together.

| files | subject |
|---|---|
| `Common`, `Entries` | shared definitions |
| `Utf8`, `Buffer`, `Escape`, `EscapeProperties` | UTF-8 decoding, the byte buffer, string escaping |
| `JsonText`, `JsonTextProperties` | a reader for RFC 8259 texts, written independently of the encoder, and what it refuses |
| `Document`, `Primitives`, `Namespaces`, `Fields`, `FieldProperties`, `ErrorFields` | what values, errors, fields, namespaces and entries mean, as trees and as text |
| `JsonEncoder`, `EntryProperties`, `Framing`, `ConsoleEncoder` | the streaming JSON encoder, entries and lines |
| `MapEncoder`, `EncoderAgreement`, `KeyCollisions` | the in-memory encoder, and exactly when both encoders say the same |
| `SamplerRace`, `Sampler` | the lock-free sampling counter under concurrency, and exact quotas |
| `Bufio`, `BufferedProtocol`, `FlushLoop`, `StopProperties` | the buffered write syncer: its data, its locking protocol, its flusher, and what Stop leaves behind |
| `CoreTree`, `Cores`, `TreeSampling` | core trees, lazy cores, checked entries and the logger; samplers in a tree |
| `SlogHandler`, `LineWriter`, `Sweeten`, `Pooling` | slog groups, the line writer, loose arguments, object pools |

## Main results

1. **Every entry is one JSON object on one line.** `JsonEncoder.EncodeEntry` writes exactly the
   layout of the entry's tree and the configured line ending. Reading those bytes with the RFC
   8259 reader gives the metadata in fixed order, then the fields under the namespaces opened
   before them, then the stack trace at the top level (`EncodeLine`, `EntryParses`). This holds
   for arbitrary byte strings as keys and values, for failing marshalers, and for user encoders
   that append nothing. A newline gets into the text only from a reflected value
   (`EntryNoBreak`), so a log cut at its newlines gives back its entries (`EncodeLog`).
2. **Cached context is invisible.** Context absorbed by any chain of `With` steps gives, byte
   for byte, what a fresh encoder gives for all fields at once (`CachedContextAgrees`).
3. **One counter replaces a stack.** The flat text closed by a counter of braces is the layout
   of the tree with explicit containers (`FlatLayoutIsTreeLayout`), the last byte alone decides
   where separators go (`AtStartAfterEvents`), and the tree loses nothing (`NestLosesNothing`).
4. **The two encoders agree**, for every field list whose reflections succeed, if and only if
   no map at any depth has two keys that read the same (`AgreeExactly`), which valid UTF-8 keys
   guarantee (`ValidKeysAgree`). `EncodeBoth` states it of the two encoders at work.
5. **The sampling counter** lets through exactly the quota of each reset in every interleaving
   (`RaceQuotaExact`), at most `first` calls per reset when `thereafter` is 0
   (`LetThroughPerStore`), and without races exactly the quota of each window
   (`WindowQuotaExact`). Only calls with the same level and hash have a say, and the n-th of them
   in a window is handed on exactly as documented (`HandedOnExactly`). The quota per message carries over to whole core trees and every
   logger derived from them (`TreeQuota`).
6. **The buffered syncer** keeps records whole and in order (`BufferedWriteSyncer.Valid`), closes
   its channels once and never waits for the flusher under the lock (`ChannelsClosedOnce`), and
   flushes everything when the Stop that won returns (`WinningStopFlushes`). No call is ever
   stuck (`NoCallIsStuck`), and every tick the flusher takes is followed by a flush
   (`EveryTickIsSynced`, `TickFlushes`).
7. **Lazy cores and hooks are transparent**: in every tree, each leaf whose level sets enable
   the level and whose samplers say yes gets each entry once, in order, and no other leaf does
   (`Program.CheckCore`, `CheckRegistersLeaves`, `Program.Log`). `Enabled` says yes exactly when
   some leaf is open (`EnabledIsOpen`).
8. **Pooling is transparent** in every interleaving: a caller gets exactly what its own call
   wrote (`ResultIsOwn`), and no buffer is shared, freed twice or lost.
9. **Loose arguments are fully accounted for**: fields and complaints are characterised item by
   item, and no other result answers to that (`SweetenFields`, `SweetenedUnique`).

## Where the code does less than one might expect

- A `Stop` that finds the syncer stopped already returns nil at once, and accepted records may
  still be buffered: because the first Stop is still waiting (`EarlyStopReturn`), or because a
  Write came after it had returned (`WriteAfterStop`). `LosingStopExact` gives the condition on
  the calls made: whatever the sink and the buffer size, all accepted records are in the sink if
  and only if no bytes were accepted since the start or since a sync known to have flushed.
- Two distinct keys that are not valid UTF-8 may be written as the same JSON key, at the top
  level or inside a namespace (`CollisionExample`). `AgreeExactly` gives the exact condition.
- The slog handler promises not to open a group before a field arrives. Its test for a no-op
  field misses an unnamed group that shows nothing (`EmptyGroupExample`). `HandleAfter` and
  `EmptyGroupExactly` give the exact condition for every chain of calls: some group is followed
  by an attribute that is not a no-op and by none that is visible.
- A thread that loses the race to open a sampling window resets the counter again, so one window
  can let `2 * first - 1` calls through (`LateLoserOverSamples`). At most `first` calls per
  window get through in every interleaving if and only if `first` is at most 1
  (`PerWindowExact`), and for every `first` in interleavings where no swap is lost
  (`NoSwapLost`).

## Assumptions

- User-supplied level, time, duration, caller and name encoders append one primitive or nothing.
- `EncodeCaller` is set when an entry has a caller and the caller key is set: the encoder calls
  it without a nil check.
- What the reflection encoder writes is one JSON value, possibly followed by a newline.
- Time layouts produce plain ASCII that needs no escaping, as the encoder does not escape them.
- Float and base64 texts are given as tokens of the right shape.
- Sampling ticks are positive and times are not negative. Counters and times are unbounded.
- Level enablers do not change their answers.

## Model

| member | source | states |
|---|---|---|
| `Utf8.DecodeEncoded` | ladcore/json_encoder.go:509-583 | decoding recovers every encoded code point and stops right after it, so the widths the escaper advances by are those of UTF-8 |
| `Utf8.SanitizeIdentity` | ladcore/json_encoder.go:541-550 | replacing undecodable bytes changes a string exactly when it is not valid UTF-8 |
| `Buffers.Buffer.TrimFinalNewline` | buffer/buffer.go:133-139 | drops one final newline if there is one and nothing else |
| `Escape.SafeAppend` | ladcore/json_encoder.go:509-583 | the scanning loop that copies unescaped runs whole appends the rune-by-rune escaped form of the input |
| `EscapeProperties.EscapedStringValue` | ladcore/json_encoder.go:485-583 | for every byte string, the quoted escaped text is valid UTF-8 and reads as one JSON string: the input with undecodable bytes replaced, the input itself exactly when it is valid UTF-8 |
| `EscapeProperties.TextRoundTrip` | ladcore/json_encoder.go:485-583 | every text of Unicode scalar values is written as a JSON string that reads back as that text |
| `Document.TextReads` | ladcore/json_encoder.go:210-230 | the layout of any tree, in either spacing, followed by anything that does not extend a number, reads as the meaning of the tree and leaves the rest |
| `Document.TextIsJsonText` | ladcore/json_encoder.go:54-79 | the layout of any tree is one complete JSON text with that tree's meaning |
| `Primitives.DecimalIsNumber` | buffer/buffer.go:56-69 | the decimal text of every integer is one JSON number token and has that integer as its value |
| `Primitives.PrimitiveIsJson` | ladcore/json_encoder.go:232-344 | every primitive's text, NaN and infinities, complex numbers and unescaped time texts included, is one JSON value that reads as the primitive |
| `Primitives.ComplexText` | ladcore/json_encoder.go:254-261 | real part, then the imaginary part with a plus sign exactly if it is not negative, then `i` |
| `Primitives.FloatWords` | ladcore/json_encoder.go:471-483 | the words written for NaN and the infinities |
| `Namespaces.FlatLayoutIsTreeLayout` | ladcore/json_encoder.go:437-442 | the flat layout closed by as many braces as namespaces were opened is the layout of the explicitly nested tree |
| `Namespaces.NestLosesNothing` | ladcore/json_encoder.go:189-193 | the stream of fields and namespaces can be recovered from the nested tree |
| `Namespaces.AtStartAfterEvents` | ladcore/json_encoder.go:455-469 | after any stream the last byte tells whether the next item is the first of its container |
| `Namespaces.LayoutContinues` | ladcore/json_encoder.go:455-469 | writing two streams one after the other, consulting only the last byte in between, is writing their concatenation |
| `Namespaces.SplicedContext` | ladcore/json_encoder.go:416-419 | pre-serialised context spliced after a separator is the context written in place, and is empty only for no context |
| `JsonEncoders.JsonEncoder.constructor` | ladcore/json_encoder.go:81-98 | a new encoder holds no context |
| `JsonEncoders.JsonEncoder.AddElementSeparator` | ladcore/json_encoder.go:455-469 | appends a separator exactly when the last byte does not open a container, follow a key or end a separator |
| `JsonEncoders.JsonEncoder.AddKey` | ladcore/json_encoder.go:444-453 | appends separator, escaped key and colon, after which a value needs no separator |
| `JsonEncoders.JsonEncoder.CloseOpenNamespaces` | ladcore/json_encoder.go:437-442 | appends one brace per open namespace and resets the count |
| `JsonEncoders.JsonEncoder.AppendComplex` | ladcore/json_encoder.go:247-263 | appends a complex number as one quoted string with a sign before the imaginary part |
| `JsonEncoders.JsonEncoder.AppendFloat` | ladcore/json_encoder.go:471-483 | finite floats become number tokens, the others quoted strings |
| `JsonEncoders.JsonEncoder.AppendEncoded` | ladcore/json_encoder.go:265-316 | a user encoder's primitive, or the fallback when it is missing or appends nothing, as one element |
| `JsonEncoders.JsonEncoder.EncodeReflected` | ladcore/json_encoder.go:167-177 | null for nil, else the reflection output without its final newline, else the error |
| `JsonEncoders.JsonEncoder.AppendArray` | ladcore/json_encoder.go:210-216 | appends the array of all elements that encode, also when the marshaler fails |
| `JsonEncoders.JsonEncoder.AppendObject` | ladcore/json_encoder.go:218-230 | appends one closed object and leaves the caller's namespace count as it was, also when the marshaler fails |
| `JsonEncoders.JsonEncoder.AddReflected` | ladcore/json_encoder.go:179-187 | a failed reflection writes nothing, not even the key, and returns the error |
| `JsonEncoders.JsonEncoder.AddField` | ladcore/json_encoder.go:100-208 | each Add method appends the layout of the field's events and returns the field's error |
| `JsonEncoders.JsonEncoder.AddFieldTo` | ladcore/field.go:114-186 | a field's error is recorded beside it under the key with suffix `Error`, in the innermost open namespace |
| `ErrorFields.ErrorFieldMeaning` | ladcore/error.go:47-79 | an error field writes its text, a verbose text that differs, and one object per non-nil cause up to the first that panics; the first panic is reported under the key with suffix `Error` |
| `ErrorFields.CausesMeaning` | ladcore/error.go:94-108 | the array of causes has one object per non-nil cause up to the first with a panic, and fails with that panic |
| `ErrorFields.StringerFieldMeaning` | ladcore/field.go:214-233 | a Stringer field writes its text, `<nil>` for a nil pointer, or only the panic |
| `ErrorFields.ErrorTexts` | ladcore/error.go:47-79 | the suffixes and markers written besides an error's own text |
| `JsonEncoders.JsonEncoder.AddFields` | ladcore/field.go:208-212 | a field list appends the layout of its events and counts the namespaces it opens |
| `JsonEncoders.JsonEncoder.AddMetadata` | ladcore/json_encoder.go:365-415 | the metadata as members in fixed order, each present only when configured |
| `JsonEncoders.JsonEncoder.SpliceContext` | ladcore/json_encoder.go:416-419 | appends the context of another encoder as if its events were written here |
| `JsonEncoders.JsonEncoder.EncodeEntry` | ladcore/json_encoder.go:361-431 | the output is the layout of metadata, nested context and fields, and stack trace, followed by nothing if line endings are skipped, by a newline if none is configured, and by the configured one otherwise; the receiver is unchanged |
| `JsonEncoders.JsonEncoder.Clone` | ladcore/json_encoder.go:346-359 | the clone holds the same context in a buffer of its own |
| `JsonEncoders.JsonEncoder.With` | ladcore/core.go:81-85 | the derived encoder holds the old context followed by the new fields |
| `Fields.FieldEventsConcat` | ladcore/field.go:208-212 | adding fields in two batches means what adding them in one does |
| `FieldProperties.FailureIsReported` | ladcore/field.go:183-185 | in both encoders a field whose marshaler fails is followed by a string member under its key with `Error` appended that holds the error text; a failed reflection is reported by the JSON encoder; any other field reports nothing |
| `FieldProperties.ScalarsReadAs` | ladcore/json_encoder.go:265-316 | what each scalar value reads as: times and durations as the user's encoder appends them or else as nanoseconds, reflected values as null, their output without its final newline, or nothing if they fail |
| `FieldProperties.ContainersReadAs` | ladcore/json_encoder.go:210-230 | arrays and objects read as their elements and members |
| `FieldProperties.ArrayReadsAs` | ladcore/json_encoder.go:210-216 | the elements of an array that all encode appear one by one in order |
| `FieldProperties.ObjectReadsAs` | ladcore/json_encoder.go:218-230 | the values a marshaler adds appear one by one under their keys |
| `FieldProperties.FieldsInPlace` | ladcore/field.go:118-176 | an inline marshaler's calls land in the enclosing object, a no-op does nothing, and a namespace swallows what follows |
| `FieldProperties.LevelTexts` | ladcore/level.go:113-132 | the names of the seven levels and of unknown ones |
| `FieldProperties.LevelNamesDistinct` | ladcore/level.go:113-132 | no two levels share a name |
| `FieldProperties.Punctuation` | ladcore/json_encoder.go:444-469 | commas and colons are followed by a space exactly in the spaced layout |
| `EntryProperties.MetaMeaning` | ladcore/json_encoder.go:365-415 | the metadata reads back as level, time, name, caller, function and message |
| `EntryProperties.EntryParses` | ladcore/json_encoder.go:361-431 | every entry's text reads as exactly one object with metadata, nested fields and stack trace |
| `EntryProperties.EncodeLine` | ladcore/json_encoder.go:361-431 | the line is a text that reads completely as the entry's object, followed by the line ending the configuration calls for |
| `EntryProperties.MetadataInFull` | ladcore/json_encoder.go:365-415 | fully configured, the metadata is level, time, name, caller, function and message in this order, each as its encoder appends it |
| `EntryProperties.MetadataParts` | ladcore/json_encoder.go:365-415 | each part is there exactly when it is configured and the entry has it; a level encoder that appends nothing falls back to the level's name |
| `EntryProperties.CachedContextAgrees` | ladcore/core.go:81-85 | any chain of With steps then EncodeEntry gives byte for byte the line one encoder given all fields gives: the entry as one JSON object and its line ending |
| `Framing.EntryNoBreak` | ladcore/json_encoder.go:361-431 | an entry's text has a newline if and only if a value among its fields or context has one; message, stack trace, keys and strings never do |
| `Framing.TextNoBreak` | ladcore/json_encoder.go:455-583 | the text of a tree has a newline if and only if one of its leaves has |
| `Framing.FieldsOneLine` | ladcore/json_encoder.go:167-177 | only reflected values can bring in a newline |
| `Framing.EncodeLog` | ladcore/json_encoder.go:416-431 | records encoded one after the other with newline endings split at their newlines into one line per record, each of which reads as that record |
| `ConsoleEncoder.WriteContext` | ladcore/console_encoder.go:132-157 | adds nothing when there are no fields, else one object with all namespaces closed, after a separator if and only if the line already has text; the encoder keeps its context |
| `ConsoleEncoder.ContextIsJson` | ladcore/console_encoder.go:132-151 | the object on the console line reads back as the members the fields mean |
| `MapEncoders.PathMeaning` | ladcore/memory_encoder.go:129-133 | following the namespaces from `Fields` to the current map, the map reached from the root is the tree of the events so far |
| `MapEncoders.PathExtends` | ladcore/memory_encoder.go:129-133 | writes into the current map extend the path of namespaces that leads to it |
| `MapEncoders.EffectsCompose` | ladcore/field.go:208-212 | two batches of calls through the shared maps have the effect of their events in sequence |
| `MapEncoders.ObjectEffect` | ladcore/memory_encoder.go:53-57 | a map linked into its parent first and filled afterwards ends up as the finished object |
| `MapEncoders.BuildCell` | ladcore/memory_encoder.go:141-153 | nested arrays and objects become the tree of the value, on fresh maps only |
| `MapEncoders.MapObjectEncoder.OpenNamespace` | ladcore/memory_encoder.go:129-133 | later writes land in a new map stored under the key |
| `MapEncoders.MapObjectEncoder.AddObject` | ladcore/memory_encoder.go:53-57 | stores the object's tree under the key, and leaves the current map where it was |
| `MapEncoders.MapObjectEncoder.AddKeyValue` | ladcore/memory_encoder.go:45-126 | stores the value's tree under the key, replacing an earlier one, and returns the marshaler's error |
| `MapEncoders.MapObjectEncoder.AddFieldTo` | ladcore/field.go:114-186 | a marshaler's error is stored beside its field |
| `MapEncoders.MapObjectEncoder.AddFields` | ladcore/field.go:208-212 | `Fields` is the tree of all events the encoder has taken, these fields' included, and the current map is reached from it along the namespaces opened |
| `EncoderAgreement.EncodersAgree` | ladcore/memory_encoder.go:27-42 | for every field list whose reflections succeed and whose keys a reader can tell apart, decoding the JSON text gives the in-memory tree, last write winning in both |
| `KeyCollisions.AgreeExactly` | ladcore/json_encoder.go:444-453 | for every field list whose reflections succeed, the decoded JSON has the same keys, as many of them, and matching values at every level of the in-memory tree if and only if no map at any depth has two keys that read the same |
| `KeyCollisions.ValidKeysAgree` | ladcore/json_encoder.go:541-550 | valid UTF-8 in all keys of a field list, nested marshalers and error keys included, rules out every collision |
| `KeyCollisions.ValidKeysAreDistinct` | ladcore/json_encoder.go:541-550 | valid UTF-8 keys of one map read differently |
| `KeyCollisions.EncodeBoth` | ladcore/memory_encoder.go:27-42 | giving the same fields to both encoders: the JSON text decodes to a mirror of the nested maps if and only if their keys can be told apart, and then to their rendering |
| `KeyCollisions.CollisionExample` | ladcore/json_encoder.go:541-550 | two one-byte keys that collide, at the top level and inside a namespace whose own map is fine |
| `SamplerRace.RunKeepsInv` | ladcore/sampler.go:64-81 | what every interleaving of atomic steps of any number of threads keeps |
| `SamplerRace.WindowsAdvance` | ladcore/sampler.go:64-81 | each won swap continues at the end of the previous window and ends at least a tick later; only winners return 1; windows are at most one per tick of time |
| `SamplerRace.EveryCallReturnsOnce` | ladcore/sampler.go:64-81 | calls made are calls that won plus calls that added plus calls still running |
| `SamplerRace.AddsCountFromStore` | ladcore/sampler.go:64-81 | the adds between two resets return 2, 3, 4, ... without gap or repetition |
| `SamplerRace.LetThroughPerStore` | ladcore/sampler.go:214-229 | with thereafter 0, at most `first` calls pass per reset in every interleaving, more exactly `first - 1` per reset and one per window |
| `SamplerRace.LateLoserOverSamples` | ladcore/sampler.go:73-78 | for every `first` from 2 on, a schedule that attains that bound: one lost swap passes `2 * first - 1` calls in one window |
| `SamplerRace.PerWindowExact` | ladcore/sampler.go:64-81 | at most `first` calls per window pass in every interleaving if and only if `first` is at most 1 |
| `SamplerRace.NoSwapLost` | ladcore/sampler.go:73-78 | at most `first` calls per window pass, for every `first`, in every interleaving where no swap is lost or pending |
| `Sampler.SoloCallIsInc` | ladcore/sampler.go:64-81 | a call of the concurrent protocol without interference is one step of the sequential counter |
| `Sampler.QuotaStep` | ladcore/sampler.go:220-225 | the closed-form quota grows by one exactly at the calls the sampler lets through |
| `Sampler.RaceQuotaExact` | ladcore/sampler.go:214-229 | in every interleaving and for every `first` and `thereafter`, the calls passed are exactly one per window (if a first call passes) plus, per reset, the quota of the calls counted from it |
| `Sampler.WindowQuotaExact` | ladcore/sampler.go:123-151 | a burst inside one window passes exactly the first `first` calls and every `thereafter`-th after them |
| `Sampler.WindowsATickApart` | ladcore/sampler.go:64-81 | two window openings are at least a tick apart |
| `Sampler.TickQuota` | ladcore/sampler.go:123-151 | any interval of one tick passes at most twice the quota of the busiest window |
| `Sampler.MessageQuota` | ladcore/sampler.go:214-229 | the same for each level and message, whatever else is logged and however hashes collide |
| `Sampler.OnlySameCounterMatters` | ladcore/sampler.go:44-48 | deleting from the history every call with another level or another FNV-1a hash modulo 4096 does not change whether the last call is handed on |
| `Sampler.FirstOfItsKind` | ladcore/sampler.go:214-229 | an entry none of whose predecessors shares its level and hash is handed on when `first` is at least 1, and one of an unknown level always |
| `Sampler.HandedOnExactly` | ladcore/sampler.go:127-151 | among calls that share a counter within one tick of the first, the n-th is handed on if and only if n is at most `first` or exceeds it by a multiple of `thereafter` |
| `TreeSampling.AcceptedExactly` | ladcore/sampler.go:214-229 | an entry logged through a sampled core registers if and only if a leaf under it is open and, for the known levels, the history says so |
| `TreeSampling.TreeQuota` | ladcore/sampler.go:203-229 | in whatever is logged through a sampled core tree and all cores derived from it by With, a message registers at most twice the quota of its busiest window in any tick |
| `CoreTree.OtherCountsKept` | ladcore/sampler.go:214-229 | checking a tree leaves the counters of samplers outside it alone |
| `Sampler.Fnv32a` | ladcore/sampler.go:51-62 | the loop computes the 32-bit FNV-1a hash |
| `Sampler.FnvVectors` | ladcore/sampler.go:51-62 | the hash has the published values for two strings |
| `Sampler.SamplerCore.IncCheckReset` | ladcore/sampler.go:64-81 | advances one counter of the table and no other |
| `Sampler.SamplerCore.Check` | ladcore/sampler.go:214-229 | disabled entries are not counted; the table always holds the counters of the whole call history; the call is handed on if and only if the history says so, in particular if it is the first of its level and hash; the hook hears that decision |
| `Bufio.BufioWriter.Flush` | ladcore/buffered_write_syncer.go:158-168 | moves buffered bytes to the sink without losing or reordering any; an error sticks |
| `Bufio.BufioWriter.Write` | ladcore/buffered_write_syncer.go:154-154 | takes the whole record, or a prefix with an error that sticks |
| `Bufio.BufferedWriteSyncer.Initialize` | ladcore/buffered_write_syncer.go:112-133 | starts with nothing stored and a buffer of the configured size, 256 kB for size 0 |
| `Bufio.BufferedWriteSyncer.Write` | ladcore/buffered_write_syncer.go:137-155 | sink then buffer always hold a prefix of the records in order, all of them until an error; a record that fits is buffered without touching the sink; one that does not first sends the buffer in one call, so that a sink that takes full writes sees whole records only |
| `Bufio.BufferedWriteSyncer.Sync` | ladcore/buffered_write_syncer.go:158-168 | succeeds only with every record so far in the sink |
| `BufferedProtocol.RunInv` | ladcore/buffered_write_syncer.go:112-220 | what every run of any threads, flusher and ticker keeps, in control and in data |
| `BufferedProtocol.ChannelsClosedOnce` | ladcore/buffered_write_syncer.go:190-220 | in every run each channel is closed at most once and no thread waits for the flusher while holding the lock |
| `BufferedProtocol.NoCallIsStuck` | ladcore/buffered_write_syncer.go:137-220 | as long as any call has not returned, a Stop waiting for the flusher or for its final Sync included, a call in progress or the flusher can step |
| `BufferedProtocol.FlusherExits` | ladcore/buffered_write_syncer.go:172-186 | after the stop channel closes the flusher takes at most six steps and syncs at most twice, and with no step left it has exited |
| `FlushLoop.EveryTickIsSynced` | ladcore/buffered_write_syncer.go:172-186 | in every run, between a tick the flusher takes and its next tick or its exit, it syncs |
| `FlushLoop.BackgroundSyncFlushes` | ladcore/buffered_write_syncer.go:177-181 | a background sync that leaves no error has put every record accepted before it into the sink for good |
| `FlushLoop.PendingTickFlushes` | ladcore/buffered_write_syncer.go:172-186 | with a tick pending, the lock free and the flusher selecting, it can go on to flush every accepted record |
| `FlushLoop.TickFlushes` | ladcore/buffered_write_syncer.go:112-133 | until the syncer is stopped, such a tick can come |
| `BufferedProtocol.SinkOnlyGrows` | ladcore/buffered_write_syncer.go:137-168 | what is in the sink stays there, in every run |
| `BufferedProtocol.WinningStopFlushes` | ladcore/buffered_write_syncer.go:190-220 | the Stop that closed the channel returns nil only with every accepted record in the sink for good and the flusher gone |
| `StopProperties.LosingStop` | ladcore/buffered_write_syncer.go:190-213 | a Stop that finds the syncer uninitialized or stopped returns nil and leaves the store as it is |
| `StopProperties.LosingStopExact` | ladcore/buffered_write_syncer.go:190-213 | every run of the calls made so far has all accepted records in the sink when such a Stop returns if and only if no bytes were accepted since the start or since a sync that returned nil or was followed by an accepted Write |
| `StopProperties.FlushedIsInSink` | ladcore/buffered_write_syncer.go:158-168 | after such calls every accepted record is in the sink, in every run |
| `StopProperties.UnflushedRun` | ladcore/buffered_write_syncer.go:137-220 | after any other calls, a run with the very same calls and results whose sink lacks an accepted record |
| `StopProperties.EarlyStopReturn` | ladcore/buffered_write_syncer.go:190-213 | a run in which a Stop returns nil while another waits and an accepted record is still buffered |
| `StopProperties.WriteAfterStop` | ladcore/buffered_write_syncer.go:137-220 | a run in which a Write after a finished Stop is accepted and a later Stop returns nil without flushing it |
| `CoreTree.WithWith` | ladcore/tee.go:48-54 | adding context twice gives the very tree that adding it once does |
| `CoreTree.WithKeepsEnabled` | ladcore/increase_level.go:49-59 | With does not change which levels a tree enables |
| `CoreTree.WithOnlyExtendsContext` | ladcore/sampler.go:203-212 | after With the same leaves and hooks register in the same order and samplers count and decide the same; only leaf contexts grow |
| `CoreTree.CheckRegistersOpenLeaves` | ladcore/tee.go:75-80 | Check registers exactly the leaf occurrences whose every gate on the path enables the level, left to right, each once |
| `CoreTree.CheckRegistersLeaves` | ladcore/tee.go:75-80 | for every tree of leaves, tees, filters, hooks and samplers, Check registers exactly the leaves whose level sets all enable the level and whose samplers all say yes, left to right, each once |
| `CoreTree.SamplerPassesOn` | ladcore/sampler.go:214-229 | an entry its counters decide for, or of an unknown level, reaches exactly the leaves the core under a sampler opens; on a negative decision nothing is added |
| `CoreTree.OwnLevels` | ladcore/core.go:87-92 | a leaf registers, and a filter passes on, exactly at the levels in its own set |
| `CoreTree.EnabledIsOpen` | ladcore/tee.go:66-73 | for every tree with properly built filters, Enabled says yes to a level exactly when some leaf is open for it |
| `CoreTree.HooksNeverStart` | ladcore/hook.go:52-60 | a hook registers only when something below it or before it has |
| `CoreTree.RootHookRunsIffAccepted` | ladcore/hook.go:52-60 | a hook at the root is registered if and only if the wrapped core accepts |
| `CoreTree.DisabledRegistersNothing` | logger.go:328-333 | a tree that does not enable a level registers nothing for it and counts nothing |
| `Cores.EnabledNowIsEnabled` | ladcore/lazy_with.go:25-38 | asking a tree with lazy cores is asking its eager tree, whichever cells have run |
| `Cores.CellRunMeaning` | ladcore/lazy_with.go:40-44 | running a lazy cell changes the meaning of no tree |
| `Cores.CheckedEntry.Reset` | ladcore/entry.go:218-228 | any pooled entry becomes a clean one |
| `Cores.CheckedEntry.Write` | ladcore/entry.go:233-275 | delivers once to each registration in order and then its action is due; a second Write delivers nothing |
| `Cores.Program.NewLazyWith` | ladcore/lazy_with.go:33-38 | the new core means With on the old one, and nothing has run |
| `Cores.Program.InitOnce` | ladcore/lazy_with.go:40-44 | runs the inner With at most once, and the cell then holds the eager tree |
| `Cores.Program.WithFields` | ladcore/lazy_with.go:46-49 | With on any tree gives With on its eager tree, and changes no other tree's meaning |
| `Cores.Program.AddTo` | ladcore/entry.go:280-287 | appends a registration, to a clean entry when there was none, however the pool left it |
| `Cores.Program.CheckCore` | ladcore/lazy_with.go:51-54 | Check on any tree, with whichever cells run, registers and counts what its eager tree does |
| `Cores.Program.CheckTee` | ladcore/tee.go:75-80 | the same for the loop over a tee |
| `Cores.Program.CheckSampler` | ladcore/sampler.go:214-229 | the same for a sampling core, whose eager meaning is given in both directions by `SamplerPassesOn` |
| `Cores.Program.NewIncreaseLevelCore` | ladcore/increase_level.go:39-47 | builds the filter if and only if it enables no level that the core does not |
| `Cores.Program.LoggerCheck` | logger.go:322-422 | the early exit and the terminal actions do not change which registrations an entry gets; a terminal action is due even when no core accepts |
| `Cores.Program.Log` | logger.go:229-233 | every leaf whose level sets enable the level and whose samplers say yes gets the entry exactly once, left to right, with its context and the fields; a terminal action is due exactly at Panic, at Fatal and in development at DPanic, and is the override unless that is missing or a no-op |
| `Cores.TerminalOverride` | logger.go:424-439 | the terminal action is never a no-op, and any other override is respected |
| `SlogHandler.AppendGroups` | exp/zapslog/handler.go:190-195 | appends one namespace per pending group in order |
| `SlogHandler.FieldsFor` | exp/zapslog/handler.go:171-184 | the pending groups precede the first field that is not a no-op, and appear at most once |
| `SlogHandler.WithAttrs` | exp/zapslog/handler.go:199-220 | what the new handler has emitted and still owes is what the old one did, then the attributes |
| `SlogHandler.GroupOwed` | exp/zapslog/handler.go:224-232 | WithGroup owes one more namespace |
| `SlogHandler.Handle` | exp/zapslog/handler.go:138-188 | the record's stream is all that is owed and its attributes, without trailing namespaces |
| `SlogHandler.HandleAfter` | exp/zapslog/handler.go:171-232 | for every chain of WithGroup and WithAttrs, the record's stream is the one a handler opening groups at once gives, less the namespaces left open at its end; it ends in an opened, empty group if and only if some group is followed by an attribute that is not a no-op and by none that is visible |
| `SlogHandler.ConvertKeepsMeaning` | exp/zapslog/handler.go:69-114 | the field for an attribute writes the members the attribute stands for (named groups nest, unnamed ones splice, log valuers resolve) and leaves no namespace open |
| `SlogHandler.VisibleMeansEvents` | exp/zapslog/handler.go:76-114 | an attribute writes something, be it only the error of a failed reflection, if and only if it is visible |
| `SlogHandler.EmptyGroupExactly` | exp/zapslog/handler.go:175-182 | the same equivalence for any list of groups and attributes given |
| `SlogHandler.PendingGroups` | exp/zapslog/handler.go:171-184 | for the attributes of one call, pending groups are opened for nothing if and only if some attribute is not a no-op and none is visible |
| `SlogHandler.EmptyGroupExample` | exp/zapslog/handler.go:175-182 | an unnamed group without attributes does so |
| `LineWriter.PiecesSplit` | ladio/writer.go:75-116 | splitting at newlines gives pieces without newlines that join to the input |
| `LineWriter.PiecesResume` | ladio/writer.go:91-116 | splitting may stop anywhere and resume with the unfinished piece |
| `LineWriter.MessagesAreLines` | ladio/writer.go:75-116 | no message has a newline, and ended by newlines the messages are the stream, its last line ended if it was not |
| `LineWriter.Writer.WriteLine` | ladio/writer.go:91-116 | consumes up to a newline and logs the finished line, or buffers the rest |
| `LineWriter.Writer.Write` | ladio/writer.go:75-87 | logs every line finished by this chunk and keeps the rest; reports all bytes written |
| `LineWriter.Writer.Sync` | ladio/writer.go:128-134 | logs what is buffered unless empty |
| `LineWriter.WriteAndClose` | ladio/writer.go:75-143 | however a stream is cut into writes, the messages are those of each segment between Syncs split on its own, and ended by newlines they are everything written |
| `Sweeten.StartsTile` | sugar.go:395-454 | the items read tile the argument list from left to right |
| `Sweeten.EachIndexOnce` | sugar.go:395-454 | every argument belongs to exactly one item |
| `Sweeten.ReadItem` | sugar.go:405-443 | one round reads one item, accounts for its field, complaint or invalid pair, and moves past it |
| `Sweeten.ReadItems` | sugar.go:408-443 | the loop accounts for all items and no other |
| `Sweeten.SweetenFields` | sugar.go:395-454 | fields come in order from items, one each: a typed field, a string key with the argument after it, or the first error; every such item gives its field. Complaints likewise: every later error, a dangling last argument, and last all pairs with another kind of key, at their positions with key and value |
| `Sweeten.SweetenedUnique` | sugar.go:395-454 | only one list of fields and one of complaints answer to that description |
| `Pooling.RunInv` | buffer/pool.go:44-53 | what every run of any number of encoding threads keeps |
| `Pooling.PoolingIsTransparent` | ladcore/json_encoder.go:41-52 | in every run live buffers are distinct from each other and from pooled ones, and hold exactly what their holder wrote |
| `Pooling.ResultIsOwn` | ladcore/console_encoder.go:70-151 | in every run the buffer a caller gets holds exactly what its own call has written, in order, copied context included |
| `Pooling.NoLeak` | buffer/pool.go:44-53 | in every run each buffer ever made is in the pool or held |
| `Pooling.NoDoubleFree` | ladcore/console_encoder.go:132-151 | in every run a buffer given back was not in the pool and nobody holds it any more |

## Left out

- Sink registration by URL, the HTTP level handler, flags, global loggers, the grpc adapter, presets and config building, which only construct loggers or forward to them.
- Stack traces and caller lookup: the entry's caller and stack are inputs.
- The text of floats, times and base64 data: tokens of the right shape are inputs.
- Reflection: its output or error is an input. So are the texts and panics of errors and Stringers.
- Integer widths: counters, times and lengths are unbounded, so overflow and the conversion of negative `first` and `thereafter` to unsigned are not modelled; the hash is 32 bits wide.
- The metadata at the head of a console line.
- Cores' own Sync and Write errors, the error output of loggers and cores.
- Multi-level queries (`Level` of cores) and level enablers that change while loggers run.
- `CoreTree.CheckRegistersLeaves`: excludes trees in which two sampling cores share their counters.
- `TreeSampling.TreeQuota`: speaks of a sampler at the root of a tree; one below a tee or filter is such a root for the cores under it.
- `SamplerRace.WindowsAdvance`: requires times within a bound, since the number of windows grows with time.
- `BufferedProtocol.NoCallIsStuck`: states that a step is possible, not that a fair scheduler takes it.
- `Bufio.BufioWriter.Write`: assumes of the sink that a write without error makes progress; the standard library's writer itself is not part of this repository.
- `EncoderAgreement.EncodersAgree`: requires reflections to succeed, since the in-memory encoder keeps the raw value where the JSON encoder reports an error.
- The slog handler's early return when the core declines a record, and its caller and stack options.
- Memory reclamation in pools: a pool may keep any object for good.
