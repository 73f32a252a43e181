# mess-pi edge agent and Modbus probe, modelled in Dafny

The system is a gateway that runs on a Raspberry Pi next to electricity meters.
- A Rust agent (`src/cli`) scans the local network for Modbus TCP devices. It identifies them by reading "detect" and "id" registers and keeps them in a PostgreSQL table. It reads their measurement registers on a schedule, stores the readings, and pushes them to a cloud endpoint in batches, tracking progress with logs of successful pushes.
- A Python probe (`src/probe`) reads the same registers for diagnosis.

The model follows the source module by module:

| Dafny module | models |
|---|---|
| `Register` | register kinds, values and their decoding from 16-bit words (`modbus/register.rs`) |
| `Utf8`, `Bits` | the byte and integer facts decoding rests on: UTF-8 well-formedness, decimal `Display`, powers of two, and word layouts |
| `ProbeClient`, `ProbePull`, `ProbeAgreement` | the probe's converters (`client.py`, `pull.py`), and the proof that they decode exactly as the agent does |
| `ProbeDevice` | the probe's `DeviceType` (`device.py`) |
| `Net` | IPv4 addresses, dotted-decimal parsing, `to_socket`/`to_ip` |
| `ModbusConnection` | destinations, connecting, read parameters, and the retrying read (`service/modbus/connection.rs`) |
| `ModbusConn` | the span reader with retries (`modbus/conn.rs`) |
| `Worker`, `WorkerPasses`, `WorkerTask` | the Modbus worker task (`service/modbus/worker.rs`). `WorkerTask.Task` is a class whose methods change its fields in place. Each is proved equal to a function of `Worker` on a state value. `WorkerPasses` proves what one pass does to each queued request. |
| `ConfigFile` | configuration loading and its conversions (`config/file.rs`) |
| `Cloud` | the cloud client's construction and response handling (`cloud.rs`) |
| `Db` | the agent's measurement and log tables (`db.rs`), as class `Db.Store` |
| `Services` | the configuration mapping, `on_pull` and `on_push` (`services.rs`) |
| `ServiceDb` | the process layer's database, as class `ServiceDb.Store` |
| `Push`, `Update` | the push and update processes |
| `Discovery`, `Discover` | the two device-discovery processes |
| `Measure` | the measurement process |

Environment effects become parameters:
- Network reads become oracles. A read of a destination is a function from the destination and the register list to an outcome. Attempt `k` of a retried read is `attempt(k)`.
- The clock is a number `now`, or `clock(i)` for the i-th reading.
- Regex compilation and matching, JSON serialisation and `make_id` are parameters.
- A database failure is a boolean parameter, or a `nat -> bool` indexed by the call.

Rust strings are their UTF-8 bytes (`seq<byte>`). Integer widths are explicit: `u16` words, `as u64`/`as i64` casts, two's-complement readings, and the `u16` truncation of a string's quantity.

## Model

| member | source | states |
|---|---|---|
| Register.NumericBytes | src/cli/src/modbus/register.rs:346-359 | two bytes per word |
| Register.NumericBytesLayout | src/cli/src/modbus/register.rs:346-359 | the words are taken in reverse order, each low byte first |
| Register.StringBytes | src/cli/src/modbus/register.rs:370-377 | two bytes per word |
| Register.StringBytesLayout | src/cli/src/modbus/register.rs:370-377 | the words are taken in order, each high byte first |
| Register.NumericBytesValue | src/cli/src/modbus/register.rs:202-211 | `from_ne_bytes` on a little-endian target reads the reversed bytes as the big-endian number of the words: the first register is the most significant word |
| Register.WordsValue | src/cli/src/modbus/register.rs:202-211 | the unsigned reading of n words is below 2^(16n) |
| Register.SignedWordsValue | src/cli/src/modbus/register.rs:202-211 | the signed reading is the two's complement of the unsigned one, within the range of `i16`/`i32`/`i64` |
| Register.ParseMeasurement | src/cli/src/modbus/register.rs:315-324 | parses exactly when the value decodes; keeps the address and name, with the decoded value |
| Register.ParseDetect | src/cli/src/modbus/register.rs:325-337 | parses exactly when the value decodes; keeps the address and the pattern |
| Register.ParseId | src/cli/src/modbus/register.rs:338-344 | parses exactly when the value decodes; keeps the address |
| Register.ParseNumericQuantity | src/cli/src/modbus/register.rs:92-122 | a numeric kind decodes exactly when the device returned the kind's quantity of registers. The value's quantity is the kind's. |
| Register.ParseStringQuantity | src/cli/src/modbus/register.rs:262-265 | a string decodes exactly when its bytes are UTF-8. Its quantity is the byte length cast to `u16`. |
| Register.ParseUnsigned | src/cli/src/modbus/register.rs:238-246 | U16/U32/U64 values are the registers read big-endian |
| Register.ParseSigned | src/cli/src/modbus/register.rs:247-255 | S16/S32/S64 values are in the type's range. They agree with the big-endian reading modulo 2^bits. They are negative exactly when its top bit is set. |
| Register.MatchesLiteralInteger | src/cli/src/modbus/register.rs:143-151 | a literal pattern matches an integer register exactly when it is the value's decimal text. At most one value matches it. |
| Register.StringRegisterText | src/cli/src/modbus/register.rs:153-157 | a string id register's id is its decoded bytes. A literal pattern matches a string register exactly when it is those bytes. |
| Utf8.IntegerText | src/cli/src/modbus/register.rs:124-141 | integer `Display` is ASCII: a minus sign exactly for negatives, then the digits |
| Utf8.IntegerTextInjective | src/cli/src/modbus/register.rs:124-141 | distinct integers display differently |
| Utf8.DigitsRoundTrip | src/cli/src/modbus/register.rs:124-141 | the decimal digits denote the number |
| Utf8.DigitsOfValue | src/cli/src/modbus/register.rs:124-141 | decimal text without a leading zero is exactly the `Display` text of its value |
| Utf8.ConcatIsValid | src/cli/src/process/discovery.rs:112-122 | concatenating valid strings, as the id fold does, gives a valid string |
| ProbeClient.ToRawBytes | src/probe/probe/client.py:162-167 | two bytes per register |
| ProbeClient.Uint32Value | src/probe/probe/client.py:126-128 | for 16-bit words, `(first << 16) \| second` is `first * 2^16 + second` |
| ProbeClient.Uint64Value | src/probe/probe/client.py:130-132 | four 16-bit words combine most significant first |
| ProbeClient.Sint32Value | src/probe/probe/client.py:134-141 | `to_sint32` is the two's-complement reading of `to_uint32` |
| ProbeClient.Sint64Value | src/probe/probe/client.py:143-150 | `to_sint64` is the two's-complement reading of `to_uint64` |
| ProbeClient.Sint16Value | src/probe/probe/client.py:152-154 | `to_sint16` is the two's-complement reading of a register |
| ProbeClient.RawBytesLayout | src/probe/probe/client.py:162-167 | byte 2i is register i's high byte and byte 2i+1 its low byte; the pair recovers the register |
| ProbeClient.RawBytesAreBytes | src/probe/probe/client.py:162-167 | every raw byte is below 256, whatever the input |
| ProbePull.Uint32Value | src/probe/probe/pull.py:87-89 | `to_uint32` is `first * 2^16 + second` for 16-bit words |
| ProbePull.Uint64Value | src/probe/probe/pull.py:91-93 | four words equal two 32-bit halves, high half first |
| ProbePull.Sint32Subtracts | src/probe/probe/pull.py:95-102 | 2^32 is subtracted exactly when the combined value has bit 31 set |
| ProbePull.Sint16Onto | src/probe/probe/pull.py:104-106 | `to_sint16` maps [0, 65536) one to one onto [-32768, 32767] |
| ProbePull.RawBytesConcat | src/probe/probe/pull.py:114-119 | the raw bytes of consecutive registers are the concatenation of their raw bytes |
| ProbePull.RawBytesLayout | src/probe/probe/pull.py:114-119 | two bytes per register, high byte first |
| ProbeAgreement.Uint32Agrees | src/probe/probe/client.py:126-128 | the probe's `to_uint32` equals the agent's U32 decoding of the same registers |
| ProbeAgreement.Uint64Agrees | src/probe/probe/client.py:130-132 | the same for `to_uint64` and U64 |
| ProbeAgreement.Sint16Agrees | src/probe/probe/client.py:152-154 | the same for `to_sint16` and S16 |
| ProbeAgreement.Sint32Agrees | src/probe/probe/client.py:134-141 | the same for `to_sint32` and S32 |
| ProbeAgreement.Sint64Agrees | src/probe/probe/client.py:143-150 | the same for `to_sint64` and S64 |
| ProbeAgreement.RawBytesAgree | src/probe/probe/client.py:162-167 | the probe's raw bytes are the agent's string bytes |
| ProbeDevice.Str | src/probe/probe/device.py:10-11 | `str` of a member is its value, which is the member's name, the text `DeviceType[...]` looks up |
| ProbeDevice.FromString | src/probe/probe/device.py:14-18 | a member is returned exactly when some member has that name, and then it is that member |
| ProbeDevice.StrRoundTrip | src/probe/probe/device.py:6-18 | looking up a member's printed text gives the member back |
| ProbeDevice.FromStringCases | src/probe/probe/device.py:14-18 | `abb` and `schneider` are the two members; any other text gives none |
| Net.ToSocket | src/cli/src/service/network.rs:61-63 | the address at port 502 |
| Net.SocketRoundTrip | src/cli/src/service/network.rs:61-67 | `to_ip(to_socket(ip)) == ip`, and `to_socket` of a port-502 socket's ip gives the socket |
| Net.FormatThenParse | src/cli/src/config/file.rs:233-244 | every address parses back from its dotted-decimal text |
| Net.ParseThenFormat | src/cli/src/config/file.rs:233-244 | only the canonical dotted-decimal text of an address parses to it |
| Net.SplitThenJoin | src/cli/src/config/file.rs:233-244 | joining the dot-separated parts gives back the text |
| ModbusConnection.For | src/cli/src/service/modbus/connection.rs:19-49 | one destination per slave 1..246 in order, then the standalone one |
| ModbusConnection.ForMembers | src/cli/src/service/modbus/connection.rs:19-49 | the destinations of an address are exactly its slaves 1..246 and its standalone destination |
| ModbusConnection.ConnectSlaveRange | src/cli/src/service/modbus/connection.rs:75-95 | the slave check refuses exactly the ids outside 1..247, whatever the network does |
| ModbusConnection.ConnectRecordsDestination | src/cli/src/service/modbus/connection.rs:52-101 | a connection is to the destination asked for; connecting fails only on the slave check or a failed TCP connect |
| ModbusConnection.LastSlaveNeverEnumerated | src/cli/src/service/modbus/connection.rs:19-95 | slave 247 is accepted by `connect_slave` but is never enumerated |
| ModbusConnection.ChronoMilliseconds | src/cli/src/service/modbus/connection.rs:211-215 | a valid duration holding exactly the given number of milliseconds, as nanoseconds |
| ModbusConnection.NumMilliseconds | src/cli/src/service/modbus/connection.rs:217-221 | whole milliseconds, truncated toward zero: for a non-negative duration the largest count not above it, for a negative one the smallest count not below it; always within `i64` |
| ModbusConnection.AsU64 | src/cli/src/service/modbus/connection.rs:217-221 | `as u64` is congruent to the value modulo 2^64 and below 2^64: a non-negative `i64` is kept, a negative one gains 2^64 |
| ModbusConnection.AsI64 | src/cli/src/service/modbus/connection.rs:211-215 | `as i64` reads the low 64 bits as two's complement |
| ModbusConnection.MillisRoundTrip | src/cli/src/service/modbus/connection.rs:211-230 | `as i64` after `as u64` gives back the milliseconds |
| ModbusConnection.ChronoRoundTrip | src/cli/src/service/modbus/connection.rs:211-230 | converting to the standard duration and back keeps the whole milliseconds, truncated toward zero |
| ModbusConnection.ParamsRoundTrip | src/cli/src/service/modbus/connection.rs:113-141 | the accessors return the timeout, backoff and retries `Params::new` got, for whole milliseconds |
| ModbusConnection.SimpleRead | src/cli/src/service/modbus/connection.rs:177-209 | corrected: a response exactly when the read completed in time; an elapsed timeout is `Timeout`, a failed read `Connection` |
| ModbusConnection.SimpleReadSwapsErrors | src/cli/src/service/modbus/connection.rs:200-204 | as written, a timed-out read is reported as `Connection` and a failed read as `Timeout` |
| ModbusConnection.ParameterizedRead | src/cli/src/service/modbus/connection.rs:154-175 | corrected: the loop's result is the function `Attempts` after `retries` rounds, each attempt being the corrected `SimpleRead` |
| ModbusConnection.OkIsFinal | src/cli/src/service/modbus/connection.rs:164-170 | once a response is in, later rounds keep it |
| ModbusConnection.AttemptsErrors | src/cli/src/service/modbus/connection.rs:154-175 | corrected: the read fails exactly when every attempt failed, with one error per attempt, in order, each labelled as the corrected `SimpleRead` labels it |
| ModbusConnection.EveryAttemptFailed | src/cli/src/service/modbus/connection.rs:154-175 | a failed read means every attempt made failed |
| ModbusConnection.AttemptsFirstResponse | src/cli/src/service/modbus/connection.rs:154-175 | a successful read returns the first attempt that succeeded |
| ModbusConnection.AttemptsOnlyUseMade | src/cli/src/service/modbus/connection.rs:164-171 | no attempt is made after `retries` or after the first response |
| ModbusConn.Flatten | src/cli/src/modbus/conn.rs:91-98 | a response exactly when the read completed in time and succeeded |
| ModbusConn.AttemptsMade | src/cli/src/modbus/conn.rs:84-131 | between 1 and `retries + 1` reads are made |
| ModbusConn.ReadSpanResult | src/cli/src/modbus/conn.rs:84-131 | `Parse` exactly when the read succeeded and the words do not decode; `Connection` with the last I/O error exactly when every read failed |
| ModbusConn.ReadSpan | src/cli/src/modbus/conn.rs:84-131 | the method's result is `ReadSpanResult` |
| ModbusConn.RetriedOkIsFinal | src/cli/src/modbus/conn.rs:84-131 | a success is kept by later rounds |
| ModbusConn.RetriedFailure | src/cli/src/modbus/conn.rs:84-131 | the result is an error exactly when all `retries + 1` reads failed, and then it is the last read's error |
| ModbusConn.RetriedFirstSuccess | src/cli/src/modbus/conn.rs:84-131 | a successful read returns the words of the first read that succeeded |
| ModbusConn.RetriedOnlyUsesMade | src/cli/src/modbus/conn.rs:84-131 | reads after the first success or past `retries + 1` do not change the result |
| ModbusConn.RetriedShift | src/cli/src/modbus/conn.rs:84-131 | after a failed first read, the rest of the loop is the loop over the later reads |
| ModbusConn.ReadSpans | src/cli/src/modbus/conn.rs:63-83 | one result per span, in order, each that span's `read_span` |
| Worker.SimpleSpans | src/cli/src/service/modbus/worker.rs:174-202 | one simple span per span, with its address and quantity |
| Worker.NewCarrier | src/cli/src/service/modbus/worker.rs:174-202 | the carrier holds the destination, kind and sender, and the spans' addresses and quantities in order |
| Worker.Empty | src/cli/src/service/modbus/worker.rs:378-379 | a partial response of n empty slots |
| Worker.AddNewRequestAppends | src/cli/src/service/modbus/worker.rs:366-386 | corrected: a request is appended to its own kind's queue, under a fresh id, with one empty slot per span. Nothing else changes, and the task invariant holds. |
| Worker.AsWrittenNeverQueuesStreams | src/cli/src/service/modbus/worker.rs:382-385 | as written, a stream request is queued as a oneshot and never reaches the stream queue |
| Worker.TerminateSetsFlag | src/cli/src/service/modbus/worker.rs:346-364 | a `Terminate` request sets the flag and changes nothing else |
| Worker.FilledSlots | src/cli/src/service/modbus/worker.rs:428-451 | the slots of a read, span by span |
| Worker.ReadKeepsAndCompletes | src/cli/src/service/modbus/worker.rs:422-465 | a read keeps filled slots and reads only the empty ones. It is complete exactly when every slot is filled, and then the slot values come in span order. |
| Worker.Read | src/cli/src/service/modbus/worker.rs:422-465 | the method's result is `ReadResult` |
| Worker.Values | src/cli/src/service/modbus/worker.rs:455-461 | the values of filled slots, in order |
| WorkerPasses.StepFrame | src/cli/src/service/modbus/worker.rs:257-292 | a round touches only its own entry, and only that entry's partial response |
| Worker.StepFailed | src/cli/src/service/modbus/worker.rs:270-273 | a round whose connection attempt fails keeps the cache and the queue, lists the entry for removal and logs the connection error when it is delivered |
| Worker.StepPending | src/cli/src/service/modbus/worker.rs:276-279 | a round whose read is incomplete caches a new connection and stores the partial response in place; nothing is sent or listed |
| Worker.StepAnswered | src/cli/src/service/modbus/worker.rs:280-290 | a completed read sends the answer when it is delivered; a oneshot is listed for removal, and a stream (lines 324-333) restarts when delivered and is listed otherwise |
| WorkerPasses.StepItems | src/cli/src/service/modbus/worker.rs:257-291 | a round changes only its own entry, which stays the same request and stays well-formed |
| WorkerPasses.StepLog | src/cli/src/service/modbus/worker.rs:257-291 | a round lists at most its own id for removal and only appends to the log |
| WorkerPasses.StepCache | src/cli/src/service/modbus/worker.rs:259-269 | a round keeps the connection cache keyed by destination and keeps every cached connection |
| WorkerPasses.OwnRound | src/cli/src/service/modbus/worker.rs:257-291 | an entry's own round lists it for removal exactly when its outcome is none, else leaves it as that outcome, and logs that round's reply |
| WorkerPasses.LoopFrame | src/cli/src/service/modbus/worker.rs:257-292 | the entries stay the same requests, and entries not yet reached are untouched |
| WorkerPasses.LoopWellFormed | src/cli/src/service/modbus/worker.rs:257-292 | every entry keeps one slot per span |
| WorkerPasses.LoopLog | src/cli/src/service/modbus/worker.rs:257-292 | the message log only grows |
| WorkerPasses.LoopCache | src/cli/src/service/modbus/worker.rs:265-269 | connections stay cached, under the destination they are to |
| WorkerPasses.CacheKeyed | src/cli/src/service/modbus/worker.rs:396-417 | a new connection is cached under its own destination |
| WorkerPasses.LoopAfter | src/cli/src/service/modbus/worker.rs:257-292 | an entry is settled by its own round |
| WorkerPasses.LoopRemove | src/cli/src/service/modbus/worker.rs:270-289 | with unique ids, an id is listed for removal only by its own round |
| WorkerPasses.EntryFate | src/cli/src/service/modbus/worker.rs:257-295 | an entry is removed exactly when its round's outcome is none; otherwise it ends as that outcome, and the round's messages stay in the log |
| WorkerPasses.RetainUnique | src/cli/src/service/modbus/worker.rs:293-295 | `retain` keeps ids unique |
| WorkerPasses.PassKeeps | src/cli/src/service/modbus/worker.rs:257-295 | a pass keeps a well-formed queue, with a subset of the ids |
| WorkerPasses.RetainPosition | src/cli/src/service/modbus/worker.rs:293-295 | an entry that is not listed for removal is kept, at the position after the kept entries before it |
| WorkerPasses.RetainOrder | src/cli/src/service/modbus/worker.rs:293-295 | a kept entry lands before every later entry's position, so `retain` keeps the order |
| WorkerPasses.PassOrder | src/cli/src/service/modbus/worker.rs:256-295 | two entries that both survive a pass keep their relative order, each as its own round left it |
| WorkerPasses.OneshotOrder | src/cli/src/service/modbus/worker.rs:256-295 | the oneshots that remain after the pass are in their original order, each as its round left it |
| WorkerPasses.StreamOrder | src/cli/src/service/modbus/worker.rs:297-340 | corrected: the same for the streams of a pass that is not terminating |
| WorkerPasses.OneshotPassValid | src/cli/src/service/modbus/worker.rs:256-295 | the oneshot pass keeps the invariant and every cached connection. It only drops oneshots, leaves the streams alone and only appends messages. |
| WorkerPasses.StreamPassValid | src/cli/src/service/modbus/worker.rs:297-340 | the same for the stream pass, which on terminate drops every stream |
| WorkerPasses.OneshotFate | src/cli/src/service/modbus/worker.rs:257-295 | a failed connect drops the oneshot and reports the error; a complete read drops it and sends the answer; an incomplete read keeps it with the new partial response |
| WorkerPasses.StreamFate | src/cli/src/service/modbus/worker.rs:302-339 | corrected: a failed connect drops the stream. A delivered answer resets it to empty slots, an undeliverable one drops it, and an incomplete read keeps it with the new partial response. |
| WorkerPasses.StreamFailureKeptAsWritten | src/cli/src/service/modbus/worker.rs:313-316 | as written, a stream whose connect fails survives the pass unchanged |
| WorkerPasses.UnreachableStream | src/cli/src/service/modbus/worker.rs:313-316 | one unreachable stream: the corrected pass drops it, the pass as written keeps it |
| WorkerTask.Task.constructor | src/cli/src/service/modbus/worker.rs:224-233 | no connections, no requests, not terminating |
| WorkerTask.Task.AddNewRequest | src/cli/src/service/modbus/worker.rs:366-386 | corrected: the new state is `Worker.AddNewRequest` of the old one, which queues a stream request on `streams`; the invariant is kept |
| WorkerTask.Task.HandleRequest | src/cli/src/service/modbus/worker.rs:346-354 | corrected: the new state is `Worker.HandleRequest` of the old one |
| WorkerTask.Task.OneshotPass | src/cli/src/service/modbus/worker.rs:254-295 | the fields change as `Worker.OneshotPass` says, updated in place entry by entry |
| WorkerTask.Task.StreamPass | src/cli/src/service/modbus/worker.rs:297-340 | corrected: the fields change as `Worker.StreamPass` says, which drops a stream whose connect fails |
| WorkerTask.Task.OneshotRound | src/cli/src/service/modbus/worker.rs:258-291 | one iteration of the oneshot loop changes the connections, the queue, the removal list and the log as one `Worker.Step` round, and nothing else |
| WorkerTask.Task.StreamRound | src/cli/src/service/modbus/worker.rs:304-335 | corrected: the same for one iteration of the stream loop, with a failed stream listed on the streams' removal list |
| WorkerTask.Task.Iterate | src/cli/src/service/modbus/worker.rs:235-343 | corrected: one iteration of `execute`: the received requests, then both corrected passes |
| ConfigFile.NameExtension | src/cli/src/config/file.rs:142-165 | the text after the last dot of a file name, unless the only dot leads |
| ConfigFile.DispatchCases | src/cli/src/config/file.rs:142-165 | no extension is `MissingExtension`; `yaml`/`yml`, `toml` and `json` select their format; any other is `InvalidExtension` |
| ConfigFile.ParseAsyncOutcome | src/cli/src/config/file.rs:142-165 | a failed read is reported before any extension problem; otherwise the values are what the extension's deserializer makes of the text |
| ConfigFile.DefaultLocationIsYaml | src/cli/src/config/file.rs:142-165 | the default `config.yaml` location is always accepted for its extension |
| ConfigFile.RegisterKindRoundTrip | src/cli/src/config/file.rs:199-231 | the kind conversion is a bijection that keeps the variant, the multiplier and the string length |
| ConfigFile.ModbusKindRoundTrip | src/cli/src/config/file.rs:199-231 | every Modbus kind is the conversion of a configured one |
| ConfigFile.ToModbusMeasurementRegister | src/cli/src/config/file.rs:167-175 | the same address and name, the converted kind |
| ConfigFile.ToModbusIdRegister | src/cli/src/config/file.rs:190-197 | the same address, the converted kind |
| ConfigFile.ToModbusDetectRegister | src/cli/src/config/file.rs:177-188 | the same address and kind; the pattern becomes a regex exactly when it compiles |
| ConfigFile.UncompiledPatternIsLiteral | src/cli/src/config/file.rs:177-188 | a pattern that does not compile matches exactly the value whose display text it is |
| ConfigFile.MakeIpRange | src/cli/src/config/file.rs:233-244 | the configured range when both ends parse, else the fallback |
| ConfigFile.FallbackLiteralsParse | src/cli/src/config/file.rs:237-242 | the fallback literals parse, so their `unwrap` cannot panic |
| ConfigFile.MakeIpRangeOfAddresses | src/cli/src/config/file.rs:233-244 | written-out addresses give back the range between them |
| ConfigFile.MillisecondsToChrono | src/cli/src/config/file.rs:246-248 | a duration of exactly the given milliseconds |
| Cloud.Protocol | src/cli/src/cloud.rs:89 | `https` exactly when `ssl`, else `http` |
| Cloud.TrimNul | src/cli/src/cloud.rs:80-86 | corrected: the trimming the serial-number read lacks: a prefix of the text that does not end in NUL; everything dropped is NUL |
| Cloud.NewClientReadsSerial | src/cli/src/cloud.rs:73-120 | construction fails with an I/O error exactly when it needs the serial number and cannot read it |
| Cloud.NewClientBuilds | src/cli/src/cloud.rs:73-120 | corrected: the push and update endpoints for the id, with the serial number trimmed. The key header is the configured key, or the id with `-oil-rulz-5000`. It fails with `InvalidHeader` when that value is not a valid header, else with the HTTP error when `build()` fails, and succeeds otherwise. |
| Cloud.NulTerminatedSerial | src/cli/src/cloud.rs:80-101 | with a NUL-terminated serial number and nothing configured, construction as written fails and the trimmed one succeeds |
| Cloud.Respond | src/cli/src/cloud.rs:123-168 | a failed send or body is an error; otherwise `success` is the status being 2xx, and the text is the body |
| Cloud.ToCloud | src/cli/src/services.rs:177-186 | one cloud measurement per row, in order, from the row's source, at its time, with its data |
| Cloud.LogOutcome | src/cli/src/services.rs:189-199 | success exactly when the cloud answered with `success: true`; the answer's text, or `connection error` when none came |
| Db.Above | src/cli/src/db.rs:202-224 | the rows above the cursor, in table order, never more than the table holds |
| Db.AboveMembers | src/cli/src/db.rs:202-224 | a row is selected exactly when it is in the table and its id is above the cursor |
| Db.MaxRow | src/cli/src/services.rs:169-173 | a row of the batch, and no row has a larger id |
| Db.MaxIsLast | src/cli/src/services.rs:169-173 | with ids increasing, the row `max_by` picks is the last one |
| Db.IncreasingPrefix | src/cli/src/db.rs:202-224 | the first rows of an ordered table have distinct ids and hold every stored row up to the largest id among them |
| Db.AboveIncreasing | src/cli/src/db.rs:202-224 | with increasing ids in the table, the rows above a cursor have increasing ids too |
| Db.FetchSkipsNothing | src/cli/src/db.rs:202-224 | corrected: the ordered batch is an answer the query permits, and every row in it is a stored row above the cursor. No row between the cursor and the largest fetched id is left out. |
| Db.AsWrittenSkipsRow | src/cli/src/db.rs:202-224 | as written, `limit + 1` rows allow an answer without the first row. The cursor then passes that row, and no later fetch returns it. |
| Db.AboveAll | src/cli/src/db.rs:202-224 | when every row is above the cursor, the query selects them all, in order |
| Db.Latest | src/cli/src/db.rs:245-262 | none exactly when no entry is accepted; otherwise an accepted entry no older than any other |
| Db.LatestAppend | src/cli/src/db.rs:245-262 | a new accepted log no older than the latest becomes the latest; otherwise nothing changes |
| Db.Stamped | src/cli/src/db.rs:181-200 | the rows with consecutive fresh ids, source, time and data kept |
| Db.Store.constructor | src/cli/src/db.rs:103-108 | empty tables, ids starting at 1 |
| Db.Store.InsertMeasurements | src/cli/src/db.rs:181-200 | each row is appended in order under a fresh id |
| Db.Store.InsertLog | src/cli/src/db.rs:226-243 | the log is appended under a fresh id |
| Services.ToDeviceConfig | src/cli/src/services.rs:59-88 | one register becomes a list of one, and a list keeps every register in order; each keeps its address, name and converted kind. Each register is the configuration's conversion of its own, so a detect pattern becomes a regex exactly when it compiles and otherwise stays the literal text. |
| Services.ToRegisterConfig | src/cli/src/services.rs:80-86 | the same name and address, the converted kind |
| Services.ToDeviceConfigs | src/cli/src/services.rs:55-89 | one device config per configured kind |
| Services.PulledRows | src/cli/src/services.rs:138-156 | one row per datum, from that device, at its clock reading, with its JSON |
| Services.OnPull | src/cli/src/services.rs:138-156 | a failed read is returned and stores nothing; otherwise every datum is stored in order |
| Services.Cursor | src/cli/src/services.rs:160-163 | 0 without a successful log; otherwise the last measurement of a latest successful one |
| Services.PushLog | src/cli/src/services.rs:169-206 | at `now`, under the largest id sent; success exactly when the cloud said so |
| Services.OnPush | src/cli/src/services.rs:159-210 | corrected: the batch after the cursor, at most 1000 rows, is sent. One log of the outcome is added, or none when the batch is empty. The measurements are unchanged. |
| Services.CursorAfterLog | src/cli/src/services.rs:160-163 | a newest log moves the cursor exactly when it is a success |
| Services.PushSkipsNothing | src/cli/src/services.rs:159-210 | corrected: a successful push moves the cursor forward. Every stored row between the old and new cursor was sent. |
| ServiceDb.Cursor | src/cli/src/process/push.rs:19-23 | 0 without a success of that kind; otherwise the `last` of a latest successful log of that kind |
| ServiceDb.CursorAfterLog | src/cli/src/process/update.rs:17-21 | a newest log moves only its own kind's cursor, and only when it is a success |
| ServiceDb.BatchLog | src/cli/src/process/push.rs:30-68 | at `now`, of its kind, under the batch's largest id; success exactly when the cloud said so |
| ServiceDb.Store.constructor | src/cli/src/db.rs:103-108 | a migrated database: empty tables, ids starting at 1 |
| ServiceDb.Store.InsertLog | src/cli/src/process/push.rs:70 | the log is appended under a fresh id |
| ServiceDb.Store.InsertMeasurement | src/cli/src/process/measure.rs:144-152 | the row is appended under a fresh id |
| ServiceDb.Store.GetDevice | src/cli/src/process/discovery.rs:37 | the device stored under the id, if any |
| ServiceDb.Store.InsertDevice | src/cli/src/process/discovery.rs:42-50 | a new id is added; an id already present is a conflict and changes nothing |
| ServiceDb.Store.UpdateDeviceDestination | src/cli/src/process/discover.rs:130-148 | the device's address, slave and times change, and nothing else |
| Push.Execute | src/cli/src/process/push.rs:18-73 | corrected: nothing is sent or logged when nothing is after the cursor. Otherwise the batch is sent and one push log is added. |
| Push.Progress | src/cli/src/process/push.rs:18-73 | corrected: the batch is at most 1000 rows, all after the cursor. Success moves the push cursor past exactly what was sent; failure leaves it. The update cursor is unchanged. |
| Update.Execute | src/cli/src/process/update.rs:16-68 | corrected: the same over the health table, with an update log |
| Update.Progress | src/cli/src/process/update.rs:16-68 | corrected: the same for the update cursor; the push cursor is unchanged |
| Discovery.Destinations | src/cli/src/process/discovery.rs:20-30 | the destinations of every scanned address |
| Discovery.JoinIdsAppend | src/cli/src/process/discovery.rs:112-122 | the id fold of a concatenation is the concatenation of the folds |
| Discovery.Matched | src/cli/src/process/discovery.rs:69-123 | a match exactly when the detect registers were read and all match and the ids were read; named by the id fold |
| Discovery.Match | src/cli/src/process/discovery.rs:69-123 | the matches at a destination are exactly the matched kinds |
| Discovery.AllMatchesMembers | src/cli/src/process/discovery.rs:20-34 | a match is found over all destinations exactly when it is found at one |
| Discovery.NewDevice | src/cli/src/process/discovery.rs:42-50 | a healthy device at the match's address and slave |
| Discovery.RegisteredFate | src/cli/src/process/discovery.rs:35-56 | stored devices never change; new entries come from matches that did not fail; every match that did not fail is stored |
| Discovery.Execute | src/cli/src/process/discovery.rs:20-58 | the device table becomes `Registered` of the matches |
| Discovery.HandleMatch | src/cli/src/process/discovery.rs:37-52 | for one match the device table is unchanged when the lookup fails or the id is stored, and otherwise gains the new device under its id |
| Discover.MatchDevice | src/cli/src/process/discover.rs:84-98 | the device, exactly when its detect registers were read and all match |
| Discover.MatchId | src/cli/src/process/discover.rs:100-116 | none exactly when the id registers cannot be read; otherwise the kind, destination and made id |
| Discover.MatchDestination | src/cli/src/process/discover.rs:61-82 | the matches are exactly the kinds that match and have an id |
| Discover.MatchesMembers | src/cli/src/process/discover.rs:20-38 | a match is found exactly when it is found at some destination of a scanned address |
| Discover.Consolidation | src/cli/src/process/discover.rs:118-178 | a failed lookup or write changes nothing and gives nothing. Otherwise the match is given back, and its device is at the match's address and slave, seen and pinged now. Other devices are unchanged. |
| Discover.Consolidate | src/cli/src/process/discover.rs:118-178 | the store changes as `Consolidation` says |
| Discover.Consolidations | src/cli/src/process/discover.rs:20-50 | one result per match |
| Discover.ConsolidationsResults | src/cli/src/process/discover.rs:39-46 | each match comes back exactly when its lookup and write did not fail; the failure count is the number that failed |
| Discover.Execute | src/cli/src/process/discover.rs:20-50 | every match is consolidated. It returns the match count and the number of failed consolidations. |
| Measure.FirstOfKind | src/cli/src/process/measure.rs:60-91 | none exactly when no configuration has the kind; otherwise the first that has |
| Measure.ToDevice | src/cli/src/process/measure.rs:60-91 | the stored device at its address on port 502, with the configuration's registers |
| Measure.DevicesFromDb | src/cli/src/process/measure.rs:60-91 | a device is kept exactly when some configuration has its kind, with the first such configuration's registers |
| Measure.StreamRegisters | src/cli/src/process/measure.rs:99-124 | the id registers, then the measurement registers, each in order |
| Measure.StreamSplits | src/cli/src/process/measure.rs:126-155 | splitting a stream's registers gives back the id and measurement registers |
| Measure.Consolidate | src/cli/src/process/measure.rs:126-155 | another id is refused and stores nothing; a failed insert stores nothing; otherwise one measurement of the measurement registers is stored |

## Left out

- I/O and concurrency are left out:
  - Network I/O, HTTP, SQL and the tokio runtime.
  - `join_all`, the flume channels and the process scheduler (`src/cli/src/process/mod.rs`, `src/cli/src/runtime.rs`).
  - `main.rs`, `server.rs`, `span.rs`, `health.rs`, and the probe's `main.py` and `args.py`.
  - Results arrive through oracle parameters instead: reads, connects, deliveries, clock readings and database failures.
- `Worker::new`, `send`, `stream` and `terminate` (`worker.rs:58-150`): the caller's side of the channel is concurrency, so it is left out. Their requests enter the model as `Worker.HandleRequest`.
- The blocking `recv_async` when both queues are empty, and the `Disconnected` return of `execute`: they need a channel. `WorkerTask.Task.Iterate` takes the requests received in one iteration.
- `Metrics` and `tune` (`worker.rs:469-486`): they collect errors and do nothing with them.
- `Uuid::new_v4`: modelled as a counter, so ids are unique by construction.
- Floating point:
  - multiplied readings (`multiplier = Some`);
  - `to_float32` and `multiplied_by` in the probe;
  - `Display` of `f32`/`f64`.
  - Float values keep their IEEE bit patterns. The discovery proofs require reads to yield displayable values.
- The big-endian `parse` (`register.rs:272-311`) is left out: agent targets are little-endian.
- `to_bytes`, `to_ascii` and `to_utf8` in the probe: Python's decoding is left out. `to_raw_bytes` is modelled.
- Regex syntax: compiling and matching are parameters.
- `make_id`, JSON serialisation and the serial-number file read: parameters.
- `conn.rs` `connect` and `connect_slave`: they only open TCP and attach a context.
- `services.rs` `new`, `on_setup` and `on_scan`: construction, migration and scanning call services that are not part of this model. Migration appears as `Db.Store.constructor`.
- `src/cli/src/service/db.rs` is not part of this model. Its queries are modelled on `db.rs`:
  - `get_measurements`/`get_health` are `Db.GetMeasurements`;
  - the last successful log per kind is `ServiceDb.Cursor`;
  - device rows are keyed by id.
- `update_device_status` and `delete_device` have no caller in the modelled core.
- `measure.rs` is left out in part:
  - the stream loop of `execute`;
  - `merge_devices`, which is unfinished;
  - the creation of streams on the Modbus client.
  - The pieces around them are modelled: `get_devices_from_db`, the register list of `make_stream`, and `consolidate`.
- ModbusConnection.ParameterizedRead: the retry loop is modelled on the corrected `SimpleRead` (Findings row 4), so its errors carry the corrected labels; as written each attempt's `Timeout` and `Connection` are swapped as `SimpleReadSwapsErrors` states.
- ModbusConnection.AttemptsErrors: the same; the errors listed are the corrected `SimpleRead`'s.
- WorkerTask.Task.AddNewRequest: the class follows the corrected worker of Findings row 1, which queues stream requests on `streams`; `Worker.AsWrittenNeverQueuesStreams` states what the code as written does.
- WorkerTask.Task.HandleRequest: the same, through `AddNewRequest`.
- WorkerTask.Task.StreamPass: the class follows the corrected stream pass of Findings row 2; `WorkerPasses.StreamFailureKeptAsWritten` states what the code as written does.
- WorkerTask.Task.StreamRound: the same, for one iteration of that pass.
- WorkerTask.Task.Iterate: the same, for both corrections.
- WorkerPasses.StreamOrder: stated for the corrected stream pass of Findings row 2; as written, a stream whose connect fails also stays in place.
- Cloud.NewClientBuilds: it states the corrected `Client::new`, with `TrimNul` applied to the serial number (Findings row 5); `Cloud.NewClientAsWritten` is the code as written.
- Services.OnPush: it fetches through the ordered `Db.GetMeasurements` of Findings row 3; as written, the unordered query can skip rows, as `Db.AsWrittenSkipsRow` shows.
- Services.PushSkipsNothing: the same; it holds for the ordered fetch only.
- Push.Execute: it fetches through the ordered `Db.GetMeasurements` of Findings row 3.
- Push.Progress: the same; "past exactly what was sent" holds for the ordered fetch only.
- Update.Execute: it fetches the health rows through the ordered `Db.GetMeasurements` of Findings row 3.
- Update.Progress: the same as `Push.Progress`, for the update cursor.
- Services.OnPush: database errors of `get_last_successful_log`, `get_measurements` and `insert_log` are not modelled; it always returns `Ok`.
- Services.OnPull: a failed `insert_measurements` is not modelled; only a failed read gives an error.
- Push.Execute: database errors are not modelled.
- Update.Execute: database errors are not modelled.
- Db.Latest: among logs with equal timestamps it picks the last inserted. Postgres leaves that choice unspecified.
- Discovery.Execute: matches are handled in sequence. The source handles them with `join_all`, so concurrent inserts of one id are not modelled.
- Discovery.NewDevice: devices inserted by this process get no seen/pinged time (`None`): `discovery.rs:42-48` builds the device from its id, kind, status, address and slave only.
- `to_db_slave` and `to_modbus_slave` are the identity on `Option<u8>`.
- The configured devices are a `HashMap` in the source. The model takes them as a sequence in some fixed order, so `Services.ToDeviceConfigs` promises nothing about the order of kinds.

## Findings

| source | as written | input that shows it | evidently intended | confidence | as-written member | corrected member |
|---|---|---|---|---|---|---|
| src/cli/src/service/modbus/worker.rs:382-385 | `RequestKind::Stream` requests are pushed onto `oneshots` | any stream request: it is answered once and removed | push stream requests onto `streams` | not executed; high | Worker.AsWrittenNeverQueuesStreams | Worker.AddNewRequestAppends |
| src/cli/src/service/modbus/worker.rs:313-316 | a stream whose connect fails is pushed onto `oneshots_to_remove`, after the oneshots were already retained | latent while row 1 stands, since as written no stream reaches `streams`; once row 1 is corrected, a stream to an unreachable destination is kept and retried forever | push onto `streams_to_remove` | not executed; high | WorkerPasses.StreamFailureKeptAsWritten | WorkerPasses.StreamFate |
| src/cli/src/db.rs:202-224 | `where id > $1 limit $2` without `order by` | `limit + 1` pending rows, answered without the row of id 1 | `order by id` before `limit` | not executed; medium (depends on the query plan) | Db.AsWrittenSkipsRow | Db.FetchSkipsNothing |
| src/cli/src/service/modbus/connection.rs:200-204 | an elapsed timeout becomes `ReadError::Connection`, a failed read `ReadError::Timeout` | a read that times out | swap the two variants | not executed; high | ModbusConnection.SimpleReadSwapsErrors | ModbusConnection.SimpleRead |
| src/cli/src/cloud.rs:80-101 | the device-tree serial number is used with its trailing NUL | serial `100000001a2b3c4d` followed by NUL, no id and no key configured: `HeaderValue::from_str` refuses the key | trim trailing NULs from the serial number | not executed; medium (depends on the firmware's file) | Cloud.NulTerminatedSerial | Cloud.NewClientBuilds |
