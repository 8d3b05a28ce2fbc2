# mqtt2bigquery in Dafny

mqtt2bigquery is a bridge. It subscribes to an MQTT topic. It parses every message, a JSON object, into one row of a BigQuery table. It hands the rows to the table's inserter in batches. This project models the two parts of the bridge that hold its logic and proves properties of them.

**The schema-driven parser** (`parser.dfy`, `compiler.dfy`).
- Five value-kind parsers turn a decoded JSON value into a BigQuery value and an error: TIMESTAMP, STRING, INTEGER, BOOLEAN and BYTES.
- A `Record` maps JSON keys to `Field`s. A field is a slot in the row plus the parser for that slot.
- `ParseAsRecord` allocates the row's slots, all nil. It then visits the object's keys in Go's unspecified map order and writes each parsed value into its slot.
- `Repeated` parses every element of a JSON array and stops at the first failure.
- `NewRecord` compiles a table schema into such a record:
  - Column i is registered at slot i under its name and its lower-cased name, or under its `json:"…"` alias alone.
  - A later registration of the same key overwrites an earlier one.
  - Columns of an unknown type are skipped.

**The delivery path** (`pipeline.dfy`, `stream.dfy`).
- `Buffer.Add` decodes a message and forwards the row, or drops the message.
- `Buffer.Stream` is the batching loop:
  - It collects rows into a reused array of capacity `maxBatch`.
  - The first row of a cycle starts a ticker.
  - The batch goes to the inserter when it is full or when the ticker fires, whichever comes first.
  - The ticker is stopped before every insert. An insert error is only logged.

Modelling choices:
- **Row order.** Go's map iteration order is unspecified. So the parser's meaning is a relation, `Parser.Yields`: "c is one of the rows p can produce for v". `Parser.ParseAsRecord` is a loop that picks keys with `:|`. Parse errors never depend on that order, so they are a function, `Parser.ErrorOf`.
- **Compiled schemas.** The schema compiler is specified by `Compiler.Compiled`. In that predicate, each key belongs to the *last* column of a known type that claims it.
- **The batching loop.** The loop is a class, `Batching.Stream`. Its ghost log `effects` records ticker starts, ticker stops and batches handed over. Its invariant `Accounted` states that the batches handed over, followed by the pending batch, are exactly the rows received, in order. It also states that no batch exceeds the capacity.
- **Library code.** The library functions the parsers call are parameters, bundled in `Parser.Foreign`. They are `time.Parse` with the RFC3339Nano layout (RFC 3339 section 5.6), base64 decoding (RFC 4648 section 4) and `fmt.Sprint` of numbers, arrays and objects. `strings.ToLower` is the parameter `lower`.

Go behaviours the model keeps:
- A TIMESTAMP string that does not parse leaves the zero `time.Time` in its slot, next to the error.
- A corrupt base64 string leaves the bytes decoded before the fault.
- A value of the wrong JSON type leaves nil and "invalid type for …".
- `Record.Parse` of a non-object yields a nil slice (of length 0) and "not an object".
- `Repeated.Parse` of a non-array yields an empty slice and "not an array".
- A failing element makes `Repeated.Parse` yield nil and that element's error.
- A field's parse error inside a record is only logged. The slot keeps whatever the field's parser returned.
- A TIMESTAMP column is registered twice. The second registration overwrites the first, with `Repeated{Timestamp}` if the column is repeated.
- A JSON `null` payload decodes into a nil map, so an all-nil row is forwarded. Any other non-object payload is dropped.
- `maxBatch == 0` makes `append` grow the batch to one slot, so every row is inserted alone.
- A tick sent before `timeout.Stop()` can stay in the stopped ticker's channel. The loop still listens on that channel until the next row arrives. If the tick is read then, the loop inserts an empty batch. The model allows this at most once per stopped ticker.

`Batching.DeadlineScenario` and `Batching.FullBatchScenario` are scenario checks of `OnRow` and `OnTick` (mqtt2bigquery.go:116-138), with capacity 3:
- `DeadlineScenario`: two rows and then a tick give one insert of exactly those two rows.
- `FullBatchScenario`: a third row fills the batch and hands it over at once. A fourth row then starts a new cycle.

They assert the resulting effect log and batch, and have no contract of their own, so they have no row in the table.

The code and the package comment differ in one place. The comment on `NewRecord` says keys match column names "case-insensitively". The code registers only the exact name and its lower-cased form, and the model follows the code. For example, a column `Foo` matches the keys `Foo` and `foo` but not `FOO`.

## Model

| member | source | states |
|---|---|---|
| Parser.Sprint | mqtt2bigquery/parser/parser.go:33 | fmt.Sprint returns a JSON string unchanged |
| Parser.ParseTimestamp | mqtt2bigquery/parser/parser.go:18-27 | no error exactly for a number or an RFC3339Nano string. "invalid type" and nil exactly for values that are neither. A number passes through as Unix seconds. A string yields the instant time.Parse returns, or the zero time with time.Parse's error |
| Parser.ParseString | mqtt2bigquery/parser/parser.go:32-34 | never fails. Always yields a string, and a JSON string is returned unchanged |
| Parser.ParseInteger | mqtt2bigquery/parser/parser.go:39-46 | succeeds exactly on a JSON number and returns it as a float64. Otherwise nil with "invalid type for INTEGER" |
| Parser.ParseBoolean | mqtt2bigquery/parser/parser.go:50-55 | succeeds exactly on a JSON bool and returns it. Otherwise nil with "invalid type for BOOLEAN" |
| Parser.ParseBytes | mqtt2bigquery/parser/parser.go:59-64 | succeeds exactly on a well-formed base64 string. "invalid type" and nil exactly for a non-string. A string always yields the decoded bytes, with the decoder's error on corrupt input |
| Parser.FirstError | mqtt2bigquery/parser/parser.go:179-183 | no error from index i on iff every element from i on parses without error |
| Parser.Parse | mqtt2bigquery/parser/parser.go:99-101 | the interface call `Parse` (and Record.Parse, which is ParseAsRecord) returns the error `ErrorOf` and a value `Yields` allows |
| Parser.ParseAsRecord | mqtt2bigquery/parser/parser.go:81-97 | a non-object gives a row of length 0 (nil in Go) and "not an object". An object gives no error and a row of exactly `count` slots. Each slot is nil if no input key routes to it; otherwise it holds the parse of one key routed to it |
| Parser.ParseRepeated | mqtt2bigquery/parser/parser.go:172-185 | the error is "not an array" or the first failing element's error. The value is an empty slice, nil, or one parse per element in order |
| ParserFacts.PrimitiveAcceptance | mqtt2bigquery/parser/parser.go:18-64 | each value kind reports "invalid type" exactly for the JSON shapes it does not accept. It succeeds exactly when the shape is accepted and the string decodes, and then yields a value of its own BigQuery type |
| ParserFacts.RepeatedAllParse | mqtt2bigquery/parser/parser.go:177-184 | when every element parses, Repeated yields a slice of the same length whose element j is a parse of input element j |
| ParserFacts.FirstErrorSkips | mqtt2bigquery/parser/parser.go:179-183 | elements that parse cleanly do not change which error is reported first |
| ParserFacts.RepeatedFirstFailure | mqtt2bigquery/parser/parser.go:180-182 | the first failing element's error is Repeated's error, and nil is then the only value |
| ParserFacts.RepeatedNotArray | mqtt2bigquery/parser/parser.go:173-176 | a non-array yields exactly the empty slice and "not an array" |
| ParserFacts.SuccessConforms | mqtt2bigquery/parser/parser.go:66-69 | a value returned with no error has its parser's shape at every depth: the kind's type, a row of `count` slots, or a slice of conforming values |
| ParserFacts.RecordNotObject | mqtt2bigquery/parser/parser.go:82-85 | a record given a non-object yields exactly a slice of length 0 (nil in Go) and "not an object" |
| ParserFacts.AbsentColumnIsNil | mqtt2bigquery/parser/parser.go:86 | a slot that no present key routes to stays nil |
| ParserFacts.SoleWriter | mqtt2bigquery/parser/parser.go:87-91 | a slot with exactly one field routed to it, whose key is present, holds exactly that key's parse |
| ParserFacts.UnknownKeysIgnored | mqtt2bigquery/parser/parser.go:92-94 | keys without a field never matter: the rows for the input equal the rows for its known keys alone |
| ParserFacts.YieldsUnique | mqtt2bigquery/parser/parser.go:87-95 | when no two present keys compete for a slot, at any depth, the parsed value does not depend on the key order |
| Compiler.Names | mqtt2bigquery/parser/parser.go:127-133 | a column is matched by its json alias alone if it has one, otherwise by its name and its lower-cased name |
| Compiler.LastClaim | mqtt2bigquery/parser/parser.go:108-110 | the last column among the first n that registers a key, or -1; no later column among them registers it |
| Compiler.NewEmptyRecord | mqtt2bigquery/parser/parser.go:113-118 | a record with the given slot count and an empty table |
| Compiler.AddField | mqtt2bigquery/parser/parser.go:103-111 | every name maps to (index, parser) afterwards. Every other key keeps its field. No other key is added |
| Compiler.NewRecord | mqtt2bigquery/parser/parser.go:124-165 | one slot per column. The table is exactly `Compiled`: each claimed key maps to its last claiming column of a known type, with that column's parser |
| Compiler.TableStep | mqtt2bigquery/parser/parser.go:158-162 | registering column i under its names turns the table of the first i columns into the table of the first i+1 |
| Compiler.TableSkip | mqtt2bigquery/parser/parser.go:153-156 | skipping a column of unknown type turns the table of the first i columns into the table of the first i+1 |
| CompilerFacts.CompiledWellFormed | mqtt2bigquery/parser/parser.go:124-165 | every position in a compiled record tree lies inside its row, at every depth, so parsing never indexes out of range |
| CompilerFacts.CompiledUnique | mqtt2bigquery/parser/parser.go:124-165 | the schema alone determines the compiled record |
| CompilerFacts.FieldOrigin | mqtt2bigquery/parser/parser.go:126-162 | every registered key comes from a column of a known type, by its alias if it has one, else by its name or lower-cased name. No later column claims the key. The field's parser is that column's parser |
| CompilerFacts.ColumnRegistered | mqtt2bigquery/parser/parser.go:158-162 | every name of a known-type column is registered at that column or a later claimant, and at that column if no later one claims it |
| CompilerFacts.SkippedColumnStaysNil | mqtt2bigquery/parser/parser.go:153-156 | the slot of a column of unknown type is nil in every parsed row |
| CompilerFacts.CompiledSlotKind | mqtt2bigquery/parser/parser.go:124-165 | with a compiled schema, a present key's slot lies inside the row and belongs to the column that registered the key. When the keys routed there parse cleanly, the slot holds a value of that column's type |
| CompilerFacts.UpperCaseKeyNotMatched | mqtt2bigquery/parser/parser.go:127 | a column Foo is matched by Foo and foo only: an input key FOO leaves its slot nil, so matching is not case-insensitive |
| Batching.Capacity | mqtt2bigquery/mqtt2bigquery.go:107 | the batch holds maxBatch rows, and at least one: append grows a zero-capacity slice to one slot |
| Batching.PutAccounts | mqtt2bigquery/mqtt2bigquery.go:132-138 | handing the pending batch over appends exactly that batch to the batches handed over. It keeps every row accounted for and every batch within capacity |
| Batching.Stream.constructor | mqtt2bigquery/mqtt2bigquery.go:107-113 | an empty batch in a fresh array of the batch capacity, first row awaited, no ticker, nothing done yet |
| Batching.Stream.StartTicker | mqtt2bigquery/mqtt2bigquery.go:117-121 | the first row of a cycle starts a ticker, logged as one Arm |
| Batching.Stream.Append | mqtt2bigquery/mqtt2bigquery.go:122-125 | the row is appended to the batch in the reused array and to the rows received, and every row stays accounted for |
| Batching.Stream.Flush | mqtt2bigquery/mqtt2bigquery.go:132-138 | the ticker is stopped and then the whole pending batch is handed over. A new empty cycle begins. No row is lost |
| Batching.Stream.OnRow | mqtt2bigquery/mqtt2bigquery.go:116-128 | the row is received. A ticker starts if it is the cycle's first row. The batch is handed over exactly when the row fills it; otherwise the row waits in the batch |
| Batching.Stream.OnTick | mqtt2bigquery/mqtt2bigquery.go:129-131 | a tick hands over the pending batch. A running ticker's tick flushes between 1 and capacity-1 rows. A stale tick flushes an empty batch. Without a ticker the loop keeps waiting and nothing changes |
| Pipeline.Add | mqtt2bigquery/mqtt2bigquery.go:87-102 | a row is forwarded iff the payload decodes into a map (an object or null). The row is one of the rows the record parser yields, with `count` slots. A null payload forwards an all-nil row |
| Pipeline.Deliver | mqtt2bigquery/mqtt2bigquery.go:100 | a forwarded row is received by the batching loop, which keeps its invariant. A dropped message changes nothing |
| ParserExamples.SimpleRow | mqtt2bigquery/parser/parser_test.go:12-39 | with fields ReceivedTimestamp, client and facility, a syslog message gives exactly [time, client, facility], whatever other keys it has |
| ParserExamples.NestedRow | mqtt2bigquery/parser/parser_test.go:41-69 | with a nested Message record at slot 2, the dnstap message gives [1, 1, [Id]] |

## Left out

- JSON decoding is not modelled. `Pipeline.Add` takes the value the decoder read from the payload, or None when decoding failed. Numbers are `Json.Float64`, an opaque IEEE-754 bit pattern, and no arithmetic is done on them.
- time.Parse, base64 decoding and fmt.Sprint of numbers, arrays and objects are parameters of `Parser.Foreign`. strings.ToLower is the parameter `lower`. Their results are taken as given.
- structtag.Parse of a column description is not modelled. A column carries the alias found in its description's `json` tag, if any, as `Column.alias`.
- Compiler.NewRecord: the Go function also returns an error, but it is always nil. Its only source is a recursive call, which cannot fail because unknown types are skipped. The model returns the record alone.
- Pipeline.Add: the error check after ParseAsRecord is not modelled, because a decoded map is always an object and that call never fails there.
- Batching.Stream: the goroutine, the row channel, the select and real time are not modelled. The select is modelled as two events, `OnRow` and `OnTick`. For a positive ticker period, any interleaving of them is allowed, so the period maxDelay itself does not appear.
- Batching.Stream: the unbuffered channel's blocking of `Buffer.Add` until the loop takes the row is modelled by `Pipeline.Deliver` calling `OnRow` directly.
- Batching.Stream.OnTick: whether a stopped ticker can still deliver a stale tick depends on the build. Timer channels are synchronous, and deliver none, only when the main module's go.mod names go 1.23 or later and GODEBUG asynctimerchan is not 1. Otherwise the channel is buffered and can hold one tick. The model allows at most one per stopped ticker, which covers both behaviours.
- Parser.ParseAsRecord, Parser.ParseRepeated: Go tells a nil slice from an empty one, but the model does not. Both are `ListVal([])`: the nil slice ParseAsRecord returns for a non-object, and the empty slice Repeated.Parse returns for a non-array. Only their length, 0, is modelled.
- Batching.Stream.StartTicker: time.NewTicker panics when its period is not positive. So with a batch_max_delay of zero or less, the process crashes on the first row received. The model has no maxDelay and assumes a positive period, so it lets OnRow accept rows under any configuration.
- Batching.Capacity: a negative batch_max_size makes Go panic at make. The model's maxBatch is a `nat`, so that case does not arise.
- Batching.Stream.Flush: the inserter is not modelled. Whether it fails is an input, and the failure is only logged, as in the source.
- Row IDs, logging and metrics are not modelled. Neither are main, flag parsing, the MQTT client, the BigQuery client, or the HTTP metrics endpoint.
- The other programs of the repository are not part of this model: pub, syslog2mqtt, dnstap2mqtt and ipfix2mqtt.
