# anonymizer: the batching core

The anonymizer reads HTTP log records from a Kafka topic, anonymizes them, and writes them to
ClickHouse in batches. The ClickHouse side sits behind a proxy that allows about one request per
minute. This project models the part of `run_anonymizer` that decides what reaches ClickHouse
and when:

- **Row rendering.** A decoded `HttpLogRecord` becomes one JSON line. The timestamp is in whole
  seconds, every text field is escaped, and the remote address has its last octet masked.
- **Batch body.** Rows are joined into a newline-delimited body.
- **Status classification.** `ClickHouseSink::send` decides which outcomes of a POST count as
  delivered, and which exception text it raises for the others.
- **Flush coordinator.** The `try_flush` lambda applies three guards: rows are buffered, no
  cool-down after a 503 is in force, and one interval has passed since the last flush. After a
  success it clears the batch and commits. After a 503 it backs off to the next slot. After any
  other failure it pauses five seconds.
- **Append and size-limit pause.** A new row is appended. When the batch is full and the window
  is still closed, the loop sleeps until the window opens.
- **Run loop.** One pass is a flush attempt followed by one poll. Runs of passes stop at the
  first iteration whose shutdown flag is down.

The files are:

| file | module | contents |
|---|---|---|
| `text.dfy` | `Text` | `Option`, C-string reading (`CStr`), prefix and substring tests, decimal rendering and its reader |
| `util.dfy` | `IpMask`, `RowJoin`, `JsonEscape` | `anonymize_ip`, `join_rows`, `escape_json`, and a JSON string decoder |
| `sink.dfy` | `Sink` | what `send` reports for each transport outcome, and the "HTTP 503" test |
| `render.dfy` | `RowRender` | the record type, the row rendering and a reader for rows |
| `coordinator.dfy` | `Coordinator` | `try_flush`, the append and the size-limit pause |
| `runloop.dfy` | `RunLoop` | loop iterations, runs, and the delivery and commit bookkeeping |

Time is a natural number of milliseconds of the steady clock. Every clock reading the source
takes is an input of the step that uses it. A sleep is reported as a duration and not performed.
Each `std::string` is a `string`, with one char per byte. Where the source reads a `const char*`,
the model reads the text up to its first NUL (`Text.CStr`). That happens in three places:

- the rate-limit test, which copies `e.what()` into `msg`;
- curl's error text;
- the record's text fields, which `.cStr()` hands to `anonymize_ip` and `escape_json`.

Where the intended behaviour and the code disagree, the model follows the code:

- **Time trigger.** The interval is measured from the last successful flush (`last_flush`), not
  from the first row buffered since then. A row appended once that interval has run out is sent
  by the very next `try_flush`, at the top of the following iteration, whatever its own age
  (`Coordinator.TimeTriggerFromLastFlush`).
- **Size limit.** A full batch is never sent early. The loop only sleeps until the interval
  since the last flush has passed (`Coordinator.SizeTriggerNeverSends`).
- **503 back-off.** The next slot is `last_flush + FLUSH_EVERY`. When that moment has arrived
  or passed, the slot is `now_err + FLUSH_EVERY`, not the next multiple of the interval.
- **`anonymize_ip`.** The header describes the function as returning its input when the input
  is not dotted IPv4. The code masks any text that contains a '.', so "a.b" becomes "a.X"
  (`IpMask.AnonymizeIpAnyDottedText`).
- **Shutdown.** The loop makes no final flush. When the flag drops, rows still buffered stay
  unsent and their records stay uncommitted (`RunLoop.Run`).

## Model

| member | source | states |
|---|---|---|
| Text.CStr | src/anonymizer.cpp:179 | the C string reading of a text is its longest prefix without a NUL: it stops at the first NUL, or at the end |
| Text.CStrAppend | src/anonymizer.cpp:179 | a NUL-free prefix is read whole, and the reading continues in the rest |
| Text.ContainsAt | src/anonymizer.cpp:181 | `msg.find(p) != npos` holds exactly when some window of the text equals `p` |
| Text.ReadIntOfDecimal | src/anonymizer.cpp:218-223 | an integer printed in decimal reads back as the same integer, whatever non-digit text follows |
| IpMask.AnonymizeIp | src/util.cpp:6-10 | without a '.' the address is returned as is; otherwise the text up to the last '.' is kept and the rest becomes "X" |
| IpMask.AnonymizeIpIdempotent | src/util.cpp:6-10 | masking an already masked address changes nothing |
| IpMask.AnonymizeIpForgetsLastOctet | src/util.cpp:6-10 | two addresses that differ only after the last '.' mask to the same text, `prefix + ".X"` |
| IpMask.AnonymizeIpExamples | tests/test_util.cpp:10-12 | the three test vectors: "1.2.3.4", "10.0.0.1" and "not-an-ip" |
| IpMask.AnonymizeIpAnyDottedText | src/util.cpp:6-10 | text that is not an IPv4 address but holds a '.' is masked too: "a.b" becomes "a.X" |
| RowJoin.JoinRows | src/util.cpp:12-20 | the body is one byte longer per row than the rows together |
| RowJoin.JoinRowsLoop | src/util.cpp:13-19 | the appending loop builds exactly the joined body |
| RowJoin.JoinRowsAppend | src/util.cpp:12-20 | joining distributes over concatenation of row lists |
| RowJoin.JoinRowsCons | src/util.cpp:12-20 | the first row comes first in the body, followed by a newline |
| RowJoin.SplitJoinedRows | src/util.cpp:12-20 | splitting the body at newlines gives back the rows, when no row holds a newline |
| RowJoin.JoinRowsExample | tests/test_util.cpp:19-20 | ["row1", "row2"] joins to "row1\nrow2\n" |
| JsonEscape.EscapeChar | src/util.cpp:31-47 | a byte is copied exactly when it is at least 0x20 and is not '"' or '\\'; otherwise its escape starts with a backslash; an escape is at most six bytes, holds no control byte, and has a backslash before every quote |
| JsonEscape.EscapeJson | src/util.cpp:27-50 | the output has no raw control byte, a backslash right before every quote and no leading quote, and is between one and six times the input length |
| JsonEscape.EscapeJsonAppend | src/util.cpp:30-48 | escaping works byte by byte, so it distributes over concatenation |
| JsonEscape.EscapeJsonPlain | src/util.cpp:44-46 | text without control bytes, quotes or backslashes is copied unchanged |
| JsonEscape.EscapeJsonExample | tests/test_util.cpp:15-16 | the test vector `a"b\c` followed by newline and tab escapes as the test expects |
| JsonEscape.ReadEscapeChar | src/util.cpp:31-47 | a JSON string decoder reads each single-byte escape back as the byte it came from |
| JsonEscape.ReadEscaped | src/util.cpp:27-50 | escaped text decodes back to the original, up to a closing quote |
| JsonEscape.UnescapeEscapeJson | src/util.cpp:27-50 | unescaping inverts escaping for every input, including control bytes |
| JsonEscape.ParseQuotedEscape | src/util.cpp:27-50 | the escaped text in quotes is a JSON string literal whose value is the original |
| JsonEscape.EscapeJsonInjective | src/util.cpp:27-50 | two texts have the same escape if and only if they are equal |
| Sink.Send | src/anonymizer.cpp:94-136 | a send counts as delivered exactly for a response with code 200..299. Init failure raises "curl init failed". A transfer failure raises the fixed prefix followed by curl's error text. Any other code raises the fixed prefix followed by "HTTP <code>: <body>" |
| Sink.ResponseFailureReadsBack | src/anonymizer.cpp:129-133 | the exception a failing response raises starts with the fixed prefix, and the rest reads back as the status code and the whole body |
| Sink.StatusMessageRoundTrip | src/anonymizer.cpp:129-130 | the "HTTP <code>: <body>" detail carries the status code and the response body intact |
| Sink.OverloadClassification | src/anonymizer.cpp:179-181 | the "HTTP 503" test on the exception text, read up to its first NUL, matches these cases and no others: a transfer error that mentions "HTTP 503", or a non-2xx response whose code's decimal form starts with "503" or whose body mentions "HTTP 503" before its first NUL |
| Sink.InitFailedClassification | src/anonymizer.cpp:95-97 | a failed curl init never takes the rate-limit path |
| Sink.TransferFailedClassification | src/anonymizer.cpp:120-125 | a transfer failure takes the rate-limit path exactly when curl's error text mentions "HTTP 503" |
| Sink.ResponseClassification | src/anonymizer.cpp:127-134 | a response takes the rate-limit path exactly when it fails and its code starts with "503" or its body mentions "HTTP 503" before its first NUL |
| Sink.ResponseTextCStr | src/anonymizer.cpp:130-133 | read up to its first NUL, a failing response's exception text is the same text built from the body cut at its first NUL |
| Sink.TransferClassification | src/anonymizer.cpp:120-125 | the fixed prefix of a transfer-failure text never produces a match; only the curl error text can |
| Sink.ResponseOverloadIf | src/anonymizer.cpp:130-133 | the text "ClickHouse insert failed: HTTP <code>: <body>" mentions "HTTP 503" when the code's decimal form starts with "503" or the body mentions it |
| Sink.ResponseOverloadOnlyIf | src/anonymizer.cpp:130-133 | a mention of "HTTP 503" in that text implies the code starts with "503" or the body mentions it |
| Sink.OverloadForThreeDigitCodes | src/anonymizer.cpp:127-134 | for codes 100..999 the rate-limit path is taken exactly for 503, or for another non-2xx response whose body mentions "HTTP 503" before its first NUL |
| RowRender.TruncDiv | src/anonymizer.cpp:219 | `timestamp / 1000` truncates toward zero, for negative values too |
| RowRender.ParseRenderedRow | src/anonymizer.cpp:218-228 | a rendered row parses back to the values the record shows: seconds for the timestamp, each text field up to its first NUL, and the address masked after that cut |
| RowRender.RenderRowReadsCStrings | src/anonymizer.cpp:224-227 | cutting every text field at its first NUL changes neither the row nor the shown values |
| RowRender.RenderRowPrintable | src/anonymizer.cpp:218-228 | a rendered row holds no control byte, so in particular no newline |
| RowRender.RenderRowInjective | src/anonymizer.cpp:218-228 | two records render to the same row if and only if they show the same values, so text after a NUL makes no difference to the row |
| RowRender.BatchBodyReadsBack | src/anonymizer.cpp:218-230 | the body of a batch of rendered rows splits into one line per record, and each line reads back as that record's shown values, with text fields cut at their first NUL |
| Coordinator.NextSlot | src/anonymizer.cpp:183-184 | the slot is never earlier than one interval after the last flush; it is exactly that when `now_err` is earlier, and `now_err` plus one interval otherwise |
| Coordinator.TryFlush | src/anonymizer.cpp:166-192 | a send is attempted exactly when all three guards pass. The commit is called exactly after a successful send, which empties the batch and moves `last_flush`. A failure keeps the batch. A 503 moves the next allowed send to the next slot and sleeps until then. Any other failure sleeps five seconds and changes nothing. A failure counts as a 503 when the exception text, up to its first NUL, mentions "HTTP 503" |
| Coordinator.NulHidesOverload | src/anonymizer.cpp:179-190 | a 500 response whose body is a NUL followed by "HTTP 503" takes the five-second pause, not the 503 back-off |
| Coordinator.Append | src/anonymizer.cpp:230 | the row is added at the end of the batch; the timers are untouched |
| Coordinator.SizeLimitWait | src/anonymizer.cpp:233-241 | the loop pauses exactly when the batch is full and the window is closed, until the window opens, and never longer than one interval |
| Coordinator.SizeLimitWaitOpensWindow | src/anonymizer.cpp:233-241 | after the size-limit pause, the interval guard of `try_flush` passes |
| Coordinator.CooldownHonored | src/anonymizer.cpp:168 | after a 503, no send is attempted and nothing changes before the computed slot, whatever the sink would report |
| Coordinator.OverloadBackoffWindow | src/anonymizer.cpp:181-188 | after a 503 the next allowed send lies strictly after `now_err` and at most one interval later; the pause is positive and at most one interval |
| Coordinator.TimeTriggerFromLastFlush | src/anonymizer.cpp:167-169 | once an interval has passed since the last flush, a freshly appended row is sent at the next `try_flush` |
| Coordinator.SizeTriggerNeverSends | src/anonymizer.cpp:169 | within the interval no send is attempted, however many rows are buffered |
| RunLoop.RunningPrefix | src/anonymizer.cpp:195 | the iterations that run are the longest prefix of the inputs with the shutdown flag up |
| RunLoop.Iterate | src/anonymizer.cpp:195-244 | no record is lost: the delivered and buffered rows grow by exactly the polled record's row. The commit count and the delivered batches grow together, by at most one. The committed position moves only to the records consumed so far |
| RunLoop.PolledRowsPrepend | src/anonymizer.cpp:195-244 | the polled rows of a sequence of iterations are those of the first followed by those of the rest |
| RunLoop.IterateAccounted | src/anonymizer.cpp:195-244 | one iteration keeps the bookkeeping invariant: consumed = delivered + buffered, committed = delivered, one commit per accepted non-empty batch |
| RunLoop.RunAccounted | src/anonymizer.cpp:195-244 | a run keeps that invariant |
| RunLoop.RunAdmits | src/anonymizer.cpp:195-244 | over a run, the rows taken in grow by exactly the rows of the records polled while the flag was up, in poll order |
| RunLoop.RunFromStart | src/anonymizer.cpp:195-244 | from start-up, the delivered rows are exactly the polled rows up to the position the last commit asked for, and the rest are still buffered |
| RunLoop.PolledRowsOfRecords | src/anonymizer.cpp:218-230 | the polled rows are the polled records, each rendered |
| RunLoop.CommittedRowsReadBack | src/anonymizer.cpp:171-175 | with the source's rendering, every record a commit asked for has a row that reached the sink and reads back as the record's shown values |

## Left out

- The Kafka consumer (librdkafka): construction, subscription, `poll` and `commitCurrent` are
  external calls. A poll's result is the `Poll` input of an iteration. A commit is recorded only
  as "called", because the source logs and ignores its failure.
- Poll errors: both timed-out polls and other consumer errors only continue the loop, so they
  are one `ConsumerError` case. The warning log is not modelled.
- The curl transfer: `send` is modelled from its observable outcome (`Transport`). The options,
  the URL, the write callback and the cleanup calls are left out.
- Cap'n Proto decoding of the payload is left out. The loop sees an already decoded record, and
  a malformed payload, which would throw out of the loop, is not modelled. The schema is not
  part of this model, so numeric fields are unbounded integers.
- Coordinator.TryFlush: the interval is an unbounded number of seconds. The source holds
  FLUSH_SECONDS in a signed 64-bit `std::chrono::seconds` and compares and adds it in steady-clock
  units. A value above about 9.2e9 seconds overflows that arithmetic, and one at 2^63 or more
  becomes negative and makes every flush due. The model does not reproduce those wrap-arounds,
  so it covers configured intervals below that range.
- A failed `commitCurrent` leaves the broker's stored position behind the position it asked
  for. The model tracks only the position asked for (`Loop.committed`).
- `getEnvOrDefault`, `getRequiredEnv` and the `stoull` parsing of BATCH_MAX and FLUSH_SECONDS
  are left out. They are read once at start-up and enter as `Config`.
- Signal handling, logging (spdlog), `main`, and the top-level exception handler that returns
  exit code 1 are left out.
- The clock: readings are inputs in whole milliseconds, so sub-millisecond resolution of
  `steady_clock` and the millisecond truncation of `duration_cast` are not modelled.
- RunLoop.Iterate: the row rendering is a parameter of the run functions. The source's
  rendering is `RowRender.RenderRow`, which `RunLoop.CommittedRowsReadBack` uses.
- JsonEscape.ReadString: surrogate pairs in `\u` escapes are refused rather than combined. The
  decoder exists only to state the round trip, and `escape_json` never emits a surrogate.
