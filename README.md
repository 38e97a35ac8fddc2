# MQTT file-transfer benchmark: a Dafny model of the publisher and subscriber

The repository measures file transfer over MQTT with two scripts.

- `mqtt_publisher.py` publishes each file of a run plan a number of times.
  After each publish it waits, under a deadline, for the subscriber's `ACK`.
  It appends one result row per repetition to a CSV file.
- `mqtt_subscriber.py` accepts messages on `<FILE_TOPIC_BASE>/<filename>`.
  It writes the payload under a name that does not overwrite an existing file, publishes
  `ACK` on `<ACK_TOPIC_BASE>/<filename>`, and appends an overhead record to a CSV
  log. The record includes an estimate of the MQTT 3.1.1 PUBLISH header size.

The model has seven modules:

- `Common` (`common.dfy`): `Option`, bytes, the `ACK` payload.
- `PyStr` (`pystr.dfy`): the string built-ins the scripts use: `str.split(sep, 1)`, `startswith`, `str(int)`.
- `PyPath` (`pypath.dfy`): `os.path.join`, `basename`, and pathlib's `name`, `stem`, `suffix`.
- `HeaderEstimate` (`header.dfy`): `mqtt_publish_header_len` and its properties.
- `Subscriber` (`subscriber.dfy`): topic parsing, `next_unique_path`, `log_row`, and `on_message` as a `Receiver` class.
  - The filesystem is a set of path strings.
  - The handler's effects on the outside world form an append-only trace: file written, ACK published, CSV header, CSV record.
- `Publisher` (`publisher.dfy`): the ACK registry and its filter, `send_file` and the plan loop of `main`, as a `Sender` class.
  - The clock is an integer in milliseconds; one poll sleep is 2 ticks.
  - The MQTT client's network thread becomes explicit wait steps. During each one the clock advances and the messages the environment delivers in that step pass through the ACK handler.
  - Which messages arrive in which step (`arrivals`) and how long each publish hand-off takes (`handoff`) are inputs of the model.
- `Handshake` (`handshake.dfy`): how the two scripts fit together. These are topic round trips and the ACK that credits the sender.

The code discards a stale ACK once, before the repetition loop (`mqtt_publisher.py:70`), and consumes the ACK of each acknowledged repetition (`mqtt_publisher.py:89-91`). So an ACK that arrives after its repetition timed out is credited to the next repetition of the same file: `Publisher.Sender.Repetition` counts a repetition as acknowledged exactly when an ACK for the file arrived during it.

## Model

| member | source | states |
|---|---|---|
| PyStr.Find | mqtt_subscriber.py:97 | the first index of a character, and `None` exactly when it is absent |
| PyStr.SplitOnce | mqtt_subscriber.py:97 | `split(sep, 1)` gives one part, the whole string, exactly when `sep` is absent. Otherwise it gives two parts that rebuild the string around the first `sep` |
| PyStr.SplitOnceAt | mqtt_publisher.py:50 | splitting `a + sep + b` with a `sep`-free `a` gives back exactly `[a, b]` |
| PyStr.IntToStr | mqtt_publisher.py:97 | `str(n)` is a non-empty run of decimal digits with no leading zero, one digit exactly when `n < 10` |
| PyStr.ParseIntToStr | mqtt_subscriber.py:67 | `int(str(n)) == n` |
| PyStr.IntToStrInjective | mqtt_subscriber.py:67 | distinct indices print differently |
| PyPath.Name | mqtt_publisher.py:56 | the base name is `/`-free and no longer than the path |
| PyPath.NameIsTail | mqtt_publisher.py:56 | the base name is the tail after the last `/`, or the whole path |
| PyPath.RFind | mqtt_subscriber.py:63-64 | the last index of a character, and `None` exactly when it is absent |
| PyPath.JoinShape | mqtt_subscriber.py:60 | a joined path ends with the name; a relative name keeps the directory in front, with exactly one `/` added when the directory does not end in one; an absolute name replaces the directory |
| PyPath.SuffixStart | mqtt_subscriber.py:64 | the suffix starts at the last dot of the name when that dot is neither its first nor its last character; there is none exactly when the name is shorter than two characters, ends in a dot, or has no dot after its first character |
| PyPath.Suffix | mqtt_subscriber.py:64 | the suffix is empty, or a dot followed by at least one character and no further dot; it is non-empty exactly when the name has a suffix start, and then it is the name from that dot on |
| PyPath.Stem | mqtt_subscriber.py:63 | the stem is `/`-free, non-empty whenever there is a suffix, the name up to the suffix's dot, and the whole name when there is no suffix |
| PyPath.StemSuffix | mqtt_subscriber.py:63-64 | stem followed by suffix is the file name |
| PyPath.NameAfterSeparator | mqtt_subscriber.py:60 | the base name of a directory ending in `/` plus a `/`-free name is that name |
| PyPath.NameJoin | mqtt_subscriber.py:60 | joining a `/`-free name to any directory and taking the base name gives the name back |
| HeaderEstimate.VarIntWidth | mqtt_subscriber.py:48-52 | the Remaining Length field takes at least one byte |
| HeaderEstimate.PublishHeaderLen | mqtt_subscriber.py:44-55 | the estimate is at least the variable header plus two bytes, and exactly that when the Remaining Length fits in one byte |
| HeaderEstimate.ComputePublishHeaderLen | mqtt_subscriber.py:37-55 | the digit-counting loop returns `1 + width(remaining) + variable`, with `remaining = variable + payload_len` |
| HeaderEstimate.VarIntWidthBounds | mqtt_subscriber.py:48-52 | with `w` bytes, `n < 128^w`, and `n >= 128^(w-1)` when `w > 1` |
| HeaderEstimate.VarIntWidthExact | mqtt_subscriber.py:48-52 | conversely, any `k` with those bounds is the width |
| HeaderEstimate.VarIntWidthRanges | mqtt_subscriber.py:48-52 | 1 byte up to 127, 2 up to 16383, 3 up to 2097151, 4 up to 268435455, 5 up to 34359738367; larger values take more, with no cap at four bytes |
| HeaderEstimate.PowerCrossing | mqtt_subscriber.py:48-52 | each power of 128 crossed adds exactly one byte |
| HeaderEstimate.VarIntWidthMonotone | mqtt_subscriber.py:48-52 | the width never decreases as the value grows |
| HeaderEstimate.VarIntWidthSucc | mqtt_subscriber.py:48-52 | adding one to the value adds at most one byte |
| HeaderEstimate.VarIntWidthStep | mqtt_subscriber.py:48-52 | adding two to the value adds at most one byte |
| HeaderEstimate.EstimateMonotoneInPayload | mqtt_subscriber.py:44-55 | the estimate does not decrease with the payload length |
| HeaderEstimate.EstimateMonotoneInTopic | mqtt_subscriber.py:44-55 | each extra topic character adds at least one byte to the estimate |
| HeaderEstimate.EstimateQosGap | mqtt_subscriber.py:44-55 | QoS > 0 costs 2 to 3 bytes more than QoS 0 for the same message |
| Subscriber.ParseFileTopic | mqtt_subscriber.py:97-101 | an accepted topic is the `/`-free base, a `/`, and the returned filename; a topic without `/` is ignored |
| Subscriber.ParseFileTopicSpec | mqtt_subscriber.py:97-101 | a topic yields `filename` exactly when the base is `/`-free and the topic is `base/filename`. The filename may contain further slashes |
| Subscriber.ParseFileTopicIgnored | mqtt_subscriber.py:97-99 | a topic is ignored exactly when it has no `/` or its first segment is not the base |
| Subscriber.AltName | mqtt_subscriber.py:63-67 | the alternative name `stem_i+suffix` is `/`-free |
| Subscriber.Candidate | mqtt_subscriber.py:67 | the candidate path's base name is the alternative name, so the candidate lies directly in the output directory |
| Subscriber.SecondCopyName | mqtt_subscriber.py:58-70 | a second `report.bin` received into `received` is stored as `received/report_1.bin` |
| Subscriber.AltNameInjective | mqtt_subscriber.py:67 | distinct indices give distinct `stem_i+suffix` names |
| Subscriber.AltNameRelative | mqtt_subscriber.py:67 | an alternative name never starts with `/`, so it stays inside the base directory |
| Subscriber.JoinRelativeInjective | mqtt_subscriber.py:67 | joining relative names to one directory keeps them distinct |
| Subscriber.CandidateInjective | mqtt_subscriber.py:66-70 | distinct indices give distinct candidate paths |
| Subscriber.FirstFreeUnique | mqtt_subscriber.py:65-70 | the first free index is unique, so the search result is determined |
| Subscriber.TriedSpec | mqtt_subscriber.py:65-70 | after trying indices 1..i-1 there are i-1 distinct candidates, none of them a later one |
| Subscriber.SearchFree | mqtt_subscriber.py:65-70 | the counter loop ends at the smallest index ≥ 1 whose candidate is free |
| Subscriber.FirstFreeIndex | mqtt_subscriber.py:63-70 | the returned index is the first free `stem_i+suffix` |
| Subscriber.NextUniquePath | mqtt_subscriber.py:58-70 | the result is `base/name` when uniqueness is off or the name is free. Otherwise it is the first free candidate, and then it never names an existing file |
| Subscriber.LogEffects | mqtt_subscriber.py:73-81 | `log_row` appends nothing exactly when logging is off, and otherwise ends with the record |
| Subscriber.HeaderCountAppend | mqtt_subscriber.py:73-81 | header lines of a concatenated trace add up |
| Subscriber.NoHeaders | mqtt_subscriber.py:110-117 | a write and an ACK add no header line |
| Subscriber.HeaderCountSingle | mqtt_subscriber.py:79-80 | a single effect counts as one header for a path exactly when it is that path's header line |
| Subscriber.LogEffectsHeaders | mqtt_subscriber.py:73-81 | one `log_row` writes a header only for a log file that did not exist, and then exactly one |
| Subscriber.LogHeaderOnce | mqtt_subscriber.py:73-81 | two successive `log_row` calls write the header exactly once when the log file is new, and never otherwise |
| Subscriber.RecordOf | mqtt_subscriber.py:104-106 | the record's header estimate is the estimator's value, and `app_total` is that estimate plus the payload length |
| Subscriber.Receiver.constructor | mqtt_subscriber.py:16-30 | the receiver starts with its configuration, the existing files and an empty trace |
| Subscriber.Receiver.LogRow | mqtt_subscriber.py:73-81 | the call does nothing when logging is off. Otherwise it appends a header only if the log file did not exist, then the record, and the log file then exists |
| Subscriber.Receiver.LogRowKeepsValid | mqtt_subscriber.py:73-81 | after a `log_row` every log file still has at most one header |
| Subscriber.Receiver.WriteThenAck | mqtt_subscriber.py:110-117 | the payload write is followed by the ACK on the ACK topic with payload `ACK`, QoS `SUB_QOS`, no retain |
| Subscriber.Receiver.OnMessage | mqtt_subscriber.py:95-140 | a foreign topic leaves files and trace unchanged. A failed write adds no ACK and no row. Otherwise the trace grows by the write to `next_unique_path`, then the ACK for the parsed filename, then the log lines, and no ACK ever appears without the write before it |
| Publisher.AckedName | mqtt_publisher.py:49-50 | only an `ACK` payload on a topic that starts with `<ackBase>/` registers a name |
| Publisher.AckedNameSpec | mqtt_publisher.py:47-51 | a message registers `f` exactly when its payload is `ACK` and its topic is `ackBase/f` |
| Publisher.AckedNamesAppend | mqtt_publisher.py:47-51 | the names registered by two batches of messages are the union of each batch's |
| Publisher.AckedNamesMember | mqtt_publisher.py:47-51 | a name is registered exactly when some delivered message acknowledges it |
| Publisher.Throughput | mqtt_publisher.py:86-87 | throughput times elapsed is the size when elapsed > 0, otherwise 0. It is never negative |
| Publisher.EntryKeys | mqtt_publisher.py:72 | a file sent N times yields `max(N, 0)` rows, with indices 1..N in ascending order |
| Publisher.FileKeys | mqtt_publisher.py:59-72 | a missing file yields no rows; a present one yields `max(N, 0)` rows keyed by its base name, its size and the indices 1..N |
| Publisher.PlanKeysFromEntries | mqtt_publisher.py:118-119 | every row of a plan belongs to one of its entries: the entry's file exists and the index is one of its repetitions |
| Publisher.DefaultPlanRows | mqtt_publisher.py:20-25 | with all four data files present, the built-in plan writes 10000 + 1000 + 100 + 10 rows |
| Publisher.PlanKeysConcat | mqtt_publisher.py:118-119 | plan entries are processed in list order: the rows of a split plan are the rows of its parts, concatenated |
| Publisher.PlanKeysAllMissing | mqtt_publisher.py:59-61 | a plan whose files are all missing yields no rows |
| Publisher.RowsMatchAppend | mqtt_publisher.py:97 | row-by-row agreement survives concatenation |
| Publisher.TimeoutsRespectedSnoc | mqtt_publisher.py:81-83 | the timeout guarantee survives adding one repetition |
| Publisher.ProgressStep | mqtt_publisher.py:72-97 | one more repetition that keeps its own contract keeps the loop's invariant: rows 1..n, each timed-out row at least a timeout long, and each repetition acknowledged exactly when its own batch of arrivals carries the ACK |
| Publisher.PassesSnoc | mqtt_publisher.py:72-97 | a repetition that starts at the wait step where the previous one ended extends the pass-by-pass record: repetition k ran over its own wait steps, received exactly what arrived during them, took the k-th hand-off plus one poll interval per poll, ended its polls less than one poll interval after its deadline, and no poll before its last saw an ACK |
| Publisher.ArrivedFirst | mqtt_publisher.py:80-83 | the arrivals of a range of wait steps are those of its first step, then the rest |
| Publisher.ArrivedAppend | mqtt_publisher.py:72-97 | the arrivals of two adjacent ranges of wait steps are those of their union |
| Publisher.PollsBeforeAck | mqtt_publisher.py:78-83 | after a hand-off step, no poll check found an ACK among everything that had arrived since the publish |
| Publisher.RunKeepsOneHeader | mqtt_publisher.py:102-116 | however many runs append to the results file, it keeps exactly one header, as its first line |
| Publisher.Sender.constructor | mqtt_publisher.py:36 | the registry starts empty |
| Publisher.Sender.OnMessage | mqtt_publisher.py:47-51 | the filter adds to `acks` exactly the name a valid ACK carries, and nothing otherwise |
| Publisher.Sender.Deliver | mqtt_publisher.py:47-51 | delivering a batch registers exactly the names the batch acknowledges |
| Publisher.Sender.Advance | mqtt_publisher.py:78 | a wait step moves the clock and passes that step's messages through the handler |
| Publisher.Sender.AwaitAck | mqtt_publisher.py:80-83 | the poll loop stops once the name is registered or the deadline has come, and not a full poll interval after the deadline; it does not run at all if either holds already. What arrived is exactly the arrivals of the steps it slept, the clock moved one poll interval per step, and every check before the last found neither the name nor the deadline |
| Publisher.Sender.PublishAndAwait | mqtt_publisher.py:74-86 | one publish with the configured QoS, then the hand-off and the polls: the elapsed time is the hand-off plus one poll interval per poll, what arrived is exactly the arrivals of those steps, no check before the last saw an ACK for the name, and the loop ends with the name registered or the timeout reached |
| Publisher.Sender.Repetition | mqtt_publisher.py:74-97 | one publish and exactly one row, `["MQTT", "QoS"+q, name, size, i, elapsed, size/elapsed]`. Without an ACK the elapsed time is at least the timeout, measured from `t0` before the publish. The repetition is acknowledged exactly when an ACK for the name arrived during its own wait steps, and that ACK is consumed. Its row's time is the clock's advance: the publish hand-off plus one poll interval per poll. Its wait steps start where the previous repetition's ended, what it received is exactly what arrived during them, and no poll before its last saw an ACK, so the first step that brings the ACK ends it |
| Publisher.Sender.Repetitions | mqtt_publisher.py:72-97 | N repetitions publish the file N times and write rows 1..N, acknowledged or not; the repetitions run over consecutive ranges of wait steps from the first step to the last, repetition k received exactly the arrivals of its own range and is acknowledged exactly when they carry the ACK, its row's time is its hand-off plus one poll interval per poll and, when it polled at all, less than the timeout plus one poll interval, and no poll before its last saw an ACK. The clock advances by the sum of the rows' times. The registry loses only this file's entry |
| Publisher.Sender.SendFile | mqtt_publisher.py:55-97 | a missing file publishes nothing and writes no row. Otherwise the stale ACK is discarded once and `max(N, 0)` rows follow, with the same per-repetition wait steps, arrivals, acknowledgement, times and deadline bound as the repetition loop, and the file's name is not registered at the end. A missing file takes no wait step and no time |
| Publisher.Sender.RunExperiment | mqtt_publisher.py:100-119 | the header is written only when the CSV did not exist, followed by the rows of every plan entry in list order |
| Handshake.DefaultsAgree | mqtt_publisher.py:18-19 | the two scripts' built-in topic bases are equal and `/`-free |
| Handshake.TransferTopicRoundTrip | mqtt_subscriber.py:97-101 | the subscriber parses the publisher's transfer topic back to the same file name |
| Handshake.ForeignTransferIgnored | mqtt_subscriber.py:97-99 | a transfer on a different `/`-free base is ignored |
| Handshake.AckRoundTrip | mqtt_publisher.py:47-51 | the subscriber's ACK registers exactly the name it parsed, and no other, whatever QoS it is delivered with |
| Handshake.ExchangeCreditsSender | mqtt_subscriber.py:116-117 | a file sent under its base name is accepted under that name, and the ACK credits that name at the sender |
| Handshake.CopyKeepsName | mqtt_subscriber.py:58-62 | with unique names off, the stored copy has the sender's base name |

## Left out

- MQTT client plumbing is not modelled: client construction, `connect`, `subscribe`, `loop_start`/`loop_stop`, `disconnect` and `on_connect`. A publish is appended to `published`, and the subscriber's ACK is an effect in its trace.
- The network thread does not run concurrently with the sender. It delivers messages only during the sender's wait steps (the publish hand-off and each poll sleep). A message delivered between the end of a poll loop and the `if filename in acks` check is not modelled.
- Real time, `perf_counter`, `sleep` and `datetime` become an integer millisecond clock. Seconds become ticks, so elapsed time is in ticks and throughput is in bytes per tick.
- Floating point is not modelled: the `ratio` column of the overhead log (including its infinite case) and all number formatting (`:.6f`, `:.2f`). Throughput is a `real`.
- Configuration is not read from the environment. The `.env` settings are fields of a `Config`, and the string tests for `UNIQUE_FILENAMES` become a boolean.
- Console output (`print`) is dropped.
- Files are not read or written. The filesystem is a set of paths, with a map from path to contents on the publisher side.
- The `mkdir` of the output directory is assumed to succeed. A failed payload write is a boolean input. It stops the handler before the ACK, and any partial file it leaves is not modelled.
- Paths are joined as strings without pathlib normalisation, so `a//b` and `a/./b` are distinct paths. This changes which file is written for an empty or `/`-ended file name: for the topic `fileTransfer/`, pathlib's `Path("received") / ""` is the existing directory `received` itself, so with unique names on the code writes `received/received_1`, while the model writes `received/` first and `received/_1` next. As in the code, the `_i` alternative is placed directly in the output directory, even when the received name has subdirectories.
- Topic lengths count characters, not UTF-8 bytes, and the Remaining Length is not capped at four bytes. Both are kept as the estimator is written.
- `KeyboardInterrupt` handling in `main` is not modelled.
- The CoAP and HTTP clients and servers are not part of this model.
- Publisher.Sender.Repetition: time spent outside the wait steps (the publish call itself, the checks, the row) is taken as zero, so the elapsed time is exactly the hand-off plus one poll interval per poll.
- Publisher.Sender.RunExperiment: states the header and the rows, tied to the plan by file name, size and index. The acknowledgement, timeout and arrival facts of each file's repetitions are stated by `SendFile`, which it calls, and are not collected again over the whole plan.
- The QoS the broker delivers a message with is not modelled; the ACK filter ignores it, and `Handshake.AckRoundTrip` holds for any QoS.
