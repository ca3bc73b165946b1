# RabbitMQ publisher with confirms — a Dafny model

This project models the publishing core of an application-level RabbitMQ
publisher built on the RabbitMQ Java client.
Two copies of the core exist, `org.brs.test_task.RabbitPublisherImpl` and
`org.example.test_task.RabbitPublisherImpl`. The model also covers the test
helper `util.LargeStringGenerator`.

- `RabbitPublisherImpl` holds an exchange name and a queue name, and a table
  of outstanding publisher confirms. The table maps each publish sequence
  number to the message body.
- `publishMessageAndGetReplyCode(body, properties)` does these steps in order:
  - it turns the caller's string-keyed property map into typed AMQP basic
    properties;
  - it connects, opens a channel and puts the channel in confirm mode;
  - it registers listeners for acks, nacks, returns and channel shutdown;
  - it records the sequence number in the table and publishes;
  - it waits on a `CompletableFuture` that the first listener to fire
    completes;
  - in the `finally` block it closes the channel and then the connection,
    each only if it was created and is still open.
- The reply codes are the AMQP 0-9-1 constants reply-success (200),
  invalid-path (402) and internal-error (541).
- Acks and nacks clear the table with the semantics of the `multiple` flag of
  `basic.ack` / `basic.nack`:
  - with `multiple`, every sequence number up to the tag is removed;
  - without it, only the tag itself is removed.
- The two copies differ in two ways:
  - the org/brs copy fails the whole build on a `headers` value that is not
    JSON, while the org/example copy skips it;
  - the org/brs copy waits for the constructor's `timeoutSeconds`, while the
    org/example copy always waits 20 seconds.
  `Publisher.Variant` selects between them.
- `generateLargeString(megabytes)` appends `megabytes * 1024 * 1024` spaces.
  The bound is computed in 32-bit `int` arithmetic and the model wraps it
  explicitly.

Layout, one module per file:
- `wrappers.dfy`: `Option` and `Result`.
- `amqp.dfy`: the reply-code constants.
- `int32.dfy`: Java `int`: its range, wrap-around of `*`, `Integer.parseInt` and `Integer.toString`.
- `confirms.dfy`: the outstanding-confirm table and `cleanupConfirms`.
- `properties.dfy`: `buildProperties`, plus a reference definition of what a property map denotes.
- `resolver.dfy`: the listeners and the single-assignment future, replayed over a trace of broker events.
- `publisher.dfy`: the publisher record, the constructor, setters and getters, and one call of `publishMessageAndGetReplyCode`.
- `large_string.dfy`: `generateLargeString`.

Where the client library would decide something, the model takes it as an
input, the `Publisher.Broker` record. Its fields are:
- which call throws (`Fault`);
- the next publish sequence number;
- the events that reach the client between the publish and the channel close.
  The wait's bound elapsing is one of them, `Timeout`; with no event at all
  the bound elapses too. The wait ends at the first event, and the listeners
  still handle the events after it;
- what `isOpen()` and `close()` do at teardown.

The date formatter and the JSON reader are also inputs: they are partial
functions in `Properties.Oracles`.

Two notes on the source's behaviour:
- Of the 13 keys the `switch` recognises, nine are copied verbatim as strings:
  `expiration`, `userId`, `appId`, `contentEncoding`, `contentType`,
  `correlationId`, `messageId`, `replyTo` and `type`.
- A `timestamp` entry can never succeed. When the formatter rejects the value,
  the builder throws the property error naming `timestamp`. When the formatter
  accepts it, the result is a parsed-field accessor, not a `java.util.Date`,
  so the `(Date)` cast throws `ClassCastException`. That exception is not
  caught and leaves the call as `CastError`.

## Model

| member | source | states |
|---|---|---|
| Confirms.Record | src/main/java/org/brs/test_task/RabbitPublisherImpl.java:94 | `put(seqNo, body)`: the entry for the sequence number holds the body, replacing any earlier one; every other key and body is unchanged |
| Confirms.RemoveOne | src/main/java/org/brs/test_task/RabbitPublisherImpl.java:131 | `remove(tag)`: the key set loses exactly `tag`; surviving bodies are unchanged |
| Confirms.RemoveUpTo | src/main/java/org/brs/test_task/RabbitPublisherImpl.java:126-129 | `headMap(tag, true).clear()`: a key survives exactly when it was present and is greater than `tag`, with its body |
| Confirms.Cleanup | src/main/java/org/brs/test_task/RabbitPublisherImpl.java:123-133 | cleanup only removes entries and never a key above the tag; the tag is always gone; with `multiple` every key up to the tag goes; without it at most the tag goes |
| Confirms.CleanupExactly | src/main/java/org/example/test_task/RabbitPublisherImpl.java:114-124 | cleanup removes exactly the keys the acknowledgement covers (`<= tag` with `multiple`, `== tag` without) |
| Confirms.RemoveOneAbsentAndIdempotent | src/main/java/org/brs/test_task/RabbitPublisherImpl.java:130-132 | removing an absent tag is a no-op; removing it twice equals removing it once |
| Confirms.RemoveUpToCompose | src/main/java/org/brs/test_task/RabbitPublisherImpl.java:125-129 | two cumulative cleanups equal one cleanup up to the larger tag, so repeating one changes nothing |
| Confirms.RemoveUpToIsPrefix | src/main/java/org/brs/test_task/RabbitPublisherImpl.java:126-129 | every key a cumulative cleanup removes is smaller than every key it keeps |
| Confirms.RecordThenCleanupScenario | src/main/java/org/brs/test_task/RabbitPublisherImpl.java:123-133 | after recording 5, 7 and 9, a cumulative ack of 7 leaves only 9 with its body; a single ack of 9 then empties the table, and repeating it is harmless |
| Int32.ParseInt | src/main/java/org/brs/test_task/RabbitPublisherImpl.java:148 | `Integer.parseInt`: a result is only ever produced for an optional single sign followed by at least one digit, and a negative result only with a leading `-` |
| Int32.ToString | src/main/java/org/brs/test_task/RabbitPublisherImpl.java:148 | `Integer.toString`, the writer whose output the parser reads back: a `-` exactly for negative numbers, then decimal digits with no leading zero |
| Int32.ParseToString | src/main/java/org/brs/test_task/RabbitPublisherImpl.java:148 | `Integer.parseInt` reads back every `int` that `Integer.toString` writes |
| Int32.ParseIntSyntax | src/main/java/org/brs/test_task/RabbitPublisherImpl.java:154 | the empty string, a lone sign, a doubled sign and stray characters are rejected; a leading `+` and leading zeros are accepted |
| Int32.ParseUnsigned | src/main/java/org/brs/test_task/RabbitPublisherImpl.java:148 | a run of digits parses exactly when its value is at most 2^31-1, and then to that value |
| Int32.ParsePlus | src/main/java/org/brs/test_task/RabbitPublisherImpl.java:148 | a leading `+` does not change the result |
| Int32.ParseMinus | src/main/java/org/brs/test_task/RabbitPublisherImpl.java:148 | a leading `-` negates, and the magnitude may reach 2^31 |
| Int32.MulMulWrap | src/test/java/util/LargeStringGenerator.java:7 | `a * b * c` in `int` arithmetic, evaluated left to right, is the exact product wrapped once modulo 2^32 |
| Properties.KeyOf | src/main/java/org/brs/test_task/RabbitPublisherImpl.java:146-188 | the `case` a key selects has that key as its label |
| Properties.KeyOfName | src/main/java/org/brs/test_task/RabbitPublisherImpl.java:146-188 | each of the 13 labels selects its own case and no other |
| Properties.ApplyKey | src/main/java/org/brs/test_task/RabbitPublisherImpl.java:146-196 | one `case` with its `catch` arms: a string key stores its value verbatim; `deliveryMode` and `priority` fail with the property error exactly when the value does not parse; `timestamp` always fails; `headers` fails with the headers error exactly when the reader rejects it under the fail-fast policy; the timestamp is never set |
| Properties.ApplyEntry | src/main/java/org/brs/test_task/RabbitPublisherImpl.java:142-196 | an unrecognised key leaves the attributes as they were; an iteration throws exactly for an entry the reference rejects, and then with that entry's rejection |
| Properties.BuildEntries | src/main/java/org/brs/test_task/RabbitPublisherImpl.java:142-197 | a successful loop never sets the timestamp and has seen no `timestamp` key |
| Properties.Build | src/main/java/org/brs/test_task/RabbitPublisherImpl.java:135-140 | a null map yields the default, all-absent attributes; a successful build has no timestamp |
| Properties.ApplyEntryAgreesWithReference | src/main/java/org/brs/test_task/RabbitPublisherImpl.java:146-196 | one loop iteration either applies the key's meaning from the reference definition or raises the rejection that key and value call for |
| Properties.OverlayCompose | src/main/java/org/brs/test_task/RabbitPublisherImpl.java:142-188 | applying one entry and then a map without that key equals applying the map extended with the entry |
| Properties.BuildEntriesRejects | src/main/java/org/brs/test_task/RabbitPublisherImpl.java:142-197 | the loop fails exactly when some entry is rejected, and then with the rejection of the first rejected entry |
| Properties.BuildEntriesValue | src/main/java/org/brs/test_task/RabbitPublisherImpl.java:142-188 | over distinct keys, a successful loop returns the reference overlay of the whole map |
| Properties.AcceptedEntriesIffMap | src/main/java/org/brs/test_task/RabbitPublisherImpl.java:142-144 | over distinct keys, every entry is accepted exactly when every entry of the map is |
| Properties.BuildMatchesReference | src/main/java/org/brs/test_task/RabbitPublisherImpl.java:135-200 | the build succeeds exactly when every map entry is accepted, and then returns the attributes the map denotes |
| Properties.BuildOrderIndependent | src/main/java/org/brs/test_task/RabbitPublisherImpl.java:142 | two iteration orders of the same map agree on success and on the attributes built |
| Properties.BuildReportsFirstRejection | src/main/java/org/brs/test_task/RabbitPublisherImpl.java:189-196 | a build fails exactly when some entry is rejected, and reports the first rejected entry in iteration order |
| Properties.SoleRejection | src/main/java/org/brs/test_task/RabbitPublisherImpl.java:189-196 | with exactly one rejected entry, the build fails with that entry's error |
| Properties.IgnoredEntryHasNoEffect | src/main/java/org/brs/test_task/RabbitPublisherImpl.java:146-188 | an unrecognised key can be removed from anywhere in the iteration without changing the result; so can a bad `headers` value when such values are ignored |
| Properties.StringPropertiesVerbatim | src/main/java/org/brs/test_task/RabbitPublisherImpl.java:150-183 | each of the nine string keys ends up verbatim in its own field |
| Properties.IntegerPropertiesUnchecked | src/main/java/org/brs/test_task/RabbitPublisherImpl.java:147-155 | `deliveryMode` and `priority` keep any parsed `int`, with no range check |
| Properties.BadIntegerFails | src/main/java/org/brs/test_task/RabbitPublisherImpl.java:147-192 | a `deliveryMode` or `priority` that is not a 32-bit decimal integer fails the build; when it is the only bad entry, the error names that key |
| Properties.BadHeadersFailFast | src/main/java/org/brs/test_task/RabbitPublisherImpl.java:184-195 | org/brs: a `headers` value the JSON reader rejects fails the build; alone, it raises the headers error |
| Properties.BadHeadersIgnored | src/main/java/org/example/test_task/RabbitPublisherImpl.java:175-185 | org/example: a `headers` value the JSON reader rejects is skipped; the build is that of the map without it, and headers stay unset |
| Properties.NullHeadersLeaveUnset | src/main/java/org/example/test_task/RabbitPublisherImpl.java:176-177 | both variants: the `headers` text `null` is accepted and leaves the headers unset, since the reader returns a null map and the builder stores it; alone it builds the default attributes |
| Properties.TimestampNeverBuilds | src/main/java/org/brs/test_task/RabbitPublisherImpl.java:177-192 | a `timestamp` entry always fails the build: an unparsable value with the property error, a parsable one with the cast error |
| Resolver.Completion | src/main/java/org/brs/test_task/RabbitPublisherImpl.java:67-92 | the value each listener completes the future with: ack 200, nack 541, a returned message and a channel shutdown the broker's reply code; an interrupt or the bound elapsing completes nothing |
| Resolver.Deliver | src/main/java/org/brs/test_task/RabbitPublisherImpl.java:67-92 | one event: a confirm removes exactly the table entries it settles, keeping the other entries with their bodies; the future takes the event's value only if it was still empty |
| Resolver.Await | src/main/java/org/brs/test_task/RabbitPublisherImpl.java:96-103 | `future.get`: times out exactly when the first event is the bound elapsing or there is no event; ends in the interrupt that the `InterruptedException` arm catches exactly when that comes first; otherwise returns the first event's completion value |
| Resolver.Complete | src/main/java/org/brs/test_task/RabbitPublisherImpl.java:72 | `complete(v)` stores `v` and reports success exactly when the future is still empty; otherwise it changes nothing |
| Resolver.CompletedCellIsStable | src/main/java/org/brs/test_task/RabbitPublisherImpl.java:67-92 | once completed, the future keeps its value through any further events |
| Resolver.FirstCompletionWins | src/main/java/org/brs/test_task/RabbitPublisherImpl.java:67-92 | the future ends holding `v` exactly when some event completes with `v` and no earlier event completes; it stays empty exactly when no event completes |
| Resolver.AwaitReadsCell | src/main/java/org/brs/test_task/RabbitPublisherImpl.java:96 | the value the wait returns is the one the whole trace leaves in the future; the wait times out exactly when the bound elapses first or nothing arrives |
| Resolver.EntrySurvivesUnlessSettled | src/main/java/org/brs/test_task/RabbitPublisherImpl.java:67-80 | a table entry survives the trace, with its body, exactly when no ack or nack of the trace covers it |
| Publisher.New | src/main/java/org/brs/test_task/RabbitPublisherImpl.java:29-37 | a new publisher has empty exchange and queue names, an empty table and the given format and timeout |
| Publisher.SetExchangeName | src/main/java/org/brs/test_task/RabbitPublisherImpl.java:39-41 | the exchange getter returns the new name and nothing else changes |
| Publisher.SetQueueName | src/main/java/org/brs/test_task/RabbitPublisherImpl.java:43-45 | the queue getter returns the new name and nothing else changes |
| Publisher.WaitSeconds | src/main/java/org/brs/test_task/RabbitPublisherImpl.java:96 | the bound passed to `future.get` is `timeoutSeconds` in org/brs and 20 seconds in org/example (src/main/java/org/example/test_task/RabbitPublisherImpl.java:89) |
| Publisher.GettersReturnLastSet | src/main/java/org/brs/test_task/RabbitPublisherImpl.java:39-53 | after any sequence of setter calls, each getter returns the last value passed to its setter, and no other field changes |
| Publisher.FreshPublisherNames | src/main/java/org/example/test_task/RabbitPublisherImpl.java:29-30 | on a new publisher, a getter whose setter was never called returns `""` |
| Publisher.TryBlock | src/main/java/org/brs/test_task/RabbitPublisherImpl.java:62-103 | the calls made are the fixed call order cut at the call that throws; the connection is assigned unless connecting fails, and the channel unless connecting or channel creation fails |
| Publisher.Teardown | src/main/java/org/brs/test_task/RabbitPublisherImpl.java:104-120 | the channel is closed exactly when it is assigned and open, and likewise the connection; only closes are issued, channel first |
| Publisher.TryFinally | src/main/java/org/brs/test_task/RabbitPublisherImpl.java:60-120 | only the table of the publisher changes, and the first call is the connect |
| Publisher.Publish | src/main/java/org/brs/test_task/RabbitPublisherImpl.java:56-121 | a call changes nothing in the publisher except the table |
| Publisher.BuildPrecedesConnect | src/main/java/org/brs/test_task/RabbitPublisherImpl.java:57-63 | a build error is thrown with no client call made and the publisher untouched; a successful build starts by connecting |
| Publisher.TryCalls | src/main/java/org/brs/test_task/RabbitPublisherImpl.java:62-96 | the `try` block never closes anything; the publish, when made, is the sixth call and directly follows the recording; it is made exactly when connect, channel creation and confirm selection succeed |
| Publisher.RecordPrecedesPublish | src/main/java/org/example/test_task/RabbitPublisherImpl.java:87-88 | the sequence number is recorded immediately before the publish; the publish carries the exchange, the queue name as routing key, the built properties and the body; it happens exactly when the connection, channel and confirm mode were obtained |
| Publisher.ReplyCodeOfAttempt | src/main/java/org/brs/test_task/RabbitPublisherImpl.java:62-103 | unknown host returns 402 after the connect alone; other I/O errors propagate; otherwise the first event decides: ack 200, nack 541, return or shutdown the broker's code, interrupt 541; the bound elapsing first, or no event at all, throws the timeout |
| Publisher.ReplyIsFirstCompletion | src/main/java/org/brs/test_task/RabbitPublisherImpl.java:67-96 | a returned code, interrupts aside, is the value the listeners leave in the future |
| Publisher.WaitBound | src/main/java/org/example/test_task/RabbitPublisherImpl.java:89 | the wait bound is `timeoutSeconds` in org/brs and 20 seconds in org/example, where the constructor's timeout affects nothing |
| Publisher.TeardownRules | src/main/java/org/example/test_task/RabbitPublisherImpl.java:95-111 | the channel is closed exactly when created and open, and the connection likewise, whatever the channel close did; closes come after every other call, channel before connection |
| Publisher.CloseFailuresAreInvisible | src/main/java/org/example/test_task/RabbitPublisherImpl.java:95-111 | failing closes change neither the result nor the publisher nor which calls are made; only the close calls' success flags differ |
| Publisher.OutstandingAfterCall | src/main/java/org/brs/test_task/RabbitPublisherImpl.java:67-111 | the table is unchanged unless the sequence number was recorded; after a wait an entry survives, with its body, exactly when no ack or nack of the trace covers it, including confirms that arrive after a timeout and before the channel close; so the publish's own entry stays exactly when no confirm covers it |
| Publisher.LateConfirmAfterTimeout | src/main/java/org/brs/test_task/RabbitPublisherImpl.java:69-72 | an ack that arrives after the wait timed out but before the channel close still runs `cleanupConfirms`: the call throws the timeout and the publish's entry is gone |
| LargeString.GenerateLargeString | src/test/java/util/LargeStringGenerator.java:5-11 | every character is a space; the length is the wrapped bound when positive and zero otherwise; up to 2047 megabytes the length is exactly `megabytes * 2^20`, and zero down to -2048 megabytes gives `""` |
| LargeString.BoundIsWrappedProduct | src/test/java/util/LargeStringGenerator.java:7 | the loop bound is `megabytes * 2^20` wrapped into the `int` range; it is exact for 0 to 2047 and at most zero for -2048 to 0 |
| LargeString.OverflowExamples | src/test/java/util/LargeStringGenerator.java:7 | 2048 and 4096 megabytes give the empty string, 5120 gives 1024 megabytes' worth, and -2049 gives 2047 megabytes' worth |

## Left out

- Broker-client I/O: `newConnection`, `createChannel`, `confirmSelect`, `basicPublish`, `getNextPublishSeqNo`, `isOpen` and `close` are not executed. Their observable effects are inputs in `Publisher.Broker`: where an exception is raised, the next sequence number, the open flags and the close failures.
- Concurrency and time: listener callbacks run on client threads, and `future.get` blocks with a real timeout. The model replays the listeners one after another over a finite event trace that ends at the channel close. The timeout is a `Timeout` event, or the trace having no event at all. Events after the channel close are not modelled.
- `DateTimeFormatter` and Jackson's `ObjectMapper` are foreign code. They are partial functions in `Properties.Oracles`. The structure of the parsed date and of the header JSON is not modelled.
- `DateTimeFormatter.ofPattern` throwing on a malformed pattern in the constructor is not modelled; `Publisher.New` accepts any pattern.
- The shutdown listener's cast of the close reason to `AMQP.Channel.Close` is not modelled. A connection-level close would make it throw inside the listener. A `Shutdown` event here always carries a reply code.
- `ExecutionException` from `future.get` is not modelled. The future is only ever completed normally, so it cannot occur. An interrupt of the waiting thread is an `Interrupt` event and returns 541.
- `TimeoutException` from `newConnection` and runtime exceptions from `close()` are not modelled. Every other client I/O failure is the single `BrokerIoError`.
- Events that arrive after a failed publish are not modelled. On a `PublishFailure` the table keeps the recorded entry.
- Java `long` sequence numbers and delivery tags are unbounded `int`s, and `byte[]` bodies are `seq<bv8>`.
- Null keys or null values inside the property map are not modelled. A null map is `None`. The JSON text `null` for `headers` is modelled: the reader returns `Some(None)`.
- A null `body` is not modelled: bodies are sequences, never null. In the source, `put(seqNo, null)` throws an uncaught `NullPointerException` after connect, channel creation and confirm selection, and the `finally` block still runs.
- Int32.ParseInt: only ASCII digits are accepted, while `Integer.parseInt` also accepts other Unicode decimal digits.
- Int32.ParseUnsigned: speaks of ASCII digit runs only, for the reason given for `Int32.ParseInt`.
- Logging through slf4j and `System.out`/`System.err` is not modelled.
- The command-line demos, the two interfaces and the live-broker integration tests are not part of this model.
