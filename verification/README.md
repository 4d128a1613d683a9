# A verified model of a minimal publish/subscribe broker

The broker keeps named topics. Each topic is an append-only log of text messages, and every message is numbered with its offset. Clients speak a line protocol to it:

- `PUBLISH <topic> <payload>` appends a message.
- `SUBSCRIBE <topic> [<offset>]` answers one line `[<offset>] <topic> <payload>` per stored message from that offset on.
- Anything else is answered `Unknown command`.

Around the broker sit three kinds of client:

- the in-process `Producer` and `Consumer`, which share the broker's store;
- a `ProducerPool` of reusable connections;
- a `ResilientConsumer`, which reconnects with exponential backoff and hands every non-blank received line to a handler.

This project models all of that as pure functions over immutable values and proves properties of them in Dafny:

- The store is a `map<string, Topic>`.
- A connection to the broker is a fold of a per-line step over the read events of the stream.
- The retry loops of the clients are folds over scripted outcomes. Connect attempts, set-up calls and whole consumer passes are inputs, and sleeps come out as a list of durations.

Modules, in dependency order:

| file | module | models |
|---|---|---|
| outcomes.dfy | `Outcomes` | `Option`, `Result` |
| text.dfy | `Text` | `char::is_whitespace`, ASCII `to_uppercase`, one step of `split` |
| lines.dfy | `Lines` | `BufRead::lines` framing, `writeln!` |
| decimal.dfy | `Decimal` | `usize` `Display` and `str::parse::<usize>` |
| topic.dfy | `Topics` | `Message`, `Topic`, `publish`, `consume_all`, `consume` |
| broker.dfy | `Brokers` | `Broker::new`, `get_or_create_topic`, lookup |
| protocol.dfy | `Protocol` | the line loop and dispatch of `handle_client` |
| producer.dfy | `Producers` | `Producer::send`, `send_batch`, the publish request line |
| pool.dfy | `Pools` | `ProducerPool` |
| consumer.dfy | `Consumers` | `poll`, `poll_with_limit`, the subscribe line, `connect_with_retry`, the handler filter |
| resilient.dfy | `Resilient` | `run_consumer_loop`, `ResilientConsumer::start` |
| exchange.dfy | `Exchange` | one whole publish-then-subscribe session with the broker |

Modelling decisions:

- **`Topic::consume(k)` is an assumption.** `broker/src/broker.rs` calls it at line 95, but `broker/src/topic.rs` does not define it. The model takes it to return the messages whose offset is at least `k`, in log order (`Topics.Consume`).
- **`to_uppercase` is ASCII only.** Only ASCII letters are folded.
- **Offsets follow `usize::parse` on a 64-bit target.** An optional leading `+` is accepted. A value above 2^64-1 does not parse, so the offset falls back to 0.
- **`trim().is_empty()` uses Unicode whitespace.** It is modelled with the full Unicode White_Space set that `char::is_whitespace` uses.
- **Purity stands in for "does not modify".** `consume_all`, `poll` and `poll_with_limit` are pure functions, so they cannot modify the store.
- **`start` is observed through its return.** `Resilient.Start` reports whether `start` has returned and, if so, its result, which is always an `Err`.

The consumer subscribes with `CONSUME <topic>` (broker/src/consumer.rs:110), but the broker's code matches only `PUBLISH` and `SUBSCRIBE` (broker/src/broker.rs:66-122), so it answers `Unknown command`. This model follows the code; see Findings.

## Model

| member | source | states |
|---|---|---|
| Text.IsBlank | broker/src/consumer.rs:124 | `trim().is_empty()`: the line holds only White_Space characters; a predicate with no contract of its own, whose reference definition is the White_Space set `Text.IsWhitespace` |
| Text.ToUpper | broker/src/broker.rs:66 | upper-cases ASCII letters and leaves every other character, keeping the length |
| Text.UpperMatchIsCaseInsensitive | broker/src/broker.rs:66 | `to_uppercase(w) == VERB` holds exactly when `w` spells the verb letter by letter in either case |
| Text.IndexOf | broker/src/broker.rs:55 | the result is the first position of the delimiter, or the length when there is none |
| Text.IndexOfAfterPrefix | broker/src/broker.rs:55 | after a delimiter-free prefix, the first delimiter is the one right after it |
| Text.SplitOnce | broker/src/broker.rs:55 | the head holds no delimiter, and head, delimiter and tail rebuild the input |
| Text.SplitOnceJoin | broker/src/broker.rs:55 | splitting `a + c + rest` with `a` delimiter-free gives back exactly `a` and `rest` |
| Lines.SplitLines | broker/src/broker.rs:45 | no line the reader yields contains a newline |
| Lines.SplitUnlines | broker/src/broker.rs:98 | lines written with `writeln!` that hold no newline and end in no `\r` are read back as the same lines |
| Lines.SplitOneLine | broker/src/broker.rs:45 | one such line written with its newline is read as exactly that one line |
| Decimal.ShowNat | broker/src/broker.rs:98 | the printed offset is non-empty, all digits and denotes the number; 0 prints as `0`, and no longer spelling starts with a zero |
| Decimal.ParseUsize | broker/src/broker.rs:91 | after dropping one optional leading `+`, the input parses exactly when what remains is a non-empty run of digits whose value fits in a `usize`, and then the result is that value (so `"007"` gives 7 and `"+5"` gives 5) |
| Decimal.ParseShow | broker/src/broker.rs:91 | parsing a printed number gives it back exactly when it fits in a `usize` |
| Decimal.ParseRejectsEmpty | broker/src/broker.rs:91 | the empty string, a lone `+` and a negative number do not parse |
| Topics.NewTopic | broker/src/topic.rs:17-23 | a new topic has the given name and no messages, and satisfies the offset invariant |
| Topics.Publish | broker/src/topic.rs:26-33 | exactly one message is appended at the end, with the old counter as its offset; the counter goes up by one; the name and earlier messages are unchanged; the offset invariant is preserved |
| Topics.PublishAll | broker/src/producer.rs:43-45 | publishing a list appends it in order with contiguous offsets from the old counter and preserves the invariant |
| Topics.From | broker/src/broker.rs:95 | consuming from `k` yields only messages with offset at least `k` |
| Topics.FromNumbered | broker/src/broker.rs:95 | on consecutively numbered messages, consuming from `k` is the suffix from position `k - base` |
| Topics.ConsumeAll | broker/src/topic.rs:36-38 | `consume_all` returns the whole log; no contract of its own, its partner is `Topics.ConsumeFromZero` |
| Topics.Consume | broker/src/broker.rs:95 | `consume(k)`, under the stated assumption that it keeps the messages with offset at least `k` in log order; no contract of its own, its partner is `Topics.ConsumeIsSuffix` |
| Topics.ConsumeIsSuffix | broker/src/broker.rs:95 | on a valid topic, `consume(k)` is the log from position `k` on, empty past the end |
| Topics.ConsumeFromZero | broker/src/broker.rs:95 | `consume(0)` is `consume_all`, on any topic |
| Topics.FromZero | broker/src/broker.rs:95 | filtering for offset at least 0 keeps every message |
| Topics.FreshPublishConsume | broker/src/topic.rs:26-38 | publishing p1..pn to a new topic and consuming everything gives p1..pn with offsets 0..n-1 |
| Brokers.NewBroker | broker/src/broker.rs:19-23 | a new broker has no topics |
| Brokers.GetOrCreateTopic | broker/src/broker.rs:26-31 | a present name returns its entry and leaves the map alone; an absent one gets a new empty topic of that name; no other entry changes |
| Brokers.GetOrCreateIdempotent | broker/src/broker.rs:27-30 | a second get-or-create of the same name finds what the first one made |
| Brokers.Lookup | broker/src/broker.rs:93 | lookup finds a topic exactly when the name is present, and creates nothing |
| Brokers.PublishTo | broker/src/broker.rs:81-84 | a publish creates the topic if needed and appends exactly one message with the topic's next offset; all other topics are unchanged |
| Protocol.SplitFields | broker/src/broker.rs:55-58 | the first two fields never hold a space, and a line without a space is all command |
| Protocol.SplitFieldsJoin | broker/src/broker.rs:55-58 | joining space-free command and topic with single spaces to any argument splits back into exactly those three, and missing fields come back as "" |
| Protocol.SubscribeOffset | broker/src/broker.rs:91 | the offset is the parsed argument, or 0 when it does not parse |
| Protocol.FormatMessage | broker/src/broker.rs:98 | one response line `[<offset>] <topic> <payload>`; no contract of its own, its meaning is fixed by `Protocol.FormatAll`, `Consumers.FormattedNotBlank`, `Consumers.FormattedSafe` and `Exchange.FormatTwo` |
| Protocol.FormatAll | broker/src/broker.rs:96-102 | one response line per message, in order |
| Protocol.Parse | broker/src/broker.rs:66-91 | a line is a publish exactly when its upper-cased verb is PUBLISH and topic and payload are non-empty, a refused publish when one is empty, a subscribe exactly when the verb is SUBSCRIBE, and unknown otherwise |
| Protocol.Execute | broker/src/broker.rs:66-122 | only a valid publish changes the store, and it answers nothing; a refused publish answers one error line; a subscribe to an unknown topic answers nothing and creates nothing; to a known topic it answers one line per message from the offset on, in order; anything else answers `Unknown command`; the store invariant is preserved |
| Protocol.Step | broker/src/broker.rs:54-123 | handling one line keeps the store invariant and never removes a topic; what it answers is `Protocol.Execute`'s contract applied to `Protocol.Parse` |
| Protocol.Fold | broker/src/broker.rs:45-52 | the read loop; no contract of its own, it is pinned down by `Protocol.FoldCons`, `Protocol.FoldAppend` and `Protocol.FoldStopsAtError` |
| Protocol.FoldAppend | broker/src/broker.rs:45-52 | serving a stream in two error-free pieces is serving the first and then the second on the resulting store |
| Protocol.FoldStopsAtError | broker/src/broker.rs:46-51 | nothing after a read error is handled |
| Protocol.StepsKeepWellFormed | broker/src/broker.rs:45-123 | a connection keeps every topic filed under its name and valid, and never removes a topic |
| Protocol.Serve | broker/src/broker.rs:45-123 | a connection preserves the store invariant and only adds topics |
| Protocol.FoldCons | broker/src/broker.rs:45-52 | handling a stream is handling its first line and then the rest |
| Protocol.ParsePublish | broker/src/broker.rs:55-84 | `PUBLISH t p` with a space-free non-empty topic and non-empty payload is that publish, whatever spaces the payload holds |
| Protocol.ParseSubscribe | broker/src/broker.rs:90-91 | `SUBSCRIBE t a` subscribes from the parsed offset and `SUBSCRIBE t` from 0 |
| Exchange.PublishStep | broker/src/broker.rs:55-84 | the line `PUBLISH t p` is handled as a publish of `p` to `t` and answers nothing |
| Exchange.LogOfTwo | broker/src/broker.rs:81-84 | publishing `p` then `q` to a fresh broker leaves one topic whose log is `p` at offset 0 and `q` at offset 1 |
| Exchange.PublishTwice | broker/src/broker.rs:66-84 | the two publish lines build that log and answer nothing |
| Exchange.FormatTwo | broker/src/broker.rs:98 | the two messages format as `[0] t p` and `[1] t q` |
| Exchange.OffsetOne | broker/src/broker.rs:91 | the argument `1` is offset 1 |
| Exchange.SubscribeOneParses | broker/src/broker.rs:55-91 | `SUBSCRIBE t 1` is a subscribe from offset 1 |
| Exchange.SubscribeAll | broker/src/broker.rs:90-112 | on that log a full subscribe answers both messages in order and changes nothing |
| Exchange.SubscribeFromOne | broker/src/broker.rs:90-112 | on that log a subscribe from 1 answers only `q` and changes nothing |
| Exchange.FoldFour | broker/src/broker.rs:45-52 | serving four lines is handling each on the store the previous one left, answers concatenated |
| Exchange.QuietThenAnswers | broker/src/broker.rs:45-52 | two silent lines and then two answering lines give the two answers in order |
| Exchange.TwoPublishesThenConsume | broker/src/broker.rs:66-112 | publishing p then q to a new broker, then subscribing to the topic in full and from 1, answers `[0] t p`, `[1] t q`, and then `[1] t q` |
| Producers.Send | broker/src/producer.rs:21-33 | send creates the topic if absent and appends exactly one message with the given text; other topics are unchanged |
| Producers.SendBatch | broker/src/producer.rs:36-47 | a batch appends all messages in order, with contiguous offsets from the old counter; other topics are unchanged |
| Producers.SendBatchIsSends | broker/src/producer.rs:37-45 | a batch is a get-or-create followed by one send per message, so an empty batch still creates the topic |
| Producers.PublishLine | broker/src/producer.rs:76 | the request `PUBLISH <topic> <message>` and a newline; no contract of its own, its meaning is fixed by `Producers.PublishLineFramed`, `Producers.PublishLineRoundTrip` and `Producers.PublishLineIsSend` |
| Producers.PublishLineFramed | broker/src/producer.rs:76 | for a topic with no newline and a message with no newline and no trailing `\r`, the publish request is read by the broker as exactly one line |
| Producers.PublishLineRoundTrip | broker/src/producer.rs:76 | for a topic with no space and no newline and a message with no newline and no trailing `\r`, the broker splits a publish request back into `PUBLISH`, the topic and the message |
| Producers.PublishLineIsSend | broker/src/producer.rs:75-77 | for a non-empty topic with no space and no newline and a non-empty message with no newline and no trailing `\r`, a publish request over the wire changes the store as `Producer::send` does, and the broker answers nothing |
| Producers.EmptyMessageRefused | broker/src/producer.rs:76 | for a topic with no space and no newline, a request with an empty message is refused with the one error line and changes nothing |
| Pools.NewPool | broker/src/producer.rs:88-94 | a new pool has no idle connections and is within its capacity |
| Pools.GetConnection | broker/src/producer.rs:96-106 | with idle connections the most recently released one is taken without dialing; otherwise the dial result is returned and the pool is unchanged; capacity is respected |
| Pools.Release | broker/src/producer.rs:108-113 | below capacity the connection is pushed; at capacity it is dropped and the pool is unchanged |
| Pools.ReleaseThenGet | broker/src/producer.rs:98-113 | releasing a connection and then acquiring one returns that connection and the pool as it was |
| Pools.Send | broker/src/producer.rs:115-120 | a failed acquisition leaves the pool alone; after a successful write the publish request went out and the connection is released; after a failed write it is not returned |
| Pools.SendKeepsWarmPool | broker/src/producer.rs:115-120 | a successful send from a pool with idle connections leaves the pool as it was |
| Consumers.Poll | broker/src/consumer.rs:22-35 | an unknown topic gives nothing, and a known one gives its whole log, in offset order |
| Consumers.PollWithLimit | broker/src/consumer.rs:38-53 | the result is the first `min(limit, n)` messages of `poll` |
| Consumers.PollAfterSend | broker/src/consumer.rs:22-35 | after a send, a poll of its topic ends with the new message numbered with the topic's old size; other topics poll as before |
| Consumers.PollAfterSendBatch | broker/src/consumer.rs:22-35 | after a batch, a poll gives the old messages followed by the batch |
| Consumers.PollWithLimitEnds | broker/src/consumer.rs:48-49 | a limit of 0 gives nothing, and a limit of at least n gives the whole poll |
| Consumers.SubscribeLine | broker/src/consumer.rs:110 | the request `CONSUME <topic>` and a newline, as written; no contract of its own, its effect is stated by `Consumers.LineEndsSafely` and `Consumers.SubscribeLineUnknown` |
| Consumers.SubscribeLineUnknown | broker/src/consumer.rs:110 | for a topic with no newline and no trailing `\r`, the broker answers the consumer's `CONSUME <topic>` request with `Unknown command` and changes nothing |
| Consumers.FixedSubscribeParses | broker/src/broker.rs:90-91 | `SUBSCRIBE <topic>` is read as one line and as a subscribe from 0 |
| Consumers.SubscribeFromStart | broker/src/broker.rs:90-112 | a subscribe from 0 answers exactly what `poll` returns, formatted |
| Consumers.FixedSubscribeAnswersPoll | broker/src/broker.rs:90-112 | the broker answers the corrected request with one line per message `poll` returns |
| Consumers.FirstAnswered | broker/src/consumer.rs:86-101 | attempts run until the first one that is not refused; `n` attempts take `n-1` one-second pauses; all refused reports the last refusal after all attempts |
| Consumers.ConnectSpec | broker/src/consumer.rs:82-105 | zero retries fails without an attempt, an unparsable address fails without an attempt, at most `retries` attempts are made, and no pause follows the last one |
| Consumers.RefusedAttempt | broker/src/consumer.rs:93-100 | a refused attempt passes on to the next, or ends the connect with its error if it was the last |
| Consumers.AnsweredAttempt | broker/src/consumer.rs:88-92 | an answered attempt ends the connect, with or without the nodelay error |
| Consumers.ConnectWithRetry | broker/src/consumer.rs:82-105 | the while loop computes exactly what `ConnectSpec` describes: same result, attempt count and pauses |
| Consumers.ConnectStopsAtFirstAnswer | broker/src/consumer.rs:86-92 | if attempt `j` connects after `j` refusals, connecting succeeds after `j+1` attempts and `j` pauses |
| Consumers.ConnectAllRefused | broker/src/consumer.rs:93-104 | if every attempt is refused, all `retries` are made and the last error is reported |
| Consumers.NonBlank | broker/src/consumer.rs:124-126 | the kept lines are non-blank and no more than the input; with `Consumers.NonBlankOne` and `Consumers.NonBlankAppend` it is exactly the in-order filter |
| Consumers.NonBlankOne | broker/src/consumer.rs:124-126 | a single line is dropped exactly when it is blank, and otherwise kept unchanged |
| Consumers.Deliver | broker/src/consumer.rs:194-206 | the handler receives exactly the non-blank lines before the first read error, untrimmed and in order; the pass ends `Ok` exactly when there was no read error |
| Consumers.NonBlankAppend | broker/src/consumer.rs:194-201 | filtering distributes over concatenation |
| Consumers.NonBlankKeepsAll | broker/src/consumer.rs:124-126 | lines that are all non-blank are all kept, unchanged |
| Consumers.LineEndsSafely | broker/src/consumer.rs:110 | a request line ending in a space and a safe topic survives line framing |
| Consumers.FormattedNotBlank | broker/src/broker.rs:98 | a response line is never blank |
| Consumers.FormattedSafe | broker/src/broker.rs:98 | a response line survives framing when the topic name and payload do |
| Consumers.LinesOfFrame | broker/src/consumer.rs:121 | an error-free stream's lines are all read |
| Consumers.ResponsesAllDelivered | broker/src/consumer.rs:194-201 | for a topic name with no newline and payloads with no newline and no trailing `\r`, every line the broker writes to a subscriber reaches the handler, unchanged and in order |
| Resilient.RunCycle | broker/src/consumer.rs:187-209 | a pass succeeds exactly when the single connect attempt, the set-up and every read succeed; it hands the non-blank lines read before any error to the handler |
| Resilient.Pow2 | broker/src/consumer.rs:179 | every backoff is at least one second |
| Resilient.TrailingFailures | broker/src/consumer.rs:171-172 | the failure run is no longer than the history |
| Resilient.Tick | broker/src/consumer.rs:165-181 | one turn of `start`; no contract of its own, its effect is stated by `Resilient.TickCollects`, `Resilient.SuccessResets` and `Resilient.FailureSleeps` |
| Resilient.Supervise | broker/src/consumer.rs:161-185 | while running, the counter equals the number of failed passes since the last success and never exceeds the limit; `start` returns at the first pass that takes the counter past the limit, and there the counter is `max_retries + 1`; the pauses are stated by `Resilient.FailureSleeps`, `Resilient.SuccessResets` and `Resilient.BackoffAfter` |
| Resilient.GivesUpIffTooManyFailures | broker/src/consumer.rs:174-176 | `start` returns exactly when, at some point, more than `max_retries` passes in a row have failed |
| Resilient.SuccessResets | broker/src/consumer.rs:166-170 | a successful pass resets the counter to 0, never ends the loop and adds no pause |
| Resilient.FailureSleeps | broker/src/consumer.rs:171-181 | a failed pass raises the counter by one; `start` returns exactly when it passes the limit, without a pause, and otherwise sleeps 2^counter seconds |
| Resilient.BackoffSchedule | broker/src/consumer.rs:178-181 | `n` failures in a row from the start sleep 2, 4, ..., 2^n seconds |
| Resilient.Resume | broker/src/consumer.rs:164-184 | the loop resumed from a given state; its meaning is fixed by `Resilient.SuperviseResume` |
| Resilient.SuperviseSnoc | broker/src/consumer.rs:164-184 | the last pass is one more turn after the ones before it |
| Resilient.SuperviseResume | broker/src/consumer.rs:164-184 | running `start` over a history and then more passes is resuming, after the history, over those passes |
| Resilient.ResumeFailures | broker/src/consumer.rs:171-181 | from a zero counter, `n` failures within the limit add the pauses 2, 4, ..., 2^n and leave the counter at `n` |
| Resilient.BackoffAfter | broker/src/consumer.rs:166-181 | after any history that leaves the counter at zero, including one that ends in a success, `n` failures within the limit sleep 2, 4, ..., 2^n seconds |
| Resilient.GiveUpAfterLimit | broker/src/consumer.rs:172-176 | `start` gives up after `max_retries + 1` failures in a row, with no pause after the last |
| Resilient.FirstThreePauses | broker/src/consumer.rs:179 | failures 1, 2 and 3 sleep 2, 4 and 8 seconds |
| Resilient.TickCollects | broker/src/consumer.rs:164-184 | once `start` has returned nothing more happens; before that each turn runs one pass |
| Resilient.AllHandledSnoc | broker/src/consumer.rs:194-201 | the lines handled over passes concatenate in pass order |
| Resilient.HandledInOrder | broker/src/consumer.rs:194-201 | every pass `start` runs delivers its lines in order, successful or not |
| Resilient.Start | broker/src/consumer.rs:161-185 | `start` returns only after giving up, and then only with an error, never `Ok` |
| Resilient.BadAddressGivesUp | broker/src/consumer.rs:161-188 | with an address that never parses, `start` sleeps 2, ..., 2^max_retries seconds, handles nothing, and returns its error after exactly `max_retries + 1` passes |

## Left out

- Sockets, the listener's accept loop, one thread per connection, and connect timeouts are not modelled. Each client connection is served on its own, as a fold over the read events of its stream.
- Mutex locking and lock poisoning are not modelled. The source unwraps poisoned locks, and the in-process producer and consumer turn them into `Err`; the store is one sequential value.
- Response writes that fail are not modelled, because the broker only logs them and carries on.
- Logging, `println!` and `eprintln!` produce no observable state, so they are left out.
- `run_producer`, `run_consumer`, `read_messages`' printing and the client crate are command-line front ends, so they are left out.
- Text.ToUpper: folds ASCII letters only. Rust's `to_uppercase` also maps a few non-ASCII letters to ASCII ones (U+0131 to `I`, U+017F to `S`), so `publıſh` would be read as `PUBLISH` by the broker but not by the model.
- Topics.Publish: the offset counter is unbounded. The source's `usize` counter would overflow after 2^64 publishes.
- Topics.Consume: `broker/src/topic.rs` does not define `Topic::consume`, which `broker/src/broker.rs:95` calls. Its behaviour (offset at least `k`, in log order) is an assumption.
- Topics.ConsumeAll: returns the log itself and carries no contract of its own. That it does not modify the topic follows from purity.
- Resilient.Supervise: the backoff 2^n is unbounded. The source's `2u64.pow(n as u32)` overflows once `max_retries` is 64 or more.
- Resilient.Start: the error message omits the text of the last pass's error, which the source appends after the retry limit.
- Resilient.RunCycle: `set_keepalive` and writing the subscribe request are one input, `setupOk`, because both fail the pass the same way.
- Pools.Send: the error text of a failed write is a placeholder.
- Producers.PublishLineIsSend, Producers.PublishLineRoundTrip: say nothing about topics that hold a space or a newline, or messages that hold a newline or end in `\r`. `Producer::send` and the request line at `broker/src/producer.rs:76` accept such text unchecked, and the broker then reads a different request: `PUBLISH a b m` is topic `a` with payload `b m`, and a newline splits the request into two lines.
- Consumers.ResponsesAllDelivered: says nothing about topic names that hold a newline, or stored payloads that hold a newline or end in `\r`. The broker writes them as they are, so a newline splits a response into two lines for the handler and a trailing `\r` is dropped by the consumer's line reader.
- Consumers.SubscribeLineUnknown: says nothing about a topic that holds a newline, which frames as two request lines.

## Findings

| source | as written | input that shows it | evidently intended | confidence | as-written member | corrected member |
|---|---|---|---|---|---|---|
| broker/src/consumer.rs:110 | the consumer subscribes with `CONSUME <topic>`, which the broker's dispatcher (broker/src/broker.rs:114-122) does not recognise | topic `t`: the broker answers `Unknown command` and sends no messages | a request the broker serves, `SUBSCRIBE <topic>`, answered with every message of the topic | not executed | Consumers.SubscribeLineUnknown | Consumers.FixedSubscribeAnswersPoll |
