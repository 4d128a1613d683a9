/** The consumer side: the in-process `Consumer` (`poll`,
    `poll_with_limit`), the subscribe request a network consumer writes,
    the connect-with-retry loop, and the filter that hands non-blank lines
    to the message handler. */
module Consumers {
  import opened Outcomes
  import opened Text
  import opened Lines
  import opened Decimal
  import opened Topics
  import opened Brokers
  import opened Protocol
  import Producers

  /** `Consumer::poll`: every message of the topic, or none if the topic
      does not exist. Polling never creates a topic. */
  function Poll(s: Store, topic: string): (ms: seq<Message>)
    ensures topic !in s ==> ms == []
    ensures topic in s ==> ms == ConsumeAll(s[topic])
    // On a well-formed store the messages come in offset order 0, 1, ...
    ensures WellFormed(s) ==> forall i :: 0 <= i < |ms| ==> ms[i].offset == i
  {
    match Lookup(s, topic)
    case None => []
    case Some(t) => ConsumeAll(t)
  }

  /** `Consumer::poll_with_limit`: at most `limit` messages, taken from
      the front of what `poll` returns. */
  function PollWithLimit(s: Store, topic: string, limit: nat): (ms: seq<Message>)
    ensures var all := Poll(s, topic);
            && |ms| == (if limit < |all| then limit else |all|)
            && ms == all[..|ms|]
  {
    var all := Poll(s, topic);
    if limit < |all| then all[..limit] else all
  }

  /** A sent message is what the next poll of its topic finds at the end,
      numbered with the topic's next offset; polls of other topics do not
      see it. */
  lemma PollAfterSend(s: Store, topic: string, message: string, other: string)
    requires WellFormed(s)
    requires other != topic
    ensures Poll(Producers.Send(s, topic, message), topic)
            == Poll(s, topic) + [Message(message, |Poll(s, topic)|)]
    ensures Poll(Producers.Send(s, topic, message), other) == Poll(s, other)
  {
  }

  /** After a batch, a poll finds the messages that were there followed by
      the batch, in order. */
  lemma PollAfterSendBatch(s: Store, topic: string, messages: seq<string>)
    requires WellFormed(s)
    ensures var before := Poll(s, topic);
            var after := Poll(Producers.SendBatch(s, topic, messages), topic);
            && after[..|before|] == before
            && Payloads(after) == Payloads(before) + messages
  {
    var before := Poll(s, topic);
    var after := Poll(Producers.SendBatch(s, topic, messages), topic);
    assert |after| == |before| + |messages|;
    assert forall i :: 0 <= i < |messages| ==> after[|before| + i].payload == messages[i];
  }

  /** A limit of zero gives nothing, and a limit no smaller than the topic
      gives the whole poll. */
  lemma PollWithLimitEnds(s: Store, topic: string, limit: nat)
    ensures PollWithLimit(s, topic, 0) == []
    ensures limit >= |Poll(s, topic)| ==> PollWithLimit(s, topic, limit) == Poll(s, topic)
  {
  }

  /** `subscribe_to_topic`: the request a network consumer writes. */
  function SubscribeLine(topic: string): string {
    "CONSUME " + topic + "\n"
  }

  lemma LineEndsSafely(prefix: string, topic: string)
    requires '\n' !in prefix && |prefix| > 0 && prefix[|prefix| - 1] == ' '
    requires LineSafe(topic)
    ensures LineSafe(prefix + topic)
  {
    var l := prefix + topic;
    assert forall i :: 0 <= i < |l| ==> l[i] != '\n' by {
      forall i | 0 <= i < |l| ensures l[i] != '\n' {
        if i < |prefix| { assert l[i] == prefix[i]; } else { assert l[i] == topic[i - |prefix|]; }
      }
    }
    if |topic| > 0 {
      assert l[|l| - 1] == topic[|topic| - 1];
    } else {
      assert l == prefix;
    }
  }

  lemma ConsumeIsNoVerb()
    ensures !IsVerb("CONSUME", "PUBLISH") && !IsVerb("CONSUME", "SUBSCRIBE")
  {
    assert ToUpper("CONSUME")[0] == 'C';
  }

  /** The request the consumer writes is not one the broker knows: for any
      topic, the broker answers it with "Unknown command" and subscribes
      the connection to nothing. */
  lemma SubscribeLineUnknown(s: Store, topic: string)
    requires LineSafe(topic)
    ensures Serve(s, Frame(SubscribeLine(topic))) == Reply(s, [UNKNOWN_COMMAND])
  {
    var l := "CONSUME " + topic;
    LineEndsSafely("CONSUME ", topic);
    SplitOneLine(l);
    ConsumeIsNoVerb();
    assert "CONSUME " == "CONSUME" + [' '];
    assert l == "CONSUME" + [' '] + topic;
    Text.SplitOnceJoin("CONSUME", ' ', topic);
    assert SplitFields(l).command == "CONSUME";
    assert Parse(l) == UnknownCmd;
    FoldCons(Step, s, l, []);
    assert [Line(l)] + [] == [Line(l)];
  }

  /** The request the broker does understand for "send me this topic from
      the start". */
  function FixedSubscribeLine(topic: string): string {
    "SUBSCRIBE " + topic + "\n"
  }

  lemma FixedSubscribeParses(topic: string)
    requires ' ' !in topic && LineSafe(topic)
    ensures Frame(FixedSubscribeLine(topic)) == [Line("SUBSCRIBE " + topic)]
    ensures Parse("SUBSCRIBE " + topic) == SubscribeCmd(topic, 0)
  {
    LineEndsSafely("SUBSCRIBE ", topic);
    SplitOneLine("SUBSCRIBE " + topic);
    ParseSubscribe(topic, "");
  }

  /** SUBSCRIBE from offset 0 answers what `poll` returns, formatted. */
  lemma SubscribeFromStart(s: Store, topic: string)
    requires WellFormed(s)
    ensures Execute(s, SubscribeCmd(topic, 0)) == Reply(s, FormatAll(topic, Poll(s, topic)))
  {
  }

  /** Answering the corrected request, the broker writes one line per
      message the topic holds, in order: what a `poll` would return. */
  lemma FixedSubscribeAnswersPoll(s: Store, topic: string)
    requires WellFormed(s)
    requires ' ' !in topic && LineSafe(topic)
    ensures Serve(s, Frame(FixedSubscribeLine(topic))) == Reply(s, FormatAll(topic, Poll(s, topic)))
  {
    var l := "SUBSCRIBE " + topic;
    FixedSubscribeParses(topic);
    SubscribeFromStart(s, topic);
    FoldCons(Step, s, l, []);
    assert [Line(l)] + [] == [Line(l)];
  }

  // ---------------------------------------------------------------------
  // connect_with_retry

  /** What one call of `connect_timeout` (followed, on success, by
      `set_nodelay`) gives. */
  datatype Attempt =
    | Connects
    | ConnectFails(reason: string)
    | NoDelayFails(reason: string)

  datatype ConnectError =
    | NoAttempt                   // zero retries: "Failed to connect after retries"
    | AddressInvalid              // the address does not parse as a socket address
    | LastRefusal(reason: string) // every attempt failed; the last error
    | NoDelayError(reason: string)

  /** How a connect ended: the error if any, the number of connect
      attempts made and the sleeps (in seconds) taken between them. */
  datatype Connect = Connect(error: Option<ConnectError>, attempts: nat, sleeps: seq<nat>)

  /** `n` pauses of one second. */
  function Pauses(n: nat): (p: seq<nat>)
    ensures |p| == n && forall i :: 0 <= i < n ==> p[i] == 1
  {
    seq(n, i => 1)
  }

  /** Attempting from attempt `from` on, when all earlier ones were
      refused: the first attempt that is not refused decides, and if all
      are refused the last refusal is the error. */
  function FirstAnswered(dial: nat -> Attempt, retries: nat, from: nat): (c: Connect)
    requires from < retries
    ensures from < c.attempts <= retries
    ensures c.sleeps == Pauses(c.attempts - 1)
    ensures forall i :: from <= i < c.attempts - 1 ==> dial(i).ConnectFails?
    ensures c.error == None <==> dial(c.attempts - 1) == Connects
    ensures dial(c.attempts - 1).NoDelayFails? ==>
              c.error == Some(NoDelayError(dial(c.attempts - 1).reason))
    ensures dial(c.attempts - 1).ConnectFails? ==>
              c.attempts == retries && c.error == Some(LastRefusal(dial(retries - 1).reason))
    decreases retries - from
  {
    match dial(from)
    case Connects => Connect(None, from + 1, Pauses(from))
    case NoDelayFails(e) => Connect(Some(NoDelayError(e)), from + 1, Pauses(from))
    case ConnectFails(e) =>
      if from + 1 == retries then Connect(Some(LastRefusal(e)), retries, Pauses(from))
      else FirstAnswered(dial, retries, from + 1)
  }

  /** What `connect_with_retry(address, retries)` does, as a whole. */
  function ConnectSpec(addressParses: bool, retries: nat, dial: nat -> Attempt): (c: Connect)
    ensures retries == 0 ==> c == Connect(Some(NoAttempt), 0, [])
    ensures retries > 0 && !addressParses ==> c == Connect(Some(AddressInvalid), 0, [])
    ensures c.attempts <= retries
    ensures c.attempts > 0 ==> c.sleeps == Pauses(c.attempts - 1)
  {
    if retries == 0 then Connect(Some(NoAttempt), 0, [])
    else if !addressParses then Connect(Some(AddressInvalid), 0, [])
    else FirstAnswered(dial, retries, 0)
  }

  /** A refused attempt that is not the last hands over to the next one;
      the last one, refused, ends the connect with its error. */
  lemma RefusedAttempt(dial: nat -> Attempt, retries: nat, from: nat)
    requires from < retries && dial(from).ConnectFails?
    ensures from + 1 < retries ==> FirstAnswered(dial, retries, from) == FirstAnswered(dial, retries, from + 1)
    ensures from + 1 == retries ==>
              FirstAnswered(dial, retries, from) == Connect(Some(LastRefusal(dial(from).reason)), retries, Pauses(from))
  {
  }

  /** An attempt that is not refused ends the connect. */
  lemma AnsweredAttempt(dial: nat -> Attempt, retries: nat, from: nat)
    requires from < retries && !dial(from).ConnectFails?
    ensures dial(from).Connects? ==> FirstAnswered(dial, retries, from) == Connect(None, from + 1, Pauses(from))
    ensures dial(from).NoDelayFails? ==>
              FirstAnswered(dial, retries, from) == Connect(Some(NoDelayError(dial(from).reason)), from + 1, Pauses(from))
  {
  }

  /** `connect_with_retry`, loop for loop: the address is parsed on each
      pass, an answered attempt returns at once, and a refused one is
      followed by a one-second sleep unless it was the last. */
  method ConnectWithRetry(addressParses: bool, retries: nat, dial: nat -> Attempt) returns (c: Connect)
    ensures c == ConnectSpec(addressParses, retries, dial)
  {
    var attempts: nat := 0;
    var lastError: Option<string> := None;
    var sleeps: seq<nat> := [];
    ghost var spec := ConnectSpec(addressParses, retries, dial);
    while attempts < retries
      invariant attempts <= retries
      invariant attempts > 0 ==> addressParses
      invariant attempts < retries && addressParses ==> FirstAnswered(dial, retries, attempts) == spec
      invariant attempts < retries ==> sleeps == Pauses(attempts)
      invariant attempts == 0 ==> sleeps == []
      invariant attempts == 0 <==> lastError == None
      invariant attempts == retries && attempts > 0 ==>
                  lastError.Some? && spec == Connect(Some(LastRefusal(lastError.value)), retries, Pauses(retries - 1))
                  && sleeps == Pauses(retries - 1)
      decreases retries - attempts
    {
      if !addressParses {
        return Connect(Some(AddressInvalid), attempts, sleeps);
      }
      match dial(attempts) {
        case Connects =>
          AnsweredAttempt(dial, retries, attempts);
          return Connect(None, attempts + 1, sleeps);
        case NoDelayFails(e) =>
          AnsweredAttempt(dial, retries, attempts);
          return Connect(Some(NoDelayError(e)), attempts + 1, sleeps);
        case ConnectFails(e) =>
          RefusedAttempt(dial, retries, attempts);
          lastError := Some(e);
          attempts := attempts + 1;
          if attempts < retries {
            sleeps := sleeps + [1];
          }
      }
    }
    match lastError {
      case None => return Connect(Some(NoAttempt), attempts, sleeps);
      case Some(e) => return Connect(Some(LastRefusal(e)), attempts, sleeps);
    }
  }

  /** Connecting returns at the first answered attempt and never sleeps
      after the last attempt: `n` attempts take `n - 1` pauses. */
  lemma ConnectStopsAtFirstAnswer(addressParses: bool, retries: nat, dial: nat -> Attempt, j: nat)
    requires addressParses && j < retries
    requires dial(j).Connects?
    requires forall i :: 0 <= i < j ==> dial(i).ConnectFails?
    ensures ConnectSpec(addressParses, retries, dial) == Connect(None, j + 1, Pauses(j))
  {
  }

  /** If every attempt is refused, all `retries` attempts are made and the
      last refusal is reported. */
  lemma ConnectAllRefused(retries: nat, dial: nat -> Attempt)
    requires retries > 0
    requires forall i :: 0 <= i < retries ==> dial(i).ConnectFails?
    ensures ConnectSpec(true, retries, dial)
            == Connect(Some(LastRefusal(dial(retries - 1).reason)), retries, Pauses(retries - 1))
  {
  }

  // ---------------------------------------------------------------------
  // read_messages / the handler loop of run_consumer_loop

  /** The lines handed to the handler, in order, and whether the stream
      ended cleanly (`Ok`) rather than with a read error. */
  datatype Delivery = Delivery(handled: seq<string>, ok: bool)

  /** Lines of a stream before its first read error. */
  function LinesBeforeError(events: seq<ReadEvent>): (ls: seq<string>)
    decreases |events|
  {
    if events == [] || events[0].ReadError? then []
    else [events[0].text] + LinesBeforeError(events[1..])
  }

  /** The non-blank members of `ls`, in order. */
  function NonBlank(ls: seq<string>): (r: seq<string>)
    ensures |r| <= |ls|
    ensures forall i :: 0 <= i < |r| ==> !IsBlank(r[i])
    decreases |ls|
  {
    if ls == [] then []
    else if IsBlank(ls[0]) then NonBlank(ls[1..])
    else [ls[0]] + NonBlank(ls[1..])
  }

  /** The handler loop: a line whose trim is empty is skipped, any other
      line is handed over untrimmed, and a read error ends the loop with an
      error. */
  function Deliver(events: seq<ReadEvent>): (d: Delivery)
    ensures d.handled == NonBlank(LinesBeforeError(events))
    ensures d.ok <==> forall i :: 0 <= i < |events| ==> events[i].Line?
    decreases |events|
  {
    if events == [] then Delivery([], true)
    else
      match events[0]
      case ReadError => Delivery([], false)
      case Line(l) =>
        var rest := Deliver(events[1..]);
        assert forall i :: 1 <= i < |events| ==> events[i] == events[1..][i - 1];
        if IsBlank(l) then rest else Delivery([l] + rest.handled, rest.ok)
  }

  /** One line is kept exactly when its trim is non-empty. */
  lemma NonBlankOne(l: string)
    ensures NonBlank([l]) == if IsBlank(l) then [] else [l]
  {
    assert [l][1..] == [];
  }

  lemma {:induction false} NonBlankAppend(a: seq<string>, b: seq<string>)
    ensures NonBlank(a + b) == NonBlank(a) + NonBlank(b)
    decreases |a|
  {
    if a == [] {
      assert a + b == b;
    } else {
      assert (a + b)[0] == a[0];
      assert (a + b)[1..] == a[1..] + b;
      NonBlankAppend(a[1..], b);
    }
  }

  /** Lines that are all non-blank are all handed over, unchanged. */
  lemma {:induction false} NonBlankKeepsAll(ls: seq<string>)
    requires forall i :: 0 <= i < |ls| ==> !IsBlank(ls[i])
    ensures NonBlank(ls) == ls
    decreases |ls|
  {
    if ls != [] {
      NonBlankKeepsAll(ls[1..]);
    }
  }

  /** A response line of the broker always starts with '[', so it is never
      skipped as blank. */
  lemma FormattedNotBlank(name: string, m: Message)
    ensures !IsBlank(FormatMessage(name, m))
  {
    assert FormatMessage(name, m)[0] == '[';
  }

  lemma FormattedSafe(name: string, m: Message)
    requires '\n' !in name && LineSafe(m.payload)
    ensures LineSafe(FormatMessage(name, m))
  {
    var head := "[" + ShowNat(m.offset) + "] " + name + " ";
    assert forall i :: 0 <= i < |head| ==> head[i] != '\n' by {
      assert head == "[" + (ShowNat(m.offset) + ("] " + (name + " ")));
      assert forall i :: 0 <= i < |ShowNat(m.offset)| ==> ShowNat(m.offset)[i] != '\n';
    }
    LineEndsSafely(head, m.payload);
    assert FormatMessage(name, m) == head + m.payload;
  }

  /** Whatever the broker writes back to a subscriber reaches the handler
      line for line: no response is blank, and none is split or merged in
      transit, provided topic name and payloads survive line framing. */
  lemma ResponsesAllDelivered(name: string, ms: seq<Message>)
    requires '\n' !in name
    requires forall i :: 0 <= i < |ms| ==> LineSafe(ms[i].payload)
    ensures Deliver(Frame(Unlines(FormatAll(name, ms)))) == Delivery(FormatAll(name, ms), true)
  {
    var out := FormatAll(name, ms);
    forall i | 0 <= i < |out| ensures LineSafe(out[i]) && !IsBlank(out[i]) {
      FormattedSafe(name, ms[i]);
      FormattedNotBlank(name, ms[i]);
    }
    SplitUnlines(out);
    var ev := Frame(Unlines(out));
    assert |ev| == |out|;
    assert LinesBeforeError(ev) == out by {
      LinesOfFrame(out, ev);
    }
    NonBlankKeepsAll(out);
  }

  lemma {:induction false} LinesOfFrame(ls: seq<string>, ev: seq<ReadEvent>)
    requires |ev| == |ls| && forall i :: 0 <= i < |ls| ==> ev[i] == Line(ls[i])
    ensures LinesBeforeError(ev) == ls
    decreases |ls|
  {
    if ls != [] {
      LinesOfFrame(ls[1..], ev[1..]);
    }
  }
}
