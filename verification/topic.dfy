/** A topic: an append-only log of messages in which every message
    carries the offset it was given when it was published. */
module Topics {

  datatype Message = Message(payload: string, offset: nat)

  datatype Topic = Topic(name: string, messages: seq<Message>, nextOffset: nat)

  /** Offsets are exactly 0 .. n-1 in log order, and the counter names the
      next free one. */
  predicate Valid(t: Topic) {
    && t.nextOffset == |t.messages|
    && forall i :: 0 <= i < |t.messages| ==> t.messages[i].offset == i
  }

  function Payloads(ms: seq<Message>): (ps: seq<string>)
    ensures |ps| == |ms|
    ensures forall i :: 0 <= i < |ms| ==> ps[i] == ms[i].payload
  {
    seq(|ms|, i requires 0 <= i < |ms| => ms[i].payload)
  }

  /** `Topic::new`. */
  function NewTopic(name: string): (t: Topic)
    ensures t.name == name
    ensures Valid(t)
    ensures t.messages == []
  {
    Topic(name, [], 0)
  }

  /** `Topic::publish`: the payload is appended with the current counter
      as its offset, and the counter moves on by one. */
  function Publish(t: Topic, payload: string): (t': Topic)
    ensures t'.name == t.name
    ensures t'.nextOffset == t.nextOffset + 1
    ensures |t'.messages| == |t.messages| + 1
    ensures t'.messages[..|t.messages|] == t.messages
    ensures t'.messages[|t.messages|] == Message(payload, t.nextOffset)
    ensures Valid(t) ==> Valid(t')
  {
    Topic(t.name, t.messages + [Message(payload, t.nextOffset)], t.nextOffset + 1)
  }

  /** `publish` called once per payload, in order (the loop of
      `Producer::send_batch`). */
  function PublishAll(t: Topic, ps: seq<string>): (t': Topic)
    ensures t'.name == t.name
    ensures t'.nextOffset == t.nextOffset + |ps|
    ensures |t'.messages| == |t.messages| + |ps|
    ensures t'.messages[..|t.messages|] == t.messages
    ensures forall i :: 0 <= i < |ps| ==>
              t'.messages[|t.messages| + i] == Message(ps[i], t.nextOffset + i)
    ensures Valid(t) ==> Valid(t')
    decreases |ps|
  {
    if ps == [] then t else PublishAll(Publish(t, ps[0]), ps[1..])
  }

  /** `Topic::consume_all`: a copy of the log. */
  function ConsumeAll(t: Topic): seq<Message> {
    t.messages
  }

  /** The messages of `ms` whose offset is at least `k`, in order. */
  function From(ms: seq<Message>, k: nat): (r: seq<Message>)
    ensures |r| <= |ms|
    ensures forall i :: 0 <= i < |r| ==> r[i].offset >= k
  {
    if ms == [] then []
    else (if ms[0].offset >= k then [ms[0]] else []) + From(ms[1..], k)
  }

  /** `Topic::consume(k)`. The broker calls it, but topic.rs does not
      define it; it is taken to return the messages with offset `>= k`. */
  function Consume(t: Topic, k: nat): seq<Message> {
    From(t.messages, k)
  }

  /** Messages numbered consecutively from `base`. */
  ghost predicate NumberedFrom(ms: seq<Message>, base: nat) {
    forall i :: 0 <= i < |ms| ==> ms[i].offset == base + i
  }

  lemma {:induction false} FromNumbered(ms: seq<Message>, base: nat, k: nat)
    requires NumberedFrom(ms, base)
    ensures From(ms, k) == ms[Clamp(k - base, |ms|)..]
    decreases |ms|
  {
    if ms != [] {
      assert NumberedFrom(ms[1..], base + 1);
      FromNumbered(ms[1..], base + 1, k);
      if k <= base {
        assert ms[1..][Clamp(k - base - 1, |ms| - 1)..] == ms[1..];
      } else {
        assert ms[1..][Clamp(k - base - 1, |ms| - 1)..] == ms[Clamp(k - base, |ms|)..];
      }
    }
  }

  /** `max(0, min(d, n))`. */
  function Clamp(d: int, n: nat): (c: nat)
    ensures c <= n
  {
    if d <= 0 then 0 else if d < n then d else n
  }

  /** On a valid topic, consuming from `k` is the suffix of the log that
      starts at position `k` (empty once `k` is past the end). */
  lemma ConsumeIsSuffix(t: Topic, k: nat)
    requires Valid(t)
    ensures Consume(t, k) == t.messages[Clamp(k, |t.messages|)..]
  {
    FromNumbered(t.messages, 0, k);
  }

  /** Consuming from offset 0 is consuming everything, on any topic. */
  lemma {:induction false} ConsumeFromZero(t: Topic)
    ensures Consume(t, 0) == ConsumeAll(t)
  {
    FromZero(t.messages);
  }

  lemma {:induction false} FromZero(ms: seq<Message>)
    ensures From(ms, 0) == ms
  {
    if ms != [] {
      FromZero(ms[1..]);
      assert ms == [ms[0]] + ms[1..];
    }
  }

  /** Publishing p1..pn to a fresh topic and consuming everything yields
      p1..pn, numbered 0..n-1. */
  lemma FreshPublishConsume(name: string, ps: seq<string>)
    ensures var ms := ConsumeAll(PublishAll(NewTopic(name), ps));
            && Payloads(ms) == ps
            && forall i :: 0 <= i < |ms| ==> ms[i].offset == i
  {
  }
}
