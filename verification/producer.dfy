/** The in-process producer (`Producer::send`, `Producer::send_batch`) and
    the wire form of a publish request (`send_message_to_stream`). */
module Producers {
  import opened Text
  import opened Lines
  import opened Topics
  import opened Brokers
  import opened Protocol

  /** `Producer::send`: get-or-create the topic, then publish once. */
  function Send(s: Store, topic: string, message: string): (s': Store)
    ensures s'.Keys == s.Keys + {topic}
    ensures forall n :: n in s && n != topic ==> s'[n] == s[n]
    ensures var before := GetOrCreateTopic(s, topic).topic;
            s'[topic].messages == before.messages + [Message(message, before.nextOffset)]
    ensures WellFormed(s) ==> WellFormed(s')
  {
    PublishTo(s, topic, message)
  }

  /** `Producer::send_batch`: get-or-create the topic once, then publish
      every message in order under the same handle. */
  function SendBatch(s: Store, topic: string, messages: seq<string>): (s': Store)
    ensures s'.Keys == s.Keys + {topic}
    ensures forall n :: n in s && n != topic ==> s'[n] == s[n]
    ensures var before := GetOrCreateTopic(s, topic).topic;
            && s'[topic].name == before.name
            && s'[topic].nextOffset == before.nextOffset + |messages|
            && |s'[topic].messages| == |before.messages| + |messages|
            && s'[topic].messages[..|before.messages|] == before.messages
            && forall i :: 0 <= i < |messages| ==>
                 s'[topic].messages[|before.messages| + i] == Message(messages[i], before.nextOffset + i)
    ensures WellFormed(s) ==> WellFormed(s')
  {
    var h := GetOrCreateTopic(s, topic);
    h.store[topic := PublishAll(h.topic, messages)]
  }

  /** One `send` per message, in order. */
  function SendEach(s: Store, topic: string, messages: seq<string>): Store
    decreases |messages|
  {
    if messages == [] then s else SendEach(Send(s, topic, messages[0]), topic, messages[1..])
  }

  lemma BatchHead(s: Store, topic: string, m: string, rest: seq<string>)
    ensures SendBatch(s, topic, [m] + rest) == SendBatch(Send(s, topic, m), topic, rest)
  {
    assert ([m] + rest)[0] == m;
    assert ([m] + rest)[1..] == rest;
  }

  /** A batch is a get-or-create followed by one `send` per message; so a
      non-empty batch is the same as sending its messages one by one, and an
      empty batch still creates the topic. */
  lemma {:induction false} SendBatchIsSends(s: Store, topic: string, messages: seq<string>)
    ensures SendBatch(s, topic, messages) == SendEach(GetOrCreateTopic(s, topic).store, topic, messages)
    ensures messages != [] ==> SendBatch(s, topic, messages) == SendEach(s, topic, messages)
    decreases |messages|
  {
    var h := GetOrCreateTopic(s, topic);
    if messages == [] {
      assert SendBatch(s, topic, []) == h.store;
    } else {
      var m := messages[0];
      var rest := messages[1..];
      assert messages == [m] + rest;
      BatchHead(s, topic, m, rest);
      SendBatchIsSends(Send(s, topic, m), topic, rest);
      assert GetOrCreateTopic(Send(s, topic, m), topic).store == Send(s, topic, m);
      assert Send(h.store, topic, m) == Send(s, topic, m);
    }
  }

  /** `send_message_to_stream`: the bytes of one publish request. */
  function PublishLine(topic: string, message: string): string {
    "PUBLISH " + topic + " " + message + "\n"
  }

  lemma PublishLineFramed(topic: string, message: string)
    requires '\n' !in topic && LineSafe(message)
    ensures Frame(PublishLine(topic, message)) == [Line("PUBLISH " + topic + " " + message)]
  {
    var l := "PUBLISH " + topic + " " + message;
    assert forall i :: 0 <= i < |l| ==> l[i] != '\n' by {
      assert l == "PUBLISH " + (topic + (" " + message));
    }
    if |message| > 0 {
      assert l[|l| - 1] == message[|message| - 1];
    } else {
      assert l[|l| - 1] == ' ';
    }
    SplitOneLine(l);
  }

  /** The broker reads a publish request as the same topic and message,
      provided the topic has no space and neither part breaks the line. */
  lemma PublishLineRoundTrip(topic: string, message: string)
    requires ' ' !in topic && '\n' !in topic && LineSafe(message)
    ensures Frame(PublishLine(topic, message)) == [Line("PUBLISH " + topic + " " + message)]
    ensures SplitFields("PUBLISH " + topic + " " + message) == Fields("PUBLISH", topic, message)
  {
    PublishLineFramed(topic, message);
    SplitPublishLine(topic, message);
  }

  /** Sending a request over the wire has the effect of `Producer::send`,
      and the broker answers nothing. */
  lemma PublishLineIsSend(s: Store, topic: string, message: string)
    requires ' ' !in topic && '\n' !in topic && LineSafe(message)
    requires topic != "" && message != ""
    ensures Serve(s, Frame(PublishLine(topic, message))) == Reply(Send(s, topic, message), [])
  {
    PublishLineFramed(topic, message);
    ParsePublish(topic, message);
    FoldCons(Step, s, "PUBLISH " + topic + " " + message, []);
    assert [Line("PUBLISH " + topic + " " + message)] + [] == [Line("PUBLISH " + topic + " " + message)];
  }

  /** A request with an empty message is refused with one error line and
      changes nothing. */
  lemma EmptyMessageRefused(s: Store, topic: string)
    requires ' ' !in topic && '\n' !in topic
    ensures Serve(s, Frame(PublishLine(topic, ""))) == Reply(s, [INVALID_PUBLISH])
  {
    PublishLineFramed(topic, "");
    SplitPublishLine(topic, "");
    VerbsAreUpper();
    FoldCons(Step, s, "PUBLISH " + topic + " " + "", []);
    assert [Line("PUBLISH " + topic + " " + "")] + [] == [Line("PUBLISH " + topic + " " + "")];
  }
}
