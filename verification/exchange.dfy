/** One whole exchange with the broker, for any topic and payloads:
    two publishes on a fresh broker, then a full subscribe and a subscribe
    from offset 1. */
module Exchange {
  import opened Outcomes
  import opened Lines
  import opened Decimal
  import opened Topics
  import opened Brokers
  import opened Protocol

  /** The store after publishing `p` to `t` on a fresh broker. */
  function OneMessage(t: string, p: string): Store {
    map[t := Topic(t, [Message(p, 0)], 1)]
  }

  /** The store after publishing `p` and then `q` to `t`. */
  function TwoMessages(t: string, p: string, q: string): Store {
    map[t := Topic(t, [Message(p, 0), Message(q, 1)], 2)]
  }

  /** Serving four lines is handling each in turn on the store the one
      before left, and concatenating the answers. */
  lemma FoldFour(h: Handler, s0: Store, s1: Store, s2: Store, s3: Store, s4: Store,
                  l1: string, l2: string, l3: string, l4: string,
                  o1: seq<string>, o2: seq<string>, o3: seq<string>, o4: seq<string>)
    requires h(s0, l1) == Reply(s1, o1) && h(s1, l2) == Reply(s2, o2)
    requires h(s2, l3) == Reply(s3, o3) && h(s3, l4) == Reply(s4, o4)
    ensures Fold(h, s0, [Line(l1), Line(l2), Line(l3), Line(l4)]) == Reply(s4, o1 + o2 + o3 + o4)
  {
    var e4 := [Line(l4)];
    var e3 := [Line(l3)] + e4;
    var e2 := [Line(l2)] + e3;
    assert [Line(l1), Line(l2), Line(l3), Line(l4)] == [Line(l1)] + e2;
    FoldCons(h, s3, l4, []);
    assert e4 == e4 + [];
    FoldCons(h, s2, l3, e4);
    FoldCons(h, s1, l2, e3);
    FoldCons(h, s0, l1, e2);
    assert o1 + (o2 + (o3 + (o4 + []))) == o1 + o2 + o3 + o4;
  }

  /** A well-formed publish line steps the store as a publish does and
      answers nothing. */
  lemma PublishStep(s: Store, t: string, p: string, s': Store)
    requires ' ' !in t && t != "" && p != ""
    requires PublishTo(s, t, p) == s'
    ensures Step(s, "PUBLISH " + t + " " + p) == Reply(s', [])
  {
    ParsePublish(t, p);
  }

  /** Publishing `p` and then `q` to `t` on a fresh broker builds the log
      `p, q` with offsets 0 and 1. */
  lemma LogOfTwo(t: string, p: string, q: string)
    ensures PublishTo(NewBroker(), t, p) == OneMessage(t, p)
    ensures PublishTo(OneMessage(t, p), t, q) == TwoMessages(t, p, q)
  {
    var s1 := PublishTo(map[], t, p);
    assert s1.Keys == {t} && s1[t] == Topic(t, [Message(p, 0)], 1);
    var s2 := PublishTo(OneMessage(t, p), t, q);
    assert [Message(p, 0)] + [Message(q, 1)] == [Message(p, 0), Message(q, 1)];
    assert s2.Keys == {t} && s2[t] == Topic(t, [Message(p, 0), Message(q, 1)], 2);
  }

  /** The two publish lines build that log and answer nothing. */
  lemma PublishTwice(t: string, p: string, q: string)
    requires ' ' !in t && t != "" && p != "" && q != ""
    ensures Step(NewBroker(), "PUBLISH " + t + " " + p) == Reply(OneMessage(t, p), [])
    ensures Step(OneMessage(t, p), "PUBLISH " + t + " " + q) == Reply(TwoMessages(t, p, q), [])
  {
    LogOfTwo(t, p, q);
    PublishStep(NewBroker(), t, p, OneMessage(t, p));
    PublishStep(OneMessage(t, p), t, q, TwoMessages(t, p, q));
  }

  /** The two messages of the log `p, q`, as a subscribe formats them. */
  lemma FormatTwo(t: string, p: string, q: string)
    ensures FormatMessage(t, Message(p, 0)) == "[0] " + t + " " + p
    ensures FormatMessage(t, Message(q, 1)) == "[1] " + t + " " + q
  {
    assert ShowNat(0) == "0";
    assert ShowNat(1) == "1";
  }

  /** On the log `p, q`, a full subscribe answers both messages in order
      and leaves the store as it was. */
  lemma SubscribeAll(t: string, p: string, q: string)
    requires ' ' !in t
    ensures Step(TwoMessages(t, p, q), "SUBSCRIBE " + t)
            == Reply(TwoMessages(t, p, q), ["[0] " + t + " " + p, "[1] " + t + " " + q])
  {
    var s2 := TwoMessages(t, p, q);
    assert WellFormed(s2);
    FormatTwo(t, p, q);
    ParseSubscribe(t, "");
    assert |Execute(s2, SubscribeCmd(t, 0)).out| == 2;
  }

  /** The argument `1` is the offset 1. */
  lemma OffsetOne()
    ensures SubscribeOffset("1") == 1
  {
    assert DigitsValue("1") == 1;
  }

  /** `SUBSCRIBE <t> 1` asks for the messages from offset 1. */
  lemma SubscribeOneParses(t: string)
    requires ' ' !in t
    ensures Parse("SUBSCRIBE " + t + " 1") == SubscribeCmd(t, 1)
  {
    assert "SUBSCRIBE " + t + " 1" == "SUBSCRIBE " + t + " " + "1" by {
      assert " 1" == " " + "1";
    }
    ParseSubscribe(t, "1");
    OffsetOne();
  }

  /** On the log `p, q`, a subscribe from offset 1 answers only `q` and
      leaves the store as it was. */
  lemma SubscribeFromOne(t: string, p: string, q: string)
    requires ' ' !in t
    ensures Step(TwoMessages(t, p, q), "SUBSCRIBE " + t + " 1")
            == Reply(TwoMessages(t, p, q), ["[1] " + t + " " + q])
  {
    var s2 := TwoMessages(t, p, q);
    assert WellFormed(s2);
    FormatTwo(t, p, q);
    SubscribeOneParses(t);
    assert |Execute(s2, SubscribeCmd(t, 1)).out| == 1;
  }

  /** Four lines, two that answer nothing and then two that answer, give
      the last two answers in order. */
  lemma QuietThenAnswers(h: Handler, s0: Store, s1: Store, s2: Store,
                         l1: string, l2: string, l3: string, l4: string, a: string, b: string)
    requires h(s0, l1) == Reply(s1, []) && h(s1, l2) == Reply(s2, [])
    requires h(s2, l3) == Reply(s2, [a, b]) && h(s2, l4) == Reply(s2, [b])
    ensures Fold(h, s0, [Line(l1), Line(l2), Line(l3), Line(l4)]).out == [a, b, b]
  {
    FoldFour(h, s0, s1, s2, s2, s2, l1, l2, l3, l4, [], [], [a, b], [b]);
    assert [] + [] + [a, b] + [b] == [a, b, b];
  }

  /** End to end, for any topic and payloads: publish `p` then `q` to `t`
      on a fresh broker; a full subscribe answers both at offsets 0 and 1,
      a subscribe from offset 1 answers only `q`. */
  lemma TwoPublishesThenConsume(t: string, p: string, q: string)
    requires ' ' !in t && t != "" && p != "" && q != ""
    ensures Serve(NewBroker(), [Line("PUBLISH " + t + " " + p), Line("PUBLISH " + t + " " + q),
                                Line("SUBSCRIBE " + t), Line("SUBSCRIBE " + t + " 1")]).out
            == ["[0] " + t + " " + p, "[1] " + t + " " + q, "[1] " + t + " " + q]
  {
    PublishTwice(t, p, q);
    SubscribeAll(t, p, q);
    SubscribeFromOne(t, p, q);
    QuietThenAnswers(Step, NewBroker(), OneMessage(t, p), TwoMessages(t, p, q),
                     "PUBLISH " + t + " " + p, "PUBLISH " + t + " " + q, "SUBSCRIBE " + t, "SUBSCRIBE " + t + " 1",
                     "[0] " + t + " " + p, "[1] " + t + " " + q);
  }
}
