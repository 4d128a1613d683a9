/** The per-line logic of the broker's connection handler: split a line
    into command, topic and argument, dispatch on the command, and answer
    with zero or more response lines. A connection is the fold of this step
    over the lines read from it, ending at end of stream or at the first
    read error. */
module Protocol {
  import opened Outcomes
  import opened Text
  import opened Lines
  import opened Decimal
  import opened Topics
  import opened Brokers

  const INVALID_PUBLISH: string := "Error: Invalid PUBLISH command"
  const UNKNOWN_COMMAND: string := "Unknown command"

  /** The three fields of `line.splitn(3, ' ')`, missing ones as "". */
  datatype Fields = Fields(command: string, topic: string, argument: string)

  function SplitFields(line: string): (f: Fields)
    ensures ' ' !in f.command && ' ' !in f.topic
    ensures ' ' !in line ==> f == Fields(line, "", "")
  {
    var first := SplitOnce(line, ' ');
    match first.1
    case None => Fields(first.0, "", "")
    case Some(rest) =>
      var second := SplitOnce(rest, ' ');
      Fields(first.0, second.0, match second.1 case None => "" case Some(a) => a)
  }

  /** The split undoes joining with single spaces: the first two fields are
      space-free and the third is the untouched remainder, spaces and all. */
  lemma SplitFieldsJoin(command: string, topic: string, argument: string)
    requires ' ' !in command && ' ' !in topic
    ensures SplitFields(command + " " + topic + " " + argument) == Fields(command, topic, argument)
    ensures SplitFields(command + " " + topic) == Fields(command, topic, "")
  {
    SplitOnceJoin(command, ' ', topic + " " + argument);
    assert command + " " + topic + " " + argument == command + [' '] + (topic + " " + argument);
    SplitOnceJoin(topic, ' ', argument);
    assert topic + " " + argument == topic + [' '] + argument;
    SplitOnceJoin(command, ' ', topic);
    assert command + " " + topic == command + [' '] + topic;
  }

  /** `command.to_uppercase() == verb`. */
  predicate IsVerb(command: string, verb: string) {
    ToUpper(command) == verb
  }

  /** The SUBSCRIBE offset: the parsed argument, or 0 when it does not parse. */
  function SubscribeOffset(argument: string): (k: nat)
    ensures k <= USIZE_MAX
    ensures ParseUsize(argument).Some? ==> k == ParseUsize(argument).value
    ensures ParseUsize(argument).None? ==> k == 0
  {
    match ParseUsize(argument)
    case Some(n) => n
    case None => 0
  }

  /** One response line `[<offset>] <topic> <payload>`. */
  function FormatMessage(name: string, m: Message): string {
    "[" + ShowNat(m.offset) + "] " + name + " " + m.payload
  }

  function FormatAll(name: string, ms: seq<Message>): (out: seq<string>)
    ensures |out| == |ms|
    ensures forall i :: 0 <= i < |ms| ==> out[i] == FormatMessage(name, ms[i])
  {
    seq(|ms|, i requires 0 <= i < |ms| => FormatMessage(name, ms[i]))
  }

  /** What a line asks for, once split and matched on its upper-cased verb. */
  datatype Command =
    | PublishCmd(topic: string, payload: string)
    | BadPublish
    | SubscribeCmd(topic: string, offset: nat)
    | UnknownCmd

  /** Parse one line the way `handle_client` reads it. */
  function Parse(line: string): (c: Command)
    ensures var f := SplitFields(line);
            && (c.PublishCmd? <==> IsVerb(f.command, "PUBLISH") && f.topic != "" && f.argument != "")
            && (c.BadPublish? <==> IsVerb(f.command, "PUBLISH") && (f.topic == "" || f.argument == ""))
            && (c.SubscribeCmd? <==> IsVerb(f.command, "SUBSCRIBE"))
            && (c.PublishCmd? ==> c.topic == f.topic && c.payload == f.argument)
            && (c.SubscribeCmd? ==> c.topic == f.topic && c.offset == SubscribeOffset(f.argument))
  {
    var f := SplitFields(line);
    if IsVerb(f.command, "PUBLISH") then
      if f.topic == "" || f.argument == "" then BadPublish else PublishCmd(f.topic, f.argument)
    else if IsVerb(f.command, "SUBSCRIBE") then SubscribeCmd(f.topic, SubscribeOffset(f.argument))
    else UnknownCmd
  }

  /** The store after handling input, and the lines written back. */
  datatype Reply = Reply(store: Store, out: seq<string>)

  /** Carry out one command against the store. */
  function Execute(s: Store, c: Command): (r: Reply)
    ensures WellFormed(s) ==> WellFormed(r.store)
    // Only a well-formed PUBLISH touches the store, and then as publish does.
    ensures c.PublishCmd? ==> r == Reply(PublishTo(s, c.topic, c.payload), [])
    ensures !c.PublishCmd? ==> r.store == s
    // A PUBLISH lacking its topic or payload gets one error line.
    ensures c.BadPublish? ==> r.out == [INVALID_PUBLISH]
    // SUBSCRIBE to an unknown topic answers nothing and creates nothing.
    ensures c.SubscribeCmd? && c.topic !in s ==> r.out == []
    // SUBSCRIBE to a known topic answers one line per message from the
    // requested offset on, in offset order.
    ensures c.SubscribeCmd? && c.topic in s && WellFormed(s) ==>
              var t := s[c.topic];
              var start := Clamp(c.offset, |t.messages|);
              && |r.out| == |t.messages| - start
              && forall i :: 0 <= i < |r.out| ==>
                   r.out[i] == FormatMessage(c.topic, t.messages[start + i])
    // Every other command gets exactly one "Unknown command".
    ensures c.UnknownCmd? ==> r.out == [UNKNOWN_COMMAND]
  {
    match c
    case PublishCmd(topic, payload) => Reply(PublishTo(s, topic, payload), [])
    case BadPublish => Reply(s, [INVALID_PUBLISH])
    case SubscribeCmd(topic, k) =>
      (match Lookup(s, topic)
       case None => Reply(s, [])
       case Some(t) =>
         var out := FormatAll(t.name, Consume(t, k));
         assert WellFormed(s) ==> out == FormatAll(topic, t.messages[Clamp(k, |t.messages|)..]) by {
           if WellFormed(s) {
             ConsumeIsSuffix(t, k);
           }
         }
         Reply(s, out))
    case UnknownCmd => Reply(s, [UNKNOWN_COMMAND])
  }

  /** Handle one line: it keeps the store well formed and never drops a
      topic. */
  function Step(s: Store, line: string): (r: Reply)
    ensures WellFormed(s) ==> WellFormed(r.store)
    ensures s.Keys <= r.store.Keys
  {
    Execute(s, Parse(line))
  }

  /** A line handler: the store and one line in, the new store and the
      response lines out. */
  type Handler = (Store, string) -> Reply

  /** The connection loop of `handle_client`: handle lines in order until
      the stream ends or a read fails. */
  function Fold(h: Handler, s: Store, events: seq<ReadEvent>): (r: Reply)
    decreases |events|
  {
    if events == [] then Reply(s, [])
    else
      match events[0]
      case ReadError => Reply(s, [])
      case Line(l) =>
        var a := h(s, l);
        var b := Fold(h, a.store, events[1..]);
        Reply(b.store, a.out + b.out)
  }

  /** Handling a stream in two pieces is handling the first piece and then
      the second on the resulting store, provided the first has no error. */
  lemma {:induction false} FoldAppend(h: Handler, s: Store, a: seq<ReadEvent>, b: seq<ReadEvent>)
    requires forall i :: 0 <= i < |a| ==> a[i].Line?
    ensures var ra := Fold(h, s, a);
            var rb := Fold(h, ra.store, b);
            Fold(h, s, a + b) == Reply(rb.store, ra.out + rb.out)
    decreases |a|
  {
    if a == [] {
      assert a + b == b;
      assert [] + Fold(h, s, b).out == Fold(h, s, b).out;
    } else {
      var st := h(s, a[0].text);
      assert (a + b)[0] == a[0];
      assert (a + b)[1..] == a[1..] + b;
      FoldAppend(h, st.store, a[1..], b);
      var ra := Fold(h, st.store, a[1..]);
      var rb := Fold(h, ra.store, b);
      assert st.out + (ra.out + rb.out) == (st.out + ra.out) + rb.out;
    }
  }

  /** A read error ends the connection: nothing after it is handled. */
  lemma {:induction false} FoldStopsAtError(h: Handler, s: Store, a: seq<ReadEvent>, b: seq<ReadEvent>)
    requires forall i :: 0 <= i < |a| ==> a[i].Line?
    ensures Fold(h, s, a + [ReadError] + b) == Fold(h, s, a)
    decreases |a|
  {
    if a == [] {
      assert (a + [ReadError] + b)[0] == ReadError;
    } else {
      assert (a + [ReadError] + b)[0] == a[0];
      assert (a + [ReadError] + b)[1..] == a[1..] + [ReadError] + b;
      FoldStopsAtError(h, h(s, a[0].text).store, a[1..], b);
    }
  }

  lemma {:induction false} StepsKeepWellFormed(s: Store, events: seq<ReadEvent>)
    ensures WellFormed(s) ==> WellFormed(Fold(Step, s, events).store)
    ensures s.Keys <= Fold(Step, s, events).store.Keys
    decreases |events|
  {
    if events != [] && events[0].Line? {
      var a := Step(s, events[0].text);
      StepsKeepWellFormed(a.store, events[1..]);
    }
  }

  /** One connection of the broker. */
  function Serve(s: Store, events: seq<ReadEvent>): (r: Reply)
    ensures WellFormed(s) ==> WellFormed(r.store)
    ensures s.Keys <= r.store.Keys
  {
    StepsKeepWellFormed(s, events);
    Fold(Step, s, events)
  }

  /** Unfolding the loop by one line. */
  lemma FoldCons(h: Handler, s: Store, l: string, rest: seq<ReadEvent>)
    ensures var a := h(s, l);
            var b := Fold(h, a.store, rest);
            Fold(h, s, [Line(l)] + rest) == Reply(b.store, a.out + b.out)
  {
    assert ([Line(l)] + rest)[0] == Line(l);
    assert ([Line(l)] + rest)[1..] == rest;
  }

  /** Upper-casing leaves the two verbs as they are. */
  lemma VerbsAreUpper()
    ensures ToUpper("PUBLISH") == "PUBLISH"
    ensures ToUpper("SUBSCRIBE") == "SUBSCRIBE"
  {
  }

  lemma SplitPublishLine(topic: string, payload: string)
    requires ' ' !in topic
    ensures SplitFields("PUBLISH " + topic + " " + payload) == Fields("PUBLISH", topic, payload)
  {
    assert "PUBLISH " == "PUBLISH" + " ";
    SplitFieldsJoin("PUBLISH", topic, payload);
  }

  lemma SplitSubscribeLine(topic: string, argument: string)
    requires ' ' !in topic
    ensures SplitFields("SUBSCRIBE " + topic + " " + argument) == Fields("SUBSCRIBE", topic, argument)
    ensures SplitFields("SUBSCRIBE " + topic) == Fields("SUBSCRIBE", topic, "")
  {
    assert "SUBSCRIBE " == "SUBSCRIBE" + " ";
    SplitFieldsJoin("SUBSCRIBE", topic, argument);
  }

  /** A line `PUBLISH <topic> <payload>` with a space-free topic is read as
      exactly that publish, whatever spaces the payload holds. */
  lemma ParsePublish(topic: string, payload: string)
    requires ' ' !in topic && topic != "" && payload != ""
    ensures Parse("PUBLISH " + topic + " " + payload) == PublishCmd(topic, payload)
  {
    SplitPublishLine(topic, payload);
    VerbsAreUpper();
  }

  /** A line `SUBSCRIBE <topic> <argument>` is read as a subscribe from the
      parsed offset, and a line without the argument as one from 0. */
  lemma ParseSubscribe(topic: string, argument: string)
    requires ' ' !in topic
    ensures Parse("SUBSCRIBE " + topic + " " + argument) == SubscribeCmd(topic, SubscribeOffset(argument))
    ensures Parse("SUBSCRIBE " + topic) == SubscribeCmd(topic, 0)
  {
    SplitSubscribeLine(topic, argument);
    VerbsAreUpper();
    assert ParseUsize("") == None;
  }
}
