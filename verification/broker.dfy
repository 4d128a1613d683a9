/** The broker's topic registry: a map from topic name to topic, with
    get-or-create and plain lookup. A topic handle (`Arc<Mutex<Topic>>`)
    is modelled as the topic value; a change to it is written back into
    the map. */
module Brokers {
  import opened Outcomes
  import opened Topics

  type Store = map<string, Topic>

  /** Every entry is a valid topic filed under its own name. */
  ghost predicate WellFormed(s: Store) {
    forall n :: n in s ==> s[n].name == n && Valid(s[n])
  }

  /** `Broker::new`. */
  function NewBroker(): (s: Store)
    ensures WellFormed(s)
    ensures forall n :: n !in s
  {
    map[]
  }

  datatype Handle = Handle(store: Store, topic: Topic)

  /** `Broker::get_or_create_topic`. */
  function GetOrCreateTopic(s: Store, name: string): (h: Handle)
    ensures name in h.store && h.topic == h.store[name]
    ensures name in s ==> h.store == s
    ensures name !in s ==> h.topic == NewTopic(name)
    ensures h.store.Keys == s.Keys + {name}
    ensures forall n :: n in s ==> h.store[n] == s[n]
    ensures WellFormed(s) ==> WellFormed(h.store)
  {
    if name in s then Handle(s, s[name])
    else
      var t := NewTopic(name);
      Handle(s[name := t], t)
  }

  /** A second get-or-create of the same name finds what the first one
      made: there is never more than one topic per name. */
  lemma GetOrCreateIdempotent(s: Store, name: string)
    ensures var h := GetOrCreateTopic(s, name);
            GetOrCreateTopic(h.store, name) == h
  {
  }

  /** `broker.topics.get(name)`: lookup without creation. */
  function Lookup(s: Store, name: string): (r: Option<Topic>)
    ensures r.Some? <==> name in s
    ensures r.Some? ==> r.value == s[name]
  {
    if name in s then Some(s[name]) else None
  }

  /** Get-or-create followed by `publish` on the handle: the path shared
      by the PUBLISH command and `Producer::send`. */
  function PublishTo(s: Store, name: string, payload: string): (s': Store)
    ensures s'.Keys == s.Keys + {name}
    ensures forall n :: n in s && n != name ==> s'[n] == s[n]
    ensures var before := GetOrCreateTopic(s, name).topic;
            && s'[name].name == before.name
            && s'[name].nextOffset == before.nextOffset + 1
            && s'[name].messages == before.messages + [Message(payload, before.nextOffset)]
    ensures WellFormed(s) ==> WellFormed(s')
  {
    var h := GetOrCreateTopic(s, name);
    h.store[name := Publish(h.topic, payload)]
  }
}
