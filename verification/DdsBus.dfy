/** dimos/protocol/pubsub/impl/ddspubsub.py, DDS: readers, writers and listeners by topic. */
module DdsBus {
  import opened Messages
  import opened DdsListener

  // ---------------------------------------------------------------- the class

  /** What subscribers see: for each topic that has a reader, its registrations in order. */
  type Registered = map<Topic, seq<Callback>>

  function Appended(m: Registered, topic: Topic, cb: Callback): Registered {
    m[topic := (if topic in m then m[topic] else []) + [cb]]
  }

  function Opened(m: Registered, topic: Topic): Registered {
    if topic in m then m else m[topic := []]
  }

  function Filtered(m: Registered, topic: Topic, cb: Callback): Registered {
    if topic in m then m[topic := DdsListener.Without(m[topic], cb)] else m
  }

  lemma OpenThenAppend(m: Registered, topic: Topic, cb: Callback)
    ensures var o := Opened(m, topic); topic in o && o[topic := o[topic] + [cb]] == Appended(m, topic, cb)
  {
  }

  /** The entities kept are distinct and were all made before. */
  predicate OnePerTopic(m: map<Topic, nat>, made: nat) {
    && (forall t :: t in m ==> m[t] < made)
    && (forall t, u :: t in m && u in m && m[t] == m[u] ==> t == u)
  }

  class DDS {
    /** The participant of this service's domain, once it has been started. */
    var participant: Option<nat>
    var writers: map<Topic, nat>
    var readers: map<Topic, nat>
    var listeners: map<Topic, Listener>
    /** The DDS entities made so far, which number the readers and writers. */
    var made: nat

    ghost predicate Valid()
      reads this
    {
      && readers.Keys == listeners.Keys
      && (forall t :: t in listeners ==> listeners[t].topic == t)
      && OnePerTopic(readers, made) && OnePerTopic(writers, made)
    }

    ghost function Contents(): Registered
      reads this, listeners.Values
    {
      map t | t in listeners :: listeners[t].callbacks
    }

    constructor ()
      ensures Valid() && Contents() == map[] && participant == None && writers == map[]
    {
      participant, writers, readers, listeners, made := None, map[], map[], map[], 0;
    }

    method Start(p: nat)
      requires Valid()
      modifies this`participant
      ensures Valid() && participant == (if old(participant).Some? then old(participant) else Some(p))
    {
      if participant.None? { participant := Some(p); }
    }

    /** None stands for the RuntimeError of a service that was never started. */
    method GetWriter(topic: Topic) returns (w: Option<nat>)
      requires Valid()
      modifies this`writers, this`made
      ensures Valid() && made >= old(made)
      ensures w == if topic in writers then Some(writers[topic]) else None
      ensures topic in old(writers) || participant.None? ==> writers == old(writers)
      ensures topic !in old(writers) && participant.Some? ==>
                topic in writers && writers == old(writers)[topic := writers[topic]] && writers[topic] >= old(made)
    {
      if topic !in writers {
        if participant.None? { return None; }
        writers, made := writers[topic := made], made + 1;
      }
      return Some(writers[topic]);
    }

    method GetListener(topic: Topic) returns (l: Option<Listener>)
      requires Valid()
      modifies this`readers, this`listeners, this`made
      ensures Valid() && made >= old(made)
      ensures l.Some? ==> l.value in old(listeners.Values) || fresh(l.value)
      ensures l.Some? == (topic in old(readers) || participant.Some?)
      ensures l.Some? ==> topic in listeners && l.value == listeners[topic]
      ensures Contents() == if l.Some? then Opened(old(Contents()), topic) else old(Contents())
      ensures topic in old(readers) || l.None? ==> readers == old(readers) && listeners == old(listeners)
      ensures topic !in old(readers) && l.Some? ==>
                && fresh(l.value) && listeners == old(listeners)[topic := l.value]
                && topic in readers && readers == old(readers)[topic := readers[topic]] && readers[topic] >= old(made)
    {
      if topic !in readers {
        if participant.None? { return None; }
        var listener := new Listener(topic);
        readers, made := readers[topic := made], made + 1;
        listeners := listeners[topic := listener];
        assert Contents() == Opened(old(Contents()), topic);
      }
      return Some(listeners[topic]);
    }

    method AddTo(l: Listener, cb: Callback)
      requires Valid() && l.topic in listeners && listeners[l.topic] == l
      modifies l`callbacks
      ensures Valid() && Contents() == old(Contents())[l.topic := old(Contents())[l.topic] + [cb]]
    {
      assert forall t :: t in listeners && t != l.topic ==> listeners[t] != l;
      l.AddCallback(cb);
    }

    method Subscribe(topic: Topic, cb: Callback) returns (ok: bool)
      requires Valid()
      modifies this`readers, this`listeners, this`made, listeners.Values`callbacks
      ensures Valid()
      ensures ok == (topic in old(readers) || participant.Some?)
      ensures Contents() == if ok then Appended(old(Contents()), topic, cb) else old(Contents())
      ensures topic in old(readers) || !ok ==> readers == old(readers)
      ensures topic !in old(readers) && ok ==> topic in readers && readers == old(readers)[topic := readers[topic]]
    {
      var l := GetListener(topic);
      if l.None? { return false; }
      AddTo(l.value, cb);
      OpenThenAppend(old(Contents()), topic, cb);
      return true;
    }

    method UnsubscribeCallback(topic: Topic, cb: Callback)
      requires Valid()
      modifies listeners.Values`callbacks
      ensures Valid() && Contents() == Filtered(old(Contents()), topic, cb)
    {
      if topic in listeners {
        assert forall t :: t in listeners && t != topic ==> listeners[t] != listeners[topic];
        listeners[topic].RemoveCallback(cb);
      }
    }

    method Stop()
      requires Valid()
      modifies this`readers, this`listeners, this`writers
      ensures Valid() && Contents() == map[] && readers == map[] && writers == map[]
    {
      readers, listeners := map[], map[];
      writers := map[];
    }
  }
}
