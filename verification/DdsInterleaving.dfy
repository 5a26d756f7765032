/** dimos/protocol/pubsub/impl/ddspubsub.py, DDS under threads: subscribe and the unsubscribe handle look
    the listener up under the reader lock and use it after the lock is released. */
module DdsInterleaving {
  import opened Messages
  import opened DdsListener
  import opened DdsBus

  /** A subscribe call, or a handle call, between its two steps; stops: how many stops there had been at
      the first one. */
  datatype Pending = Pending(topic: Topic, cb: Callback, listener: Option<nat>, stops: nat, done: bool)

  /** A reader together with its listener, numbered in the order made. */
  datatype Made = Made(topic: Topic, stops: nat, callbacks: seq<Callback>)

  /** A writer, numbered in the order made; stops: how often the writers had been cleared. */
  datatype Written = Written(topic: Topic, stops: nat)

  datatype State = State(readers: map<Topic, nat>, listeners: map<Topic, nat>, made: seq<Made>,
                         subs: seq<Pending>, unsubs: seq<Pending>, stops: nat,
                         writers: map<Topic, nat>, written: seq<Written>, writerStops: nat)

  /** Each step runs under one lock: _get_listener, add_callback, the lookup of _unsubscribe_callback,
      remove_callback, the two halves of stop, and _get_writer. */
  datatype Step =
    | Get(topic: Topic, cb: Callback)
    | AddCallback(k: nat)
    | LookUp(topic: Topic, cb: Callback)
    | RemoveCallback(k: nat)
    | Stop
    | StopWriters
    | Write(topic: Topic)

  const INITIAL := State(map[], map[], [], [], [], 0, map[], [], 0)

  function WithCallbacks(s: State, l: nat, cbs: seq<Callback>): State
    requires l < |s.made|
  {
    s.(made := s.made[l := s.made[l].(callbacks := cbs)])
  }

  predicate Ready(calls: seq<Pending>, k: nat) {
    k < |calls| && !calls[k].done
  }

  function Done(calls: seq<Pending>, k: nat): seq<Pending>
    requires k < |calls|
  {
    calls[k := calls[k].(done := true)]
  }

  function Next(s: State, e: Step): State
    requires Inv(s)
  {
    match e
    case Get(topic, cb) =>
      if topic in s.readers then
        s.(subs := s.subs + [Pending(topic, cb, Some(s.listeners[topic]), s.stops, false)])
      else
        s.(readers := s.readers[topic := |s.made|], listeners := s.listeners[topic := |s.made|],
           made := s.made + [Made(topic, s.stops, [])],
           subs := s.subs + [Pending(topic, cb, Some(|s.made|), s.stops, false)])
    case AddCallback(k) =>
      if !Ready(s.subs, k) then s
      else
        var l := s.subs[k].listener.value;
        WithCallbacks(s, l, s.made[l].callbacks + [s.subs[k].cb]).(subs := Done(s.subs, k))
    case LookUp(topic, cb) =>
      var l := if topic in s.listeners then Some(s.listeners[topic]) else None;
      s.(unsubs := s.unsubs + [Pending(topic, cb, l, s.stops, false)])
    case RemoveCallback(k) =>
      if !Ready(s.unsubs, k) then s
      else if s.unsubs[k].listener.None? then s.(unsubs := Done(s.unsubs, k))
      else
        var l := s.unsubs[k].listener.value;
        WithCallbacks(s, l, DdsListener.Without(s.made[l].callbacks, s.unsubs[k].cb)).(unsubs := Done(s.unsubs, k))
    case Stop => s.(readers := map[], listeners := map[], stops := s.stops + 1)
    case StopWriters => s.(writers := map[], writerStops := s.writerStops + 1)
    case Write(topic) =>
      if topic in s.writers then s
      else s.(writers := s.writers[topic := |s.written|], written := s.written + [Written(topic, s.writerStops)])
  }

  // ---------------------------------------------------------------- invariant

  /** The tables hold exactly the readers made since the last stop. */
  predicate Tables(s: State) {
    && s.readers == s.listeners
    && (forall t :: t in s.listeners ==>
          s.listeners[t] < |s.made| && s.made[s.listeners[t]].topic == t && s.made[s.listeners[t]].stops == s.stops)
    && (forall l :: 0 <= l < |s.made| && s.made[l].stops == s.stops ==>
          s.made[l].topic in s.listeners && s.listeners[s.made[l].topic] == l)
  }

  /** A later reader of the same topic was made after a later stop. */
  predicate OneReaderBetweenStops(s: State) {
    && (forall l :: 0 <= l < |s.made| ==> s.made[l].stops <= s.stops)
    && (forall l, m :: 0 <= l < m < |s.made| && s.made[l].topic == s.made[m].topic ==>
          s.made[l].stops < s.made[m].stops)
  }

  /** The same of the writers and the halves of stop that clear them. */
  predicate OneWriterBetweenStops(s: State) {
    && (forall t :: t in s.writers ==>
          s.writers[t] < |s.written| && s.written[s.writers[t]] == Written(t, s.writerStops))
    && (forall w :: 0 <= w < |s.written| && s.written[w].stops == s.writerStops ==>
          s.written[w].topic in s.writers && s.writers[s.written[w].topic] == w)
    && (forall w :: 0 <= w < |s.written| ==> s.written[w].stops <= s.writerStops)
    && (forall v, w :: 0 <= v < w < |s.written| && s.written[v].topic == s.written[w].topic ==>
          s.written[v].stops < s.written[w].stops)
  }

  /** A pending call holds a listener of its topic that was in the table when it was looked up. */
  predicate Holds(s: State, p: Pending) {
    && p.stops <= s.stops
    && (p.listener.Some? ==> p.listener.value < |s.made| && s.made[p.listener.value].topic == p.topic
                             && s.made[p.listener.value].stops == p.stops)
  }

  predicate Inv(s: State) {
    && Tables(s)
    && OneReaderBetweenStops(s)
    && OneWriterBetweenStops(s)
    && (forall k :: 0 <= k < |s.subs| ==> Holds(s, s.subs[k]) && s.subs[k].listener.Some?)
    && (forall k :: 0 <= k < |s.unsubs| ==> Holds(s, s.unsubs[k]))
  }

  /** Changing registrations keeps everything else. */
  lemma CallbacksInv(s: State, l: nat, cbs: seq<Callback>)
    requires Inv(s) && l < |s.made|
    ensures Inv(WithCallbacks(s, l, cbs))
  {
    var n := WithCallbacks(s, l, cbs);
    forall m | 0 <= m < |s.made|
      ensures n.made[m].topic == s.made[m].topic && n.made[m].stops == s.made[m].stops
    {
    }
    forall k | 0 <= k < |s.subs| ensures Holds(n, n.subs[k]) && n.subs[k].listener.Some? {
      assert Holds(s, s.subs[k]);
    }
    forall k | 0 <= k < |s.unsubs| ensures Holds(n, n.unsubs[k]) {
      assert Holds(s, s.unsubs[k]);
    }
  }

  lemma GetInv(s: State, topic: Topic, cb: Callback)
    requires Inv(s)
    ensures Inv(Next(s, Get(topic, cb)))
  {
    var n := Next(s, Get(topic, cb));
    GetTables(s, topic, cb);
    forall k | 0 <= k < |n.subs| ensures Holds(n, n.subs[k]) && n.subs[k].listener.Some? {
      assert k < |s.subs| ==> Holds(s, s.subs[k]);
    }
    forall k | 0 <= k < |n.unsubs| ensures Holds(n, n.unsubs[k]) {
      assert Holds(s, s.unsubs[k]);
    }
  }

  lemma GetTables(s: State, topic: Topic, cb: Callback)
    requires Inv(s)
    ensures Tables(Next(s, Get(topic, cb))) && OneReaderBetweenStops(Next(s, Get(topic, cb)))
  {
  }

  lemma StopInv(s: State)
    requires Inv(s)
    ensures Inv(Next(s, Stop))
  {
    var n := Next(s, Stop);
    forall k | 0 <= k < |s.subs| ensures Holds(n, n.subs[k]) && n.subs[k].listener.Some? {
      assert Holds(s, s.subs[k]);
    }
    forall k | 0 <= k < |s.unsubs| ensures Holds(n, n.unsubs[k]) {
      assert Holds(s, s.unsubs[k]);
    }
  }

  lemma AddInv(s: State, k: nat)
    requires Inv(s) && Ready(s.subs, k)
    ensures Inv(Next(s, AddCallback(k)))
  {
    var l := s.subs[k].listener.value;
    CallbacksInv(s, l, s.made[l].callbacks + [s.subs[k].cb]);
  }

  lemma LookUpInv(s: State, topic: Topic, cb: Callback)
    requires Inv(s)
    ensures Inv(Next(s, LookUp(topic, cb)))
  {
    var n := Next(s, LookUp(topic, cb));
    forall k | 0 <= k < |n.subs| ensures Holds(n, n.subs[k]) && n.subs[k].listener.Some? {
      assert Holds(s, s.subs[k]);
    }
    forall k | 0 <= k < |n.unsubs| ensures Holds(n, n.unsubs[k]) {
      assert k < |s.unsubs| ==> Holds(s, s.unsubs[k]);
    }
  }

  lemma RemoveInv(s: State, k: nat)
    requires Inv(s) && Ready(s.unsubs, k)
    ensures Inv(Next(s, RemoveCallback(k)))
  {
    if s.unsubs[k].listener.Some? {
      var l := s.unsubs[k].listener.value;
      CallbacksInv(s, l, DdsListener.Without(s.made[l].callbacks, s.unsubs[k].cb));
    }
  }

  lemma WriterInv(s: State, e: Step)
    requires Inv(s) && (e.Write? || e.StopWriters?)
    ensures Inv(Next(s, e))
  {
    var n := Next(s, e);
    forall k | 0 <= k < |n.subs| ensures Holds(n, n.subs[k]) && n.subs[k].listener.Some? {
      assert Holds(s, s.subs[k]);
    }
    forall k | 0 <= k < |n.unsubs| ensures Holds(n, n.unsubs[k]) {
      assert Holds(s, s.unsubs[k]);
    }
  }

  lemma NextInv(s: State, e: Step)
    requires Inv(s)
    ensures Inv(Next(s, e))
  {
    match e
    case Get(topic, cb) => GetInv(s, topic, cb);
    case AddCallback(k) => if Ready(s.subs, k) { AddInv(s, k); }
    case LookUp(topic, cb) => LookUpInv(s, topic, cb);
    case RemoveCallback(k) => if Ready(s.unsubs, k) { RemoveInv(s, k); }
    case Stop => StopInv(s);
    case _ => WriterInv(s, e);
  }

  // ---------------------------------------------------------------- refinement

  /** What the tables offer: the registrations that samples can reach. */
  function Visible(s: State): Registered
    requires Tables(s)
  {
    map t | t in s.listeners :: s.made[s.listeners[t]].callbacks
  }

  /** What each step should do to the map: subscribing takes effect at its second step; an unsubscribe
      that a stop has overtaken has nothing left to remove. */
  function Meaning(m: Registered, s: State, e: Step): Registered {
    match e
    case Get(topic, cb) => Opened(m, topic)
    case AddCallback(k) => if Ready(s.subs, k) then Appended(m, s.subs[k].topic, s.subs[k].cb) else m
    case LookUp(topic, cb) => m
    case RemoveCallback(k) =>
      if Ready(s.unsubs, k) && s.unsubs[k].listener.Some? && s.unsubs[k].stops == s.stops
      then Filtered(m, s.unsubs[k].topic, s.unsubs[k].cb) else m
    case Stop => map[]
    case _ => m
  }

  /** A subscribe finishes although the bus was stopped since it looked up its listener. */
  predicate Overtaken(s: State, e: Step) {
    e.AddCallback? && Ready(s.subs, e.k) && s.subs[e.k].stops != s.stops
  }

  /** Registrations of a listener show exactly if no stop came since it was made. */
  lemma VisibleWith(s: State, l: nat, cbs: seq<Callback>)
    requires Inv(s) && l < |s.made|
    ensures Inv(WithCallbacks(s, l, cbs))
    ensures Visible(WithCallbacks(s, l, cbs))
            == if s.made[l].stops == s.stops then Visible(s)[s.made[l].topic := cbs] else Visible(s)
  {
    CallbacksInv(s, l, cbs);
  }

  lemma AddRefines(s: State, k: nat)
    requires Inv(s) && Ready(s.subs, k)
    ensures Inv(Next(s, AddCallback(k)))
    ensures Visible(Next(s, AddCallback(k)))
            == if Overtaken(s, AddCallback(k)) then Visible(s) else Appended(Visible(s), s.subs[k].topic, s.subs[k].cb)
  {
    NextInv(s, AddCallback(k));
    assert Holds(s, s.subs[k]);
    var l := s.subs[k].listener.value;
    VisibleWith(s, l, s.made[l].callbacks + [s.subs[k].cb]);
  }

  lemma RemoveRefines(s: State, k: nat)
    requires Inv(s) && Ready(s.unsubs, k)
    ensures Inv(Next(s, RemoveCallback(k)))
    ensures Visible(Next(s, RemoveCallback(k))) == Meaning(Visible(s), s, RemoveCallback(k))
  {
    NextInv(s, RemoveCallback(k));
    assert Holds(s, s.unsubs[k]);
    if s.unsubs[k].listener.Some? {
      var l := s.unsubs[k].listener.value;
      VisibleWith(s, l, DdsListener.Without(s.made[l].callbacks, s.unsubs[k].cb));
    }
  }

  lemma AppendedDiffers(m: Registered, topic: Topic, cb: Callback)
    ensures Appended(m, topic, cb) != m
  {
    var n := Appended(m, topic, cb);
    assert topic in n;
    if topic in m {
      assert |n[topic]| == |m[topic]| + 1;
    }
  }

  lemma AddMeans(s: State, k: nat)
    requires Inv(s)
    ensures Inv(Next(s, AddCallback(k)))
    ensures Visible(Next(s, AddCallback(k))) == Meaning(Visible(s), s, AddCallback(k)) <==> !Overtaken(s,
          AddCallback(k))
    ensures Overtaken(s, AddCallback(k)) ==> Visible(Next(s, AddCallback(k))) == Visible(s)
  {
    if Ready(s.subs, k) {
      AddRefines(s, k);
      AppendedDiffers(Visible(s), s.subs[k].topic, s.subs[k].cb);
    }
  }

  lemma OthersMean(s: State, e: Step)
    requires Inv(s) && (e.LookUp? || e.Stop? || e.StopWriters? || e.Write?)
    ensures Inv(Next(s, e)) && Visible(Next(s, e)) == Meaning(Visible(s), s, e)
  {
    NextInv(s, e);
  }

  /** Every step means what it should, except exactly an overtaken subscribe, which is lost. */
  lemma StepRefines(s: State, e: Step)
    requires Inv(s)
    ensures Inv(Next(s, e))
    ensures Visible(Next(s, e)) == Meaning(Visible(s), s, e) <==> !Overtaken(s, e)
    ensures Overtaken(s, e) ==> Visible(Next(s, e)) == Visible(s)
  {
    match e
    case AddCallback(k) => AddMeans(s, k);
    case RemoveCallback(k) => if Ready(s.unsubs, k) { RemoveRefines(s, k); }
    case Get(topic, cb) => GetRefines(s, topic, cb);
    case _ => OthersMean(s, e);
  }

  lemma GetRefines(s: State, topic: Topic, cb: Callback)
    requires Inv(s)
    ensures Inv(Next(s, Get(topic, cb)))
    ensures Visible(Next(s, Get(topic, cb))) == Opened(Visible(s), topic)
  {
    GetInv(s, topic, cb);
  }

  // ---------------------------------------------------------------- whole runs

  ghost function Run(es: seq<Step>): (s: State)
    ensures Inv(s)
  {
    if es == [] then INITIAL
    else
      var s := Run(es[..|es| - 1]);
      NextInv(s, es[|es| - 1]);
      Next(s, es[|es| - 1])
  }

  /** The run on the map alone. */
  ghost function MeaningOf(es: seq<Step>): Registered {
    if es == [] then map[]
    else Meaning(MeaningOf(es[..|es| - 1]), Run(es[..|es| - 1]), es[|es| - 1])
  }

  /** After n steps subscribers see the abstract map. */
  ghost predicate Agrees(es: seq<Step>, n: nat)
    requires n <= |es|
  {
    Visible(Run(es[..n])) == MeaningOf(es[..n])
  }

  ghost predicate OvertakenAt(es: seq<Step>, i: nat)
    requires i < |es|
  {
    Overtaken(Run(es[..i]), es[i])
  }

  lemma AgreesMore(es: seq<Step>, n: nat)
    requires n < |es| && Agrees(es, n)
    ensures Agrees(es, n + 1) <==> !OvertakenAt(es, n)
  {
    assert es[..n + 1][..n] == es[..n];
    StepRefines(Run(es[..n]), es[n]);
  }

  /** Subscribers see the abstract map throughout a run exactly when no stop falls inside a subscribe. */
  lemma {:induction false} BusRefinesIff(es: seq<Step>)
    ensures (forall n | 0 <= n <= |es| :: Agrees(es, n)) <==> forall i | 0 <= i < |es| :: !OvertakenAt(es, i)
  {
    if forall i | 0 <= i < |es| :: !OvertakenAt(es, i) {
      forall n | 0 <= n <= |es| ensures Agrees(es, n) {
        AgreesUpTo(es, n);
      }
    }
    if forall n | 0 <= n <= |es| :: Agrees(es, n) {
      forall i | 0 <= i < |es| ensures !OvertakenAt(es, i) {
        assert Agrees(es, i) && Agrees(es, i + 1);
        AgreesMore(es, i);
      }
    }
  }

  lemma {:induction false} AgreesUpTo(es: seq<Step>, n: nat)
    requires n <= |es| && forall i | 0 <= i < n :: !OvertakenAt(es, i)
    ensures Agrees(es, n)
  {
    if n > 0 {
      AgreesUpTo(es, n - 1);
      AgreesMore(es, n - 1);
    }
  }

  /** In every interleaving where no stop falls inside a subscribe, subscribers see the abstract map. */
  lemma BusRefines(es: seq<Step>)
    requires forall i | 0 <= i < |es| :: !OvertakenAt(es, i)
    ensures Visible(Run(es)) == MeaningOf(es)
  {
    AgreesUpTo(es, |es|);
    assert es[..|es|] == es;
  }

  lemma RunMore(es: seq<Step>, e: Step)
    ensures Run(es + [e]) == Next(Run(es), e)
  {
    assert (es + [e])[..|es|] == es;
  }

  lemma StoppedInBetween(s: State, topic: Topic, cb: Callback)
    requires Inv(s)
    ensures Inv(Next(s, Get(topic, cb)))
    ensures var n := Next(Next(s, Get(topic, cb)), Stop);
            Overtaken(n, AddCallback(|s.subs|)) && n.listeners == map[]
  {
    NextInv(s, Get(topic, cb));
  }

  lemma LostInBetween(s: State, topic: Topic, cb: Callback)
    requires Inv(s) && Inv(Next(s, Get(topic, cb))) && Inv(Next(Next(s, Get(topic, cb)), Stop))
    ensures Inv(Next(Next(Next(s, Get(topic, cb)), Stop), AddCallback(|s.subs|)))
    ensures Visible(Next(Next(Next(s, Get(topic, cb)), Stop), AddCallback(|s.subs|))) == map[]
  {
    StoppedInBetween(s, topic, cb);
    StepRefines(Next(Next(s, Get(topic, cb)), Stop), AddCallback(|s.subs|));
  }

  /** After any run: a stop between the two steps of a subscribe, and its callback is on no reader of the bus. */
  lemma OvertakenHappens(es: seq<Step>, topic: Topic, cb: Callback)
    ensures var stopped := es + [Get(topic, cb)] + [Stop];
            var last := AddCallback(|Run(es).subs|);
            Overtaken(Run(stopped), last) && Visible(Run(stopped + [last])) == map[]
  {
    var s := Run(es);
    RunMore(es, Get(topic, cb));
    RunMore(es + [Get(topic, cb)], Stop);
    RunMore(es + [Get(topic, cb)] + [Stop], AddCallback(|s.subs|));
    StoppedInBetween(s, topic, cb);
    LostInBetween(s, topic, cb);
  }

  // ---------------------------------------------------------------- calls that nothing interrupts

  lemma SubscribeSteps(s: State, topic: Topic, cb: Callback)
    requires Inv(s)
    ensures Inv(Next(s, Get(topic, cb))) && Inv(Next(Next(s, Get(topic, cb)), AddCallback(|s.subs|)))
    ensures Visible(Next(Next(s, Get(topic, cb)), AddCallback(|s.subs|)))
            == Appended(Opened(Visible(s), topic), topic, cb)
  {
    GetRefines(s, topic, cb);
    StepRefines(Next(s, Get(topic, cb)), AddCallback(|s.subs|));
  }

  /** A subscribe with nothing in between puts the callback behind the others of its topic, and leaves the other
      topics alone. */
  lemma SubscribeWorks(s: State, topic: Topic, cb: Callback)
    requires Inv(s)
    ensures Inv(Next(s, Get(topic, cb))) && Inv(Next(Next(s, Get(topic, cb)), AddCallback(|s.subs|)))
    ensures var v, n := Visible(s), Visible(Next(Next(s, Get(topic, cb)), AddCallback(|s.subs|)));
            && n.Keys == v.Keys + {topic}
            && n[topic] == (if topic in v then v[topic] else []) + [cb]
            && forall t | t in v && t != topic :: n[t] == v[t]
  {
    SubscribeSteps(s, topic, cb);
    OpenedAppended(Visible(s), topic, cb);
  }

  lemma OpenedAppended(m: Registered, topic: Topic, cb: Callback)
    ensures var n := Appended(Opened(m, topic), topic, cb);
            && n.Keys == m.Keys + {topic}
            && n[topic] == (if topic in m then m[topic] else []) + [cb]
            && forall t | t in m && t != topic :: n[t] == m[t]
  {
  }

  lemma UnsubscribeSteps(s: State, topic: Topic, cb: Callback)
    requires Inv(s)
    ensures Inv(Next(s, LookUp(topic, cb))) && Inv(Next(Next(s, LookUp(topic, cb)), RemoveCallback(|s.unsubs|)))
    ensures Visible(Next(Next(s, LookUp(topic, cb)), RemoveCallback(|s.unsubs|))) == Filtered(Visible(s), topic, cb)
  {
    NextInv(s, LookUp(topic, cb));
    StepRefines(Next(s, LookUp(topic, cb)), RemoveCallback(|s.unsubs|));
  }

  /** A handle call with nothing in between takes the callback out of its topic, keeps the others of the topic in
      their order, and leaves the other topics alone. */
  lemma UnsubscribeWorks(s: State, topic: Topic, cb: Callback, before: seq<Callback>, after: seq<Callback>)
    requires Inv(s) && topic in Visible(s) && Visible(s)[topic] == before + [cb] + after
    requires cb !in before && cb !in after
    ensures Inv(Next(s, LookUp(topic, cb))) && Inv(Next(Next(s, LookUp(topic, cb)), RemoveCallback(|s.unsubs|)))
    ensures Visible(Next(Next(s, LookUp(topic, cb)), RemoveCallback(|s.unsubs|)))
            == Visible(s)[topic := before + after]
  {
    UnsubscribeSteps(s, topic, cb);
    RemovesOne(before, cb, after);
  }

  /** The first half of stop leaves nothing that samples reach, and the second no writers. */
  lemma StopWorks(s: State)
    requires Inv(s)
    ensures Inv(Next(s, Stop)) && Visible(Next(s, Stop)) == map[] && Next(s, StopWriters).writers == map[]
  {
    StopInv(s);
  }

  /** Publishing finds the writer of its topic, or makes the one it finds from then on. */
  lemma WriteWorks(s: State, topic: Topic)
    requires Inv(s)
    ensures var n := Next(s, Write(topic));
            && Inv(n) && Next(n, Write(topic)) == n
            && n.writers.Keys == s.writers.Keys + {topic} && n.written[n.writers[topic]].topic == topic
            && forall t | t in s.writers :: n.writers[t] == s.writers[t]
  {
    WriterInv(s, Write(topic));
  }
}
