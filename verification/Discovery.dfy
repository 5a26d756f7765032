/** dimos/protocol/pubsub/spec.py: new topics out of a subscription to everything, and a subscription to
    everything out of the discovery of new topics. */
module Discovery {
  import opened Messages

  type Topic = string

  // ---------------------------------------------------------------- AllPubSub.subscribe_new_topics

  /** The topics announced for a stream of messages on the given topics. */
  function Announced(ts: seq<Topic>): seq<Topic> {
    if ts == [] then []
    else
      var less, t := ts[..|ts| - 1], ts[|ts| - 1];
      if t in less then Announced(less) else Announced(less) + [t]
  }

  /** The closure on_msg with its set; called are the calls to the user's callback. */
  class NewTopics {
    var seen: set<Topic>
    var called: seq<Topic>
    ghost var stream: seq<Topic>

    ghost predicate Valid()
      reads this
    {
      seen == (set t | t in stream) && called == Announced(stream)
    }

    constructor ()
      ensures Valid() && stream == [] && called == []
    {
      seen, called, stream := {}, [], [];
    }

    method OnMsg(topic: Topic)
      requires Valid()
      modifies this
      ensures Valid() && stream == old(stream) + [topic]
    {
      assert (stream + [topic])[..|stream|] == stream;
      if topic !in seen {
        seen := seen + {topic};
        called := called + [topic];
      }
      stream := stream + [topic];
    }
  }

  function FirstSeen(ts: seq<Topic>, t: Topic): (i: nat)
    requires t in ts
    ensures i < |ts| && ts[i] == t && t !in ts[..i]
  {
    if t in ts[..|ts| - 1] then
      var i := FirstSeen(ts[..|ts| - 1], t);
      assert ts[..|ts| - 1][..i] == ts[..i];
      i
    else |ts| - 1
  }

  lemma {:induction false} FirstSeenMore(ts: seq<Topic>, t: Topic, u: Topic)
    requires t in ts
    ensures FirstSeen(ts + [u], t) == FirstSeen(ts, t)
  {
    assert (ts + [u])[..|ts|] == ts;
  }

  /** Exactly the topics of the stream are announced. */
  lemma {:induction false} AnnouncedAll(ts: seq<Topic>, t: Topic)
    ensures t in Announced(ts) <==> t in ts
  {
    if ts != [] {
      AnnouncedAll(ts[..|ts| - 1], t);
      assert ts == ts[..|ts| - 1] + [ts[|ts| - 1]];
    }
  }

  /** Each topic is announced once, in the order of first appearance. */
  lemma {:induction false} AnnouncedInOrder(ts: seq<Topic>, i: nat, j: nat)
    requires i < j < |Announced(ts)|
    ensures Announced(ts)[i] in ts && Announced(ts)[j] in ts
    ensures FirstSeen(ts, Announced(ts)[i]) < FirstSeen(ts, Announced(ts)[j])
  {
    var less, t := ts[..|ts| - 1], ts[|ts| - 1];
    assert ts == less + [t];
    var a := Announced(less);
    AnnouncedAll(less, a[i]);
    assert a[i] in a;
    FirstSeenMore(less, a[i], t);
    if j < |a| {
      AnnouncedInOrder(less, i, j);
      FirstSeenMore(less, a[j], t);
    } else {
      assert FirstSeen(ts, t) == |less|;
    }
  }

  // ---------------------------------------------------------------- DiscoveryPubSub.subscribe_all

  /** Where a call of on_new_topic is: begun, its subscription made, or appended to the list. */
  datatype Phase = Begun | Subscribed | Appended

  datatype Call = Call(topic: Topic, phase: Phase)

  /** calls: the calls of on_new_topic; the subscription a call makes has its number. live: the
      subscriptions on the bus; gone: those that an unsubscribe_all has undone. copy: the list as the last
      unsubscribe_all copied it, of which the first undone have been undone; running: the calls that had
      not appended when it was copied. */
  datatype State = State(discovering: bool, calls: seq<Call>, live: set<nat>, subscriptions: seq<nat>,
                         copy: Option<seq<nat>>, undone: nat, running: set<nat>, gone: set<nat>)

  const INITIAL := State(true, [], {}, [], None, 0, {}, {})

  /** Begin: the discovery announces a topic, which it does no more once discovery_unsub has returned.
      Copy and Undo are the rest of unsubscribe_all. */
  datatype Step = Begin(topic: Topic) | Subscribe(k: nat) | Append(k: nat) | StopDiscovery | Copy | Undo

  function Moved(s: State, k: nat, p: Phase): seq<Call>
    requires k < |s.calls|
  {
    s.calls[k := s.calls[k].(phase := p)]
  }

  predicate At(s: State, k: nat, p: Phase) {
    k < |s.calls| && s.calls[k].phase == p
  }

  function NotAppended(s: State): set<nat> {
    set k | 0 <= k < |s.calls| && s.calls[k].phase != Appended
  }

  predicate Finished(s: State) {
    s.copy.Some? && s.undone == |s.copy.value|
  }

  /** discovery_unsub has returned, and no earlier unsubscribe_all is still at work. */
  predicate MayCopy(s: State) {
    !s.discovering && (s.copy.None? || Finished(s))
  }

  function Next(s: State, e: Step): State {
    match e
    case Begin(topic) => if s.discovering then s.(calls := s.calls + [Call(topic, Begun)]) else s
    case Subscribe(k) => if At(s, k, Begun) then s.(calls := Moved(s, k, Subscribed), live := s.live + {k}) else s
    case Append(k) =>
      if At(s, k, Subscribed) then s.(calls := Moved(s, k, Appended), subscriptions := s.subscriptions + [k]) else s
    case StopDiscovery => s.(discovering := false)
    case Copy =>
      if MayCopy(s) then s.(copy := Some(s.subscriptions), undone := 0, running := NotAppended(s)) else s
    case Undo =>
      if s.copy.Some? && s.undone < |s.copy.value|
      then
        var k := s.copy.value[s.undone];
        s.(live := s.live - {k}, gone := s.gone + {k}, undone := s.undone + 1)
      else s
  }

  /** The state after the steps es from s. */
  function Steps(s: State, es: seq<Step>): State {
    if es == [] then s else Next(Steps(s, es[..|es| - 1]), es[|es| - 1])
  }

  function Run(es: seq<Step>): State {
    Steps(INITIAL, es)
  }

  lemma OneMoreStep(s: State, es: seq<Step>, e: Step)
    ensures Steps(s, es + [e]) == Next(Steps(s, es), e)
  {
    assert (es + [e])[..|es|] == es;
  }

  /** A call's subscription lives from its second phase until it is undone. */
  predicate CallInv(s: State, k: nat)
    requires k < |s.calls|
  {
    && (k in s.live <==> s.calls[k].phase != Begun && k !in s.gone)
    && (k in s.subscriptions <==> s.calls[k].phase == Appended)
    && (s.copy.Some? ==> (k in s.running <==> k !in s.copy.value))
    && (s.copy.Some? && k in s.copy.value ==> s.calls[k].phase == Appended)
  }

  /** What has been undone is on the last copy, which has been undone up to undone. */
  predicate CopyInv(s: State) {
    if s.copy.Some? then
      && s.undone <= |s.copy.value| && !s.discovering
      && (forall k | k in s.gone :: k in s.copy.value)
      && (forall i | 0 <= i < s.undone :: s.copy.value[i] in s.gone)
    else s.undone == 0 && s.running == {} && s.gone == {}
  }

  ghost predicate Inv(s: State) {
    && CopyInv(s)
    && (forall k :: 0 <= k < |s.calls| ==> CallInv(s, k))
    && (forall k :: k in s.live ==> k < |s.calls|)
    && (forall k :: k in s.subscriptions ==> k < |s.calls|)
    && (s.copy.Some? ==> forall k :: k in s.copy.value ==> k < |s.calls|)
  }

  lemma StepCopyInv(s: State, e: Step)
    requires Inv(s)
    ensures CopyInv(Next(s, e))
  {
    if e.Copy? && MayCopy(s) {
      forall k | k in s.gone ensures k in s.subscriptions {
        assert CallInv(s, k);
      }
    }
  }

  lemma StepInv(s: State, e: Step)
    requires Inv(s)
    ensures Inv(Next(s, e))
  {
    var n := Next(s, e);
    StepCopyInv(s, e);
    forall k | 0 <= k < |n.calls| ensures CallInv(n, k) {
      assert k < |s.calls| ==> CallInv(s, k);
    }
  }

  lemma {:induction false} StepsInv(s: State, es: seq<Step>)
    requires Inv(s)
    ensures Inv(Steps(s, es))
  {
    if es != [] {
      StepsInv(s, es[..|es| - 1]);
      StepInv(Steps(s, es[..|es| - 1]), es[|es| - 1]);
    }
  }

  lemma RunInv(es: seq<Step>)
    ensures Inv(Run(es))
  {
    StepsInv(INITIAL, es);
  }

  // ---------------------------------------------------------------- unsubscribe_all

  predicate OfOthers(es: seq<Step>) {
    forall e | e in es :: e.Begin? || e.Subscribe? || e.Append?
  }

  function MeanwhileAt(meanwhile: seq<seq<Step>>, i: nat): seq<Step> {
    if i < |meanwhile| then meanwhile[i] else []
  }

  /** The shared state of subscribe_all's closures, with what the model adds to tell the steps apart. */
  class SubscribeAll {
    var discovering: bool
    var calls: seq<Call>
    var live: set<nat>
    var subscriptions: seq<nat>
    var copy: Option<seq<nat>>
    var undone: nat
    ghost var running: set<nat>
    ghost var gone: set<nat>

    ghost function View(): State
      reads this
    {
      State(discovering, calls, live, subscriptions, copy, undone, running, gone)
    }

    constructor ()
      ensures View() == INITIAL
    {
      discovering, calls, live, subscriptions, copy, undone := true, [], {}, [], None, 0;
      running, gone := {}, {};
    }

    /** Calls of on_new_topic begin and get on. */
    method OnNewTopics(es: seq<Step>)
      requires OfOthers(es)
      modifies this`calls, this`live, this`subscriptions
      ensures View() == Steps(old(View()), es)
    {
      for i := 0 to |es|
        invariant View() == Steps(old(View()), es[..i])
      {
        assert es[i] in es && es[..i + 1] == es[..i] + [es[i]];
        OneMoreStep(old(View()), es[..i], es[i]);
        OnNewTopic(es[i]);
      }
      assert es[..|es|] == es;
    }

    method OnNewTopic(e: Step)
      requires e.Begin? || e.Subscribe? || e.Append?
      modifies this`calls, this`live, this`subscriptions
      ensures View() == Next(old(View()), e)
    {
      match e
      case Begin(topic) =>
        if discovering { calls := calls + [Call(topic, Begun)]; }
      case Subscribe(k) =>
        if k < |calls| && calls[k].phase == Begun {
          calls := calls[k := calls[k].(phase := Subscribed)];
          live := live + {k};
        }
      case Append(k) =>
        if k < |calls| && calls[k].phase == Subscribed {
          calls := calls[k := calls[k].(phase := Appended)];
          subscriptions := subscriptions + [k];
        }
      case _ =>
    }

    /** meanwhile[0] is what other threads do between discovery_unsub and the copy, meanwhile[i + 1] what
        they do before the ith unsubscribe call. Exactly the subscriptions of calls that were running at
        the copy are left. It may be called again. */
    method UnsubscribeAll(meanwhile: seq<seq<Step>>) returns (ghost trace: seq<Step>)
      requires Inv(View()) && (copy.None? || Finished(View())) && forall es | es in meanwhile :: OfOthers(es)
      modifies this
      ensures View() == Steps(old(View()), trace) && Inv(View())
      ensures Finished(View()) && !discovering
      ensures forall k | 0 <= k < |calls| :: k in live <==> k in running && calls[k].phase != Begun
    {
      ghost var was := View();
      discovering := false;
      trace := Extended(was, [], [StopDiscovery]);
      OnNewTopics(MeanwhileAt(meanwhile, 0));
      trace := Extended(was, trace, MeanwhileAt(meanwhile, 0));
      running := NotAppended(View());
      copy, undone := Some(subscriptions), 0;
      trace := Extended(was, trace, [Copy]);
      StepsInv(was, trace);
      trace := UndoAll(subscriptions, meanwhile, was, trace);
      LeftOver(View());
    }

    /** The loop over the copied list. */
    method UndoAll(subs: seq<nat>, meanwhile: seq<seq<Step>>, ghost was: State, ghost before: seq<Step>)
      returns (ghost trace: seq<Step>)
      requires Inv(was) && Inv(View()) && View() == Steps(was, before) && copy == Some(subs) && undone == 0
            && !discovering
      requires forall es | es in meanwhile :: OfOthers(es)
      modifies this`calls, this`live, this`subscriptions, this`undone, this`gone
      ensures View() == Steps(was, trace) && Inv(View()) && undone == |subs|
    {
      trace := before;
      for i := 0 to |subs|
        invariant View() == Steps(was, trace) && Inv(View()) && undone == i
      {
        UndoOne(subs[i], MeanwhileAt(meanwhile, i + 1));
        trace := ExtendedUndone(was, trace, MeanwhileAt(meanwhile, i + 1));
      }
    }

    /** One turn of the loop, after what others do before it. */
    method UndoOne(k: nat, meanwhile: seq<Step>)
      requires OfOthers(meanwhile) && copy.Some? && undone < |copy.value| && copy.value[undone] == k
      modifies this`calls, this`live, this`subscriptions, this`undone, this`gone
      ensures View() == Next(Steps(old(View()), meanwhile), Undo) && undone == old(undone) + 1
    {
      OnNewTopics(meanwhile);
      live, gone, undone := live - {k}, gone + {k}, undone + 1;
    }
  }

  lemma {:induction false} Extended(s: State, es: seq<Step>, more: seq<Step>) returns (all: seq<Step>)
    ensures all == es + more && Steps(s, all) == Steps(Steps(s, es), more)
  {
    all := es + more;
    assert es + [] == es;
    for i := 0 to |more|
      invariant Steps(s, es + more[..i]) == Steps(Steps(s, es), more[..i])
    {
      assert more[..i + 1] == more[..i] + [more[i]] && es + more[..i + 1] == (es + more[..i]) + [more[i]];
      OneMoreStep(s, es + more[..i], more[i]);
      OneMoreStep(Steps(s, es), more[..i], more[i]);
    }
    assert more[..|more|] == more;
  }

  lemma ExtendedUndone(s: State, es: seq<Step>, more: seq<Step>) returns (all: seq<Step>)
    requires Inv(s)
    ensures Steps(s, all) == Next(Steps(Steps(s, es), more), Undo) && Inv(Steps(s, all))
  {
    all := Extended(s, es, more);
    OneMoreStep(s, all, Undo);
    all := all + [Undo];
    StepsInv(s, all);
  }

  lemma {:induction false} ListGrows(s: State, es: seq<Step>, more: seq<Step>)
    ensures Steps(s, es).subscriptions <= Steps(s, es + more).subscriptions
  {
    assert es + [] == es;
    for i := 0 to |more|
      invariant Steps(s, es).subscriptions <= Steps(s, es + more[..i]).subscriptions
    {
      assert more[..i + 1] == more[..i] + [more[i]] && es + more[..i + 1] == (es + more[..i]) + [more[i]];
      OneMoreStep(s, es + more[..i], more[i]);
    }
    assert more[..|more|] == more;
  }

  /** The subscriptions are listed, and so undone, in the order in which their calls got to appending them: each
      stands where it was put, behind those listed before. */
  lemma ListedInOrder(es: seq<Step>, k: nat, more: seq<Step>)
    requires k < |Run(es).calls| && Run(es).calls[k].phase == Subscribed
    ensures Run(es).subscriptions + [k] <= Run(es + [Append(k)] + more).subscriptions
  {
    OneMoreStep(INITIAL, es, Append(k));
    ListGrows(INITIAL, es + [Append(k)], more);
  }

  /** When unsubscribe_all is through, what still lives was made by calls that were running at the copy. */
  lemma LeftOver(s: State)
    requires Inv(s) && Finished(s)
    ensures forall k | 0 <= k < |s.calls| :: k in s.live <==> k in s.running && s.calls[k].phase != Begun
  {
    forall k | k in s.copy.value ensures k in s.gone {
      var i :| 0 <= i < |s.copy.value| && s.copy.value[i] == k;
    }
    forall k | 0 <= k < |s.calls| ensures k in s.live <==> k in s.running && s.calls[k].phase != Begun {
      assert CallInv(s, k);
    }
  }

  // ---------------------------------------------------------------- one subscription per topic

  function Topics(calls: seq<Call>): seq<Topic> {
    seq(|calls|, k requires 0 <= k < |calls| => calls[k].topic)
  }

  /** When the discovery announces the topics of a stream as subscribe_new_topics does, and every call of
      on_new_topic has subscribed, exactly the topics of the stream have a live subscription. */
  lemma EveryTopicHeld(es: seq<Step>, stream: seq<Topic>, t: Topic)
    requires Run(es).copy.None? && Topics(Run(es).calls) == Announced(stream)
    requires forall k | 0 <= k < |Run(es).calls| :: Run(es).calls[k].phase != Begun
    ensures t in stream <==> exists k :: k in Run(es).live && k < |Run(es).calls| && Run(es).calls[k].topic == t
  {
    var s := Run(es);
    RunInv(es);
    AnnouncedAll(stream, t);
    if t in stream {
      var k :| 0 <= k < |Announced(stream)| && Announced(stream)[k] == t;
      assert CallInv(s, k) && s.calls[k].topic == Topics(s.calls)[k];
      assert k in s.live;
    }
    if k :| k in s.live && k < |s.calls| && s.calls[k].topic == t {
      assert Topics(s.calls)[k] == t;
    }
  }

  /** And no topic has two. */
  lemma OnePerTopic(es: seq<Step>, stream: seq<Topic>, j: nat, k: nat)
    requires Topics(Run(es).calls) == Announced(stream)
    requires j in Run(es).live && k in Run(es).live && j < |Run(es).calls| && k < |Run(es).calls|
    ensures Run(es).calls[j].topic == Run(es).calls[k].topic ==> j == k
  {
    var calls := Run(es).calls;
    assert Topics(calls)[j] == calls[j].topic && Topics(calls)[k] == calls[k].topic;
    if j < k { AnnouncedInOrder(stream, j, k); }
    if k < j { AnnouncedInOrder(stream, k, j); }
  }

  // ---------------------------------------------------------------- what unsubscribe_all leaves

  /** A step that copies the list sets running, and no other step changes it. */
  lemma RunningStays(s: State, e: Step)
    ensures e.Copy? && MayCopy(s) ==> Next(s, e).running == NotAppended(s)
    ensures !e.Copy? ==> Next(s, e).running == s.running
  {
  }

  /** Step i is the last that copies the list. */
  predicate LastCopy(es: seq<Step>, i: nat) {
    i < |es| && es[i] == Copy && MayCopy(Run(es[..i])) && forall j | i < j < |es| :: es[j] != Copy
  }

  lemma RunningAtCopy(es: seq<Step>, i: nat)
    requires LastCopy(es, i)
    ensures Run(es).running == NotAppended(Run(es[..i]))
  {
    assert es[..i + 1] == es[..i] + [es[i]];
    OneMoreStep(INITIAL, es[..i], es[i]);
    RunningStays(Run(es[..i]), es[i]);
    for n := i + 1 to |es|
      invariant Run(es[..n]).running == NotAppended(Run(es[..i]))
    {
      assert es[..n + 1] == es[..n] + [es[n]];
      OneMoreStep(INITIAL, es[..n], es[n]);
      RunningStays(Run(es[..n]), es[n]);
    }
    assert es[..|es|] == es;
  }

  /** Step i is the last to copy the list. Once every call of on_new_topic has got through, nothing lives
      after unsubscribe_all exactly when no call was running at that step. */
  lemma LeavesNoneIff(es: seq<Step>, i: nat)
    requires LastCopy(es, i)
    requires Finished(Run(es)) && forall k | 0 <= k < |Run(es).calls| :: Run(es).calls[k].phase == Appended
    ensures Run(es).live == {} <==> NotAppended(Run(es[..i])) == {}
  {
    var s := Run(es);
    RunInv(es);
    RunningAtCopy(es, i);
    LeftOver(s);
    CallsStay(es, i);
    if s.live != {} {
      var k :| k in s.live;
      assert k in s.running;
    }
    if k :| k in NotAppended(Run(es[..i])) {
      assert k in s.live;
    }
  }

  lemma CallsStay(es: seq<Step>, i: nat)
    requires i <= |es|
    ensures |Run(es[..i]).calls| <= |Run(es).calls|
  {
    for n := i to |es|
      invariant |Run(es[..i]).calls| <= |Run(es[..n]).calls|
    {
      assert es[..n + 1] == es[..n] + [es[n]];
      OneMoreStep(INITIAL, es[..n], es[n]);
    }
    assert es[..|es|] == es;
  }

  /** The discovery is over and no call of on_new_topic is running. */
  predicate Quiet(s: State) {
    !s.discovering && NotAppended(s) == {} && s.running == {}
  }

  lemma QuietStays(s: State, e: Step)
    requires Quiet(s)
    ensures Quiet(Next(s, e))
  {
    var n := Next(s, e);
    forall k | 0 <= k < |s.calls| ensures s.calls[k].phase == Appended {
      assert k !in NotAppended(s);
    }
    assert n.calls == s.calls;
  }

  /** Step i is the return of discovery_unsub. If no call of on_new_topic is running then, nothing lives
      after unsubscribe_all. */
  lemma QuietLeavesNone(es: seq<Step>, i: nat)
    requires i < |es| && Run(es[..i]).discovering && es[i] == StopDiscovery && NotAppended(Run(es[..i])) == {}
    requires Finished(Run(es))
    ensures Run(es).live == {}
  {
    assert es[..i + 1] == es[..i] + [es[i]];
    OneMoreStep(INITIAL, es[..i], es[i]);
    RunInv(es[..i]);
    for n := i + 1 to |es|
      invariant Quiet(Run(es[..n]))
    {
      assert es[..n + 1] == es[..n] + [es[n]];
      OneMoreStep(INITIAL, es[..n], es[n]);
      QuietStays(Run(es[..n]), es[n]);
    }
    assert es[..|es|] == es;
    RunInv(es);
    LeftOver(Run(es));
  }

  /** One announcement that is running during unsubscribe_all: its subscription stays, until
      unsubscribe_all is called again. */
  lemma LeftOverHappens(t: Topic)
    ensures var s := Run([Begin(t), StopDiscovery, Copy, Subscribe(0), Append(0)]);
            && Finished(s) && s.calls == [Call(t, Appended)] && s.live == {0}
            && Finished(Steps(s, [Copy, Undo])) && Steps(s, [Copy, Undo]).live == {}
  {
    var one := [Begin(t)];
    var two := one + [StopDiscovery];
    var three := two + [Copy];
    var four := three + [Subscribe(0)];
    OneMoreStep(INITIAL, [], Begin(t));
    OneMoreStep(INITIAL, one, StopDiscovery);
    OneMoreStep(INITIAL, two, Copy);
    OneMoreStep(INITIAL, three, Subscribe(0));
    OneMoreStep(INITIAL, four, Append(0));
    assert [] + [Begin(t)] == one;
    assert [Begin(t), StopDiscovery, Copy, Subscribe(0), Append(0)] == four + [Append(0)];
    var s := Run(four + [Append(0)]);
    OneMoreStep(s, [], Copy);
    OneMoreStep(s, [Copy], Undo);
    assert [] + [Copy] == [Copy] && [Copy] + [Undo] == [Copy, Undo];
  }
}
