/** dimos/protocol/pubsub/impl/rospubsub.py: what the bus tracks against what lives on the ROS node. */
module RosBus {
  import opened Messages

  /** Callbacks are compared by identity; Wrapper is the closure DimosROS makes in its nth subscribe. */
  datatype Callback = User(id: int) | Wrapper(n: nat)

  /** A subscription object on a node, by its serial number, with the callback it was made for. */
  datatype Entry = Entry(sub: nat, cb: Callback)

  /** What the closure returned by subscribe remembers. */
  datatype Handle = Handle(topic: string, sub: nat, cb: Callback)

  datatype RosNode = RosNode(subs: set<nat>, pubs: set<nat>)

  /** next: the serial number of the next object created; issued: the handles given out so far. */
  datatype State = State(node: Option<RosNode>, spinning: bool,
                         subscriptions: map<string, seq<Entry>>, publishers: map<string, nat>,
                         next: nat, issued: seq<Handle>)

  // ---------------------------------------------------------------- specification

  function Without(es: seq<Entry>, cb: Callback): (r: seq<Entry>)
    ensures forall e :: e in r <==> e in es && e.cb != cb
  {
    if es == [] then []
    else
      var less, e := es[..|es| - 1], es[|es| - 1];
      assert es == less + [e];
      if e.cb == cb then Without(less, cb) else Without(less, cb) + [e]
  }

  /** Removal goes entry by entry: what stays keeps its order. */
  lemma {:induction false} WithoutParts(a: seq<Entry>, b: seq<Entry>, cb: Callback)
    ensures Without(a + b, cb) == Without(a, cb) + Without(b, cb)
  {
    if b == [] {
      assert a + b == a;
    } else {
      assert (a + b)[..|a + b| - 1] == a + b[..|b| - 1];
      WithoutParts(a, b[..|b| - 1], cb);
    }
  }

  lemma {:induction false} WithoutAbsent(es: seq<Entry>, cb: Callback)
    requires forall i | 0 <= i < |es| :: es[i].cb != cb
    ensures Without(es, cb) == es
  {
    if es != [] {
      WithoutAbsent(es[..|es| - 1], cb);
      assert es == es[..|es| - 1] + [es[|es| - 1]];
    }
  }

  function Started(s: State): State {
    if s.spinning then s else s.(node := Some(RosNode({}, {})), spinning := true)
  }

  function Stopped(s: State): State {
    if !s.spinning then s else s.(node := None, spinning := false, subscriptions := map[], publishers := map[])
  }

  function Published(s: State, topic: string): State {
    if s.node.None? || topic in s.publishers then s
    else
      var n := s.node.value;
      s.(publishers := s.publishers[topic := s.next],
         node := Some(n.(pubs := n.pubs + {s.next})),
         next := s.next + 1)
  }

  function EntriesOf(s: State, topic: string): seq<Entry> {
    if topic in s.subscriptions then s.subscriptions[topic] else []
  }

  function Subscribed(s: State, topic: string, cb: Callback): State {
    if s.node.None? then s
    else
      var n := s.node.value;
      s.(subscriptions := s.subscriptions[topic := EntriesOf(s, topic) + [Entry(s.next, cb)]],
         node := Some(n.(subs := n.subs + {s.next})),
         next := s.next + 1,
         issued := s.issued + [Handle(topic, s.next, cb)])
  }

  /** Destroying a subscription the node does not hold changes nothing. */
  function Unsubscribed(s: State, h: Handle): State {
    if h.topic !in s.subscriptions then s
    else
      s.(subscriptions := s.subscriptions[h.topic := Without(s.subscriptions[h.topic], h.cb)],
         node := if s.node.None? then None else Some(s.node.value.(subs := s.node.value.subs - {h.sub})))
  }

  // ---------------------------------------------------------------- the classes

  class RawROS {
    var node: Option<RosNode>
    var spinning: bool
    var subscriptions: map<string, seq<Entry>>
    var publishers: map<string, nat>
    var next: nat
    var issued: seq<Handle>

    ghost function View(): State
      reads this
    {
      State(node, spinning, subscriptions, publishers, next, issued)
    }

    constructor ()
      ensures View() == INITIAL
    {
      node, spinning, subscriptions, publishers, next, issued := None, false, map[], map[], 0, [];
    }

    method Start()
      modifies this
      ensures View() == Started(old(View())) && spinning
      ensures if old(spinning) then node == old(node) else node == Some(RosNode({}, {}))
    {
      if spinning { return; }
      node, spinning := Some(RosNode({}, {})), true;
    }

    method Stop()
      modifies this
      ensures View() == Stopped(old(View())) && !spinning
      ensures old(spinning) ==> node == None && subscriptions == map[] && publishers == map[]
    {
      if !spinning { return; }
      subscriptions, publishers := map[], map[];
      node, spinning := None, false;
    }

    method Publish(topic: string) returns (used: Option<nat>)
      modifies this
      ensures View() == Published(old(View()), topic)
      ensures used == if old(node).None? then None else Some(publishers[topic])
      ensures topic in old(publishers) ==> publishers == old(publishers)
      ensures topic !in old(publishers) && old(node).Some? ==>
                publishers == old(publishers)[topic := old(next)]
                      && node.value.pubs == old(node).value.pubs + {old(next)}
    {
      if node.None? { return None; }
      if topic !in publishers {
        node := Some(node.value.(pubs := node.value.pubs + {next}));
        publishers, next := publishers[topic := next], next + 1;
      }
      return Some(publishers[topic]);
    }

    /** None stands for the RuntimeError raised before start. */
    method Subscribe(topic: string, cb: Callback) returns (h: Option<Handle>)
      modifies this
      ensures View() == Subscribed(old(View()), topic, cb)
      ensures h == if old(node).None? then None else Some(Handle(topic, old(next), cb))
      ensures old(node).Some? ==>
                && topic in subscriptions && node.value.subs == old(node).value.subs + {old(next)}
                && subscriptions[topic] == EntriesOf(old(View()), topic) + [Entry(old(next), cb)]
    {
      if node.None? { return None; }
      var sub := next;
      node, next := Some(node.value.(subs := node.value.subs + {sub})), next + 1;
      if topic !in subscriptions {
        subscriptions := subscriptions[topic := []];
      }
      subscriptions := subscriptions[topic := subscriptions[topic] + [Entry(sub, cb)]];
      h, issued := Some(Handle(topic, sub, cb)), issued + [Handle(topic, sub, cb)];
    }

    method Unsubscribe(h: Handle)
      modifies this`subscriptions, this`node
      ensures View() == Unsubscribed(old(View()), h)
      ensures old(node).Some? && h.topic in old(subscriptions) ==> node.value.subs == old(node).value.subs - {h.sub}
      ensures h.topic !in old(subscriptions) ==> node == old(node) && subscriptions == old(subscriptions)
    {
      if h.topic in subscriptions {
        var kept := Keep(subscriptions[h.topic], h.cb);
        subscriptions := subscriptions[h.topic := kept];
        if node.Some? {
          node := Some(node.value.(subs := node.value.subs - {h.sub}));
        }
      }
    }
  }

  method Keep(es: seq<Entry>, cb: Callback) returns (kept: seq<Entry>)
    ensures kept == Without(es, cb)
  {
    kept := [];
    for i := 0 to |es|
      invariant kept == Without(es[..i], cb)
    {
      assert es[..i + 1][..i] == es[..i];
      if es[i].cb != cb { kept := kept + [es[i]]; }
    }
    assert es[..|es|] == es;
  }

  class DimosROS {
    const raw: RawROS
    var wrapped: nat

    ghost predicate Valid()
      reads this, raw
    {
      wrapped == |raw.issued|
    }

    constructor ()
      ensures Valid() && fresh(raw) && raw.View() == INITIAL
    {
      raw := new RawROS();
      wrapped := 0;
    }

    method Subscribe(topic: string) returns (h: Option<Handle>)
      requires Valid()
      modifies this, raw
      ensures Valid()
      ensures raw.View() == Subscribed(old(raw.View()), topic, Wrapper(|old(raw.issued)|))
      ensures h == if old(raw.node).None? then None
                   else Some(Handle(topic, old(raw.next), Wrapper(|old(raw.issued)|)))
    {
      h := raw.Subscribe(topic, Wrapper(wrapped));
      if h.Some? { wrapped := wrapped + 1; }
    }
  }

  // ---------------------------------------------------------------- what the bus tracks

  const INITIAL := State(None, false, map[], map[], 0, [])

  function LiveSubs(s: State): set<nat> {
    if s.node.None? then {} else s.node.value.subs
  }

  function LivePubs(s: State): set<nat> {
    if s.node.None? then {} else s.node.value.pubs
  }

  predicate TrackedAt(s: State, topic: string, sub: nat) {
    exists e :: e in EntriesOf(s, topic) && e.sub == sub
  }

  ghost predicate Tracked(s: State, sub: nat) {
    exists topic :: TrackedAt(s, topic, sub)
  }

  /** The subscriptions on the node are those the bus knows. */
  ghost predicate Balanced(s: State) {
    forall sub :: sub in LiveSubs(s) <==> Tracked(s, sub)
  }

  /** A tracked entry is live and is the one its handle was issued for. */
  ghost predicate Inv(s: State) {
    && (s.spinning <==> s.node.Some?)
    && (s.node.None? ==> s.subscriptions == map[] && s.publishers == map[])
    && (forall topic, e :: e in EntriesOf(s, topic) ==> Known(s, topic, e))
    && (forall sub :: sub in LiveSubs(s) ==> sub < s.next)
    && (forall h :: h in s.issued ==> h.sub < s.next)
    && OneHandlePerSub(s.issued)
  }

  predicate Known(s: State, topic: string, e: Entry) {
    e.sub in LiveSubs(s) && Handle(topic, e.sub, e.cb) in s.issued
  }

  predicate OneHandlePerSub(issued: seq<Handle>) {
    forall h, g :: h in issued && g in issued && h.sub == g.sub ==> h == g
  }

  datatype Event =
    | Start
    | Stop
    | Publish(topic: string)
    | Subscribe(topic: string, cb: Callback)
    | Unsubscribe(k: nat)

  /** Unsubscribe calls the kth handle given out, whether or not it was called before. */
  function Next(s: State, e: Event): State {
    match e
    case Start => Started(s)
    case Stop => Stopped(s)
    case Publish(topic) => Published(s, topic)
    case Subscribe(topic, cb) => Subscribed(s, topic, cb)
    case Unsubscribe(k) => if k < |s.issued| then Unsubscribed(s, s.issued[k]) else s
  }

  lemma EntriesAfterSubscribe(s: State, topic: string, cb: Callback, t: string)
    requires s.node.Some?
    ensures EntriesOf(Subscribed(s, topic, cb), t)
            == EntriesOf(s, t) + if t == topic then [Entry(s.next, cb)] else []
  {
  }

  lemma EntriesAfterUnsubscribe(s: State, h: Handle, t: string)
    ensures EntriesOf(Unsubscribed(s, h), t)
            == if t == h.topic then Without(EntriesOf(s, t), h.cb) else EntriesOf(s, t)
  {
  }

  lemma EntriesAfterOthers(s: State, e: Event, t: string)
    requires Inv(s) && !e.Subscribe? && !e.Unsubscribe?
    ensures EntriesOf(Next(s, e), t) == if e.Stop? then [] else EntriesOf(s, t)
  {
  }

  lemma OneEntry(s: State, t: string, e: Entry, u: string, f: Entry)
    requires Inv(s) && e in EntriesOf(s, t) && f in EntriesOf(s, u)
    ensures e.sub == f.sub ==> t == u && e == f
  {
    assert Known(s, t, e) && Known(s, u, f);
  }

  lemma OwnEntry(s: State, t: string, e: Entry, h: Handle)
    requires Inv(s) && e in EntriesOf(s, t) && h in s.issued
    ensures e.sub == h.sub ==> t == h.topic && e.cb == h.cb
  {
    assert Known(s, t, e);
  }

  lemma SubscribeInv(s: State, topic: string, cb: Callback)
    requires Inv(s)
    ensures Inv(Subscribed(s, topic, cb))
  {
    if s.node.None? { return; }
    var n := Subscribed(s, topic, cb);
    forall t, e | e in EntriesOf(n, t)
      ensures Known(n, t, e)
    {
      EntriesAfterSubscribe(s, topic, cb, t);
    }
  }

  lemma UnsubscribeInv(s: State, h: Handle)
    requires Inv(s) && h in s.issued
    ensures Inv(Unsubscribed(s, h))
  {
    var n := Unsubscribed(s, h);
    forall t, e | e in EntriesOf(n, t)
      ensures Known(n, t, e)
    {
      EntriesAfterUnsubscribe(s, h, t);
      OwnEntry(s, t, e, h);
    }
  }

  lemma OthersInv(s: State, e: Event)
    requires Inv(s) && !e.Subscribe? && !e.Unsubscribe?
    ensures Inv(Next(s, e))
  {
    var n := Next(s, e);
    forall t, x | x in EntriesOf(n, t)
      ensures Known(n, t, x)
    {
      EntriesAfterOthers(s, e, t);
      assert Known(s, t, x);
    }
    assert n.issued == s.issued && s.next <= n.next;
    assert LiveSubs(n) <= LiveSubs(s);
  }

  lemma NextInv(s: State, e: Event)
    requires Inv(s)
    ensures Inv(Next(s, e))
  {
    match e
    case Subscribe(topic, cb) => SubscribeInv(s, topic, cb);
    case Unsubscribe(k) => if k < |s.issued| { UnsubscribeInv(s, s.issued[k]); }
    case _ => OthersInv(s, e);
  }

  /** A tracked subscription is always live; what can go wrong is the converse. */
  lemma TrackedIsLive(s: State, sub: nat)
    requires Inv(s)
    ensures Tracked(s, sub) ==> sub in LiveSubs(s)
  {
  }

  predicate OnlyOwn(s: State, h: Handle) {
    forall e :: e in EntriesOf(s, h.topic) && e.cb == h.cb ==> e.sub == h.sub
  }

  /** Calling a handle keeps the bus balanced exactly when no other entry of its topic has its callback. */
  lemma UnsubscribeBalancedIff(s: State, h: Handle)
    requires Inv(s) && Balanced(s) && h in s.issued
    ensures Balanced(Unsubscribed(s, h)) <==> OnlyOwn(s, h)
  {
    var n := Unsubscribed(s, h);
    UnsubscribeInv(s, h);
    if OnlyOwn(s, h) {
      forall sub ensures sub in LiveSubs(n) <==> Tracked(n, sub) {
        TrackedIsLive(n, sub);
        if sub in LiveSubs(n) { StaysTracked(s, h, sub); }
      }
    } else {
      var e :| e in EntriesOf(s, h.topic) && e.cb == h.cb && e.sub != h.sub;
      SharedCallbackLeaks(s, h, e);
    }
  }

  /** Another entry with the handle's callback stays on the node, and the bus forgets it. */
  lemma SharedCallbackLeaks(s: State, h: Handle, e: Entry)
    requires Inv(s) && h in s.issued && e in EntriesOf(s, h.topic) && e.cb == h.cb && e.sub != h.sub
    ensures e.sub in LiveSubs(Unsubscribed(s, h)) && !Tracked(Unsubscribed(s, h), e.sub)
  {
    var n := Unsubscribed(s, h);
    forall t ensures !TrackedAt(n, t, e.sub) {
      EntriesAfterUnsubscribe(s, h, t);
      forall f | f in EntriesOf(n, t) ensures f.sub != e.sub {
        OneEntry(s, t, f, h.topic, e);
      }
    }
  }

  lemma StaysTracked(s: State, h: Handle, sub: nat)
    requires Inv(s) && Balanced(s) && h in s.issued && sub in LiveSubs(Unsubscribed(s, h)) && OnlyOwn(s, h)
    ensures Tracked(Unsubscribed(s, h), sub)
  {
    assert Tracked(s, sub);
    var t :| TrackedAt(s, t, sub);
    var e :| e in EntriesOf(s, t) && e.sub == sub;
    EntriesAfterUnsubscribe(s, h, t);
    assert h.topic in s.subscriptions ==> sub != h.sub;
    assert TrackedAt(Unsubscribed(s, h), t, sub);
  }

  lemma SubscribeTracks(s: State, topic: string, cb: Callback, t: string, sub: nat)
    requires s.node.Some?
    ensures TrackedAt(Subscribed(s, topic, cb), t, sub) <==> TrackedAt(s, t, sub) || (t == topic && sub == s.next)
  {
    EntriesAfterSubscribe(s, topic, cb, t);
    if t == topic && sub == s.next {
      assert Entry(s.next, cb) in EntriesOf(Subscribed(s, topic, cb), t);
    }
    if TrackedAt(s, t, sub) {
      var e :| e in EntriesOf(s, t) && e.sub == sub;
      assert e in EntriesOf(Subscribed(s, topic, cb), t);
    }
  }

  lemma SubscribeBalanced(s: State, topic: string, cb: Callback)
    requires Inv(s) && Balanced(s)
    ensures Balanced(Subscribed(s, topic, cb))
  {
    if s.node.None? { return; }
    var n := Subscribed(s, topic, cb);
    forall sub ensures sub in LiveSubs(n) <==> Tracked(n, sub) {
      assert sub in LiveSubs(s) <==> Tracked(s, sub);
      forall t ensures TrackedAt(n, t, sub) <==> TrackedAt(s, t, sub) || (t == topic && sub == s.next) {
        SubscribeTracks(s, topic, cb, t, sub);
      }
      assert sub == s.next ==> TrackedAt(n, topic, sub);
    }
  }

  /** Start, stop and publish cannot unbalance the bus; stop leaves nothing tracked and nothing live. */
  lemma OthersBalanced(s: State, e: Event)
    requires Inv(s) && Balanced(s) && !e.Subscribe? && !e.Unsubscribe?
    ensures Balanced(Next(s, e))
    ensures e.Stop? ==> LiveSubs(Next(s, e)) == {}
  {
    var n := Next(s, e);
    forall sub ensures sub in LiveSubs(n) <==> Tracked(n, sub) {
      assert sub in LiveSubs(s) <==> Tracked(s, sub);
      forall t ensures TrackedAt(n, t, sub) == (!e.Stop? && TrackedAt(s, t, sub)) {
        EntriesAfterOthers(s, e, t);
      }
    }
  }

  // ---------------------------------------------------------------- whole runs

  ghost function Run(es: seq<Event>): (s: State)
    ensures Inv(s)
  {
    if es == [] then INITIAL
    else
      var s := Run(es[..|es| - 1]);
      NextInv(s, es[|es| - 1]);
      Next(s, es[|es| - 1])
  }

  predicate DistinctCallbacks(issued: seq<Handle>) {
    forall h, g :: h in issued && g in issued && h.topic == g.topic && h.cb == g.cb ==> h == g
  }

  lemma {:induction false} IssuedGrows(s: State, e: Event)
    ensures s.issued <= Next(s, e).issued
  {
  }

  /** Step i calls a handle of whose topic another entry has the same callback. */
  ghost predicate Shares(es: seq<Event>, i: nat)
    requires i < |es|
  {
    var s := Run(es[..i]);
    es[i].Unsubscribe? && es[i].k < |s.issued| && !OnlyOwn(s, s.issued[es[i].k])
  }

  lemma BalancedStep(s: State, e: Event)
    requires Inv(s) && Balanced(s)
    ensures Balanced(Next(s, e)) <==> !(e.Unsubscribe? && e.k < |s.issued| && !OnlyOwn(s, s.issued[e.k]))
  {
    match e
    case Subscribe(topic, cb) => SubscribeBalanced(s, topic, cb);
    case Unsubscribe(k) => if k < |s.issued| { UnsubscribeBalancedIff(s, s.issued[k]); }
    case _ => OthersBalanced(s, e);
  }

  lemma BalancedMore(es: seq<Event>, i: nat)
    requires i < |es| && Balanced(Run(es[..i]))
    ensures Balanced(Run(es[..i + 1])) <==> !Shares(es, i)
  {
    assert es[..i + 1][..i] == es[..i];
    BalancedStep(Run(es[..i]), es[i]);
  }

  lemma InitiallyBalanced()
    ensures Balanced(INITIAL)
  {
    forall sub ensures !Tracked(INITIAL, sub) {
      forall t ensures !TrackedAt(INITIAL, t, sub) {
        assert EntriesOf(INITIAL, t) == [];
      }
    }
  }

  lemma {:induction false} BalancedUpTo(es: seq<Event>, n: nat)
    requires n <= |es| && forall i | 0 <= i < n :: !Shares(es, i)
    ensures Balanced(Run(es[..n]))
  {
    if n == 0 {
      InitiallyBalanced();
    } else {
      BalancedUpTo(es, n - 1);
      BalancedMore(es, n - 1);
    }
  }

  ghost predicate BalancedAt(es: seq<Event>, n: nat)
    requires n <= |es|
  {
    Balanced(Run(es[..n]))
  }

  /** Live and tracked subscriptions are equal throughout a run exactly when every handle is called while no
      other entry of its topic has its callback, whether or not it was called before. */
  lemma BalancedIff(es: seq<Event>)
    ensures (forall n | 0 <= n <= |es| :: BalancedAt(es, n)) <==> forall i | 0 <= i < |es| :: !Shares(es, i)
  {
    if forall i | 0 <= i < |es| :: !Shares(es, i) {
      forall n | 0 <= n <= |es| ensures BalancedAt(es, n) {
        BalancedUpTo(es, n);
      }
    }
    if forall n | 0 <= n <= |es| :: BalancedAt(es, n) {
      forall i | 0 <= i < |es| ensures !Shares(es, i) {
        assert BalancedAt(es, i) && BalancedAt(es, i + 1);
        BalancedMore(es, i);
      }
    }
  }

  /** In particular in every run whose callbacks are distinct on each topic. */
  lemma {:induction false} RawBalanced(es: seq<Event>)
    requires DistinctCallbacks(Run(es).issued)
    ensures Balanced(Run(es))
  {
    forall i | 0 <= i < |es| ensures !Shares(es, i) {
      IssuedStays(es, i);
      var s := Run(es[..i]);
      if es[i].Unsubscribe? && es[i].k < |s.issued| {
        var h := s.issued[es[i].k];
        forall f | f in EntriesOf(s, h.topic) && f.cb == h.cb ensures f.sub == h.sub {
          assert Known(s, h.topic, f);
        }
      }
    }
    BalancedUpTo(es, |es|);
    assert es[..|es|] == es;
  }

  lemma {:induction false} IssuedStays(es: seq<Event>, i: nat)
    requires i <= |es|
    ensures Run(es[..i]).issued <= Run(es).issued
  {
    if i == |es| {
      assert es[..i] == es;
    } else {
      var less := es[..|es| - 1];
      IssuedStays(less, i);
      assert less[..i] == es[..i];
      IssuedGrows(Run(less), es[|es| - 1]);
    }
  }

  /** The calls a DimosROS bus makes on its RawROS: each subscribe brings a closure of its own. */
  ghost predicate Wraps(es: seq<Event>) {
    forall k :: 0 <= k < |es| && es[k].Subscribe? ==> es[k].cb == Wrapper(|Run(es[..k]).issued|)
  }

  predicate Numbered(issued: seq<Handle>) {
    forall k :: 0 <= k < |issued| ==> issued[k].cb == Wrapper(k)
  }

  lemma WrapsLess(es: seq<Event>)
    requires Wraps(es) && es != []
    ensures Wraps(es[..|es| - 1])
  {
    var less := es[..|es| - 1];
    forall k | 0 <= k < |less| ensures es[..k] == less[..k] {
    }
  }

  lemma NumberedNext(s: State, e: Event)
    requires Numbered(s.issued) && (e.Subscribe? ==> e.cb == Wrapper(|s.issued|))
    ensures Numbered(Next(s, e).issued)
  {
  }

  lemma {:induction false} WrappersNumbered(es: seq<Event>)
    requires Wraps(es)
    ensures Numbered(Run(es).issued)
  {
    if es != [] {
      WrapsLess(es);
      WrappersNumbered(es[..|es| - 1]);
      NumberedNext(Run(es[..|es| - 1]), es[|es| - 1]);
    }
  }

  /** Over every run of start, stop, publish, subscribe and handle calls on a DimosROS bus, repeated and
      stale handles included, the subscriptions on the node are exactly those the bus tracks. */
  lemma DimosBalanced(es: seq<Event>)
    requires Wraps(es)
    ensures Balanced(Run(es))
  {
    WrappersNumbered(es);
    RawBalanced(es);
  }

  /** On a DimosROS bus a handle takes away its own entry and no other. */
  lemma {:induction false} DimosHandleRemovesOwn(es: seq<Event>, h: Handle, e: Entry)
    requires Wraps(es) && h in Run(es).issued && e in EntriesOf(Run(es), h.topic)
    ensures e in EntriesOf(Unsubscribed(Run(es), h), h.topic) <==> e.sub != h.sub
  {
    var s := Run(es);
    WrappersNumbered(es);
    assert Known(s, h.topic, e);
    var i :| 0 <= i < |s.issued| && s.issued[i] == h;
    var j :| 0 <= j < |s.issued| && s.issued[j] == Handle(h.topic, e.sub, e.cb);
    assert e.cb == h.cb <==> i == j;
  }

  /** A handle whose callback no other entry of its topic has takes its entry out from between the others. */
  lemma UnsubscribeTakesOut(s: State, h: Handle, before: seq<Entry>, e: Entry, after: seq<Entry>)
    requires EntriesOf(s, h.topic) == before + [e] + after && e.cb == h.cb
    requires forall i | 0 <= i < |before| :: before[i].cb != h.cb
    requires forall i | 0 <= i < |after| :: after[i].cb != h.cb
    ensures EntriesOf(Unsubscribed(s, h), h.topic) == before + after
  {
    WithoutParts(before + [e], after, h.cb);
    WithoutParts(before, [e], h.cb);
    WithoutAbsent(before, h.cb);
    WithoutAbsent(after, h.cb);
    assert [e][..0] == [];
  }

  // ---------------------------------------------------------------- when the bus is up

  /** The bus was started, and not stopped since. */
  predicate StartedLast(es: seq<Event>) {
    es != [] && (es[|es| - 1].Start? || (!es[|es| - 1].Stop? && StartedLast(es[..|es| - 1])))
  }

  /** There is a node exactly after a start that no stop has followed. */
  lemma {:induction false} UpIff(es: seq<Event>)
    ensures Run(es).node.Some? <==> StartedLast(es)
  {
    if es != [] {
      UpIff(es[..|es| - 1]);
      UpNext(Run(es[..|es| - 1]), es[|es| - 1]);
    }
  }

  lemma UpNext(s: State, e: Event)
    requires Inv(s)
    ensures Next(s, e).node.Some? <==> e.Start? || (!e.Stop? && s.node.Some?)
  {
  }

  /** Whenever the bus is up, a subscribe puts a live entry of its own behind the others of its topic. */
  lemma SubscribeWorks(es: seq<Event>, topic: string, cb: Callback)
    requires StartedLast(es)
    ensures var s, n := Run(es), Run(es + [Subscribe(topic, cb)]);
            && EntriesOf(n, topic) == EntriesOf(s, topic) + [Entry(s.next, cb)]
            && LiveSubs(n) == LiveSubs(s) + {s.next} && s.next !in LiveSubs(s)
            && n.issued == s.issued + [Handle(topic, s.next, cb)]
  {
    UpIff(es);
    RunMore(es, Subscribe(topic, cb));
    EntriesAfterSubscribe(Run(es), topic, cb, topic);
  }

  /** Topic t was published to while the bus was up, and the bus was not stopped since. */
  predicate PublishedSince(es: seq<Event>, t: string) {
    && es != [] && !es[|es| - 1].Stop?
    && (PublishedSince(es[..|es| - 1], t) || (es[|es| - 1] == Publish(t) && StartedLast(es[..|es| - 1])))
  }

  /** The topics that have a publisher are those. */
  lemma {:induction false} PublishersIff(es: seq<Event>, t: string)
    ensures t in Run(es).publishers <==> PublishedSince(es, t)
  {
    if es != [] {
      PublishersIff(es[..|es| - 1], t);
      UpIff(es[..|es| - 1]);
      PublisherNext(Run(es[..|es| - 1]), es[|es| - 1], t);
    }
  }

  lemma PublisherNext(s: State, e: Event, t: string)
    requires Inv(s)
    ensures t in Next(s, e).publishers <==> !e.Stop? && (t in s.publishers || (e == Publish(t) && s.node.Some?))
  {
  }

  // ---------------------------------------------------------------- publishers

  ghost predicate PublishersMatch(s: State) {
    && LivePubs(s) == s.publishers.Values
    && (forall id :: id in LivePubs(s) ==> id < s.next)
    && (forall t, u :: t in s.publishers && u in s.publishers && s.publishers[t] == s.publishers[u] ==> t == u)
  }

  /** Every publisher on the node is the one publisher of its topic. */
  lemma {:induction false} OnePublisherPerTopic(es: seq<Event>)
    ensures PublishersMatch(Run(es))
  {
    if es != [] {
      var s, e := Run(es[..|es| - 1]), es[|es| - 1];
      OnePublisherPerTopic(es[..|es| - 1]);
      if e.Publish? && s.node.Some? && e.topic !in s.publishers {
        var n := Next(s, e);
        assert s.publishers.Values + {s.next} == n.publishers.Values by {
          forall id | id in s.publishers.Values ensures id in n.publishers.Values {
            var t :| t in s.publishers && s.publishers[t] == id;
            assert n.publishers[t] == id;
          }
          assert n.publishers[e.topic] == s.next;
        }
      }
    }
  }

  lemma RunMore(es: seq<Event>, e: Event)
    ensures Run(es + [e]) == Next(Run(es), e)
  {
    assert (es + [e])[..|es|] == es;
  }

  lemma TwiceSubscribed(s: State, topic: string, cb: Callback)
    requires Inv(s) && s.node.Some?
    ensures var two := Subscribed(Subscribed(s, topic, cb), topic, cb);
            && Inv(two) && |two.issued| == |s.issued| + 2
            && two.issued[|s.issued|] == Handle(topic, s.next, cb)
            && Entry(s.next + 1, cb) in EntriesOf(two, topic)
  {
    SubscribeInv(s, topic, cb);
    SubscribeInv(Subscribed(s, topic, cb), topic, cb);
    EntriesAfterSubscribe(Subscribed(s, topic, cb), topic, cb, topic);
  }

  ghost predicate Leaked(s: State, id: nat) {
    id in LiveSubs(s) && !Tracked(s, id)
  }

  lemma TwiceThenOnce(s: State, topic: string, cb: Callback)
    requires Inv(s) && s.node.Some?
    ensures var two := Next(Next(s, Subscribe(topic, cb)), Subscribe(topic, cb));
            Leaked(Next(two, Unsubscribe(|s.issued|)), s.next + 1)
  {
    TwiceSubscribed(s, topic, cb);
    var two := Subscribed(Subscribed(s, topic, cb), topic, cb);
    SharedCallbackLeaks(two, two.issued[|s.issued|], Entry(s.next + 1, cb));
  }

  lemma LeakedInRun(es: seq<Event>, e: Event, last: Event, id: nat)
    requires Leaked(Next(Next(Next(Run(es), e), e), last), id)
    ensures Leaked(Run(es + [e] + [e] + [last]), id)
  {
    RunMore(es, e);
    RunMore(es + [e], e);
    RunMore(es + [e] + [e], last);
  }

  /** After any run that leaves the bus started: one callback subscribed twice, and the first handle leaves
      the second subscription live and untracked. */
  lemma SharedCallbackHappens(es: seq<Event>, topic: string, cb: Callback)
    requires Run(es).node.Some?
    ensures var again := Subscribe(topic, cb);
            Leaked(Run(es + [again] + [again] + [Unsubscribe(|Run(es).issued|)]), Run(es).next + 1)
  {
    TwiceThenOnce(Run(es), topic, cb);
    LeakedInRun(es, Subscribe(topic, cb), Unsubscribe(|Run(es).issued|), Run(es).next + 1);
  }
}
