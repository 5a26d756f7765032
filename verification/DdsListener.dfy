/** dimos/protocol/pubsub/impl/ddspubsub.py, _DDSMessageListener: copy-on-write registration and dispatch. */
module DdsListener {
  import opened Messages

  datatype Topic = Topic(name: string, dataType: string)

  /** Samples and callbacks are compared by identity. */
  type Sample = int
  type Callback = int

  datatype Edit = Add(cb: Callback) | Remove(cb: Callback)

  /** One call made by the dispatcher: the position of its sample among those taken. */
  datatype Call = Call(pos: nat, sample: Sample, cb: Callback, raised: bool)

  /** What everyone else does during a delivery: edits[n] are the registrations and removals, by the
      callbacks themselves or by other threads, that happen right before the dispatcher's nth step, and
      the callback called in step n raises if n is in raising. */
  datatype Others = Others(edits: seq<seq<Edit>>, raising: set<nat>)

  function Without(cbs: seq<Callback>, cb: Callback): (r: seq<Callback>)
    ensures forall c :: c in r <==> c in cbs && c != cb
  {
    if cbs == [] then []
    else
      var less, c := cbs[..|cbs| - 1], cbs[|cbs| - 1];
      assert cbs == less + [c];
      if c == cb then Without(less, cb) else Without(less, cb) + [c]
  }

  /** Removal goes entry by entry: the order and the multiplicity of what stays are kept. */
  lemma {:induction false} WithoutParts(a: seq<Callback>, b: seq<Callback>, cb: Callback)
    ensures Without(a + b, cb) == Without(a, cb) + Without(b, cb)
  {
    if b == [] {
      assert a + b == a;
    } else {
      assert (a + b)[..|a + b| - 1] == a + b[..|b| - 1];
      WithoutParts(a, b[..|b| - 1], cb);
    }
  }

  lemma {:induction false} WithoutAbsent(cbs: seq<Callback>, cb: Callback)
    requires cb !in cbs
    ensures Without(cbs, cb) == cbs
  {
    if cbs != [] {
      var less := cbs[..|cbs| - 1];
      assert cbs == less + [cbs[|cbs| - 1]];
      WithoutAbsent(less, cb);
    }
  }

  /** A callback registered once goes, and the others stay in their order. */
  lemma RemovesOne(before: seq<Callback>, cb: Callback, after: seq<Callback>)
    requires cb !in before && cb !in after
    ensures Without(before + [cb] + after, cb) == before + after
  {
    WithoutParts(before + [cb], after, cb);
    WithoutParts(before, [cb], cb);
    WithoutAbsent(before, cb);
    WithoutAbsent(after, cb);
    assert [cb][..0] == [];
  }

  /** Whatever stays was registered as often before, and nothing else did. */
  lemma {:induction false} WithoutCounts(cbs: seq<Callback>, cb: Callback)
    ensures multiset(Without(cbs, cb)) == multiset(cbs)[cb := 0]
  {
    if cbs != [] {
      var less := cbs[..|cbs| - 1];
      assert cbs == less + [cbs[|cbs| - 1]];
      WithoutCounts(less, cb);
    }
  }

  function Edited(cbs: seq<Callback>, e: Edit): seq<Callback> {
    match e
    case Add(cb) => cbs + [cb]
    case Remove(cb) => Without(cbs, cb)
  }

  function AllEdited(cbs: seq<Callback>, es: seq<Edit>): seq<Callback> {
    if es == [] then cbs else Edited(AllEdited(cbs, es[..|es| - 1]), es[|es| - 1])
  }

  function EditsAt(o: Others, n: nat): seq<Edit> {
    if n < |o.edits| then o.edits[n] else []
  }

  /** The registrations after everything that happens before the dispatcher's nth step. */
  function Held(cbs: seq<Callback>, o: Others, n: nat): seq<Callback>
    decreases n, 1
  {
    AllEdited(Left(cbs, o, n), EditsAt(o, n))
  }

  /** The registrations when the dispatcher has made n steps. */
  function Left(cbs: seq<Callback>, o: Others, n: nat): seq<Callback>
    decreases n, 0
  {
    if n == 0 then cbs else Held(cbs, o, n - 1)
  }

  /** The registrations at each of the dispatcher's steps. */
  type Registrations = int -> seq<Callback>

  function During(cbs: seq<Callback>, o: Others): Registrations {
    (n: int) => if n < 0 then [] else Held(cbs, o, n)
  }

  /** The calls for one sample: one per registration, in order, in steps n, n + 1, ... */
  function CallsTo(pos: nat, sample: Sample, cbs: seq<Callback>, raising: set<nat>, n: nat): seq<Call> {
    seq(|cbs|, i requires 0 <= i < |cbs| => Call(pos, sample, cbs[i], n + i in raising))
  }

  /** The dispatcher's step when it comes to sample pos: one step begins a sample and reads the
      registrations, every other step makes one call, and a None takes no step. */
  function StepAt(samples: seq<Option<Sample>>, pos: nat, held: Registrations): nat
    requires pos <= |samples|
  {
    if pos == 0 then 0
    else
      var n := StepAt(samples, pos - 1, held);
      if samples[pos - 1].None? then n else n + 1 + |held(n)|
  }

  function Turn(samples: seq<Option<Sample>>, pos: nat, cbs: seq<Callback>, raising: set<nat>, n: nat): seq<Call>
    requires pos < |samples|
  {
    if samples[pos].None? then [] else CallsTo(pos, samples[pos].value, cbs, raising, n + 1)
  }

  /** The calls made for the first pos samples. */
  function Calls(samples: seq<Option<Sample>>, pos: nat, held: Registrations, raising: set<nat>): seq<Call>
    requires pos <= |samples|
  {
    if pos == 0 then []
    else
      var n := StepAt(samples, pos - 1, held);
      Calls(samples, pos - 1, held, raising) + Turn(samples, pos - 1, held(n), raising, n)
  }

  lemma OneMore(samples: seq<Option<Sample>>, pos: nat, held: Registrations, raising: set<nat>, n: nat)
    requires pos < |samples| && n == StepAt(samples, pos, held)
    ensures Calls(samples, pos + 1, held, raising)
            == Calls(samples, pos, held, raising) + Turn(samples, pos, held(n), raising, n)
    ensures StepAt(samples, pos + 1, held) == if samples[pos].None? then n else n + 1 + |held(n)|
  {
  }

  lemma MoreCalls(samples: seq<Option<Sample>>, pos: nat, held: Registrations, raising: set<nat>, n: nat,
                  before: seq<Call>, after: seq<Call>)
    requires pos < |samples| && n == StepAt(samples, pos, held)
    requires after == before + Calls(samples, pos, held, raising)
                      + if samples[pos].None? then [] else CallsTo(pos, samples[pos].value, held(n), raising, n + 1)
    ensures after == before + Calls(samples, pos + 1, held, raising)
    ensures StepAt(samples, pos + 1, held) == if samples[pos].None? then n else n + 1 + |held(n)|
  {
    OneMore(samples, pos, held, raising, n);
    Regroup(before, Calls(samples, pos, held, raising), Turn(samples, pos, held(n), raising, n));
  }

  lemma Regroup(a: seq<Call>, b: seq<Call>, c: seq<Call>)
    ensures a + b + c == a + (b + c)
  {
  }

  class Listener {
    const topic: Topic
    var callbacks: seq<Callback>
    /** The calls that reached user code, in order. */
    var called: seq<Call>

    constructor (topic: Topic)
      ensures this.topic == topic && callbacks == [] && called == []
    {
      this.topic, callbacks, called := topic, [], [];
    }

    method AddCallback(cb: Callback)
      modifies this`callbacks
      ensures callbacks == old(callbacks) + [cb]
    {
      callbacks := callbacks + [cb];
    }

    method RemoveCallback(cb: Callback)
      modifies this`callbacks
      ensures callbacks == Without(old(callbacks), cb)
    {
      var kept: seq<Callback> := [];
      for i := 0 to |callbacks|
        invariant callbacks == old(callbacks) && kept == Without(callbacks[..i], cb)
      {
        assert callbacks[..i + 1][..i] == callbacks[..i];
        if callbacks[i] != cb { kept := kept + [callbacks[i]]; }
      }
      assert callbacks[..|callbacks|] == callbacks;
      callbacks := kept;
    }

    method OthersRun(es: seq<Edit>)
      modifies this`callbacks
      ensures callbacks == AllEdited(old(callbacks), es)
    {
      for i := 0 to |es|
        invariant callbacks == AllEdited(old(callbacks), es[..i])
      {
        assert es[..i + 1][..i] == es[..i];
        match es[i] {
          case Add(cb) => AddCallback(cb);
          case Remove(cb) => RemoveCallback(cb);
        }
      }
      assert es[..|es|] == es;
    }

    /** taken is None when reader.take() raises. */
    method OnDataAvailable(taken: Option<seq<Option<Sample>>>, o: Others)
      modifies this`callbacks, this`called
      ensures taken.None? ==> callbacks == old(callbacks) && called == old(called)
      ensures taken.Some? ==>
                var samples, held := taken.value, During(old(callbacks), o);
                && called == old(called) + Calls(samples, |samples|, held, o.raising)
                && callbacks == Left(old(callbacks), o, StepAt(samples, |samples|, held))
    {
      if taken.Some? {
        DeliverAll(taken.value, o, callbacks, During(callbacks, o));
      }
    }

    /** The dispatcher has handled the first pos samples, in n steps. */
    ghost predicate Reached(samples: seq<Option<Sample>>, pos: nat, o: Others, was: seq<Callback>,
                            held: Registrations, before: seq<Call>, n: nat)
      requires pos <= |samples|
      reads this
    {
      && n == StepAt(samples, pos, held)
      && callbacks == Left(was, o, n)
      && called == before + Calls(samples, pos, held, o.raising)
    }

    /** The loop over the samples. */
    method DeliverAll(samples: seq<Option<Sample>>, o: Others, ghost was: seq<Callback>, ghost held: Registrations)
      requires callbacks == was && forall n: nat :: held(n) == Held(was, o, n)
      modifies this`callbacks, this`called
      ensures called == old(called) + Calls(samples, |samples|, held, o.raising)
      ensures callbacks == Left(was, o, StepAt(samples, |samples|, held))
    {
      var n := 0;
      assert old(called) + [] == old(called);
      for pos := 0 to |samples|
        invariant Reached(samples, pos, o, was, held, old(called), n)
      {
        n := TakeTurn(samples, pos, o, n, was, held, old(called));
      }
    }

    method TakeTurn(samples: seq<Option<Sample>>, pos: nat, o: Others, n: nat,
                    ghost was: seq<Callback>, ghost held: Registrations, ghost before: seq<Call>)
      returns (m: nat)
      requires pos < |samples| && held(n) == Held(was, o, n) && Reached(samples, pos, o, was, held, before, n)
      modifies this`callbacks, this`called
      ensures Reached(samples, pos + 1, o, was, held, before, m)
    {
      m := n;
      if samples[pos].Some? {
        m := Deliver(pos, samples[pos].value, o, n, was, held(n));
      }
      MoreCalls(samples, pos, held, o.raising, n, before, called);
    }

    /** The inner loop: the registrations are read once, before the first call. */
    method Deliver(pos: nat, sample: Sample, o: Others, n: nat, ghost was: seq<Callback>, ghost held: seq<Callback>)
      returns (m: nat)
      requires callbacks == Left(was, o, n) && held == Held(was, o, n)
      modifies this`callbacks, this`called
      ensures m == n + 1 + |held| && callbacks == Left(was, o, m)
      ensures called == old(called) + CallsTo(pos, sample, held, o.raising, n + 1)
    {
      OthersRun(EditsAt(o, n));
      m := n + 1 + |callbacks|;
      CallAll(pos, sample, o, n + 1, callbacks, was);
    }

    /** One call in each step from n on. */
    method CallAll(pos: nat, sample: Sample, o: Others, n: nat, snapshot: seq<Callback>, ghost was: seq<Callback>)
      requires callbacks == Left(was, o, n)
      modifies this`callbacks, this`called
      ensures callbacks == Left(was, o, n + |snapshot|)
      ensures called == old(called) + CallsTo(pos, sample, snapshot, o.raising, n)
    {
      for i := 0 to |snapshot|
        invariant callbacks == Left(was, o, n + i)
        invariant called == old(called) + CallsTo(pos, sample, snapshot, o.raising, n)[..i]
      {
        OthersRun(EditsAt(o, n + i));
        called := called + [Call(pos, sample, snapshot[i], n + i in o.raising)];
      }
    }
  }

  // ---------------------------------------------------------------- exactly once

  /** The callbacks called for the sample at pos, in order. */
  function CalledFor(calls: seq<Call>, pos: nat): seq<Callback> {
    if calls == [] then []
    else
      var less, c := calls[..|calls| - 1], calls[|calls| - 1];
      CalledFor(less, pos) + if c.pos == pos then [c.cb] else []
  }

  lemma {:induction false} CalledForAppend(a: seq<Call>, b: seq<Call>, pos: nat)
    ensures CalledFor(a + b, pos) == CalledFor(a, pos) + CalledFor(b, pos)
  {
    if b == [] {
      assert a + b == a;
    } else {
      assert (a + b)[..|a + b| - 1] == a + b[..|b| - 1];
      CalledForAppend(a, b[..|b| - 1], pos);
    }
  }

  lemma {:induction false} CalledForOne(calls: seq<Call>, cbs: seq<Callback>, p: nat, own: bool)
    requires |calls| == |cbs|
    requires forall i :: 0 <= i < |calls| ==> calls[i].cb == cbs[i] && (calls[i].pos == p) == own
    ensures CalledFor(calls, p) == if own then cbs else []
  {
    if calls != [] {
      CalledForOne(calls[..|calls| - 1], cbs[..|cbs| - 1], p, own);
      assert cbs == cbs[..|cbs| - 1] + [cbs[|cbs| - 1]];
    }
  }

  lemma TurnFor(samples: seq<Option<Sample>>, pos: nat, cbs: seq<Callback>, raising: set<nat>, n: nat, p: nat)
    requires pos < |samples|
    ensures CalledFor(Turn(samples, pos, cbs, raising, n), p) == if p == pos && samples[p].Some? then cbs else []
  {
    if samples[pos].Some? {
      CalledForOne(Turn(samples, pos, cbs, raising, n), cbs, p, p == pos);
    }
  }

  /** The registrations handed sample p, if it is among the first pos samples. */
  function Due(samples: seq<Option<Sample>>, pos: nat, held: Registrations, p: nat): seq<Callback>
    requires pos <= |samples|
  {
    if p < pos && samples[p].Some? then held(StepAt(samples, p, held)) else []
  }

  lemma DueOneMore(samples: seq<Option<Sample>>, pos: nat, held: Registrations, n: nat, p: nat)
    requires pos < |samples| && n == StepAt(samples, pos, held)
    ensures Due(samples, pos + 1, held, p)
            == Due(samples, pos, held, p) + if p == pos && samples[p].Some? then held(n) else []
  {
  }

  lemma Joined(earlier: seq<Call>, turn: seq<Call>, p: nat, before: seq<Callback>, now: seq<Callback>)
    requires CalledFor(earlier, p) == before && CalledFor(turn, p) == now
    ensures CalledFor(earlier + turn, p) == before + now
  {
    CalledForAppend(earlier, turn, p);
  }

  lemma CalledOneMore(samples: seq<Option<Sample>>, pos: nat, held: Registrations, raising: set<nat>, n: nat, p: nat)
    requires pos < |samples| && n == StepAt(samples, pos, held)
    requires Agrees(samples, pos, held, raising, p)
    ensures Agrees(samples, pos + 1, held, raising, p)
  {
    var cbs := held(n);
    var turn := Turn(samples, pos, cbs, raising, n);
    var now := if p == pos && samples[p].Some? then cbs else [];
    TurnFor(samples, pos, cbs, raising, n, p);
    Joined(Calls(samples, pos, held, raising), turn, p, Due(samples, pos, held, p), now);
    DueOneMore(samples, pos, held, n, p);
    OneMore(samples, pos, held, raising, n);
  }

  predicate Agrees(samples: seq<Option<Sample>>, pos: nat, held: Registrations, raising: set<nat>, p: nat)
    requires pos <= |samples|
  {
    CalledFor(Calls(samples, pos, held, raising), p) == Due(samples, pos, held, p)
  }

  lemma {:induction false} CalledUpTo(samples: seq<Option<Sample>>, pos: nat, held: Registrations,
        raising: set<nat>, p: nat)
    requires pos <= |samples|
    ensures Agrees(samples, pos, held, raising, p)
  {
    for k := 0 to pos
      invariant Agrees(samples, k, held, raising, p)
    {
      CalledOneMore(samples, k, held, raising, StepAt(samples, k, held), p);
    }
  }

  /** Whatever is subscribed, unsubscribed or raised meanwhile, each sample that is not None is handed to
      the registrations held when its turn came, in order, once per registration, and a None to nobody. */
  lemma ExactlyOnce(samples: seq<Option<Sample>>, cbs: seq<Callback>, o: Others, p: nat)
    requires p < |samples|
    ensures CalledFor(Calls(samples, |samples|, During(cbs, o), o.raising), p)
            == if samples[p].None? then [] else Held(cbs, o, StepAt(samples, p, During(cbs, o)))
  {
    CalledUpTo(samples, |samples|, During(cbs, o), o.raising, p);
    AtStep(cbs, o, StepAt(samples, p, During(cbs, o)));
  }

  lemma AtStep(cbs: seq<Callback>, o: Others, n: nat)
    ensures During(cbs, o)(n) == Held(cbs, o, n)
  {
  }

  /** Every call carries the sample at its position, one of the first pos, and positions never go back. */
  predicate InOrder(samples: seq<Option<Sample>>, pos: nat, calls: seq<Call>)
    requires pos <= |samples|
  {
    && (forall i :: 0 <= i < |calls| ==> calls[i].pos < pos && samples[calls[i].pos] == Some(calls[i].sample))
    && (forall i, j :: 0 <= i < j < |calls| ==> calls[i].pos <= calls[j].pos)
  }

  lemma TurnInOrder(samples: seq<Option<Sample>>, pos: nat, earlier: seq<Call>, cbs: seq<Callback>,
        raising: set<nat>, n: nat)
    requires pos < |samples| && InOrder(samples, pos, earlier)
    ensures InOrder(samples, pos + 1, earlier + Turn(samples, pos, cbs, raising, n))
  {
  }

  lemma {:induction false} CallsInOrder(samples: seq<Option<Sample>>, pos: nat, held: Registrations, raising: set<nat>)
    requires pos <= |samples|
    ensures InOrder(samples, pos, Calls(samples, pos, held, raising))
  {
    for k := 0 to pos
      invariant InOrder(samples, k, Calls(samples, k, held, raising))
    {
      var n := StepAt(samples, k, held);
      TurnInOrder(samples, k, Calls(samples, k, held, raising), held(n), raising, n);
      OneMore(samples, k, held, raising, n);
    }
  }

  lemma {:induction false} EditsKeepOut(cbs: seq<Callback>, es: seq<Edit>, cb: Callback)
    requires cb !in cbs && Add(cb) !in es
    ensures cb !in AllEdited(cbs, es)
  {
    if es != [] {
      EditsKeepOut(cbs, es[..|es| - 1], cb);
      var less := AllEdited(cbs, es[..|es| - 1]);
      if es[|es| - 1].Remove? {
        assert cb !in Without(less, es[|es| - 1].cb);
      }
    }
  }

  lemma {:induction false} HeldStaysOut(cbs: seq<Callback>, o: Others, n: nat, k: nat, cb: Callback)
    requires n <= k && cb !in Held(cbs, o, n)
    requires forall j | n < j <= k :: Add(cb) !in EditsAt(o, j)
    ensures cb !in Held(cbs, o, k)
  {
    if n < k {
      HeldStaysOut(cbs, o, n, k - 1, cb);
      EditsKeepOut(Held(cbs, o, k - 1), EditsAt(o, k), cb);
    }
  }

  /** A removal is final: a callback that is not held at step n and not added again is called for no sample
      whose turn comes at step n or later. */
  lemma RemovedStaysRemoved(samples: seq<Option<Sample>>, cbs: seq<Callback>, o: Others, n: nat, p: nat, cb: Callback)
    requires p < |samples| && n <= StepAt(samples, p, During(cbs, o)) && cb !in Held(cbs, o, n)
    requires forall j | n < j <= StepAt(samples, p, During(cbs, o)) :: Add(cb) !in EditsAt(o, j)
    ensures cb !in CalledFor(Calls(samples, |samples|, During(cbs, o), o.raising), p)
  {
    HeldStaysOut(cbs, o, n, StepAt(samples, p, During(cbs, o)), cb);
    ExactlyOnce(samples, cbs, o, p);
  }

  // ---------------------------------------------------------------- what counts for a sample

  lemma {:induction false} EditsKeepIn(cbs: seq<Callback>, es: seq<Edit>, cb: Callback)
    requires cb in cbs && Remove(cb) !in es
    ensures cb in AllEdited(cbs, es)
  {
    if es != [] {
      var less := es[..|es| - 1];
      assert es == less + [es[|es| - 1]];
      EditsKeepIn(cbs, less, cb);
    }
  }

  lemma {:induction false} EditsAdd(cbs: seq<Callback>, es: seq<Edit>, cb: Callback)
    requires Add(cb) in es && Remove(cb) !in es
    ensures cb in AllEdited(cbs, es)
  {
    var less := es[..|es| - 1];
    assert es == less + [es[|es| - 1]];
    if es[|es| - 1] != Add(cb) {
      EditsAdd(cbs, less, cb);
    }
  }

  lemma {:induction false} HeldStaysIn(cbs: seq<Callback>, o: Others, n: nat, k: nat, cb: Callback)
    requires n <= k && cb in Held(cbs, o, n)
    requires forall j | n < j <= k :: Remove(cb) !in EditsAt(o, j)
    ensures cb in Held(cbs, o, k)
  {
    if n < k {
      HeldStaysIn(cbs, o, n, k - 1, cb);
      EditsKeepIn(Held(cbs, o, k - 1), EditsAt(o, k), cb);
    }
  }

  /** A callback that is added at step n, and not removed then or later, is called for every sample whose turn comes
      at step n or later. */
  lemma AddedIsCalled(samples: seq<Option<Sample>>, cbs: seq<Callback>, o: Others, n: nat, p: nat, cb: Callback)
    requires p < |samples| && samples[p].Some? && n <= StepAt(samples, p, During(cbs, o)) && Add(cb) in EditsAt(o, n)
    requires forall j | n <= j <= StepAt(samples, p, During(cbs, o)) :: Remove(cb) !in EditsAt(o, j)
    ensures cb in CalledFor(Calls(samples, |samples|, During(cbs, o), o.raising), p)
  {
    EditsAdd(Left(cbs, o, n), EditsAt(o, n), cb);
    HeldStaysIn(cbs, o, n, StepAt(samples, p, During(cbs, o)), cb);
    ExactlyOnce(samples, cbs, o, p);
  }

  /** The samples that are not None. */
  function Real(samples: seq<Option<Sample>>): nat {
    if samples == [] then 0 else Real(samples[..|samples| - 1]) + if samples[|samples| - 1].Some? then 1 else 0
  }

  /** The turn of a sample comes when one step has been taken for each real sample before it and one for each call
      they led to: what is added or removed during these calls counts for it. */
  lemma {:induction false} TurnComes(samples: seq<Option<Sample>>, pos: nat, held: Registrations, raising: set<nat>)
    requires pos <= |samples|
    ensures StepAt(samples, pos, held) == Real(samples[..pos]) + |Calls(samples, pos, held, raising)|
  {
    if pos > 0 {
      TurnComes(samples, pos - 1, held, raising);
      assert samples[..pos][..pos - 1] == samples[..pos - 1];
    }
  }

  lemma {:induction false} NothingEdited(cbs: seq<Callback>, o: Others, n: nat)
    requires forall es | es in o.edits :: es == []
    ensures Held(cbs, o, n) == cbs
  {
    assert n < |o.edits| ==> o.edits[n] in o.edits;
    if n > 0 {
      NothingEdited(cbs, o, n - 1);
    }
  }

  /** While nobody subscribes or unsubscribes, every real sample goes to all registrations in their order, whichever
      of them raise. */
  lemma QuietDelivery(samples: seq<Option<Sample>>, cbs: seq<Callback>, o: Others, p: nat)
    requires p < |samples| && forall es | es in o.edits :: es == []
    ensures CalledFor(Calls(samples, |samples|, During(cbs, o), o.raising), p) == if samples[p].Some? then cbs else []
  {
    ExactlyOnce(samples, cbs, o, p);
    NothingEdited(cbs, o, StepAt(samples, p, During(cbs, o)));
  }
}
