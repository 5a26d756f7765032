/** The measuring loop of scripts/bench/pingpong.py and its on_pong callback, as the steps
    two threads take on shared state over a network that loses, delays and repeats pongs. */
module PingPong {
  import opened Messages

  datatype Config = Config(warmup: nat, samples: nat, interval: real)  // interval in nanoseconds

  /** One invocation of on_pong: the sequence number it carries and the clock it read first. */
  datatype Pong = Pong(ping: nat, at: int)

  /** Where the main thread stands in the body of its loop. */
  datatype Point = Pace | Sleep(until: real) | Clear | Arm | Stamp | Publish | Wait | Read | Done

  /** What an iteration recorded. */
  datatype Outcome = Timeout(t0: int) | Sample(t0: int, t1: int)

  datatype State = State(
    now: int, point: Point, i: nat, t0: int, lastPub: Option<int>,
    expected: int, got: map<int, int>, event: bool, held: Option<Pong>,  // shared; `held` is in the lock
    rtt: seq<int>, pub: seq<int>, arrival: seq<int>, timeouts: nat,
    published: set<nat>, entered: set<Pong>,  // pings sent; callbacks that have read the clock
    log: seq<Outcome>,                        // one entry per finished iteration
    early: Option<Pong>)                      // the pong that set the event between clear and arm

  datatype Event =
    | Tick(ns: nat)
    | Main                 // the main thread's next step; at Wait: it sees the event set
    | GiveUp               // at Wait: the timeout
    | Deliver(ping: nat)   // a pong arrives: on_pong reads the clock
    | Accept(pong: Pong)   // it takes the lock, compares, and stores a match
    | Raise                // it sets the event and releases the lock

  function Init(start: int): State {
    State(start, Pace, 0, 0, None, -1, map[], false, None, [], [], [], 0, {}, {}, [], None)
  }

  function Next(c: Config, s: State, e: Event): Option<State> {
    match e
    case Tick(ns) => Some(s.(now := s.now + ns))
    case Main => MainStep(c, s)
    case GiveUp => if s.point == Wait then Some(Finish(c, s, Timeout(s.t0))) else None
    case Deliver(n) =>
      if n in s.published then Some(s.(entered := s.entered + {Pong(n, s.now)})) else None
    case Accept(p) =>
      if p !in s.entered || s.held.Some? then None
      else if p.ping != s.expected then Some(s)
      else Some(s.(got := s.got[p.ping := p.at], held := Some(p)))
    case Raise =>
      if s.held.None? then None
      else Some(s.(event := true, held := None, early := if s.point == Arm then s.held else s.early))
  }

  function MainStep(c: Config, s: State): Option<State> {
    match s.point
    case Pace =>
      if s.i == c.warmup + c.samples then Some(s.(point := Done))
      else if s.lastPub.None? || c.interval <= 0.0 then Some(s.(point := Clear))
      else
        var remain := c.interval - (s.now - s.lastPub.value) as real;
        Some(s.(point := if remain > 0.0 then Sleep(s.now as real + remain) else Clear))
    case Sleep(until) => if s.now as real >= until then Some(s.(point := Clear)) else None
    case Clear => Some(s.(event := false, early := None, point := Arm))
    case Arm => if s.held.Some? then None else Some(s.(expected := s.i, got := s.got - {s.i}, point := Stamp))
    case Stamp => Some(s.(t0 := s.now, lastPub := Some(s.now), point := Publish))
    case Publish => Some(s.(published := s.published + {s.i}, point := Wait))
    case Wait => if s.event then Some(s.(point := Read)) else None
    case Read =>
      if s.held.Some? then None
      else Some(Finish(c, s, if s.i in s.got then Sample(s.t0, s.got[s.i]) else Timeout(s.t0)))
    case Done => None
  }

  /** The rest of the iteration: counters and lists, then the next i. */
  function Finish(c: Config, s: State, o: Outcome): State {
    var counted := s.(
      timeouts := if o.Timeout? then s.timeouts + 1 else s.timeouts,
      pub := if s.i >= c.warmup then s.pub + [o.t0] else s.pub,
      rtt := if s.i >= c.warmup && o.Sample? then s.rtt + [o.t1 - o.t0] else s.rtt,
      arrival := if s.i >= c.warmup && o.Sample? then s.arrival + [o.t1] else s.arrival);
    counted.(log := s.log + [o], i := s.i + 1, point := Pace)
  }

  /** The state after a run; None when a step of it was not possible. */
  function Run(c: Config, start: int, es: seq<Event>): Option<State> {
    if es == [] then Some(Init(start))
    else
      match Run(c, start, es[..|es| - 1])
      case None => None
      case Some(s) => Next(c, s, es[|es| - 1])
  }

  // ---------------------------------------------------------------- what the log says

  function Timeouts(log: seq<Outcome>): nat {
    if log == [] then 0 else Timeouts(log[..|log| - 1]) + if log[|log| - 1].Timeout? then 1 else 0
  }

  function Sends(log: seq<Outcome>): seq<int> {
    if log == [] then [] else Sends(log[..|log| - 1]) + [log[|log| - 1].t0]
  }

  function Samples(log: seq<Outcome>): seq<Outcome> {
    if log == [] then []
    else
      var o := log[|log| - 1];
      Samples(log[..|log| - 1]) + if o.Sample? then [o] else []
  }

  function Counted(c: Config, log: seq<Outcome>): seq<Outcome> {
    if |log| <= c.warmup then [] else log[c.warmup..]
  }

  ghost predicate Armed(s: State) {
    s.point in {Stamp, Publish, Wait, Read}
  }

  ghost predicate Sent(s: State) {
    s.point in {Wait, Read}
  }

  /** What every step keeps. */
  ghost predicate Inv(c: Config, s: State) {
    && SharedInv(s) && LogInv(c, s) && ListsInv(c, s) && ArrivalInv(s) && |s.log| == s.i && PacingInv(c, s)
  }

  ghost predicate SharedInv(s: State) {
    && (s.held.Some? ==> s.held.value in s.entered && s.held.value.ping == s.expected && s.expected in s.got)
    && (forall n | n in s.published :: n < s.i || (n == s.i && Sent(s)))
    && (forall p | p in s.entered :: p.ping in s.published && p.at <= s.now && (p.ping == s.i ==> s.t0 <= p.at))
    && (forall n | n in s.got :: n >= 0 && Pong(n, s.got[n]) in s.entered)
    && s.expected == (if Armed(s) then s.i else s.i - 1)
    && (s.point in {Publish, Wait, Read} ==> s.t0 <= s.now)
    && (s.point == Read ==> s.event)
    && (s.point == Arm && s.event ==> s.early.Some?)
    && (Armed(s) && s.event && s.i !in s.got ==> s.early.Some?)
    && (s.early.Some? && (Armed(s) || s.point == Arm) ==> s.early.value.ping == s.i - 1 && s.early.value in s.entered)
  }

  ghost predicate LogInv(c: Config, s: State) {
    && |s.log| == s.i && (s.point == Done ==> s.i == c.warmup + c.samples)
    && s.i <= c.warmup + c.samples
    && (s.point != Pace && s.point != Done ==> s.i < c.warmup + c.samples)
    && (forall k | 0 <= k < |s.log| ::
          s.log[k].t0 <= s.now && (s.point in {Publish, Wait, Read} ==> s.log[k].t0 <= s.t0))
    && (forall k | 0 <= k < |s.log| && s.log[k].Sample? ::
          && Pong(k, s.log[k].t1) in s.entered
          && s.log[k].t0 <= s.log[k].t1 <= s.now
          && (s.point in {Publish, Wait, Read} ==> s.log[k].t1 <= s.t0))
    && (forall k | 0 <= k < |s.log| - 1 ::
          && s.log[k].t0 <= s.log[k + 1].t0
          && (s.log[k].Sample? ==> s.log[k].t1 <= s.log[k + 1].t0))
  }

  /** What the lists of the report hold of the counted iterations. */
  ghost predicate Kept(rtt: seq<int>, pub: seq<int>, arrival: seq<int>, counted: seq<Outcome>) {
    && pub == Sends(counted)
    && |rtt| == |arrival| == |Samples(counted)|
    && (forall k | 0 <= k < |rtt| ::
          var o := Samples(counted)[k];
          o.Sample? && arrival[k] == o.t1 && rtt[k] == o.t1 - o.t0)
  }

  ghost predicate ListsInv(c: Config, s: State) {
    s.timeouts == Timeouts(s.log) && Kept(s.rtt, s.pub, s.arrival, Counted(c, s.log))
  }

  ghost predicate ArrivalInv(s: State) {
    && (s.point in {Publish, Wait, Read} ==> s.t0 <= s.now)
    && (forall k | 0 <= k < |s.arrival| :: s.arrival[k] <= if s.point in {Publish, Wait, Read} then s.t0 else s.now)
    && (forall k | 0 <= k < |s.arrival| - 1 :: s.arrival[k] <= s.arrival[k + 1])
  }

  ghost predicate PacingInv(c: Config, s: State)
    requires |s.log| == s.i
  {
    && (s.lastPub.Some? <==> s.i > 0 || s.point in {Publish, Wait, Read})
    && (s.i > 0 && s.point !in {Publish, Wait, Read} ==> s.lastPub.value == s.log[s.i - 1].t0)
    && (s.point in {Publish, Wait, Read} ==> s.lastPub.value == s.t0)
    && (s.point.Sleep? ==> s.i > 0 && s.point.until == s.log[s.i - 1].t0 as real + c.interval)
    && (s.i > 0 && s.point in {Clear, Arm, Stamp} ==> s.now as real >= s.log[s.i - 1].t0 as real + c.interval)
    && (s.i > 0 && s.point in {Publish, Wait, Read} ==> s.t0 as real >= s.log[s.i - 1].t0 as real + c.interval)
    && (forall k | 0 <= k < |s.log| - 1 :: (s.log[k + 1].t0 - s.log[k].t0) as real >= c.interval)
  }

  // ---------------------------------------------------------------- every step keeps it

  lemma CountedMore(c: Config, log: seq<Outcome>, o: Outcome)
    ensures Counted(c, log + [o]) == if |log| >= c.warmup then Counted(c, log) + [o] else []
  {
  }

  lemma LogMore(log: seq<Outcome>, o: Outcome)
    ensures Timeouts(log + [o]) == Timeouts(log) + if o.Timeout? then 1 else 0
    ensures Sends(log + [o]) == Sends(log) + [o.t0]
    ensures Samples(log + [o]) == Samples(log) + if o.Sample? then [o] else []
  {
    assert (log + [o])[..|log + [o]| - 1] == log;
  }

  lemma InitInv(c: Config, start: int)
    ensures Inv(c, Init(start))
  {
  }

  lemma FinishInv(c: Config, s: State, o: Outcome)
    requires Inv(c, s) && Sent(s) && o.t0 == s.t0
    requires o.Sample? ==> s.i in s.got && o.t1 == s.got[s.i]
    ensures Inv(c, Finish(c, s, o))
  {
    FinishShared(c, s, o);
    FinishLog(c, s, o);
    FinishLists(c, s, o);
    FinishArrivals(c, s, o);
    FinishPacing(c, s, o);
  }

  lemma FinishShared(c: Config, s: State, o: Outcome)
    requires SharedInv(s) && Sent(s)
    ensures SharedInv(Finish(c, s, o))
  {
    var f := Finish(c, s, o);
    forall p | p in f.entered ensures p.ping in f.published && p.at <= f.now && p.ping != f.i {
    }
  }

  lemma FinishLog(c: Config, s: State, o: Outcome)
    requires SharedInv(s) && LogInv(c, s) && Sent(s) && o.t0 == s.t0
    requires o.Sample? ==> s.i in s.got && o.t1 == s.got[s.i]
    ensures LogInv(c, Finish(c, s, o))
  {
    var f := Finish(c, s, o);
    forall k | 0 <= k < |f.log| - 1
      ensures f.log[k].t0 <= f.log[k + 1].t0 && (f.log[k].Sample? ==> f.log[k].t1 <= f.log[k + 1].t0)
    {
      if k + 1 < |s.log| {
        assert f.log[k] == s.log[k] && f.log[k + 1] == s.log[k + 1];
      } else {
        assert f.log[k] == s.log[k] && f.log[k + 1] == o;
      }
    }
  }

  lemma KeptMore(rtt: seq<int>, pub: seq<int>, arrival: seq<int>, counted: seq<Outcome>, o: Outcome)
    requires Kept(rtt, pub, arrival, counted)
    ensures Kept(if o.Sample? then rtt + [o.t1 - o.t0] else rtt, pub + [o.t0],
                 if o.Sample? then arrival + [o.t1] else arrival, counted + [o])
  {
    LogMore(counted, o);
  }

  lemma FinishLists(c: Config, s: State, o: Outcome)
    requires LogInv(c, s) && ListsInv(c, s) && Sent(s) && o.t0 == s.t0
    ensures ListsInv(c, Finish(c, s, o))
  {
    CountedMore(c, s.log, o);
    LogMore(s.log, o);
    if s.i >= c.warmup {
      KeptMore(s.rtt, s.pub, s.arrival, Counted(c, s.log), o);
    }
  }

  lemma FinishArrivals(c: Config, s: State, o: Outcome)
    requires SharedInv(s) && ArrivalInv(s) && Sent(s) && o.t0 == s.t0
    requires o.Sample? ==> s.i in s.got && o.t1 == s.got[s.i]
    ensures ArrivalInv(Finish(c, s, o))
  {
    if o.Sample? {
      assert Pong(s.i, o.t1) in s.entered;
    }
  }

  lemma FinishPacing(c: Config, s: State, o: Outcome)
    requires |s.log| == s.i && PacingInv(c, s) && Sent(s) && o.t0 == s.t0
    ensures PacingInv(c, Finish(c, s, o))
  {
    var f := Finish(c, s, o);
    forall k | 0 <= k < |f.log| - 1 ensures (f.log[k + 1].t0 - f.log[k].t0) as real >= c.interval {
      if k + 1 < |s.log| {
        assert f.log[k] == s.log[k] && f.log[k + 1] == s.log[k + 1];
      }
    }
  }

  lemma GiveUpInv(c: Config, s: State)
    requires Inv(c, s) && Next(c, s, GiveUp).Some?
    ensures Inv(c, Next(c, s, GiveUp).value)
  {
    FinishInv(c, s, Timeout(s.t0));
  }

  lemma ReadInv(c: Config, s: State)
    requires Inv(c, s) && s.point == Read && Next(c, s, Main).Some?
    ensures Inv(c, Next(c, s, Main).value)
  {
    FinishInv(c, s, if s.i in s.got then Sample(s.t0, s.got[s.i]) else Timeout(s.t0));
  }

  lemma InnerInv(c: Config, s: State, e: Event, n: State)
    requires Inv(c, s) && Inner(c, s, e) && Next(c, s, e) == Some(n)
    ensures Inv(c, n)
  {
    StepShared(c, s, e);
    InnerGrows(c, s, e);
    StepLog(c, s, n);
    StepPacing(c, s, e);
  }

  lemma StepInv(c: Config, s: State, e: Event)
    requires Inv(c, s) && Next(c, s, e).Some?
    ensures Inv(c, Next(c, s, e).value)
  {
    if e == GiveUp {
      GiveUpInv(c, s);
    } else if e == Main && s.point == Read {
      ReadInv(c, s);
    } else {
      InnerInv(c, s, e, Next(c, s, e).value);
    }
  }

  /** Steps inside an iteration. */
  ghost predicate Inner(c: Config, s: State, e: Event) {
    Next(c, s, e).Some? && e != GiveUp && (e == Main ==> s.point != Read)
  }

  lemma StepShared(c: Config, s: State, e: Event)
    requires SharedInv(s) && Inner(c, s, e)
    ensures SharedInv(Next(c, s, e).value)
  {
    match e
    case Main => MainShared(c, s);
    case Deliver(n) => DeliverShared(c, s, n);
    case Accept(p) => AcceptShared(c, s, p);
    case _ =>
  }

  lemma MainShared(c: Config, s: State)
    requires SharedInv(s) && Inner(c, s, Main)
    ensures SharedInv(MainStep(c, s).value)
  {
    if s.point == Arm {
      ArmShared(c, s);
    } else if s.point == Stamp {
      StampShared(c, s);
    }
  }

  lemma ArmShared(c: Config, s: State)
    requires SharedInv(s) && Inner(c, s, Main) && s.point == Arm
    ensures SharedInv(MainStep(c, s).value)
  {
    assert MainStep(c, s).value.got == s.got - {s.i};
  }

  lemma StampShared(c: Config, s: State)
    requires SharedInv(s) && Inner(c, s, Main) && s.point == Stamp
    ensures SharedInv(MainStep(c, s).value)
  {
    var n := MainStep(c, s).value;
    forall p | p in n.entered ensures p.ping in n.published && p.at <= n.now && p.ping != n.i {
    }
  }

  lemma DeliverShared(c: Config, s: State, n: nat)
    requires SharedInv(s) && n in s.published
    ensures SharedInv(Next(c, s, Deliver(n)).value)
  {
  }

  lemma AcceptShared(c: Config, s: State, p: Pong)
    requires SharedInv(s) && Next(c, s, Accept(p)).Some?
    ensures SharedInv(Next(c, s, Accept(p)).value)
  {
  }

  /** Inside an iteration nothing is recorded, and time and callbacks only grow. */
  ghost predicate Grows(c: Config, s: State, n: State) {
    && n.log == s.log && n.i == s.i && s.now <= n.now && s.entered <= n.entered
    && n.timeouts == s.timeouts && n.pub == s.pub && n.rtt == s.rtt && n.arrival == s.arrival
    && (n.point == Done ==> s.point == Done || s.i == c.warmup + c.samples)
    && (n.point !in {Pace, Done} ==> s.point !in {Pace, Done} || s.i != c.warmup + c.samples)
    && (n.point in {Publish, Wait, Read} ==> n.t0 == s.now || (s.point in {Publish, Wait, Read} && n.t0 == s.t0))
  }

  lemma InnerGrows(c: Config, s: State, e: Event)
    requires Inner(c, s, e)
    ensures Grows(c, s, Next(c, s, e).value)
  {
  }

  lemma StepLog(c: Config, s: State, n: State)
    requires LogInv(c, s) && ListsInv(c, s) && ArrivalInv(s) && Grows(c, s, n)
    ensures LogInv(c, n) && ListsInv(c, n) && ArrivalInv(n)
  {
  }

  lemma StepPacing(c: Config, s: State, e: Event)
    requires |s.log| == s.i && PacingInv(c, s) && LogInv(c, s) && Inner(c, s, e)
    ensures var n := Next(c, s, e).value;
            |n.log| == n.i && PacingInv(c, n)
  {
    if e == Main {
      MainPacing(c, s);
    }
  }

  lemma MainPacing(c: Config, s: State)
    requires |s.log| == s.i && PacingInv(c, s) && LogInv(c, s) && Inner(c, s, Main)
    ensures var n := MainStep(c, s).value;
            |n.log| == n.i && PacingInv(c, n)
  {
    if s.point == Pace && s.i > 0 {
      assert s.log[s.i - 1].t0 <= s.now;
    }
  }

  lemma {:induction false} RunInv(c: Config, start: int, es: seq<Event>)
    requires Run(c, start, es).Some?
    ensures Inv(c, Run(c, start, es).value)
  {
    if es == [] {
      InitInv(c, start);
    } else {
      RunInv(c, start, es[..|es| - 1]);
      StepInv(c, Run(c, start, es[..|es| - 1]).value, es[|es| - 1]);
    }
  }

  // ---------------------------------------------------------------- what every run does

  /** Somewhere in the run a pong for ping n was delivered when the clock read t. */
  ghost predicate Delivered(c: Config, start: int, es: seq<Event>, n: nat, t: int) {
    exists j | 0 <= j < |es| ::
      && es[j] == Deliver(n)
      && Run(c, start, es[..j]).Some? && n in Run(c, start, es[..j]).value.published
      && Run(c, start, es[..j]).value.now == t
  }

  /** Each sample of iteration k is the clock at the delivery of a pong for ping k, taken
      between the sends of iterations k and k + 1. */
  lemma SamplesAreTrue(c: Config, start: int, es: seq<Event>, k: nat)
    requires Run(c, start, es).Some? && k < |Run(c, start, es).value.log|
    requires Run(c, start, es).value.log[k].Sample?
    ensures var s := Run(c, start, es).value;
            && Delivered(c, start, es, k, s.log[k].t1)
            && s.log[k].t0 <= s.log[k].t1
            && (k + 1 < |s.log| ==> s.log[k].t1 <= s.log[k + 1].t0)
  {
    RunInv(c, start, es);
    EnteredWasDelivered(c, start, es, Pong(k, Run(c, start, es).value.log[k].t1));
  }

  lemma {:induction false} EnteredWasDelivered(c: Config, start: int, es: seq<Event>, p: Pong)
    requires Run(c, start, es).Some? && p in Run(c, start, es).value.entered
    ensures Delivered(c, start, es, p.ping, p.at)
  {
    if es != [] {
      var before := es[..|es| - 1];
      var s := Run(c, start, before).value;
      if p in s.entered {
        EnteredWasDelivered(c, start, before, p);
        var j :| 0 <= j < |before| && before[j] == Deliver(p.ping)
                 && Run(c, start, before[..j]).Some? && p.ping in Run(c, start, before[..j]).value.published
                 && Run(c, start, before[..j]).value.now == p.at;
        assert es[..j] == before[..j] && es[j] == before[j];
      } else {
        assert es[|es| - 1] == Deliver(p.ping) && es[..|es| - 1] == before;
      }
    }
  }

  // ---------------------------------------------------------------- what each iteration records

  /** The clock of the last pong for ping n that took the lock. */
  function LastAccepted(es: seq<Event>, n: nat): Option<int> {
    if es == [] then None
    else
      var e := es[|es| - 1];
      if e.Accept? && e.pong.ping == n then Some(e.pong.at) else LastAccepted(es[..|es| - 1], n)
  }

  lemma UnpublishedNext(c: Config, s: State, e: Event, n: nat)
    requires SharedInv(s) && Next(c, s, e).Some? && n !in Next(c, s, e).value.published
    ensures n !in s.published && !(e.Accept? && e.pong.ping == n)
  {
  }

  lemma {:induction false} NoneBeforePublished(c: Config, start: int, es: seq<Event>, n: nat)
    requires Run(c, start, es).Some? && n !in Run(c, start, es).value.published
    ensures LastAccepted(es, n) == None
  {
    if es != [] {
      var less := es[..|es| - 1];
      RunInv(c, start, less);
      UnpublishedNext(c, Run(c, start, less).value, es[|es| - 1], n);
      NoneBeforePublished(c, start, less, n);
    }
  }

  function Received(s: State): Option<int> {
    if s.i in s.got then Some(s.got[s.i]) else None
  }

  lemma NothingYet(s: State)
    requires SharedInv(s) && s.i !in s.published
    ensures Received(s) == None
  {
    forall n | n in s.got ensures n in s.published {
      assert Pong(n, s.got[n]) in s.entered;
    }
  }

  lemma ReceivedMain(c: Config, s: State)
    requires SharedInv(s) && Inner(c, s, Main)
    ensures Received(MainStep(c, s).value) == Received(s) && MainStep(c, s).value.i == s.i
  {
    if s.point == Arm {
      NothingYet(s);
    }
  }

  lemma ReceivedInner(c: Config, s: State, e: Event)
    requires SharedInv(s) && Inner(c, s, e)
    ensures var n := Next(c, s, e).value;
            && n.i == s.i
            && Received(n) == if e.Accept? && e.pong.ping == s.i then Some(e.pong.at) else Received(s)
  {
    if e == Main {
      ReceivedMain(c, s);
    }
  }

  /** What the main thread can read for its ping is what was last accepted for it. */
  lemma {:induction false} ReceivedIsLastAccepted(c: Config, start: int, es: seq<Event>)
    requires Run(c, start, es).Some?
    ensures Received(Run(c, start, es).value) == LastAccepted(es, Run(c, start, es).value.i)
  {
    if es != [] {
      var less, e := es[..|es| - 1], es[|es| - 1];
      RunInv(c, start, less);
      RunInv(c, start, es);
      if Inner(c, Run(c, start, less).value, e) {
        ReceivedIsLastAccepted(c, start, less);
        ReceivedInner(c, Run(c, start, less).value, e);
      } else {
        NotPublished(c, Run(c, start, less).value, e);
        NothingYet(Run(c, start, es).value);
        NoneBeforePublished(c, start, es, Run(c, start, es).value.i);
      }
    }
  }

  /** The step that ends an iteration. */
  lemma NotPublished(c: Config, s: State, e: Event)
    requires SharedInv(s) && Next(c, s, e).Some? && !Inner(c, s, e)
    ensures Next(c, s, e).value.i !in Next(c, s, e).value.published
  {
  }

  predicate Stands(r: Option<State>, p: Point, i: nat) {
    r.Some? && r.value.point == p && r.value.i == i
  }

  /** The send time of the current iteration is the clock at its stamping step. */
  lemma {:induction false} StampedAt(c: Config, start: int, es: seq<Event>) returns (j: nat)
    requires Run(c, start, es).Some? && Run(c, start, es).value.point in {Publish, Wait, Read}
    ensures j < |es| && es[j] == Main && Stands(Run(c, start, es[..j]), Stamp, Run(c, start, es).value.i)
    ensures Run(c, start, es[..j]).value.now == Run(c, start, es).value.t0
  {
    var less, e := es[..|es| - 1], es[|es| - 1];
    StampKept(c, Run(c, start, less).value, e);
    if Run(c, start, less).value.point == Stamp {
      j := |less|;
    } else {
      j := StampedAt(c, start, less);
      assert less[..j] == es[..j];
    }
  }

  lemma StampKept(c: Config, s: State, e: Event)
    requires Next(c, s, e).Some? && Next(c, s, e).value.point in {Publish, Wait, Read}
    ensures var n := Next(c, s, e).value;
            && n.i == s.i
            && if s.point == Stamp then e == Main && n.t0 == s.now
               else s.point in {Publish, Wait, Read} && n.t0 == s.t0
  {
  }

  /** Iteration k, stamped in step `sent`, ends in step `end`. */
  ghost predicate Ended(c: Config, start: int, es: seq<Event>, k: nat, sent: nat, end: nat, o: Outcome) {
    && sent < end < |es|
    && es[sent] == Main && Stands(Run(c, start, es[..sent]), Stamp, k) && Run(c, start, es[..sent]).value.now == o.t0
    && if es[end] == GiveUp then Stands(Run(c, start, es[..end]), Wait, k) && o == Timeout(o.t0)
       else
         && es[end] == Main && Stands(Run(c, start, es[..end]), Read, k)
         && match LastAccepted(es[..end], k)
            case None => o == Timeout(o.t0)
            case Some(t) => o == Sample(o.t0, t)
  }

  /** Every iteration ends by giving up the wait, which is a timeout, or by reading what came back: it is a
      timeout if no pong for its ping was accepted, else a sample taken at the last one that was. */
  lemma {:induction false} OutcomeExactly(c: Config, start: int, es: seq<Event>, k: nat) returns (sent: nat, end: nat)
    requires Run(c, start, es).Some? && k < |Run(c, start, es).value.log|
    ensures Ended(c, start, es, k, sent, end, Run(c, start, es).value.log[k])
  {
    var less := es[..|es| - 1];
    if k < |Run(c, start, less).value.log| {
      sent, end := OutcomeExactly(c, start, less, k);
      assert less[..sent] == es[..sent] && less[..end] == es[..end];
      LogStays(c, Run(c, start, less).value, es[|es| - 1], k);
    } else {
      RunInv(c, start, less);
      sent, end := EndsNow(c, start, es, k);
    }
  }

  lemma LogStays(c: Config, s: State, e: Event, k: nat)
    requires Next(c, s, e).Some? && k < |s.log|
    ensures k < |Next(c, s, e).value.log| && Next(c, s, e).value.log[k] == s.log[k]
  {
  }

  /** What the step that ends an iteration adds to the log. */
  lemma EndingStep(c: Config, s: State, e: Event, k: nat)
    requires Next(c, s, e).Some? && |s.log| == s.i && |s.log| <= k < |Next(c, s, e).value.log|
    ensures k == s.i && Sent(s)
    ensures Next(c, s, e).value.log[k]
            == if e == GiveUp then Timeout(s.t0)
               else match Received(s) case None => Timeout(s.t0) case Some(t) => Sample(s.t0, t)
    ensures if e == GiveUp then s.point == Wait else e == Main && s.point == Read
  {
  }

  lemma EndsNow(c: Config, start: int, es: seq<Event>, k: nat) returns (sent: nat, end: nat)
    requires es != [] && Run(c, start, es[..|es| - 1]).Some? && Run(c, start, es).Some?
    requires Inv(c, Run(c, start, es[..|es| - 1]).value)
    requires |Run(c, start, es[..|es| - 1]).value.log| <= k < |Run(c, start, es).value.log|
    ensures Ended(c, start, es, k, sent, end, Run(c, start, es).value.log[k])
  {
    var less := es[..|es| - 1];
    EndingStep(c, Run(c, start, less).value, es[|es| - 1], k);
    end := |less|;
    sent := StampedAt(c, start, less);
    assert less[..sent] == es[..sent];
    ReceivedIsLastAccepted(c, start, less);
  }

  // ---------------------------------------------------------------- what can happen

  /** From the top of an iteration, the main thread can get to its wait. */
  lemma SendNext(c: Config, start: int, es: seq<Event>, s: State) returns (more: seq<Event>, n: State)
    requires Run(c, start, es) == Some(s) && s.point == Pace && s.held.None? && s.i < c.warmup + c.samples
    ensures Run(c, start, more) == Some(n) && n.point == Wait && n.held.None?
    ensures n.i == s.i == n.expected && n.i in n.published && n.log == s.log
  {
    more, n := WaitedInterval(c, start, es, s);
    n := After(c, start, more, n, Main); more := more + [Main];
    n := After(c, start, more, n, Main); more := more + [Main];
    n := After(c, start, more, n, Main); more := more + [Main];
    n := After(c, start, more, n, Main); more := more + [Main];
  }

  lemma WaitedInterval(c: Config, start: int, es: seq<Event>, s: State) returns (more: seq<Event>, n: State)
    requires Run(c, start, es) == Some(s) && s.point == Pace && s.held.None? && s.i < c.warmup + c.samples
    ensures Run(c, start, more) == Some(n) && n.point == Clear && n.held.None? && n.i == s.i && n.log == s.log
  {
    more := es;
    n := After(c, start, more, s, Main); more := more + [Main];
    if n.point.Sleep? {
      var ns := if n.point.until > n.now as real then n.point.until.Floor + 1 - n.now else 0;
      n := After(c, start, more, n, Tick(ns)); more := more + [Tick(ns)];
      n := After(c, start, more, n, Main); more := more + [Main];
    }
  }

  /** The pong comes back in time. */
  lemma PongReturns(c: Config, start: int, es: seq<Event>, s: State) returns (more: seq<Event>, n: State)
    requires Run(c, start, es) == Some(s) && s.point == Wait && s.held.None?
    requires s.expected == s.i && s.i in s.published
    ensures Run(c, start, more) == Some(n) && n.point == Pace && n.held.None? && n.i == s.i + 1
    ensures n.log == s.log + [Sample(s.t0, s.now)]
  {
    var p := Pong(s.i, s.now);
    more := es;
    n := After(c, start, more, s, Deliver(s.i)); more := more + [Deliver(s.i)];
    n := After(c, start, more, n, Accept(p)); more := more + [Accept(p)];
    n := After(c, start, more, n, Raise); more := more + [Raise];
    n := After(c, start, more, n, Main); more := more + [Main];
    n := After(c, start, more, n, Main); more := more + [Main];
  }

  /** Whichever pings come back in time, the loop gets to its end and has recorded exactly those. */
  lemma {:induction false} AnyPattern(c: Config, start: int, back: seq<bool>) returns (es: seq<Event>, s: State)
    requires |back| == c.warmup + c.samples
    ensures Run(c, start, es) == Some(s) && s.point == Done && |s.log| == |back|
    ensures forall k | 0 <= k < |back| :: s.log[k].Sample? == back[k]
  {
    es, s := [], Init(start);
    for k := 0 to |back|
      invariant Run(c, start, es) == Some(s) && s.point == Pace && s.held.None? && s.i == k == |s.log|
      invariant forall j | 0 <= j < k :: s.log[j].Sample? == back[j]
    {
      es, s := SendNext(c, start, es, s);
      if back[k] {
        es, s := PongReturns(c, start, es, s);
      } else {
        s := After(c, start, es, s, GiveUp); es := es + [GiveUp];
      }
    }
    s := After(c, start, es, s, Main); es := es + [Main];
  }

  /** The lists the report is made of hold the samples and sends of the counted iterations. */
  lemma ListsAreTheLog(c: Config, start: int, es: seq<Event>)
    requires Run(c, start, es).Some?
    ensures var s := Run(c, start, es).value;
            var kept := Samples(Counted(c, s.log));
            && s.pub == Sends(Counted(c, s.log))
            && |s.rtt| == |s.arrival| == |kept|
            && (forall k | 0 <= k < |kept| ::
                  kept[k].Sample? && s.arrival[k] == kept[k].t1 && s.rtt[k] == kept[k].t1 - kept[k].t0)
            && (forall j, k | 0 <= j <= k < |s.arrival| :: s.arrival[j] <= s.arrival[k])
  {
    RunInv(c, start, es);
    Ordered(Run(c, start, es).value.arrival);
  }

  lemma {:induction false} Ordered(xs: seq<int>)
    requires forall k | 0 <= k < |xs| - 1 :: xs[k] <= xs[k + 1]
    ensures forall j, k | 0 <= j <= k < |xs| :: xs[j] <= xs[k]
  {
    if |xs| > 1 {
      Ordered(xs[..|xs| - 1]);
      var last := |xs| - 1;
      forall j | 0 <= j <= last ensures xs[j] <= xs[last] {
        if j < last {
          assert xs[..last][j] <= xs[..last][last - 1];
        }
      }
      forall j, k | 0 <= j <= k < last ensures xs[j] <= xs[k] {
        assert xs[..last][j] <= xs[..last][k];
      }
    }
  }

  /** In iteration i, between the clear and the arming, a pong for the previous ping was raised. */
  ghost predicate RaisedBeforeArming(c: Config, start: int, es: seq<Event>, i: nat) {
    exists j | 0 <= j < |es| :: es[j] == Raise && ArmingWith(Run(c, start, es[..j]), i)
  }

  predicate ArmingWith(r: Option<State>, i: nat) {
    r.Some? && r.value.point == Arm && r.value.i == i && r.value.held.Some? && r.value.held.value.ping == i - 1
  }

  /** The event can wake the main thread without a sample only if a pong for the previous
      ping was raised between the clear and the arming; then a timeout is counted, and nothing else. */
  lemma WokenWithoutSample(c: Config, start: int, es: seq<Event>)
    requires Run(c, start, es).Some?
    requires var s := Run(c, start, es).value; s.point == Read && s.i !in s.got
    ensures var s := Run(c, start, es).value;
            RaisedBeforeArming(c, start, es, s.i)
    ensures var s := Run(c, start, es).value;
            s.held.None? ==>
              var n := Next(c, s, Main);
              && n.Some? && n.value.timeouts == s.timeouts + 1 && n.value.log == s.log + [Timeout(s.t0)]
              && n.value.rtt == s.rtt && n.value.arrival == s.arrival
  {
    RunInv(c, start, es);
    EarlyWasRaised(c, start, es);
  }

  lemma {:induction false} EarlyWasRaised(c: Config, start: int, es: seq<Event>)
    requires Run(c, start, es).Some?
    requires var s := Run(c, start, es).value; s.early.Some? && (Armed(s) || s.point == Arm)
    ensures var s := Run(c, start, es).value;
            RaisedBeforeArming(c, start, es, s.i)
  {
    var before := es[..|es| - 1];
    var s := Run(c, start, before).value;
    RunInv(c, start, before);
    if es[|es| - 1] == Raise && s.point == Arm {
      assert ArmingWith(Run(c, start, es[..|es| - 1]), s.i);
    } else {
      EarlyKept(c, s, es[|es| - 1]);
      EarlyWasRaised(c, start, before);
      var j :| 0 <= j < |before| && before[j] == Raise && ArmingWith(Run(c, start, before[..j]), s.i);
      assert es[..j] == before[..j] && es[j] == before[j];
    }
  }

  lemma EarlyKept(c: Config, s: State, e: Event)
    requires Next(c, s, e).Some? && !(e == Raise && s.point == Arm)
    requires var n := Next(c, s, e).value; n.early.Some? && (Armed(n) || n.point == Arm)
    ensures var n := Next(c, s, e).value;
            s.early == n.early && s.i == n.i && (Armed(s) || s.point == Arm)
  {
  }

  /** That can happen: with two pings, a late pong for the first ends the wait for the second. */
  lemma WokenWithoutSampleHappens(c: Config) returns (es: seq<Event>, s: State)
    requires c.warmup + c.samples == 2 && c.interval <= 0.0
    ensures Run(c, 0, es) == Some(s)
    ensures s.point == Read && s.held.None? && s.i == 1 && 1 !in s.got
  {
    es, s := SecondSent(c);
    s := After(c, 0, es, s, Main); es := es + [Main];
    s := After(c, 0, es, s, Main); es := es + [Main];
  }

  /** The second ping is about to be published, with the event still set. */
  lemma SecondSent(c: Config) returns (es: seq<Event>, s: State)
    requires c.warmup + c.samples == 2 && c.interval <= 0.0
    ensures Run(c, 0, es) == Some(s)
    ensures s.event && 1 !in s.got && s.held.None? && s.i == 1 && s.point == Publish
  {
    es, s := LatePong(c);
    s := After(c, 0, es, s, Main); es := es + [Main];
    s := After(c, 0, es, s, Main); es := es + [Main];
  }

  lemma LatePong(c: Config) returns (es: seq<Event>, s: State)
    requires c.warmup + c.samples == 2 && c.interval <= 0.0
    ensures Run(c, 0, es) == Some(s)
    ensures s.event && 1 !in s.got && s.held.None? && s.i == 1 && s.point == Arm
  {
    es, s := FirstTimedOut(c);
    s := After(c, 0, es, s, Deliver(0)); es := es + [Deliver(0)];
    s := After(c, 0, es, s, Accept(Pong(0, 0))); es := es + [Accept(Pong(0, 0))];
    s := After(c, 0, es, s, Raise); es := es + [Raise];
  }

  /** The first ping has timed out, and the event is cleared for the second. */
  lemma FirstTimedOut(c: Config) returns (es: seq<Event>, s: State)
    requires c.warmup + c.samples == 2 && c.interval <= 0.0
    ensures Run(c, 0, es) == Some(s)
    ensures s.now == 0 && s.point == Arm && s.i == 1 && s.expected == 0 && s.got == map[] && s.held.None?
    ensures s.published == {0} && s.entered == {}
  {
    es, s := FirstSent(c);
    s := After(c, 0, es, s, Main); es := es + [Main];
    s := After(c, 0, es, s, GiveUp); es := es + [GiveUp];
    s := After(c, 0, es, s, Main); es := es + [Main];
    s := After(c, 0, es, s, Main); es := es + [Main];
  }

  lemma FirstSent(c: Config) returns (es: seq<Event>, s: State)
    requires c.warmup + c.samples == 2 && c.interval <= 0.0
    ensures Run(c, 0, es) == Some(s)
    ensures s.now == 0 && s.point == Publish && s.i == 0 && s.expected == 0 && s.got == map[] && s.held.None?
    ensures s.published == {} && s.entered == {}
  {
    es, s := [], Init(0);
    s := After(c, 0, es, s, Main); es := es + [Main];
    s := After(c, 0, es, s, Main); es := es + [Main];
    s := After(c, 0, es, s, Main); es := es + [Main];
    assert s.got == map[];
    s := After(c, 0, es, s, Main); es := es + [Main];
  }

  lemma After(c: Config, start: int, es: seq<Event>, s: State, e: Event) returns (n: State)
    requires Run(c, start, es) == Some(s) && Next(c, s, e).Some?
    ensures Next(c, s, e) == Some(n) && Run(c, start, es + [e]) == Some(n)
  {
    assert (es + [e])[..|es + [e]| - 1] == es;
    n := Next(c, s, e).value;
  }

  /** Accounting at the end of every run, whatever was lost or late. */
  lemma Accounting(c: Config, start: int, es: seq<Event>)
    requires Run(c, start, es).Some? && Run(c, start, es).value.point == Done
    ensures var s := Run(c, start, es).value;
            && |s.log| == c.warmup + c.samples && |s.pub| == c.samples
            && |s.rtt| == |s.arrival| == c.samples - Timeouts(s.log[c.warmup..])
            && c.samples <= |s.rtt| + s.timeouts <= c.warmup + c.samples
  {
    RunInv(c, start, es);
    var s := Run(c, start, es).value;
    var w := c.warmup;
    assert s.log[..w] + s.log[w..] == s.log;
    TimeoutsSplit(s.log[..w], s.log[w..]);
    EveryIterationCounted(s.log[w..]);
    EveryIterationCounted(s.log[..w]);
  }

  lemma {:induction false} TimeoutsSplit(a: seq<Outcome>, b: seq<Outcome>)
    ensures Timeouts(a + b) == Timeouts(a) + Timeouts(b)
  {
    if b == [] {
      assert a + b == a;
    } else {
      assert (a + b)[..|a + b| - 1] == a + b[..|b| - 1];
      TimeoutsSplit(a, b[..|b| - 1]);
    }
  }

  lemma {:induction false} EveryIterationCounted(log: seq<Outcome>)
    ensures |Sends(log)| == |log| && |Samples(log)| + Timeouts(log) == |log|
  {
    if log != [] {
      EveryIterationCounted(log[..|log| - 1]);
    }
  }

  /** Consecutive sends are never closer than the configured interval. */
  lemma Paced(c: Config, start: int, es: seq<Event>)
    requires Run(c, start, es).Some?
    ensures var pub := Run(c, start, es).value.pub;
            forall k | 0 <= k < |pub| - 1 :: (pub[k + 1] - pub[k]) as real >= c.interval
  {
    RunInv(c, start, es);
    PacedState(c, Run(c, start, es).value);
  }

  lemma PacedState(c: Config, s: State)
    requires |s.log| == s.i && PacingInv(c, s) && s.pub == Sends(Counted(c, s.log))
    ensures forall k | 0 <= k < |s.pub| - 1 :: (s.pub[k + 1] - s.pub[k]) as real >= c.interval
  {
    var counted := Counted(c, s.log);
    SendsAt(counted);
    forall k | 0 <= k < |s.pub| - 1 ensures (s.pub[k + 1] - s.pub[k]) as real >= c.interval {
      assert counted[k] == s.log[c.warmup + k] && counted[k + 1] == s.log[c.warmup + k + 1];
    }
  }

  lemma {:induction false} SendsAt(log: seq<Outcome>)
    ensures |Sends(log)| == |log| && forall k | 0 <= k < |log| :: Sends(log)[k] == log[k].t0
  {
    if log != [] {
      SendsAt(log[..|log| - 1]);
    }
  }
}
