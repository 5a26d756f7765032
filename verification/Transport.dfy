/** dimos/core/transport.py: lazily started transports, seen through the calls their backends receive. */
module Transport {
  import opened Messages

  /** What happens at backend id; a failed start raises and leaves the backend down. */
  datatype Effect = Started(id: nat) | StartFailed(id: nat) | Stopped(id: nat) | Published(id: nat) | Subscribed(id:
        nat)

  /** works: whether a backend start succeeds, if the operation makes one. */
  datatype Op = Start(works: bool) | Stop | Broadcast(works: bool) | Subscribe(works: bool)

  /** The backends that are up. */
  function Up(log: seq<Effect>): set<nat> {
    if log == [] then {} else UpAfter(Up(log[..|log| - 1]), log[|log| - 1])
  }

  function UpAfter(up: set<nat>, e: Effect): set<nat> {
    match e
    case Started(id) => up + {id}
    case Stopped(id) => up - {id}
    case _ => up
  }

  predicate Allowed(up: set<nat>, e: Effect) {
    match e
    case Started(id) => id !in up
    case StartFailed(id) => true
    case Stopped(id) => id in up
    case Published(id) => id in up
    case Subscribed(id) => id in up
  }

  /** Each backend is started and stopped in turn, first started, and used only while it is up. */
  predicate Sound(log: seq<Effect>) {
    forall i :: 0 <= i < |log| ==> Allowed(Up(log[..i]), log[i])
  }

  lemma SoundMore(log: seq<Effect>, e: Effect)
    requires Sound(log)
    ensures Sound(log + [e]) <==> Allowed(Up(log), e)
    ensures Up(log + [e]) == UpAfter(Up(log), e)
  {
    var more := log + [e];
    assert more[..|log|] == log;
    forall i | 0 <= i < |log| ensures more[..i] == log[..i] && more[i] == log[i] {
    }
    if Sound(more) {
      assert Allowed(Up(more[..|log|]), more[|log|]);
    }
  }

  /** Once unsound, a log stays so. */
  lemma UnsoundStays(log: seq<Effect>, more: seq<Effect>)
    requires log <= more && !Sound(log)
    ensures !Sound(more)
  {
    var i :| 0 <= i < |log| && !Allowed(Up(log[..i]), log[i]);
    assert more[..i] == log[..i] && more[i] == log[i];
  }

  /** The use of the backend an operation makes once it is started. */
  function Use(op: Op, id: nat): Effect
    requires op.Broadcast? || op.Subscribe?
  {
    if op.Broadcast? then Published(id) else Subscribed(id)
  }

  // ---------------------------------------------------------------- DDSTransport

  datatype Lazy = Lazy(started: bool, log: seq<Effect>)

  const FRESH := Lazy(false, [])

  function EnsureUp(s: Lazy, works: bool): Lazy {
    if s.started then s else BaseStart(s, works)
  }

  function BaseStart(s: Lazy, works: bool): Lazy {
    if works then Lazy(true, s.log + [Started(0)]) else s.(log := s.log + [StartFailed(0)])
  }

  function DdsNext(s: Lazy, op: Op): Lazy {
    match op
    case Start(works) => EnsureUp(s, works)
    case Stop => if s.started then Lazy(false, s.log + [Stopped(0)]) else s
    case _ =>
      var up := EnsureUp(s, op.works);
      if up.started then up.(log := up.log + [Use(op, 0)]) else up
  }

  class DDSTransport {
    var started: bool
    var log: seq<Effect>

    ghost function View(): Lazy
      reads this
    {
      Lazy(started, log)
    }

    constructor ()
      ensures View() == FRESH
    {
      started, log := false, [];
    }

    method Start(works: bool) returns (raised: bool)
      modifies this
      ensures View() == DdsNext(old(View()), Op.Start(works)) && raised == !started
            && started == (old(started) || works)
      ensures log == old(log) + if old(started) then [] else if works then [Started(0)] else [StartFailed(0)]
    {
      if !started {
        if !works {
          log := log + [StartFailed(0)];
          return true;
        }
        log := log + [Started(0)];
        started := true;
      }
      return false;
    }

    method Stop()
      modifies this
      ensures View() == DdsNext(old(View()), Op.Stop) && !started
      ensures log == old(log) + if old(started) then [Stopped(0)] else []
    {
      if started {
        log := log + [Stopped(0)];
        started := false;
      }
    }

    method Broadcast(works: bool) returns (raised: bool)
      modifies this
      ensures View() == DdsNext(old(View()), Op.Broadcast(works)) && raised == !started
            && started == (old(started) || works)
      ensures log == old(log) + if old(started) then [Published(0)]
                                else if works then [Started(0)] + [Published(0)] else [StartFailed(0)]
    {
      raised := false;
      if !started { raised := Start(works); }
      if !raised { log := log + [Published(0)]; }
    }

    method Subscribe(works: bool) returns (raised: bool)
      modifies this
      ensures View() == DdsNext(old(View()), Op.Subscribe(works)) && raised == !started
            && started == (old(started) || works)
      ensures log == old(log) + if old(started) then [Subscribed(0)]
                                else if works then [Started(0)] + [Subscribed(0)] else [StartFailed(0)]
    {
      raised := false;
      if !started { raised := Start(works); }
      if !raised { log := log + [Subscribed(0)]; }
    }
  }

  function DdsRun(ops: seq<Op>): Lazy {
    if ops == [] then FRESH else DdsNext(DdsRun(ops[..|ops| - 1]), ops[|ops| - 1])
  }

  predicate LazyInv(s: Lazy) {
    Sound(s.log) && Up(s.log) == if s.started then {0} else {}
  }

  lemma LazyStarts(s: Lazy, works: bool)
    requires LazyInv(s)
    ensures LazyInv(EnsureUp(s, works))
  {
    SoundMore(s.log, if works then Started(0) else StartFailed(0));
  }

  lemma LazyUse(s: Lazy, op: Op)
    requires LazyInv(s) && s.started && (op.Broadcast? || op.Subscribe?)
    ensures LazyInv(s.(log := s.log + [Use(op, 0)]))
  {
    SoundMore(s.log, Use(op, 0));
  }

  lemma DdsStep(s: Lazy, op: Op)
    requires LazyInv(s)
    ensures LazyInv(DdsNext(s, op))
  {
    match op
    case Start(works) => LazyStarts(s, works);
    case Stop => SoundMore(s.log, Stopped(0));
    case _ =>
      LazyStarts(s, op.works);
      if EnsureUp(s, op.works).started { LazyUse(EnsureUp(s, op.works), op); }
  }

  /** Over every sequence of operations, failing starts included, a DDS transport starts and stops its
      backend in turn and uses it only while it is up. */
  lemma {:induction false} DdsLifeCycle(ops: seq<Op>)
    ensures Sound(DdsRun(ops).log)
    ensures Up(DdsRun(ops).log) == if DdsRun(ops).started then {0} else {}
  {
    for k := 0 to |ops|
      invariant LazyInv(DdsRun(ops[..k]))
    {
      assert ops[..k + 1][..k] == ops[..k];
      DdsStep(DdsRun(ops[..k]), ops[k]);
    }
    assert ops[..|ops|] == ops;
  }

  // ---------------------------------------------------------------- ROSTransport

  /** ros: the backend object held, by number; next: the number of the next one. */
  datatype Ros = Ros(ros: Option<nat>, next: nat, log: seq<Effect>)

  const NO_ROS := Ros(None, 0, [])

  function RosStart(s: Ros, works: bool): (r: Ros)
    ensures r.ros.Some?
  {
    if s.ros.Some? then s
    else Ros(Some(s.next), s.next + 1, s.log + [if works then Started(s.next) else StartFailed(s.next)])
  }

  function RosNext(s: Ros, op: Op): Ros {
    match op
    case Start(works) => RosStart(s, works)
    case Stop => if s.ros.Some? then s.(ros := None, log := s.log + [Stopped(s.ros.value)]) else s
    case _ =>
      var held := RosStart(s, op.works);
      if s.ros.None? && !op.works then held else held.(log := held.log + [Use(op, held.ros.value)])
  }

  class ROSTransport {
    var ros: Option<nat>
    var next: nat
    var log: seq<Effect>

    ghost function View(): Ros
      reads this
    {
      Ros(ros, next, log)
    }

    constructor ()
      ensures View() == NO_ROS
    {
      ros, next, log := None, 0, [];
    }

    /** The backend is kept before it is started. */
    method Start(works: bool) returns (raised: bool)
      modifies this
      ensures View() == RosNext(old(View()), Op.Start(works)) && raised == (old(ros).None? && !works)
      ensures old(ros).Some? ==> ros == old(ros) && log == old(log)
      ensures old(ros).None? ==> ros == Some(old(next))
      ensures old(ros).None? ==> log == old(log) + [if works then Started(old(next)) else StartFailed(old(next))]
    {
      raised := false;
      if ros.None? {
        ros, next := Some(next), next + 1;
        raised := !works;
        log := log + [if works then Started(ros.value) else StartFailed(ros.value)];
      }
    }

    method Stop()
      modifies this
      ensures View() == RosNext(old(View()), Op.Stop) && ros == None
      ensures log == old(log) + if old(ros).Some? then [Stopped(old(ros).value)] else []
    {
      if ros.Some? {
        log := log + [Stopped(ros.value)];
        ros := None;
      }
    }

    method Broadcast(works: bool) returns (raised: bool)
      modifies this
      ensures View() == RosNext(old(View()), Op.Broadcast(works)) && raised == (old(ros).None? && !works)
      ensures old(ros).Some? ==> ros == old(ros) && log == old(log) + [Published(ros.value)]
      ensures old(ros).None? ==> ros == Some(old(next))
      ensures old(ros).None? ==>
                log == old(log) + if works then [Started(old(next))] + [Published(old(next))] else
                      [StartFailed(old(next))]
    {
      raised := false;
      if ros.None? { raised := Start(works); }
      if !raised { log := log + [Published(ros.value)]; }
    }

    method Subscribe(works: bool) returns (raised: bool)
      modifies this
      ensures View() == RosNext(old(View()), Op.Subscribe(works)) && raised == (old(ros).None? && !works)
      ensures old(ros).Some? ==> ros == old(ros) && log == old(log) + [Subscribed(ros.value)]
      ensures old(ros).None? ==> ros == Some(old(next))
      ensures old(ros).None? ==>
                log == old(log) + if works then [Started(old(next))] + [Subscribed(old(next))] else
                      [StartFailed(old(next))]
    {
      raised := false;
      if ros.None? { raised := Start(works); }
      if !raised { log := log + [Subscribed(ros.value)]; }
    }
  }

  function RosRun(ops: seq<Op>): Ros {
    if ops == [] then NO_ROS else RosNext(RosRun(ops[..|ops| - 1]), ops[|ops| - 1])
  }

  /** The only backend that can be up is the one held. */
  predicate RosInv(s: Ros) {
    && (forall id :: id in Up(s.log) ==> s.ros == Some(id))
    && (s.ros.Some? ==> s.ros.value < s.next)
    && (forall i :: 0 <= i < |s.log| ==> s.log[i].id < s.next)
  }

  /** The transport holds a backend whose start raised. */
  predicate Stranded(s: Ros) {
    s.ros.Some? && s.ros.value !in Up(s.log)
  }

  lemma {:induction false} UpMore(log: seq<Effect>, e: Effect)
    ensures Up(log + [e]) == UpAfter(Up(log), e)
  {
    assert (log + [e])[..|log|] == log;
  }

  lemma RosStarts(s: Ros, works: bool)
    requires RosInv(s)
    ensures RosInv(RosStart(s, works)) && s.log <= RosStart(s, works).log
    ensures Sound(s.log) ==> Sound(RosStart(s, works).log)
    ensures Stranded(RosStart(s, works)) <==> if s.ros.Some? then Stranded(s) else !works
  {
    if s.ros.None? {
      var e := if works then Started(s.next) else StartFailed(s.next);
      UpMore(s.log, e);
      if Sound(s.log) { SoundMore(s.log, e); }
    }
  }

  lemma RosUse(s: Ros, op: Op)
    requires RosInv(s) && s.ros.Some? && (op.Broadcast? || op.Subscribe?)
    ensures RosInv(s.(log := s.log + [Use(op, s.ros.value)]))
  {
    UpMore(s.log, Use(op, s.ros.value));
  }

  lemma RosInvStep(s: Ros, op: Op)
    requires RosInv(s)
    ensures RosInv(RosNext(s, op)) && s.log <= RosNext(s, op).log
  {
    match op
    case Start(works) => RosStarts(s, works);
    case Stop => if s.ros.Some? { UpMore(s.log, Stopped(s.ros.value)); }
    case _ =>
      RosStarts(s, op.works);
      RosUse(RosStart(s, op.works), op);
  }

  lemma RosStep(s: Ros, op: Op)
    requires RosInv(s) && Sound(s.log)
    ensures Sound(RosNext(s, op).log) <==> !(Stranded(s) && !op.Start?)
  {
    match op
    case Start(works) => RosStarts(s, works);
    case Stop => if s.ros.Some? { SoundMore(s.log, Stopped(s.ros.value)); }
    case _ =>
      RosStarts(s, op.works);
      var held := RosStart(s, op.works);
      SoundMore(held.log, Use(op, held.ros.value));
  }

  /** A backend is held after these operations: none but stop lets go of it. */
  predicate HeldBy(ops: seq<Op>) {
    ops != [] && !ops[|ops| - 1].Stop?
  }

  /** The first operation since the last stop raised: its backend start failed. */
  predicate FirstRaised(ops: seq<Op>) {
    && HeldBy(ops)
    && var less := ops[..|ops| - 1];
    if HeldBy(less) then FirstRaised(less) else !ops[|ops| - 1].works
  }

  /** Operation k is not a start, and the first one since the last stop raised. */
  predicate Misuses(ops: seq<Op>, k: nat)
    requires k < |ops|
  {
    FirstRaised(ops[..k]) && !ops[k].Start?
  }

  lemma {:induction false} RosKeepsInv(ops: seq<Op>)
    ensures RosInv(RosRun(ops))
  {
    if ops != [] {
      RosKeepsInv(ops[..|ops| - 1]);
      RosInvStep(RosRun(ops[..|ops| - 1]), ops[|ops| - 1]);
    }
  }

  /** A transport is stranded exactly when the first operation since its last stop raised. */
  lemma {:induction false} StrandedIff(ops: seq<Op>)
    ensures RosRun(ops).ros.Some? <==> HeldBy(ops)
    ensures Stranded(RosRun(ops)) <==> FirstRaised(ops)
  {
    if ops != [] {
      var less, op := ops[..|ops| - 1], ops[|ops| - 1];
      StrandedIff(less);
      RosKeepsInv(less);
      if !op.Stop? {
        RosStarts(RosRun(less), op.works);
        var held := RosStart(RosRun(less), op.works);
        if !op.Start? { UpMore(held.log, Use(op, held.ros.value)); }
      }
    }
  }

  lemma RosOneMore(ops: seq<Op>, n: nat)
    requires n < |ops|
    ensures Sound(RosRun(ops[..n + 1]).log) == (Sound(RosRun(ops[..n]).log) && !Misuses(ops, n))
  {
    var s := RosRun(ops[..n]);
    assert ops[..n + 1][..n] == ops[..n];
    RosKeepsInv(ops[..n]);
    StrandedIff(ops[..n]);
    if Sound(s.log) {
      RosStep(s, ops[n]);
    } else {
      RosInvStep(s, ops[n]);
      UnsoundStays(s.log, RosNext(s, ops[n]).log);
    }
  }

  lemma {:induction false} AllOrNone(ok: seq<bool>, bad: seq<bool>, n: nat)
    requires n <= |bad| && |ok| == |bad| + 1 && ok[0]
    requires forall k :: 0 <= k < |bad| ==> ok[k + 1] == (ok[k] && !bad[k])
    ensures ok[n] <==> forall k :: 0 <= k < n ==> !bad[k]
  {
    if n > 0 { AllOrNone(ok, bad, n - 1); }
  }

  /** A ROS transport keeps the discipline exactly in the runs where, once the first operation since the
      last stop has raised, nothing but start follows until the run ends. */
  lemma RosLifeCycle(ops: seq<Op>)
    ensures Sound(RosRun(ops).log) <==> forall k :: 0 <= k < |ops| ==> !Misuses(ops, k)
  {
    var ok := seq(|ops| + 1, n requires 0 <= n <= |ops| => Sound(RosRun(ops[..n]).log));
    var bad := seq(|ops|, k requires 0 <= k < |ops| => Misuses(ops, k));
    forall k | 0 <= k < |bad| ensures ok[k + 1] == (ok[k] && !bad[k]) {
      RosOneMore(ops, k);
    }
    AllOrNone(ok, bad, |ops|);
    assert ops[..|ops|] == ops;
    assert forall k :: 0 <= k < |ops| ==> bad[k] == Misuses(ops, k);
  }

  /** A start that raises, then a broadcast: it goes to a backend that is not up. */
  lemma RaisedStartHappens()
    ensures !Sound(RosRun([Start(false), Broadcast(true)]).log)
  {
    var ops := [Start(false), Broadcast(true)];
    assert ops[..1] == [Start(false)] && ops[..1][..0] == [];
    assert FirstRaised(ops[..1]);
    assert Misuses(ops, 1);
    RosLifeCycle(ops);
  }

  predicate Works(op: Op) {
    op.Stop? || op.works
  }

  lemma RosHeldUp(s: Ros, op: Op)
    requires RosInv(s) && Works(op) && !Stranded(s)
    ensures !Stranded(RosNext(s, op))
  {
    match op
    case Start(works) => RosStarts(s, works);
    case Stop =>
    case _ =>
      RosStarts(s, op.works);
      var held := RosStart(s, op.works);
      UpMore(held.log, Use(op, held.ros.value));
  }

  /** When backend starts succeed, every run of a ROS transport is sound. */
  lemma {:induction false} RosWorksSound(ops: seq<Op>)
    requires forall op | op in ops :: Works(op)
    ensures Sound(RosRun(ops).log) && !Stranded(RosRun(ops))
  {
    for k := 0 to |ops|
      invariant Sound(RosRun(ops[..k]).log) && !Stranded(RosRun(ops[..k]))
    {
      assert ops[..k + 1][..k] == ops[..k] && ops[k] in ops;
      RosKeepsInv(ops[..k]);
      RosStep(RosRun(ops[..k]), ops[k]);
      RosHeldUp(RosRun(ops[..k]), ops[k]);
    }
    assert ops[..|ops|] == ops;
  }

  // ---------------------------------------------------------------- PubSubTransport

  /** The base class guards its lazy start only. */
  function BaseNext(s: Lazy, op: Op): Lazy {
    match op
    case Start(works) => BaseStart(s, works)
    case Stop => Lazy(false, s.log + [Stopped(0)])
    case _ =>
      var up := EnsureUp(s, op.works);
      if up.started then up.(log := up.log + [Use(op, 0)]) else up
  }

  /** A working start of a transport that is started, or a stop of one that is not. */
  predicate Unguarded(s: Lazy, op: Op) {
    if s.started then op.Start? && op.works else op.Stop?
  }

  lemma BaseStartStep(s: Lazy, works: bool)
    requires LazyInv(s)
    ensures Sound(BaseStart(s, works).log) == !Unguarded(s, Start(works))
    ensures Sound(BaseStart(s, works).log) ==> LazyInv(BaseStart(s, works))
  {
    SoundMore(s.log, if works then Started(0) else StartFailed(0));
  }

  lemma BaseStopStep(s: Lazy)
    requires LazyInv(s)
    ensures Sound(BaseNext(s, Stop).log) == !Unguarded(s, Stop)
    ensures Sound(BaseNext(s, Stop).log) ==> LazyInv(BaseNext(s, Stop))
  {
    SoundMore(s.log, Stopped(0));
  }

  lemma BaseUseStep(s: Lazy, op: Op)
    requires LazyInv(s) && (op.Broadcast? || op.Subscribe?)
    ensures LazyInv(BaseNext(s, op))
  {
    LazyStarts(s, op.works);
    if EnsureUp(s, op.works).started { LazyUse(EnsureUp(s, op.works), op); }
  }

  lemma BaseStep(s: Lazy, op: Op)
    requires LazyInv(s)
    ensures Sound(BaseNext(s, op).log) == !Unguarded(s, op)
    ensures Sound(BaseNext(s, op).log) ==> LazyInv(BaseNext(s, op))
  {
    match op
    case Start(works) => BaseStartStep(s, works);
    case Stop => BaseStopStep(s);
    case _ => BaseUseStep(s, op);
  }

  function BaseRun(ops: seq<Op>): Lazy {
    if ops == [] then FRESH else BaseNext(BaseRun(ops[..|ops| - 1]), ops[|ops| - 1])
  }

  predicate BaseInv(s: Lazy) {
    Sound(s.log) ==> LazyInv(s)
  }

  predicate UnguardedAt(ops: seq<Op>, k: nat)
    requires k < |ops|
  {
    Unguarded(BaseRun(ops[..k]), ops[k])
  }

  lemma {:induction false} BaseKeepsInv(ops: seq<Op>)
    ensures BaseInv(BaseRun(ops))
  {
    if ops != [] {
      var s, op := BaseRun(ops[..|ops| - 1]), ops[|ops| - 1];
      BaseKeepsInv(ops[..|ops| - 1]);
      if Sound(s.log) {
        BaseStep(s, op);
      } else {
        UnsoundStays(s.log, BaseNext(s, op).log);
      }
    }
  }

  lemma BaseOneMore(ops: seq<Op>, n: nat)
    requires n < |ops|
    ensures Sound(BaseRun(ops[..n + 1]).log) == (Sound(BaseRun(ops[..n]).log) && !UnguardedAt(ops, n))
  {
    var s := BaseRun(ops[..n]);
    assert ops[..n + 1][..n] == ops[..n];
    BaseKeepsInv(ops[..n]);
    if Sound(s.log) {
      BaseStep(s, ops[n]);
    } else {
      UnsoundStays(s.log, BaseNext(s, ops[n]).log);
    }
  }

  /** The base class keeps the discipline exactly in the runs whose starts and stops alternate already. */
  lemma BaseLifeCycle(ops: seq<Op>)
    ensures Sound(BaseRun(ops).log) <==> forall k :: 0 <= k < |ops| ==> !UnguardedAt(ops, k)
  {
    var ok := seq(|ops| + 1, n requires 0 <= n <= |ops| => Sound(BaseRun(ops[..n]).log));
    var bad := seq(|ops|, k requires 0 <= k < |ops| => UnguardedAt(ops, k));
    forall k | 0 <= k < |bad| ensures ok[k + 1] == (ok[k] && !bad[k]) {
      BaseOneMore(ops, k);
    }
    AllOrNone(ok, bad, |ops|);
    assert ops[..|ops|] == ops;
    assert forall k :: 0 <= k < |ops| ==> bad[k] == UnguardedAt(ops, k);
  }

  /** Two starts in a row, or a stop with nothing started. */
  lemma UnguardedHappens()
    ensures !Sound(BaseRun([Start(true), Start(true)]).log) && !Sound(BaseRun([Stop]).log)
  {
    var twice, stop := [Start(true), Start(true)], [Stop];
    assert twice[..1] == [Start(true)] && twice[..1][..0] == [] && stop[..0] == [];
    assert UnguardedAt(twice, 1) && UnguardedAt(stop, 0);
    BaseLifeCycle(twice);
    BaseLifeCycle(stop);
  }

  // ---------------------------------------------------------------- what gets through

  /** Some operation since the last stop had a working start. */
  predicate StartedSince(ops: seq<Op>) {
    && ops != [] && !ops[|ops| - 1].Stop?
    && (ops[|ops| - 1].works || StartedSince(ops[..|ops| - 1]))
  }

  /** A DDS transport is up exactly then. */
  lemma {:induction false} DdsUpIff(ops: seq<Op>)
    ensures DdsRun(ops).started <==> StartedSince(ops)
    ensures 0 in Up(DdsRun(ops).log) <==> StartedSince(ops)
  {
    DdsLifeCycle(ops);
    if ops != [] {
      DdsUpIff(ops[..|ops| - 1]);
    }
  }

  /** The publishes and subscribes among the effects: true for a publish. */
  function Uses(log: seq<Effect>): seq<bool> {
    if log == [] then []
    else
      var e := log[|log| - 1];
      Uses(log[..|log| - 1]) + if e.Published? then [true] else if e.Subscribed? then [false] else []
  }

  /** What an operation passes on: a broadcast or subscribe of a transport that is up, or that it brings up. */
  function Passes(op: Op, up: bool): seq<bool> {
    if op.Start? || op.Stop? || !(up || op.works) then [] else [op.Broadcast?]
  }

  /** What the operations pass on; up[k] tells whether the transport is up when operation k begins. */
  function Passed(ops: seq<Op>, up: seq<bool>): seq<bool>
    requires |ops| == |up|
  {
    if ops == [] then []
    else
      var n := |ops| - 1;
      Passed(ops[..n], up[..n]) + Passes(ops[n], up[n])
  }

  lemma UsesMore(log: seq<Effect>, e: Effect)
    ensures Uses(log + [e]) == Uses(log) + if e.Published? then [true] else if e.Subscribed? then [false] else []
  {
    assert (log + [e])[..|log|] == log;
  }

  lemma UpUses(log: seq<Effect>, works: bool, id: nat)
    ensures Uses(log + [if works then Started(id) else StartFailed(id)]) == Uses(log)
  {
    UsesMore(log, if works then Started(id) else StartFailed(id));
  }

  lemma OneUse(log: seq<Effect>, op: Op, id: nat)
    requires op.Broadcast? || op.Subscribe?
    ensures Uses(log + [Use(op, id)]) == Uses(log) + [op.Broadcast?]
  {
    UsesMore(log, Use(op, id));
  }

  lemma LazyStartUses(s: Lazy, works: bool)
    ensures Uses(BaseStart(s, works).log) == Uses(s.log) && Uses(EnsureUp(s, works).log) == Uses(s.log)
    ensures EnsureUp(s, works).started == (s.started || works)
  {
    UpUses(s.log, works, 0);
  }

  lemma DdsUses(s: Lazy, op: Op)
    ensures Uses(DdsNext(s, op).log) == Uses(s.log) + Passes(op, s.started)
  {
    match op
    case Start(works) => LazyStartUses(s, works);
    case Stop => UsesMore(s.log, Stopped(0));
    case _ =>
      LazyStartUses(s, op.works);
      OneUse(EnsureUp(s, op.works).log, op, 0);
  }

  lemma BaseUses(s: Lazy, op: Op)
    ensures Uses(BaseNext(s, op).log) == Uses(s.log) + Passes(op, s.started)
  {
    match op
    case Start(works) => LazyStartUses(s, works);
    case Stop => UsesMore(s.log, Stopped(0));
    case _ =>
      LazyStartUses(s, op.works);
      OneUse(EnsureUp(s, op.works).log, op, 0);
  }

  lemma RosUses(s: Ros, op: Op)
    ensures Uses(RosNext(s, op).log) == Uses(s.log) + Passes(op, s.ros.Some?)
  {
    match op
    case Start(works) => UpUses(s.log, works, s.next);
    case Stop => if s.ros.Some? { UsesMore(s.log, Stopped(s.ros.value)); }
    case _ =>
      UpUses(s.log, op.works, s.next);
      var held := RosStart(s, op.works);
      OneUse(held.log, op, held.ros.value);
  }

  function DdsUps(ops: seq<Op>): (up: seq<bool>)
    ensures |up| == |ops|
  {
    seq(|ops|, k requires 0 <= k < |ops| => StartedSince(ops[..k]))
  }

  function RosUps(ops: seq<Op>): (up: seq<bool>)
    ensures |up| == |ops|
  {
    seq(|ops|, k requires 0 <= k < |ops| => HeldBy(ops[..k]))
  }

  lemma UpsLess(ops: seq<Op>, n: nat)
    requires |ops| == n + 1
    ensures DdsUps(ops)[..n] == DdsUps(ops[..n]) && DdsUps(ops)[n] == StartedSince(ops[..n])
    ensures RosUps(ops)[..n] == RosUps(ops[..n]) && RosUps(ops)[n] == HeldBy(ops[..n])
  {
    forall k | 0 <= k < n ensures ops[..n][..k] == ops[..k] {
    }
  }

  lemma PassedMore(ops: seq<Op>, n: nat)
    requires |ops| == n + 1
    ensures Passed(ops, DdsUps(ops)) == Passed(ops[..n], DdsUps(ops[..n])) + Passes(ops[n], StartedSince(ops[..n]))
    ensures Passed(ops, RosUps(ops)) == Passed(ops[..n], RosUps(ops[..n])) + Passes(ops[n], HeldBy(ops[..n]))
  {
    UpsLess(ops, n);
  }

  /** Over every run a DDS transport passes exactly the operations that do not raise to its backend, in order. */
  lemma {:induction false} DdsPasses(ops: seq<Op>)
    ensures Uses(DdsRun(ops).log) == Passed(ops, DdsUps(ops))
  {
    if ops != [] {
      var n := |ops| - 1;
      DdsPasses(ops[..n]);
      DdsUpIff(ops[..n]);
      DdsUses(DdsRun(ops[..n]), ops[n]);
      PassedMore(ops, n);
    }
  }

  /** A ROS transport passes everything on once it holds a backend, and else what makes it hold a working one. */
  lemma {:induction false} RosPasses(ops: seq<Op>)
    ensures Uses(RosRun(ops).log) == Passed(ops, RosUps(ops))
  {
    if ops != [] {
      var n := |ops| - 1;
      RosPasses(ops[..n]);
      StrandedIff(ops[..n]);
      RosUses(RosRun(ops[..n]), ops[n]);
      PassedMore(ops, n);
    }
  }

  lemma {:induction false} BaseUpIff(ops: seq<Op>)
    ensures BaseRun(ops).started <==> StartedSince(ops)
  {
    if ops != [] {
      BaseUpIff(ops[..|ops| - 1]);
    }
  }

  /** So does the base class, which is up in the same runs as a DDS transport. */
  lemma {:induction false} BasePasses(ops: seq<Op>)
    ensures Uses(BaseRun(ops).log) == Passed(ops, DdsUps(ops))
  {
    if ops != [] {
      var n := |ops| - 1;
      BasePasses(ops[..n]);
      BaseUpIff(ops[..n]);
      BaseUses(BaseRun(ops[..n]), ops[n]);
      PassedMore(ops, n);
    }
  }
}
