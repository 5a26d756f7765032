/** dimos/robot/unitree/g1/effectors/high_level/dds_sdk.py: motion commands and the auto-stop timer.
    Calls are serialised; timer threads run at any point, also inside a call. */
module DeadMan {
  import opened Messages

  datatype Vector3 = Vector3(x: real, y: real, z: real)
  datatype Twist = Twist(linear: Vector3, angular: Vector3)
  datatype Velocity = Velocity(vx: real, vy: real, vyaw: real)

  /** What the robot was told. */
  datatype Command = Continuous(v: Velocity) | Timed(v: Velocity, seconds: real) | StopMove

  /** How a client call ends; a call that raises may still have reached the robot. */
  datatype Reply = Reply(raises: bool, code: int, reached: bool)

  /** Unstarted: made, but its thread could not be started. Firing: past the point where cancelling has
      an effect, StopMove not called yet. */
  datatype Phase = Unstarted | Armed | Firing | Cancelled | Done

  /** birth: how many commands had reached the robot when the timer was created. */
  datatype Timer = Timer(phase: Phase, birth: nat)

  datatype State = State(ready: bool, running: bool, sent: seq<Command>, timers: seq<Timer>, stopTimer: Option<nat>)

  datatype Tick = Expire(i: nat) | AutoStop(i: nat, reply: Reply)

  datatype Result = Returned(success: bool) | AssertionFailed

  // ---------------------------------------------------------------- specification

  /** Forward and sideways speed, and the turn about the vertical axis. */
  function VelocityOf(twist: Twist): Velocity {
    Velocity(twist.linear.x, twist.linear.y, twist.angular.z)
  }

  /** What move tells the robot. */
  function Motion(twist: Twist, duration: real): Command {
    if duration > 0.0 then Timed(VelocityOf(twist), duration) else Continuous(VelocityOf(twist))
  }

  function Deliver(s: State, c: Command, reply: Reply): State {
    if reply.reached then s.(sent := s.sent + [c]) else s
  }

  function WithPhase(s: State, i: nat, p: Phase): State
    requires i < |s.timers|
  {
    s.(timers := s.timers[i := s.timers[i].(phase := p)])
  }

  function After(s: State, t: Tick): State {
    match t
    case Expire(i) =>
      if i < |s.timers| && s.timers[i].phase == Armed then WithPhase(s, i, Firing) else s
    case AutoStop(i, reply) =>
      if i < |s.timers| && s.timers[i].phase == Firing then Deliver(WithPhase(s, i, Done), StopMove, reply) else s
  }

  function AfterAll(s: State, ts: seq<Tick>): State {
    if ts == [] then s else After(AfterAll(s, ts[..|ts| - 1]), ts[|ts| - 1])
  }

  predicate Known(s: State) {
    s.stopTimer.Some? ==> s.stopTimer.value < |s.timers|
  }

  function CancelTimer(s: State): State
    requires Known(s)
  {
    if s.stopTimer.None? then s
    else
      var i := s.stopTimer.value;
      (if s.timers[i].phase == Armed then WithPhase(s, i, Cancelled) else s).(stopTimer := None)
  }

  /** The new timer is kept before it is started. */
  function Arm(s: State, starts: bool): State {
    s.(timers := s.timers + [Timer(if starts then Armed else Unstarted, |s.sent|)], stopTimer := Some(|s.timers|))
  }

  /** The timers' threads run before and after the client call; starts: whether a new timer starts. */
  datatype Call =
    | Start
    | Move(twist: Twist, duration: real, reply: Reply, before: seq<Tick>, after: seq<Tick>, starts: bool)
    | Stop(reply: Reply, before: seq<Tick>)
    | Elapse(t: Tick)

  /** The state in which the client is called. */
  function Called(s: State, before: seq<Tick>): State
    requires Known(s)
  {
    AfterAll(CancelTimer(s), before)
  }

  function Next(s: State, c: Call): State
    requires Known(s)
  {
    match c
    case Start => s.(ready := true, running := true)
    case Move(twist, duration, reply, before, after, starts) =>
      if !s.ready then s
      else
        var told := Deliver(Called(s, before), Motion(twist, duration), reply);
        if duration > 0.0 || reply.raises then told else Arm(AfterAll(told, after), starts)
    case Stop(reply, before) =>
      var called := Called(s, before);
      (if s.ready then Deliver(called, StopMove, reply) else called).(running := false)
    case Elapse(t) => After(s, t)
  }

  // ---------------------------------------------------------------- the module's methods

  class G1 {
    var ready: bool
    var running: bool
    var sent: seq<Command>
    var timers: seq<Timer>
    var stopTimer: Option<nat>

    ghost function View(): State
      reads this
    {
      State(ready, running, sent, timers, stopTimer)
    }

    constructor ()
      ensures View() == State(false, false, [], [], None)
    {
      ready, running, sent, timers, stopTimer := false, false, [], [], None;
    }

    /** The clients are made and the module runs; commands and timers are left alone. */
    method Start()
      requires Known(View())
      modifies this`ready, this`running
      ensures View() == Next(old(View()), Call.Start) && ready && running
    {
      ready, running := true, true;
    }

    method Reach(c: Command, reply: Reply)
      modifies this`sent
      ensures View() == Deliver(old(View()), c, reply)
    {
      if reply.reached { sent := sent + [c]; }
    }

    method RunTimers(ts: seq<Tick>)
      modifies this
      ensures View() == AfterAll(old(View()), ts)
    {
      for k := 0 to |ts|
        invariant View() == AfterAll(old(View()), ts[..k])
      {
        assert ts[..k + 1][..k] == ts[..k];
        RunTimer(ts[k]);
      }
      assert ts[..|ts|] == ts;
    }

    method RunTimer(t: Tick)
      modifies this
      ensures View() == After(old(View()), t)
    {
      match t
      case Expire(i) =>
        if i < |timers| && timers[i].phase == Armed {
          timers := timers[i := timers[i].(phase := Firing)];
        }
      case AutoStop(i, reply) =>
        if i < |timers| && timers[i].phase == Firing {
          timers := timers[i := timers[i].(phase := Done)];
          Reach(StopMove, reply);
        }
    }

    method CancelStopTimer()
      requires Known(View())
      modifies this
      ensures View() == CancelTimer(old(View())) && stopTimer == None && sent == old(sent)
      ensures |timers| == |old(timers)|
      ensures forall i :: 0 <= i < |timers| ==>
                timers[i] == if old(stopTimer) == Some(i) && old(timers)[i].phase == Armed
                             then Timer(Cancelled, old(timers)[i].birth) else old(timers)[i]
    {
      if stopTimer.Some? {
        var i := stopTimer.value;
        if timers[i].phase == Armed {
          timers := timers[i := timers[i].(phase := Cancelled)];
        }
        stopTimer := None;
      }
    }

    method Move(twist: Twist, duration: real, reply: Reply, before: seq<Tick>, after: seq<Tick>, starts: bool)
      returns (result: Result)
      requires Known(View())
      modifies this
      ensures View() == Next(old(View()), Call.Move(twist, duration, reply, before, after, starts))
      ensures result == if !old(ready) then AssertionFailed
                        else Returned(!reply.raises && if duration > 0.0 then reply.code == 0 else starts)
    {
      if !ready { return AssertionFailed; }
      var v := Velocity(twist.linear.x, twist.linear.y, twist.angular.z);
      CancelStopTimer();
      RunTimers(before);
      if duration > 0.0 {
        Reach(Timed(v, duration), reply);
        return Returned(!reply.raises && reply.code == 0);
      }
      Reach(Continuous(v), reply);
      if reply.raises { return Returned(false); }
      RunTimers(after);
      timers, stopTimer := timers + [Timer(Unstarted, |sent|)], Some(|timers|);
      if !starts { return Returned(false); }
      timers := timers[|timers| - 1 := Timer(Armed, |sent|)];
      return Returned(true);
    }

    method Stop(reply: Reply, before: seq<Tick>)
      requires Known(View())
      modifies this
      ensures View() == Next(old(View()), Call.Stop(reply, before))
    {
      ghost var was := View();
      CancelStopTimer();
      RunTimers(before);
      ReadyKept(CancelTimer(was), before);
      if ready { Reach(StopMove, reply); }
      running := false;
    }
  }

  lemma {:induction false} ReadyKept(s: State, ts: seq<Tick>)
    ensures AfterAll(s, ts).ready == s.ready && AfterAll(s, ts).stopTimer == s.stopTimer
    ensures |AfterAll(s, ts).timers| == |s.timers|
  {
    if ts != [] { ReadyKept(s, ts[..|ts| - 1]); }
  }

  // ---------------------------------------------------------------- safety

  /** The last command that reached the robot keeps it going until another one comes. */
  predicate Moving(s: State) {
    s.sent != [] && s.sent[|s.sent| - 1].Continuous?
  }

  predicate Live(p: Phase) {
    p == Armed || p == Firing
  }

  /** A timer created after the last command will still call StopMove. */
  predicate Covered(s: State) {
    Moving(s) ==> exists i :: 0 <= i < |s.timers| && Live(s.timers[i].phase) && s.timers[i].birth == |s.sent|
  }

  /** A timer created after the last command is past cancelling and about to call StopMove. */
  predicate StopPending(s: State) {
    exists i :: 0 <= i < |s.timers| && s.timers[i].phase == Firing && s.timers[i].birth == |s.sent|
  }

  /** At most one timer is armed, and it is the one the module holds. */
  predicate Inv(s: State) {
    && Known(s)
    && (forall i :: 0 <= i < |s.timers| && s.timers[i].phase == Armed ==> s.stopTimer == Some(i))
    && (forall i :: 0 <= i < |s.timers| ==> s.timers[i].birth <= |s.sent|)
  }

  predicate NoneArmed(s: State) {
    forall i :: 0 <= i < |s.timers| ==> s.timers[i].phase != Armed
  }

  lemma TickInv(s: State, t: Tick)
    requires Inv(s)
    ensures Inv(After(s, t)) && (NoneArmed(s) ==> NoneArmed(After(s, t)))
  {
  }

  lemma {:induction false} TicksInv(s: State, ts: seq<Tick>)
    requires Inv(s)
    ensures Inv(AfterAll(s, ts)) && (NoneArmed(s) ==> NoneArmed(AfterAll(s, ts)))
  {
    if ts != [] {
      TicksInv(s, ts[..|ts| - 1]);
      TickInv(AfterAll(s, ts[..|ts| - 1]), ts[|ts| - 1]);
    }
  }

  lemma CalledInv(s: State, before: seq<Tick>)
    requires Inv(s)
    ensures var called := Called(s, before);
            Inv(called) && NoneArmed(called) && called.stopTimer == None && called.ready == s.ready
  {
    TicksInv(CancelTimer(s), before);
    ReadyKept(CancelTimer(s), before);
  }

  lemma NextInv(s: State, c: Call)
    requires Inv(s)
    ensures Inv(Next(s, c))
  {
    match c
    case Start =>
    case Move(twist, duration, reply, before, after, starts) =>
      CalledInv(s, before);
      if duration <= 0.0 && !reply.raises {
        var sent := Deliver(Called(s, before), Motion(twist, duration), reply);
        TicksInv(sent, after);
        ReadyKept(sent, after);
      }
    case Stop(reply, before) => CalledInv(s, before);
    case Elapse(t) => TickInv(s, t);
  }

  /** After stop no timer is armed, and the module does not run; if its StopMove arrives, the robot stops. */
  lemma StopDisarms(s: State, reply: Reply, before: seq<Tick>)
    requires Inv(s)
    ensures var e := Next(s, Stop(reply, before));
            NoneArmed(e) && !e.running && (s.ready && reply.reached ==> !Moving(e))
  {
    CalledInv(s, before);
  }

  /** The reply that timer i's StopMove gets during ts, if it is called. */
  function FirstStop(ts: seq<Tick>, i: nat): Option<Reply> {
    if ts == [] then None
    else
      var earlier, t := FirstStop(ts[..|ts| - 1], i), ts[|ts| - 1];
      if earlier.None? && t.AutoStop? && t.i == i then Some(t.reply) else earlier
  }

  predicate FiringAt(s: State, i: nat) {
    i < |s.timers| && s.timers[i].phase == Firing
  }

  /** A timer already firing in s stops the robot during ts. */
  predicate Halted(s: State, ts: seq<Tick>) {
    exists i :: 0 <= i < |s.timers| && FiringAt(s, i) && FirstStop(ts, i).Some? && FirstStop(ts, i).value.reached
  }

  /** A timer made after the last command is already firing in s, and has not called StopMove by the end of ts. */
  predicate StillToStop(s: State, ts: seq<Tick>) {
    exists i :: 0 <= i < |s.timers| && FiringAt(s, i) && s.timers[i].birth == |s.sent| && FirstStop(ts, i).None?
  }

  /** Cancelling the armed timer in s leaves nothing that stops the robot: it goes on, no firing timer
      stops it during ts, and none is about to. */
  predicate Exposed(s: State, ts: seq<Tick>) {
    Moving(s) && !Halted(s, ts) && !StillToStop(s, ts)
  }

  /** A timer firing in s, whose StopMove is not called before the client call, stops the robot after it. */
  predicate HaltedAfter(s: State, before: seq<Tick>, after: seq<Tick>) {
    exists i :: 0 <= i < |s.timers| && FiringAt(s, i) && FirstStop(before, i).None?
                && FirstStop(after, i).Some? && FirstStop(after, i).value.reached
  }

  /** Timer i is the only live one made after the last command. */
  predicate OnlyCover(s: State, i: nat) {
    && FiringAt(s, i)
    && forall j :: 0 <= j < |s.timers| && j != i && Live(s.timers[j].phase) ==> s.timers[j].birth < |s.sent|
  }

  /** The calls and timer steps that leave the robot going with nothing left to stop it, told from the
      state they begin in, what the client answers and what firing timers do meanwhile. */
  predicate LosesCover(s: State, c: Call) {
    match c
    case Start => false
    case Move(twist, duration, reply, before, after, starts) =>
      && s.ready
      && if duration > 0.0 then !reply.reached && Exposed(s, before)
         else if reply.raises then reply.reached || Exposed(s, before)
         else !starts && if reply.reached then !HaltedAfter(s, before, after) else Exposed(s, before + after)
    case Stop(reply, before) => !(s.ready && reply.reached) && Exposed(s, before)
    case Elapse(Expire(i)) => false
    case Elapse(AutoStop(i, reply)) => !reply.reached && Moving(s) && OnlyCover(s, i)
  }

  // ---------------------------------------------------------------- timers during a call

  /** While nothing is armed, ts changes firing timers only, and adds only StopMoves that reach the robot. */
  predicate Elapsed(s: State, ts: seq<Tick>, e: State) {
    && |e.timers| == |s.timers| && e.ready == s.ready && e.stopTimer == s.stopTimer
    && (forall i :: 0 <= i < |s.timers| ==>
          && e.timers[i].birth == s.timers[i].birth
          && e.timers[i].phase == if FiringAt(s, i) && FirstStop(ts, i).Some? then Done else s.timers[i].phase)
    && |s.sent| <= |e.sent| && e.sent[..|s.sent|] == s.sent
    && (forall k :: |s.sent| <= k < |e.sent| ==> e.sent[k] == StopMove)
    && (|e.sent| > |s.sent| <==> Halted(s, ts))
  }

  /** One more timer step. */
  lemma FirstStopMore(ts: seq<Tick>, t: Tick, i: nat)
    ensures FirstStop(ts + [t], i)
            == if FirstStop(ts, i).None? && t.AutoStop? && t.i == i then Some(t.reply) else FirstStop(ts, i)
  {
    assert (ts + [t])[..|ts|] == ts;
  }

  lemma HaltedMore(s: State, ts: seq<Tick>, t: Tick)
    ensures Halted(s, ts + [t])
            <==> Halted(s, ts) || (t.AutoStop? && FiringAt(s, t.i) && FirstStop(ts, t.i).None? && t.reply.reached)
  {
    forall i: nat
      ensures FirstStop(ts + [t], i)
              == if FirstStop(ts, i).None? && t.AutoStop? && t.i == i then Some(t.reply) else FirstStop(ts, i)
    {
      FirstStopMore(ts, t, i);
    }
    if Halted(s, ts) {
      var i :| 0 <= i < |s.timers| && FiringAt(s, i) && FirstStop(ts, i).Some? && FirstStop(ts, i).value.reached;
      assert FirstStop(ts + [t], i).Some?;
    }
    if t.AutoStop? && FiringAt(s, t.i) && FirstStop(ts, t.i).None? && t.reply.reached {
      assert FirstStop(ts + [t], t.i) == Some(t.reply);
    }
  }

  lemma ElapsedMore(s: State, ts: seq<Tick>, e: State, t: Tick)
    requires NoneArmed(s) && Elapsed(s, ts, e)
    ensures Elapsed(s, ts + [t], After(e, t))
  {
    HaltedMore(s, ts, t);
    forall i | 0 <= i < |s.timers|
      ensures After(e, t).timers[i].phase
              == if FiringAt(s, i) && FirstStop(ts + [t], i).Some? then Done else s.timers[i].phase
    {
      FirstStopMore(ts, t, i);
    }
  }

  lemma {:induction false} AllElapsed(s: State, ts: seq<Tick>)
    requires NoneArmed(s)
    ensures Elapsed(s, ts, AfterAll(s, ts))
  {
    if ts != [] {
      var less := ts[..|ts| - 1];
      AllElapsed(s, less);
      ElapsedMore(s, less, AfterAll(s, less), ts[|ts| - 1]);
      assert ts == less + [ts[|ts| - 1]];
    }
  }

  /** With nothing armed, what goes on at the end of ts is exposed exactly as s tells. */
  lemma ExposedIff(s: State, ts: seq<Tick>)
    requires Inv(s) && NoneArmed(s)
    ensures Moving(AfterAll(s, ts)) && !StopPending(AfterAll(s, ts)) <==> Exposed(s, ts)
  {
    var e := AfterAll(s, ts);
    AllElapsed(s, ts);
    if !Halted(s, ts) {
      assert e.sent == s.sent;
      if StopPending(e) {
        var i :| 0 <= i < |e.timers| && e.timers[i].phase == Firing && e.timers[i].birth == |e.sent|;
        assert FiringAt(s, i) && FirstStop(ts, i).None?;
      }
      if StillToStop(s, ts) {
        var i :| 0 <= i < |s.timers| && FiringAt(s, i) && s.timers[i].birth == |s.sent| && FirstStop(ts, i).None?;
        assert e.timers[i].phase == Firing && e.timers[i].birth == |e.sent|;
      }
    }
  }

  /** Cancelling changes neither the firing timers nor the robot. */
  lemma CancelKeepsFiring(s: State, ts: seq<Tick>)
    requires Inv(s)
    ensures Inv(CancelTimer(s)) && NoneArmed(CancelTimer(s))
    ensures Exposed(CancelTimer(s), ts) <==> Exposed(s, ts)
  {
    var c := CancelTimer(s);
    assert c.sent == s.sent && |c.timers| == |s.timers|;
    assert forall i :: 0 <= i < |s.timers| ==>
          FiringAt(c, i) == FiringAt(s, i) && c.timers[i].birth == s.timers[i].birth;
    assert Halted(c, ts) <==> Halted(s, ts);
    assert StillToStop(c, ts) <==> StillToStop(s, ts);
  }

  /** When the client is called, the robot goes on with nothing about to stop it exactly if s is exposed. */
  lemma CalledExposed(s: State, before: seq<Tick>)
    requires Inv(s)
    ensures Moving(Called(s, before)) && !StopPending(Called(s, before)) <==> Exposed(s, before)
  {
    CancelKeepsFiring(s, before);
    ExposedIff(CancelTimer(s), before);
  }

  /** A continuous command has reached the robot: only a timer firing since before the call stops it. */
  lemma ReachedThenTicks(s: State, v: Velocity, before: seq<Tick>, after: seq<Tick>)
    requires Inv(s)
    ensures var told := Called(s, before).(sent := Called(s, before).sent + [Continuous(v)]);
            && Inv(told) && NoneArmed(told)
            && (Exposed(told, after) <==> !HaltedAfter(s, before, after))
  {
    var told := Called(s, before).(sent := Called(s, before).sent + [Continuous(v)]);
    CalledInv(s, before);
    CancelKeepsFiring(s, before);
    AllElapsed(CancelTimer(s), before);
    assert forall i :: 0 <= i < |s.timers| ==> FiringAt(told, i) == (FiringAt(s, i) && FirstStop(before, i).None?);
    assert Moving(told) && !StillToStop(told, after);
    assert Halted(told, after) <==> HaltedAfter(s, before, after);
  }

  lemma {:induction false} AfterBoth(s: State, before: seq<Tick>, after: seq<Tick>)
    ensures AfterAll(AfterAll(s, before), after) == AfterAll(s, before + after)
  {
    assert before + [] == before;
    for n := 0 to |after|
      invariant AfterAll(AfterAll(s, before), after[..n]) == AfterAll(s, before + after[..n])
    {
      var both := before + after[..n + 1];
      assert both[..|both| - 1] == before + after[..n] && both[|both| - 1] == after[n];
      assert after[..n + 1][..n] == after[..n];
    }
    assert after[..|after|] == after;
  }

  // ---------------------------------------------------------------- when cover is lost

  /** With nothing armed, a moving robot is covered just when a stop is pending. */
  lemma CoveredUnarmed(s: State)
    requires NoneArmed(s)
    ensures Covered(s) <==> (Moving(s) ==> StopPending(s))
  {
    if Moving(s) && Covered(s) {
      var i :| 0 <= i < |s.timers| && Live(s.timers[i].phase) && s.timers[i].birth == |s.sent|;
      assert s.timers[i].phase == Firing;
    }
  }

  lemma RefusedCover(s: State, c: Command, reply: Reply)
    requires Inv(s) && NoneArmed(s)
    ensures Covered(Deliver(s, c, reply))
            <==> if reply.reached then !c.Continuous? else !(Moving(s) && !StopPending(s))
  {
    CoveredUnarmed(s);
    CoveredUnarmed(Deliver(s, c, reply));
    assert reply.reached ==> !StopPending(Deliver(s, c, reply));
  }

  lemma ArmCovers(s: State)
    ensures Covered(Arm(s, true))
  {
    var e := Arm(s, true);
    assert e.timers[|s.timers|] == Timer(Armed, |e.sent|);
  }

  /** A timer that does not start covers nothing. */
  lemma UnstartedCover(s: State)
    requires NoneArmed(s)
    ensures Covered(Arm(s, false)) <==> !(Moving(s) && !StopPending(s))
  {
    var e := Arm(s, false);
    CoveredUnarmed(e);
    assert forall i :: 0 <= i < |s.timers| ==> e.timers[i] == s.timers[i];
    if StopPending(s) {
      var i :| 0 <= i < |s.timers| && s.timers[i].phase == Firing && s.timers[i].birth == |s.sent|;
      assert e.timers[i].phase == Firing && e.timers[i].birth == |e.sent|;
    }
  }

  /** A continuous move whose timer does not start. */
  lemma UnstartedMoveCover(s: State, c: Call)
    requires Inv(s) && s.ready && c.Move? && c.duration <= 0.0 && !c.reply.raises && !c.starts
    ensures Covered(Next(s, c)) <==> !LosesCover(s, c)
  {
    var told := Deliver(Called(s, c.before), Motion(c.twist, c.duration), c.reply);
    CalledInv(s, c.before);
    TicksInv(told, c.after);
    UnstartedCover(AfterAll(told, c.after));
    if c.reply.reached {
      ReachedThenTicks(s, VelocityOf(c.twist), c.before, c.after);
      ExposedIff(told, c.after);
    } else {
      AfterBoth(CancelTimer(s), c.before, c.after);
      CalledExposed(s, c.before + c.after);
    }
  }

  /** A timer that will stop the robot, seen before and after another timer's step. */
  lemma OtherTimerStays(s: State, t: Tick, j: nat)
    requires j < |s.timers| && j != t.i
    ensures j < |After(s, t).timers| && After(s, t).timers[j] == s.timers[j]
  {
  }

  lemma ExpireCover(s: State, i: nat)
    requires Covered(s)
    ensures Covered(After(s, Expire(i)))
  {
    var e := After(s, Expire(i));
    if Moving(s) {
      var j :| 0 <= j < |s.timers| && Live(s.timers[j].phase) && s.timers[j].birth == |s.sent|;
      assert Live(e.timers[j].phase) && e.timers[j].birth == |e.sent|;
    }
  }

  lemma AutoStopCover(s: State, i: nat, reply: Reply)
    requires Inv(s) && Covered(s) && Moving(s)
    requires i < |s.timers| && s.timers[i].phase == Firing && !reply.reached
    ensures Covered(After(s, AutoStop(i, reply)))
            <==> exists j :: 0 <= j < |s.timers| && j != i && Live(s.timers[j].phase) && s.timers[j].birth >= |s.sent|
  {
    var t := AutoStop(i, reply);
    var e := After(s, t);
    if j :| 0 <= j < |s.timers| && j != i && Live(s.timers[j].phase) && s.timers[j].birth >= |s.sent| {
      OtherTimerStays(s, t, j);
      assert Live(e.timers[j].phase) && e.timers[j].birth == |e.sent|;
    }
    if Covered(e) {
      var j :| 0 <= j < |e.timers| && Live(e.timers[j].phase) && e.timers[j].birth == |e.sent|;
      assert j != i;
      OtherTimerStays(s, t, j);
    }
  }

  lemma TickCover(s: State, t: Tick)
    requires Inv(s) && Covered(s)
    ensures Covered(After(s, t)) <==> !LosesCover(s, Elapse(t))
  {
    match t
    case Expire(i) => ExpireCover(s, i);
    case AutoStop(i, reply) =>
      if i < |s.timers| && s.timers[i].phase == Firing && !reply.reached && Moving(s) {
        AutoStopCover(s, i, reply);
      }
  }

  /** Cover is lost at exactly the steps LosesCover names. */
  lemma CoverExactly(s: State, c: Call)
    requires Inv(s) && Covered(s)
    ensures Covered(Next(s, c)) <==> !LosesCover(s, c)
  {
    match c
    case Start =>
    case Move(twist, duration, reply, before, after, starts) =>
      if s.ready {
        CalledInv(s, before);
        CalledExposed(s, before);
        if duration > 0.0 || reply.raises {
          RefusedCover(Called(s, before), Motion(twist, duration), reply);
        } else if starts {
          ArmCovers(AfterAll(Deliver(Called(s, before), Motion(twist, duration), reply), after));
        } else {
          UnstartedMoveCover(s, c);
        }
      }
    case Stop(reply, before) => StopCover(s, reply, before);
    case Elapse(t) => TickCover(s, t);
  }

  lemma StopCover(s: State, reply: Reply, before: seq<Tick>)
    requires Inv(s)
    ensures Covered(Next(s, Stop(reply, before))) <==> !LosesCover(s, Stop(reply, before))
  {
    var called := Called(s, before);
    CalledInv(s, before);
    CalledExposed(s, before);
    CoveredUnarmed(called);
    RefusedCover(called, StopMove, reply);
    assert Covered(Next(s, Stop(reply, before)))
           == Covered(if s.ready then Deliver(called, StopMove, reply) else called);
  }

  // ---------------------------------------------------------------- what the robot is told

  predicate OnlyStops(cs: seq<Command>) {
    forall i | 0 <= i < |cs| :: cs[i] == StopMove
  }

  /** What a timer step tells the robot. */
  lemma {:induction false} TicksTell(s: State, ts: seq<Tick>) returns (stops: seq<Command>)
    ensures AfterAll(s, ts).sent == s.sent + stops && OnlyStops(stops)
  {
    stops := [];
    if ts != [] {
      stops := TicksTell(s, ts[..|ts| - 1]);
      if AfterAll(s, ts).sent != AfterAll(s, ts[..|ts| - 1]).sent {
        stops := stops + [StopMove];
      }
    }
  }

  /** A move tells the robot exactly one thing, if the call reaches it: to go on at the speeds asked for, or to do
      so for the time asked for. Before and after it there are stops of earlier timers alone. */
  lemma MoveTells(s: State, c: Call) returns (early: seq<Command>, late: seq<Command>)
    requires Inv(s) && s.ready && c.Move?
    ensures OnlyStops(early) && OnlyStops(late)
    ensures var v := Velocity(c.twist.linear.x, c.twist.linear.y, c.twist.angular.z);
            Next(s, c).sent
            == s.sent + early
               + (if !c.reply.reached then [] else if c.duration > 0.0 then [Timed(v, c.duration)] else [Continuous(v)])
               + late
  {
    late := [];
    early := TicksTell(CancelTimer(s), c.before);
    if c.duration <= 0.0 && !c.reply.raises {
      late := TicksTell(Deliver(Called(s, c.before), Motion(c.twist, c.duration), c.reply), c.after);
    }
  }

  /** What stop tells it. */
  lemma StopTells(s: State, reply: Reply, before: seq<Tick>) returns (early: seq<Command>)
    requires Inv(s)
    ensures OnlyStops(early)
    ensures Next(s, Stop(reply, before)).sent == s.sent + early + if s.ready && reply.reached then [StopMove] else []
  {
    early := TicksTell(CancelTimer(s), before);
    CalledInv(s, before);
  }

  /** The commands that are not stops. */
  function Motions(cs: seq<Command>): seq<Command> {
    if cs == [] then []
    else Motions(cs[..|cs| - 1]) + if cs[|cs| - 1] == StopMove then [] else [cs[|cs| - 1]]
  }

  lemma {:induction false} MotionsMore(a: seq<Command>, b: seq<Command>)
    ensures Motions(a + b) == Motions(a) + Motions(b)
  {
    if b == [] {
      assert a + b == a;
    } else {
      assert (a + b)[..|a + b| - 1] == a + b[..|b| - 1];
      MotionsMore(a, b[..|b| - 1]);
    }
  }

  lemma {:induction false} NoMotions(cs: seq<Command>)
    requires OnlyStops(cs)
    ensures Motions(cs) == []
  {
    if cs != [] {
      NoMotions(cs[..|cs| - 1]);
    }
  }

  // ---------------------------------------------------------------- whole runs

  const INITIAL := State(false, false, [], [], None)

  lemma InitialInv()
    ensures Inv(INITIAL) && Covered(INITIAL)
  {
  }

  /** The state after the first calls of a run; Inv makes every call possible. */
  function Run(cs: seq<Call>): (s: State)
    ensures Inv(s)
  {
    if cs == [] then INITIAL
    else
      var s := Run(cs[..|cs| - 1]);
      NextInv(s, cs[|cs| - 1]);
      Next(s, cs[|cs| - 1])
  }

  /** The motions that the moves of a run ask for, once the module was started: those that reach the robot. */
  function Asked(cs: seq<Call>): seq<Command> {
    if cs == [] then []
    else
      var less, c := cs[..|cs| - 1], cs[|cs| - 1];
      Asked(less)
      + if !c.Move? || Start !in less || !c.reply.reached then []
        else
          var v := Velocity(c.twist.linear.x, c.twist.linear.y, c.twist.angular.z);
          if c.duration > 0.0 then [Timed(v, c.duration)] else [Continuous(v)]
  }

  lemma {:induction false} ReadyOnceStarted(cs: seq<Call>)
    ensures Run(cs).ready <==> Start in cs
  {
    if cs != [] {
      var less, c := cs[..|cs| - 1], cs[|cs| - 1];
      assert cs == less + [c];
      ReadyOnceStarted(less);
      ReadyNext(Run(less), c);
    }
  }

  lemma ReadyNext(s: State, c: Call)
    requires Inv(s)
    ensures Next(s, c).ready <==> s.ready || c == Start
  {
    match c
    case Start =>
    case Move(twist, duration, reply, before, after, starts) =>
      CalledInv(s, before);
      ReadyKept(Deliver(Called(s, before), Motion(twist, duration), reply), after);
    case Stop(reply, before) => CalledInv(s, before);
    case Elapse(t) =>
  }

  lemma StopsAside(a: seq<Command>, early: seq<Command>, told: seq<Command>, late: seq<Command>)
    requires OnlyStops(early) && OnlyStops(late)
    ensures Motions(a + early + told + late) == Motions(a) + Motions(told)
  {
    MotionsMore(a + early + told, late);
    MotionsMore(a + early, told);
    MotionsMore(a, early);
    NoMotions(early);
    NoMotions(late);
  }

  function ToldBy(c: Call): seq<Command>
    requires c.Move?
  {
    if c.reply.reached then [Motion(c.twist, c.duration)] else []
  }

  lemma MotionsNext(s: State, c: Call)
    requires Inv(s) && c.Move? && s.ready
    ensures Motions(Next(s, c).sent) == Motions(s.sent) + ToldBy(c)
  {
    var early, late := MoveTells(s, c);
    StopsAside(s.sent, early, ToldBy(c), late);
    if c.reply.reached { OneMotion(Motion(c.twist, c.duration)); }
  }

  lemma OneMotion(c: Command)
    ensures Motions([c]) == if c == StopMove then [] else [c]
  {
    assert [c][..0] == [] && Motions([]) == [];
  }

  lemma StopTellsNoMotion(s: State, reply: Reply, before: seq<Tick>)
    requires Inv(s)
    ensures Motions(Next(s, Stop(reply, before)).sent) == Motions(s.sent)
  {
    var early := StopTells(s, reply, before);
    var told := if s.ready && reply.reached then [StopMove] else [];
    StopsAside(s.sent, early, [], told);
    assert s.sent + early + [] == s.sent + early;
  }

  lemma TickTellsNoMotion(s: State, t: Tick)
    ensures Motions(After(s, t).sent) == Motions(s.sent)
  {
    var stops := TicksTell(s, [t]);
    assert [t][..0] == [];
    StopsAside(s.sent, [], [], stops);
    assert s.sent + [] + [] == s.sent;
  }

  lemma OthersTellNoMotion(s: State, c: Call)
    requires Inv(s) && (!c.Move? || !s.ready)
    ensures Motions(Next(s, c).sent) == Motions(s.sent)
  {
    match c
    case Start =>
    case Move(_, _, _, _, _, _) =>
    case Stop(reply, before) => StopTellsNoMotion(s, reply, before);
    case Elapse(t) => TickTellsNoMotion(s, t);
  }

  /** Over every run the robot is told the motions asked for, in that order, with nothing but stops between. */
  lemma {:induction false} MotionsAreAsked(cs: seq<Call>)
    ensures Motions(Run(cs).sent) == Asked(cs)
  {
    if cs != [] {
      var less, c := cs[..|cs| - 1], cs[|cs| - 1];
      MotionsAreAsked(less);
      ReadyOnceStarted(less);
      if c.Move? && Run(less).ready {
        MotionsNext(Run(less), c);
      } else {
        OthersTellNoMotion(Run(less), c);
      }
    }
  }

  /** Every client call succeeds, in the call and in the timers. */
  predicate Succeeds(c: Call) {
    match c
    case Start => true
    case Move(twist, duration, reply, before, after, starts) =>
      !reply.raises && if duration > 0.0 then reply.code == 0 && reply.reached else starts
    case Stop(reply, before) => reply.reached
    case Elapse(Expire(i)) => true
    case Elapse(AutoStop(i, reply)) => reply.reached
  }

  predicate Idle(s: State) {
    s.timers == [] && s.sent == []
  }

  lemma IdleNext(s: State, c: Call)
    requires Inv(s) && (!s.ready ==> Idle(s))
    ensures !Next(s, c).ready ==> Idle(Next(s, c))
  {
    match c
    case Start =>
    case Move(twist, duration, reply, before, after, starts) =>
      if s.ready {
        CalledInv(s, before);
        ReadyKept(Deliver(Called(s, before), Motion(twist, duration), reply), after);
      }
    case Stop(reply, before) =>
      CalledInv(s, before);
      if !s.ready { NothingTicks(CancelTimer(s), before); }
    case Elapse(t) =>
  }

  /** Before the first start there is nothing to stop. */
  lemma {:induction false} IdleUntilReady(cs: seq<Call>)
    ensures !Run(cs).ready ==> Idle(Run(cs))
  {
    if cs != [] {
      IdleUntilReady(cs[..|cs| - 1]);
      IdleNext(Run(cs[..|cs| - 1]), cs[|cs| - 1]);
    }
  }

  lemma {:induction false} NothingTicks(s: State, ts: seq<Tick>)
    requires s.timers == []
    ensures AfterAll(s, ts) == s
  {
    if ts != [] { NothingTicks(s, ts[..|ts| - 1]); }
  }

  /** While client calls succeed, a robot told to go on always has a timer that will stop it. */
  lemma {:induction false} AlwaysCovered(cs: seq<Call>)
    requires forall c | c in cs :: Succeeds(c)
    ensures Covered(Run(cs))
  {
    if cs == [] {
      InitialInv();
    } else {
      var less, c := cs[..|cs| - 1], cs[|cs| - 1];
      assert c in cs;
      AlwaysCovered(less);
      IdleUntilReady(less);
      CoverExactly(Run(less), c);
      if c.Stop? && !Run(less).ready {
        NothingTicks(CancelTimer(Run(less)), c.before);
      }
    }
  }

  /** After a continuous move whose client call returned, the new timer is held, made after the command, and it is
      the only one that is armed, if it started. */
  lemma MoveLeavesOneTimer(s: State, c: Call)
    requires Inv(s) && s.ready && c.Move? && c.duration <= 0.0 && !c.reply.raises
    ensures var n := Next(s, c);
            && |n.timers| == |s.timers| + 1 && n.stopTimer == Some(|s.timers|)
            && n.timers[|s.timers|] == Timer(if c.starts then Armed else Unstarted, |n.sent|)
            && forall i :: 0 <= i < |n.timers| ==> (n.timers[i].phase == Armed <==> i == |s.timers| && c.starts)
  {
    CalledInv(s, c.before);
    var sent := Deliver(Called(s, c.before), Motion(c.twist, c.duration), c.reply);
    TicksInv(sent, c.after);
    ReadyKept(sent, c.after);
    ReadyKept(CancelTimer(s), c.before);
  }

  /** The covering timer does its work: once it expires and its StopMove arrives, the robot stops, and the timer
      has done all it does. */
  lemma CoverStops(s: State, i: nat, reply: Reply)
    requires i < |s.timers| && Live(s.timers[i].phase) && reply.reached
    ensures var e := After(After(s, Expire(i)), AutoStop(i, reply));
            e.sent == s.sent + [StopMove] && !Moving(e) && forall t: Tick :: t.i == i ==> After(e, t) == e
  {
  }

  const ACCEPTED := Reply(false, 0, true)
  const LOST := Reply(true, 0, false)

  /** A robot already going keeps going, with no timer, when the next command raises on its way, when
      stop's own StopMove does, or when the next command's timer does not start. */
  lemma TimerGoneFirst(twist: Twist, c: Call)
    requires c in {Move(twist, 0.0, LOST, [], [], true), Move(twist, 1.0, LOST, [], [], true), Stop(LOST, []),
                   Move(twist, 0.0, ACCEPTED, [], [], false)}
    ensures var going := Run([Start, Move(twist, 0.0, ACCEPTED, [], [], true)]);
            Covered(going) && Moving(going) && Moving(Next(going, c)) && !Covered(Next(going, c))
  {
    var start := [Start];
    var cs := [Start, Move(twist, 0.0, ACCEPTED, [], [], true)];
    assert start[..0] == [] && cs[..1] == start;
    var going := Run(cs);
    assert Run(start) == INITIAL.(ready := true, running := true);
    assert going == State(true, true, [Continuous(VelocityOf(twist))], [Timer(Armed, 1)], Some(0));
    assert Live(going.timers[0].phase) && going.timers[0].birth == |going.sent|;
    assert Called(going, []).timers == [Timer(Cancelled, 1)];
    CoverExactly(going, c);
  }
}
