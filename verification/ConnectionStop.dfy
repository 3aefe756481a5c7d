/**
 One connection's serve thread driving asynchronous operations on its own
 io_context, against stop(), which stores the stop flag and then calls
 ctx.stop(). Each call on the context, each atomic access and each completion
 handler is one step; the two threads interleave freely.
 */
module ConnectionStop {
  import opened Wrappers

  /** An activation of run_async_op's caller; the handler of its operation
      captures `done` and `op_ec` in it by reference. */
  type FrameId = nat

  datatype Pc =
    | Between                    // no operation pending
    | Started                    // operation started; restart() comes next
    | Restarted                  // stop flag to be loaded
    | Running                    // in ctx.run() or ctx.run_for()
    | Ran                        // `done` to be looked at
    | Closing                    // socket.close() comes next
    | DrainTest                  // drain_until_done: loop test
    | DrainRestart               // drain_until_done: restart() comes next
    | DrainEnter                 // drain_until_done: run() comes next
    | Draining(handlers: nat)    // in drain_until_done's run()
    | Throwing                   // the frame is about to unwind
    | Ended                      // serve_client has returned

  datatype Ran = HandlerRun(captured: FrameId, live: Option<FrameId>)

  datatype State = State(
    pc: Pc,
    bounded: bool,               // the operation carries the handshake timeout
    open: bool,                  // the socket
    halted: bool,                // the context's stopped state
    op: Option<FrameId>,         // the pending operation, by the frame it captured
    parts: nat,                  // intermediate completions it can still have
    frame: Option<FrameId>,      // the live frame
    done: bool,
    failed: bool,                // op_ec
    frames: nat,
    flag: bool,                  // stop_requested
    stopCalled: bool,            // stop() has called ctx.stop()
    // history
    handlers: seq<Ran>,
    stopAtRestart: bool)         // stopCalled when restart() last ran

  const INITIAL := State(Between, false, true, false, None, 0, None, false, false, 0, false, false, [], false)

  datatype Step =
    // stop()
    | StoreFlag | StopContext
    // serve thread
    | StartOp(bounded: bool, parts: nat) | Restart | LoadFlag
    | Handler(final: bool, error: bool) | TimeOut | RunReturns
    | TestDone | Close | TestLoop | EnterRun | Unwind

  predicate InRun(pc: Pc) { pc == Running || pc.Draining? }

  predicate Enabled(s: State, step: Step) {
    match step
    case StoreFlag => !s.flag
    case StopContext => s.flag && !s.stopCalled
    case StartOp(_, _) => s.pc == Between && s.open
    case Restart => s.pc == Started || s.pc == DrainRestart
    case LoadFlag => s.pc == Restarted
    case Handler(final, _) => InRun(s.pc) && !s.halted && s.op.Some? && (final || s.parts > 0)
    case TimeOut => s.pc == Running && s.bounded
    case RunReturns => InRun(s.pc) && (s.halted || s.op == None)
    case TestDone => s.pc == Ran
    case Close => s.pc == Closing
    case TestLoop => s.pc == DrainTest
    case EnterRun => s.pc == DrainEnter
    case Unwind => s.pc == Throwing
  }

  function Apply(s: State, step: Step): State
    requires Enabled(s, step)
  {
    match step
    case StoreFlag => s.(flag := true)
    case StopContext => s.(stopCalled := true, halted := true)
    case StartOp(bounded, parts) =>
      s.(pc := Started, bounded := bounded, op := Some(s.frames), parts := parts, frame := Some(s.frames),
         done := false, failed := false, frames := s.frames + 1)
    case Restart =>
      s.(pc := if s.pc == Started then Restarted else DrainEnter, halted := false, stopAtRestart := s.stopCalled)
    case LoadFlag => s.(pc := if s.flag then Closing else Running)
    case Handler(final, error) =>
      // A composed read or write runs intermediate handlers before its own, each
      // of them for bytes moved, so at most as many as it has bytes left.
      var s' := s.(pc := if s.pc == Running then Running else Draining(s.pc.handlers + 1));
      if final then
        s'.(op := None, handlers := s.handlers + [HandlerRun(s.op.value, s.frame)],
            done := s.done || s.frame == s.op, failed := if s.frame == s.op then error else s.failed)
      else s'.(parts := s.parts - 1)
    case TimeOut => s.(pc := Ran)
    case RunReturns =>
      // run() out of work leaves the context stopped.
      s.(halted := true,
         pc := if s.pc == Running then Ran else if s.pc.handlers == 0 then Throwing else DrainTest)
    case TestDone =>
      if !s.done then s.(pc := Closing)
      else if s.failed then s.(pc := Throwing)
      else s.(pc := Between, frame := None)
    case Close => s.(pc := DrainTest, open := false)
    case TestLoop => s.(pc := if s.done then Throwing else DrainRestart)
    case EnterRun => s.(pc := Draining(0))
    case Unwind => s.(pc := Ended, frame := None)
  }

  predicate Allowed(s: State, steps: seq<Step>)
    decreases |steps|
  {
    steps == [] || (Enabled(s, steps[0]) && Allowed(Apply(s, steps[0]), steps[1..]))
  }

  function Run(s: State, steps: seq<Step>): State
    requires Allowed(s, steps)
    decreases |steps|
  {
    if steps == [] then s else Run(Apply(s, steps[0]), steps[1..])
  }

  predicate InOp(pc: Pc) { pc != Between && pc != Ended }

  ghost predicate Invariant(s: State) {
    && (s.stopCalled ==> s.flag) && (s.stopAtRestart ==> s.stopCalled)
    && (s.pc == Between ==> s.op == None && s.frame == None)
    && (s.pc in {Between, Started, Restarted, Running, Ran, Closing} ==> s.open)
    && (s.pc == Ended ==> s.frame == None)
    && (InOp(s.pc) ==> s.frame.Some? && (s.op == None <==> s.done) && (s.op.Some? ==> s.op == s.frame))
    && (s.pc in {DrainTest, DrainRestart, DrainEnter} || s.pc.Draining? ==> !s.open)
    && (s.pc.Draining? && s.pc.handlers == 0 ==> s.op.Some?)
    && (s.pc == DrainRestart || s.pc == DrainEnter ==> s.op.Some?)
    // Since the last restart(), only stop() can have halted the context.
    && ((s.pc in {Restarted, DrainEnter} || (InRun(s.pc) && s.op.Some?)) ==>
          (s.halted <==> s.stopCalled && !s.stopAtRestart))
    // A thread that read the flag as clear restarted before stop() called ctx.stop().
    && (s.pc == Running ==> !s.stopAtRestart)
    && (forall h :: h in s.handlers ==> h.live == Some(h.captured))
  }

  lemma StopStepKeeps(s: State, step: Step)
    requires Invariant(s) && Enabled(s, step) && (step == StoreFlag || step == StopContext)
    ensures Invariant(Apply(s, step))
  {
  }

  lemma HandlerKeeps(s: State, step: Step)
    requires Invariant(s) && Enabled(s, step) && step.Handler?
    ensures Invariant(Apply(s, step))
  {
  }

  lemma ContextStepKeeps(s: State, step: Step)
    requires Invariant(s) && Enabled(s, step) && (step.StartOp? || step == Restart || step == RunReturns)
    ensures Invariant(Apply(s, step))
  {
    match step
    case StartOp(_, _) =>
    case Restart => RestartKeeps(s);
    case RunReturns => RunReturnsKeeps(s);
  }

  lemma RestartKeeps(s: State)
    requires Invariant(s) && Enabled(s, Restart)
    ensures Invariant(Apply(s, Restart))
  {
  }

  lemma RunReturnsKeeps(s: State)
    requires Invariant(s) && Enabled(s, RunReturns)
    ensures Invariant(Apply(s, RunReturns))
  {
  }

  lemma TestStepKeeps(s: State, step: Step)
    requires Invariant(s) && Enabled(s, step) && step in {LoadFlag, TimeOut, TestDone}
    ensures Invariant(Apply(s, step))
  {
  }

  lemma CloseStepKeeps(s: State, step: Step)
    requires Invariant(s) && Enabled(s, step) && step in {Close, TestLoop, EnterRun, Unwind}
    ensures Invariant(Apply(s, step))
  {
  }

  lemma InvariantStep(s: State, step: Step)
    requires Invariant(s) && Enabled(s, step)
    ensures Invariant(Apply(s, step))
  {
    if step == StoreFlag || step == StopContext {
      StopStepKeeps(s, step);
    } else if step.Handler? {
      HandlerKeeps(s, step);
    } else if step.StartOp? || step == Restart || step == RunReturns {
      ContextStepKeeps(s, step);
    } else if step in {LoadFlag, TimeOut, TestDone} {
      TestStepKeeps(s, step);
    } else {
      CloseStepKeeps(s, step);
    }
  }

  lemma {:induction false} InvariantRun(s: State, steps: seq<Step>)
    requires Invariant(s) && Allowed(s, steps)
    ensures Invariant(Run(s, steps))
    decreases |steps|
  {
    if steps != [] {
      InvariantStep(s, steps[0]);
      InvariantRun(Apply(s, steps[0]), steps[1..]);
    }
  }

  /** The stop/restart race: once stop() has made both calls, the serve thread
      never waits in run() with an open socket on a context that is not stopped. */
  lemma NeverWaitsAfterStop(steps: seq<Step>)
    requires Allowed(INITIAL, steps)
    ensures var s := Run(INITIAL, steps);
            s.flag && s.stopCalled && InRun(s.pc) && s.open && s.op.Some? ==> s.halted
  {
    InvariantRun(INITIAL, steps);
  }

  /** No completion handler runs after the frame it captured has unwound: each one
      that ever ran wrote through the frame that was live. */
  lemma HandlersFindTheirFrame(steps: seq<Step>, i: nat)
    requires Allowed(INITIAL, steps) && i < |Run(INITIAL, steps).handlers|
    ensures var h := Run(INITIAL, steps).handlers[i]; h.live == Some(h.captured)
  {
    InvariantRun(INITIAL, steps);
    assert Run(INITIAL, steps).handlers[i] in Run(INITIAL, steps).handlers;
  }

  /** Every return of run_async_op is final for its operation: whether it returned to
      the serve loop or threw, over every continuation of every run the handlers that
      run later captured the frame of a later operation. */
  lemma NothingRunsAfterTheReturn(steps: seq<Step>, more: seq<Step>, i: nat)
    requires Allowed(INITIAL, steps) && Run(INITIAL, steps).pc in {Between, Ended}
    requires Allowed(Run(INITIAL, steps), more)
    requires |Run(INITIAL, steps).handlers| <= i < |Run(Run(INITIAL, steps), more).handlers|
    ensures Run(Run(INITIAL, steps), more).handlers[i].captured >= Run(INITIAL, steps).frames
    ensures Run(INITIAL, steps).pc != Ended
  {
    InvariantRun(INITIAL, steps);
    var s := Run(INITIAL, steps);
    LaterOnly(s, more, |s.handlers|, s.frames);
    if s.pc == Ended { EndedStays(s, more); }
  }

  /** Whatever is pending belongs to frame `n` or later. */
  ghost predicate From(s: State, n: FrameId) { n <= s.frames && (s.pc == Ended || (s.op.Some? ==> n <= s.op.value)) }

  lemma LaterHandler(s: State, step: Step, n: FrameId)
    requires From(s, n) && Enabled(s, step) && step.Handler?
    ensures From(Apply(s, step), n) && n <= s.op.value
    ensures Apply(s, step).handlers == s.handlers + if step.final then [HandlerRun(s.op.value, s.frame)] else []
  {
  }

  lemma QuietStep(s: State, step: Step, n: FrameId)
    requires From(s, n) && Enabled(s, step) && !step.Handler?
    ensures From(Apply(s, step), n) && Apply(s, step).handlers == s.handlers
  {
    match step
    case StartOp(_, _) =>
    case Unwind =>
    case _ =>
  }

  /** The handlers run since `from` captured frame `n` or later. */
  predicate Later(handlers: seq<Ran>, from: nat, n: FrameId) {
    from <= |handlers| && forall i :: from <= i < |handlers| ==> handlers[i].captured >= n
  }

  lemma {:induction false} LaterOnly(s: State, more: seq<Step>, from: nat, n: FrameId)
    requires From(s, n) && Allowed(s, more) && Later(s.handlers, from, n)
    ensures Later(Run(s, more).handlers, from, n)
    decreases |more|
  {
    if more != [] {
      if more[0].Handler? { LaterHandler(s, more[0], n); } else { QuietStep(s, more[0], n); }
      LaterOnly(Apply(s, more[0]), more[1..], from, n);
    }
  }

  lemma {:induction false} EndedStays(s: State, more: seq<Step>)
    requires s.pc == Ended && Allowed(s, more)
    ensures Run(s, more).pc == Ended && Run(s, more).handlers == s.handlers
    decreases |more|
  {
    if more != [] { EndedStays(Apply(s, more[0]), more[1..]); }
  }

  // ---------------------------------------------------------------------
  // How an operation comes back
  // ---------------------------------------------------------------------

  /** What the steps of a run say of its latest operation: whether the stop flag was
      clear when it was loaded, and whether the operation's own handler ran in the
      main run() with no error. */
  datatype Course = Course(clear: bool, clean: bool)

  const NONE := Course(false, false)

  function Noted(s: State, course: Course, step: Step): Course {
    match step
    case StartOp(_, _) => NONE
    case LoadFlag => course.(clear := !s.flag)
    case Handler(final, error) => if final then course.(clean := s.pc == Running && !error) else course
    case _ => course
  }

  function CourseOf(s: State, course: Course, steps: seq<Step>): Course
    requires Allowed(s, steps)
    decreases |steps|
  {
    if steps == [] then course else CourseOf(Apply(s, steps[0]), Noted(s, course, steps[0]), steps[1..])
  }

  ghost predicate AsNoted(s: State, course: Course) {
    match s.pc
    case Between => s.frames > 0 ==> course.clear && course.clean
    case Started => course == NONE && !s.done
    case Restarted => course == NONE && !s.done
    case Running => course.clear && (course.clean <==> s.done && !s.failed)
    case Ran => course.clear && (course.clean <==> s.done && !s.failed)
    case _ => !(course.clear && course.clean)
  }

  lemma NotedStep(s: State, course: Course, step: Step)
    requires Invariant(s) && Enabled(s, step) && AsNoted(s, course)
    ensures AsNoted(Apply(s, step), Noted(s, course, step))
  {
    match step
    case StoreFlag =>
    case StopContext =>
    case Handler(_, _) => NotedHandler(s, course, step);
    case StartOp(_, _) => NotedStart(s, course, step);
    case Restart => NotedStart(s, course, step);
    case LoadFlag => NotedStart(s, course, step);
    case TimeOut => NotedEnd(s, course, step);
    case RunReturns => NotedEnd(s, course, step);
    case TestDone => NotedEnd(s, course, step);
    case _ => NotedClose(s, course, step);
  }

  lemma NotedHandler(s: State, course: Course, step: Step)
    requires Invariant(s) && Enabled(s, step) && AsNoted(s, course) && step.Handler?
    ensures AsNoted(Apply(s, step), Noted(s, course, step))
  {
  }

  lemma NotedStart(s: State, course: Course, step: Step)
    requires Invariant(s) && Enabled(s, step) && AsNoted(s, course)
    requires step.StartOp? || step == Restart || step == LoadFlag
    ensures AsNoted(Apply(s, step), Noted(s, course, step))
  {
  }

  lemma NotedEnd(s: State, course: Course, step: Step)
    requires Enabled(s, step) && AsNoted(s, course) && (step == TimeOut || step == RunReturns || step == TestDone)
    ensures AsNoted(Apply(s, step), Noted(s, course, step))
  {
  }

  lemma NotedClose(s: State, course: Course, step: Step)
    requires Enabled(s, step) && AsNoted(s, course)
    requires step == Close || step == TestLoop || step == EnterRun || step == Unwind
    ensures AsNoted(Apply(s, step), Noted(s, course, step))
  {
  }

  lemma {:induction false} NotedRun(s: State, course: Course, steps: seq<Step>)
    requires Invariant(s) && Allowed(s, steps) && AsNoted(s, course)
    ensures AsNoted(Run(s, steps), CourseOf(s, course, steps))
    decreases |steps|
  {
    if steps != [] {
      NotedStep(s, course, steps[0]);
      InvariantStep(s, steps[0]);
      NotedRun(Apply(s, steps[0]), Noted(s, course, steps[0]), steps[1..]);
    }
  }

  /** An operation comes back to the serve loop exactly when the flag was clear as it
      was loaded and the operation's own handler ran without error in the main run();
      every other one that is over was thrown out of. */
  lemma ReturnsExactlyWhenClean(steps: seq<Step>)
    requires Allowed(INITIAL, steps) && Run(INITIAL, steps).frames > 0
    requires Run(INITIAL, steps).pc in {Between, Throwing, Ended}
    ensures var course := CourseOf(INITIAL, NONE, steps);
            Run(INITIAL, steps).pc == Between <==> course.clear && course.clean
  {
    NotedRun(INITIAL, NONE, steps);
  }

  // ---------------------------------------------------------------------
  // After stop()
  // ---------------------------------------------------------------------

  /** Once stopped, the thread can always take a step of its own until it has
      ended: it waits for no peer (a closed socket completes its operation by
      itself). */
  lemma StoppedThreadCanMove(steps: seq<Step>) returns (next: Step)
    requires Allowed(INITIAL, steps) && Run(INITIAL, steps).stopCalled
    requires Run(INITIAL, steps).pc != Ended
    ensures Enabled(Run(INITIAL, steps), next)
    ensures next !in {StoreFlag, StopContext, TimeOut}
    ensures next.Handler? ==> !Run(INITIAL, steps).open
  {
    InvariantRun(INITIAL, steps);
    var s := Run(INITIAL, steps);
    match s.pc
    case Between => return StartOp(false, 0);
    case Started => return Restart;
    case Restarted => return LoadFlag;
    case Running => return RunReturns;
    case Ran => return TestDone;
    case Closing => return Close;
    case DrainTest => return TestLoop;
    case DrainRestart => return Restart;
    case DrainEnter => return EnterRun;
    case Draining(_) => return if s.halted || s.op == None then RunReturns else Handler(true, true);
    case Throwing => return Unwind;
  }

  /** Whether the thread may still leave its operation the ordinary way. */
  function Phase(pc: Pc): nat { if pc in {Between, Running, Ran} then 1 else 0 }

  /** How far a stopped thread is from its end, within a phase. */
  function Left(s: State): nat {
    match s.pc
    case Ended => 0
    case Throwing => 1
    case Between => 1
    case Ran => 2
    case Running => 3
    case DrainTest => if s.done then 2 else Work(s) + 6
    case Draining(_) => Work(s) + if s.stopAtRestart then 3 else 7
    case DrainEnter => Work(s) + if s.stopAtRestart then 4 else 8
    case DrainRestart => Work(s) + 5
    case Closing => Work(s) + 7
    case Restarted => Work(s) + 8
    case Started => Work(s) + 9
  }

  /** Completions the pending operation can still have. */
  function Work(s: State): nat { s.parts + if s.op.Some? then 1 else 0 }

  /** Every step a stopped thread takes brings it closer to its end: it passes to
      the phase in which its operation can only be torn down, or has less left. */
  lemma StoppedStepDescends(s: State, step: Step)
    requires Invariant(s) && s.stopCalled && Enabled(s, step)
    ensures Apply(s, step).stopCalled
    ensures Phase(Apply(s, step).pc) < Phase(s.pc)
            || (Phase(Apply(s, step).pc) == Phase(s.pc) && Left(Apply(s, step)) < Left(s))
  {
    match step
    case StoreFlag =>
    case StopContext =>
    case Handler(_, _) => StoppedRunDescends(s, step);
    case RunReturns => StoppedRunDescends(s, step);
    case StartOp(_, _) => StoppedStartDescends(s, step);
    case Restart => StoppedStartDescends(s, step);
    case LoadFlag => StoppedStartDescends(s, step);
    case _ => StoppedTestDescends(s, step);
  }

  lemma StoppedStartDescends(s: State, step: Step)
    requires Invariant(s) && s.stopCalled && Enabled(s, step)
    requires step.StartOp? || step == Restart || step == LoadFlag
    ensures Phase(Apply(s, step).pc) < Phase(s.pc)
            || (Phase(Apply(s, step).pc) == Phase(s.pc) && Left(Apply(s, step)) < Left(s))
  {
  }

  lemma StoppedTestDescends(s: State, step: Step)
    requires Invariant(s) && s.stopCalled && Enabled(s, step)
    requires step in {TimeOut, TestDone, Close, TestLoop, EnterRun, Unwind}
    ensures Phase(Apply(s, step).pc) < Phase(s.pc)
            || (Phase(Apply(s, step).pc) == Phase(s.pc) && Left(Apply(s, step)) < Left(s))
  {
  }

  lemma StoppedRunDescends(s: State, step: Step)
    requires Invariant(s) && s.stopCalled && Enabled(s, step) && (step.Handler? || step == RunReturns)
    ensures Phase(Apply(s, step).pc) < Phase(s.pc)
            || (Phase(Apply(s, step).pc) == Phase(s.pc) && Left(Apply(s, step)) < Left(s))
  {
  }

  /** Once stopped and past its last look at the flag, the thread ends within as
      many steps as it has left, however the steps fall. */
  lemma {:induction false} StoppedThreadEnds(s: State, steps: seq<Step>)
    requires Invariant(s) && s.stopCalled && Phase(s.pc) == 0 && Allowed(s, steps)
    ensures |steps| <= Left(s)
    ensures |steps| == Left(s) ==> Run(s, steps).pc == Ended
    decreases |steps|
  {
    if steps == [] {
    } else {
      StoppedStepDescends(s, steps[0]);
      InvariantStep(s, steps[0]);
      StoppedThreadEnds(Apply(s, steps[0]), steps[1..]);
    }
  }

  /** Before that it takes at most three steps. */
  lemma {:induction false} LastLookComesSoon(s: State, steps: seq<Step>)
    requires Invariant(s) && s.stopCalled && Phase(s.pc) == 1 && Allowed(s, steps) && |steps| >= Left(s)
    ensures exists k: nat :: k <= |steps| && Allowed(s, steps[..k]) && Phase(Run(s, steps[..k]).pc) == 0
    decreases |steps|
  {
    StoppedStepDescends(s, steps[0]);
    InvariantStep(s, steps[0]);
    var t := Apply(s, steps[0]);
    var k: nat := 0;
    if Phase(t.pc) == 0 {
      assert steps[1..][..0] == [];
    } else {
      LastLookComesSoon(t, steps[1..]);
      k :| k <= |steps[1..]| && Allowed(t, steps[1..][..k]) && Phase(Run(t, steps[1..][..k]).pc) == 0;
    }
    RunOne(s, steps[0], steps[1..][..k]);
    assert [steps[0]] + steps[1..][..k] == steps[..k + 1];
  }

  /** drain_until_done's run() can return without having run a handler exactly when
      ctx.stop() was called after the loop's last restart(); only then does the
      loop leave with `done` still false. */
  lemma DrainLeavesUndoneExactlyWhenRaced(steps: seq<Step>)
    requires Allowed(INITIAL, steps) && Run(INITIAL, steps).pc == Draining(0)
    ensures var s := Run(INITIAL, steps);
            && !s.done
            && (Enabled(s, RunReturns) <==> s.stopCalled && !s.stopAtRestart)
            && (Enabled(s, RunReturns) ==> Apply(s, RunReturns).pc == Throwing && !Apply(s, RunReturns).done)
  {
    InvariantRun(INITIAL, steps);
  }

  lemma RunOne(s: State, step: Step, rest: seq<Step>)
    requires Enabled(s, step) && Allowed(Apply(s, step), rest)
    ensures Allowed(s, [step] + rest) && Run(s, [step] + rest) == Run(Apply(s, step), rest)
  {
    assert ([step] + rest)[1..] == rest;
  }

  lemma {:induction false} RunConcat(s: State, a: seq<Step>, b: seq<Step>)
    requires Allowed(s, a) && Allowed(Run(s, a), b)
    ensures Allowed(s, a + b) && Run(s, a + b) == Run(Run(s, a), b)
    decreases |a|
  {
    if a == [] {
      assert a + b == b;
    } else {
      RunConcat(Apply(s, a[0]), a[1..], b);
      assert (a + b)[1..] == a[1..] + b;
    }
  }

  const FLAG_SEEN := State(Closing, false, true, false, Some(0), 0, Some(0), false, false, 1, true, false, [], false)
  const MID_DRAIN := FLAG_SEEN.(pc := DrainEnter, open := false)
  const TO_FLAG_SEEN := [StartOp(false, 0), Restart, StoreFlag, LoadFlag]
  const TO_MID_DRAIN := [Close, TestLoop, Restart]
  const RACED_EXIT := [StopContext, EnterRun, RunReturns, Unwind]

  lemma ReachesFlagSeen()
    ensures Allowed(INITIAL, TO_FLAG_SEEN) && Run(INITIAL, TO_FLAG_SEEN) == FLAG_SEEN
  {
    var s1 := Apply(INITIAL, StartOp(false, 0));
    var s2 := Apply(s1, Restart);
    var s3 := Apply(s2, StoreFlag);
    RunOne(s3, LoadFlag, []);
    RunOne(s2, StoreFlag, [LoadFlag]);
    RunOne(s1, Restart, [StoreFlag, LoadFlag]);
    RunOne(INITIAL, StartOp(false, 0), [Restart, StoreFlag, LoadFlag]);
    assert TO_FLAG_SEEN == [StartOp(false, 0)] + [Restart, StoreFlag, LoadFlag];
  }

  lemma ReachesMidDrain()
    ensures Allowed(FLAG_SEEN, TO_MID_DRAIN) && Run(FLAG_SEEN, TO_MID_DRAIN) == MID_DRAIN
  {
    var s1 := Apply(FLAG_SEEN, Close);
    var s2 := Apply(s1, TestLoop);
    RunOne(s2, Restart, []);
    RunOne(s1, TestLoop, [Restart]);
    RunOne(FLAG_SEEN, Close, [TestLoop, Restart]);
    assert TO_MID_DRAIN == [Close] + [TestLoop, Restart];
  }

  lemma LeavesUndone()
    ensures Allowed(MID_DRAIN, RACED_EXIT)
    ensures var s := Run(MID_DRAIN, RACED_EXIT); s.pc == Ended && !s.done && s.op == Some(0)
  {
    var s1 := Apply(MID_DRAIN, StopContext);
    var s2 := Apply(s1, EnterRun);
    var s3 := Apply(s2, RunReturns);
    RunOne(s3, Unwind, []);
    RunOne(s2, RunReturns, [Unwind]);
    RunOne(s1, EnterRun, [RunReturns, Unwind]);
    RunOne(MID_DRAIN, StopContext, [EnterRun, RunReturns, Unwind]);
    assert RACED_EXIT == [StopContext] + [EnterRun, RunReturns, Unwind];
  }

  /** Such a run exists: stop() stores its flag before the serve thread loads it
      but calls ctx.stop() only between the drain's restart() and its run(). The
      thread ends with its operation still pending. */
  lemma DrainCanLeaveUndone()
    ensures exists steps :: Allowed(INITIAL, steps)
              && Run(INITIAL, steps).pc == Ended && !Run(INITIAL, steps).done && Run(INITIAL, steps).op.Some?
  {
    ReachesFlagSeen();
    ReachesMidDrain();
    LeavesUndone();
    RunConcat(FLAG_SEEN, TO_MID_DRAIN, RACED_EXIT);
    RunConcat(INITIAL, TO_FLAG_SEEN, TO_MID_DRAIN + RACED_EXIT);
    assert Allowed(INITIAL, TO_FLAG_SEEN + (TO_MID_DRAIN + RACED_EXIT));
  }
}
