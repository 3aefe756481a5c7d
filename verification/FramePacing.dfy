/**
 The render loop's pacer: wake() is called by any serve thread, pace() by the
 GL thread once a frame. Everything between taking and releasing the pacer's
 mutex is one atomic stretch; the clock may advance between two of its reads.
 */
module FramePacing {
  import opened Wrappers

  datatype Pacer = Pacer(period: int, deadline: int, wakes: nat, consumed: nat)

  /** How a locked stretch of pace() ends: unlock and call on_wake, wait on the
      condition variable, or leave pace(). */
  datatype Verdict = Serve | Sleep | Return

  /** The clock readings of one stretch, in program order: loop guard, deadline
      check, overrun clamp. */
  datatype Readings = Readings(guard: int, check: int, clamp: int) {
    predicate Ordered() { guard <= check <= clamp }
  }

  function Judge(p: Pacer, r: Readings): Verdict {
    if p.consumed < p.wakes && r.guard < p.deadline then Serve
    else if r.check >= p.deadline then Return
    else Sleep
  }

  function Stretch(p: Pacer, r: Readings): Pacer {
    match Judge(p, r)
    case Serve => p.(consumed := p.wakes)
    case Sleep => p
    case Return =>
      var next := p.deadline + p.period;
      p.(deadline := if next < r.clamp then r.clamp + p.period else next)
  }

  datatype Event = Wake | Locked(readings: Readings)

  function Step(p: Pacer, e: Event): Pacer {
    match e
    case Wake => p.(wakes := p.wakes + 1)
    case Locked(r) => Stretch(p, r)
  }

  function Exec(p: Pacer, events: seq<Event>): Pacer
    decreases |events|
  {
    if events == [] then p else Exec(Step(p, events[0]), events[1..])
  }

  /** A clock that never goes back: every reading is at or after `now`. */
  predicate Monotone(now: int, events: seq<Event>)
    decreases |events|
  {
    events == [] ||
    match events[0]
    case Wake => Monotone(now, events[1..])
    case Locked(r) => now <= r.guard && r.Ordered() && Monotone(r.clamp, events[1..])
  }

  // ---------------------------------------------------------------------
  // Serving wakes
  // ---------------------------------------------------------------------

  function Serves(p: Pacer, events: seq<Event>): nat
    decreases |events|
  {
    if events == [] then 0
    else (if events[0].Locked? && Judge(p, events[0].readings) == Serve then 1 else 0)
         + Serves(Step(p, events[0]), events[1..])
  }

  function Wakes(events: seq<Event>): nat {
    if events == [] then 0 else (if events[0].Wake? then 1 else 0) + Wakes(events[1..])
  }

  /** Over any run, on_wake is called at most once per wake (bursts coalesce),
      and a wake that no on_wake has answered is still pending at the end. */
  lemma {:induction false} SurplusWakesStayPending(p: Pacer, events: seq<Event>)
    requires p.consumed <= p.wakes
    ensures var q := Exec(p, events);
            && q.consumed <= q.wakes == p.wakes + Wakes(events)
            && Serves(p, events) <= q.consumed - p.consumed
            && (Serves(p, events) == 0 ==> q.consumed == p.consumed)
    decreases |events|
  {
    if events != [] {
      SurplusWakesStayPending(Step(p, events[0]), events[1..]);
    }
  }

  /** A wake is not always served by the next pace(): when the frame itself
      overran the deadline, pace() returns at once and the wake stays pending
      for the pace() after it. */
  lemma OverrunPostponesAWake()
    ensures var p := Pacer(10, 100, 1, 0);
            var entry := Readings(105, 105, 105);
            var next := Readings(106, 106, 106);
            && Judge(p, entry) == Return
            && Stretch(p, entry).consumed < Stretch(p, entry).wakes
            && Judge(Stretch(p, entry), next) == Serve
  {
  }

  // ---------------------------------------------------------------------
  // Cadence
  // ---------------------------------------------------------------------

  /** The end of one pace(): the clock then, and the deadline it left behind. */
  datatype Mark = Mark(time: int, deadline: int)

  function Marks(p: Pacer, events: seq<Event>): seq<Mark>
    decreases |events|
  {
    if events == [] then []
    else
      var q := Step(p, events[0]);
      (if events[0].Locked? && Judge(p, events[0].readings) == Return
       then [Mark(events[0].readings.clamp, q.deadline)] else [])
      + Marks(q, events[1..])
  }

  /** A frame due at `deadline` that ended as `m` did overran by more than a period. */
  predicate Overran(period: int, deadline: int, m: Mark) { m.time > deadline + period }

  /** What every frame end satisfies relative to the deadline before it: it is not
      early, and the next deadline is a period after that one, or, after an overrun
      of more than a period, a period after the frame's end. */
  predicate Paced(period: int, deadline: int, marks: seq<Mark>)
    decreases |marks|
  {
    marks == [] ||
    (&& marks[0].time >= deadline
     && marks[0].deadline == period + (if Overran(period, deadline, marks[0]) then marks[0].time else deadline)
     && Paced(period, marks[0].deadline, marks[1..]))
  }

  lemma {:induction false} RunsArePaced(p: Pacer, now: int, events: seq<Event>)
    requires p.period >= 0 && Monotone(now, events)
    ensures Paced(p.period, p.deadline, Marks(p, events))
    decreases |events|
  {
    if events != [] {
      var q := Step(p, events[0]);
      match events[0]
      case Wake =>
        RunsArePaced(q, now, events[1..]);
        assert Marks(p, events) == Marks(q, events[1..]);
      case Locked(r) =>
        RunsArePaced(q, r.clamp, events[1..]);
        if Judge(p, r) == Return {
          assert Marks(p, events)[1..] == Marks(q, events[1..]);
        } else {
          assert Marks(p, events) == Marks(q, events[1..]);
        }
    }
  }

  lemma {:induction false} PacedDeadlines(period: int, deadline: int, marks: seq<Mark>, n: nat)
    requires period >= 0 && Paced(period, deadline, marks) && n < |marks|
    ensures marks[n].time >= deadline + n * period
    ensures marks[n].time <= marks[n].deadline <= marks[n].time + period
    decreases n
  {
    if n > 0 {
      PacedDeadlines(period, marks[0].deadline, marks[1..], n - 1);
      assert n * period == (n - 1) * period + period;
    }
  }

  lemma {:induction false} PacedSuffix(period: int, deadline: int, marks: seq<Mark>, i: nat)
    requires Paced(period, deadline, marks) && i < |marks|
    ensures Paced(period, marks[i].deadline, marks[i + 1..])
    decreases i
  {
    if i > 0 {
      PacedSuffix(period, marks[0].deadline, marks[1..], i - 1);
      assert marks[1..][i..] == marks[i + 1..];
    }
  }

  /** The frame ending at `b`, `k` after the one ending at `a`, is at least k - 1
      periods behind its deadline. */
  predicate Behind(period: int, a: Mark, b: Mark, k: int) { b.time >= a.deadline + (k - 1) * period }

  predicate OnTime(period: int, m: Mark) { m.time <= m.deadline <= m.time + period }

  /** Frames of a paced loop: each deadline at most a period ahead of the clock, and
      all of them apart. */
  predicate Spaced(period: int, marks: seq<Mark>) {
    && (forall i :: 0 <= i < |marks| ==> OnTime(period, marks[i]))
    && (forall i, j :: 0 <= i < j < |marks| ==> Behind(period, marks[i], marks[j], j - i))
  }

  lemma PairIsSpaced(period: int, deadline: int, marks: seq<Mark>, i: nat, j: nat)
    requires period >= 0 && Paced(period, deadline, marks) && i < j < |marks|
    ensures Behind(period, marks[i], marks[j], j - i)
  {
    PacedSuffix(period, deadline, marks, i);
    PacedDeadlines(period, marks[i].deadline, marks[i + 1..], j - i - 1);
    assert marks[i + 1..][j - i - 1] == marks[j];
  }

  /** No catch-up burst: however late a frame ends and however often clients
      wake the pacer, the frames after it keep their distance. */
  lemma NoCatchUpBurst(p: Pacer, now: int, events: seq<Event>)
    requires p.period >= 0 && Monotone(now, events)
    ensures Spaced(p.period, Marks(p, events))
  {
    var marks := Marks(p, events);
    RunsArePaced(p, now, events);
    forall i | 0 <= i < |marks| ensures OnTime(p.period, marks[i]) {
      PacedDeadlines(p.period, p.deadline, marks, i);
    }
    forall i, j | 0 <= i < j < |marks| ensures Behind(p.period, marks[i], marks[j], j - i) {
      PairIsSpaced(p.period, p.deadline, marks, i, j);
    }
  }

  /** The deadline the `i`-th frame had to meet. */
  function Due(p: Pacer, marks: seq<Mark>, i: nat): int
    requires i <= |marks|
  {
    if i == 0 then p.deadline else marks[i - 1].deadline
  }

  /** The cadence, exactly: no frame ends before its deadline; the next deadline is
      one period later, unless the frame ended later still: then the cadence restarts
      from its end, and the frame after it ends a whole period later at least. */
  lemma DeadlinesAreExact(p: Pacer, now: int, events: seq<Event>, i: nat)
    requires p.period >= 0 && Monotone(now, events) && i < |Marks(p, events)|
    ensures var marks := Marks(p, events);
      && marks[i].time >= Due(p, marks, i)
      && (marks[i].time <= Due(p, marks, i) + p.period ==> marks[i].deadline == Due(p, marks, i) + p.period)
      && (marks[i].time > Due(p, marks, i) + p.period ==>
            && marks[i].deadline == marks[i].time + p.period
            && (i + 1 < |marks| ==> marks[i + 1].time >= marks[i].time + p.period))
  {
    var marks := Marks(p, events);
    RunsArePaced(p, now, events);
    if i > 0 { PacedSuffix(p.period, p.deadline, marks, i - 1); }
    PacedSuffix(p.period, p.deadline, marks, i);
  }

  /** No drift: while no frame overruns by more than a period, the deadlines stay on
      one grid, whatever the clock read as each frame ended. */
  lemma {:induction false} NoDrift(p: Pacer, now: int, events: seq<Event>, i: nat, j: nat)
    requires p.period >= 0 && Monotone(now, events) && i <= j <= |Marks(p, events)|
    requires var marks := Marks(p, events);
      forall k :: i <= k < j ==> !Overran(p.period, Due(p, marks, k), marks[k])
    ensures var marks := Marks(p, events); Due(p, marks, j) == Due(p, marks, i) + (j - i) * p.period
    decreases j - i
  {
    if i < j {
      NoDrift(p, now, events, i, j - 1);
      DeadlinesAreExact(p, now, events, j - 1);
      assert (j - i) * p.period == (j - 1 - i) * p.period + p.period;
    }
  }

  // ---------------------------------------------------------------------
  // Runs in parts
  // ---------------------------------------------------------------------

  lemma {:induction false} RunConcat(p: Pacer, a: seq<Event>, b: seq<Event>)
    ensures Exec(p, a + b) == Exec(Exec(p, a), b)
    ensures Marks(p, a + b) == Marks(p, a) + Marks(Exec(p, a), b)
    ensures Serves(p, a + b) == Serves(p, a) + Serves(Exec(p, a), b)
    decreases |a|
  {
    if a == [] {
      assert a + b == b;
    } else {
      assert (a + b)[1..] == a[1..] + b;
      RunConcat(Step(p, a[0]), a[1..], b);
    }
  }

  function Arrivals(n: nat): seq<Event> { if n == 0 then [] else [Wake] + Arrivals(n - 1) }

  lemma {:induction false} ArrivalsAreWakes(p: Pacer, n: nat)
    ensures Exec(p, Arrivals(n)) == p.(wakes := p.wakes + n)
    ensures Marks(p, Arrivals(n)) == [] && Serves(p, Arrivals(n)) == 0
    decreases n
  {
    if n > 0 {
      assert Arrivals(n)[1..] == Arrivals(n - 1);
      ArrivalsAreWakes(Step(p, Wake), n - 1);
    }
  }

  lemma OneStretch(p: Pacer, r: Readings)
    ensures Exec(p, [Locked(r)]) == Stretch(p, r)
    ensures Marks(p, [Locked(r)]) == if Judge(p, r) == Return then [Mark(r.clamp, Stretch(p, r).deadline)] else []
    ensures Serves(p, [Locked(r)]) == if Judge(p, r) == Serve then 1 else 0
  {
    var one := [Locked(r)];
    assert one[1..] == [];
  }

  /** At any point of any run: pace() goes to sleep only when every wake() made so
      far has been consumed; it serves exactly when one has not and the guard's
      reading is before the deadline, and one on_wake serves them all. */
  lemma SleepsOnlyWhenServed(p: Pacer, events: seq<Event>, i: nat)
    requires p.consumed <= p.wakes
    requires i < |events| && events[i].Locked? && events[i].readings.Ordered()
    ensures var q, r, made := Exec(p, events[..i]), events[i].readings, p.wakes + Wakes(events[..i]);
            && (Judge(q, r) == Sleep ==> q.consumed == made && r.check < q.deadline)
            && (Judge(q, r) == Serve <==> q.consumed < made && r.guard < q.deadline)
            && (Judge(q, r) == Serve ==> Exec(p, events[..i + 1]).consumed == made)
  {
    SurplusWakesStayPending(p, events[..i]);
    assert events[..i + 1] == events[..i] + [events[i]];
    RunConcat(p, events[..i], [events[i]]);
    OneStretch(Exec(p, events[..i]), events[i].readings);
  }

  // ---------------------------------------------------------------------
  // The object
  // ---------------------------------------------------------------------

  /** One turn of pace()'s loop as its environment shows it: the readings of
      the locked stretch, and how many wake() calls land while the mutex is
      released after it. */
  datatype Turn = Turn(readings: Readings, arrivals: nat)

  /** The first `n` turns, none of which returned. */
  function Events(turns: seq<Turn>, n: nat): seq<Event>
    requires n <= |turns|
  {
    if n == 0 then []
    else Events(turns, n - 1) + ([Locked(turns[n - 1].readings)] + Arrivals(turns[n - 1].arrivals))
  }

  function Turned(p: Pacer, t: Turn): Pacer {
    var q := Stretch(p, t.readings);
    q.(wakes := q.wakes + t.arrivals)
  }

  /** The first turn that returns, from turn `k` on, which is reached in state `p`. */
  function FirstReturn(p: Pacer, turns: seq<Turn>, k: nat): (at: Option<nat>)
    requires k <= |turns|
    ensures at.Some? ==> k <= at.value < |turns|
    decreases |turns| - k
  {
    if k == |turns| then None
    else if Judge(p, turns[k].readings) == Return then Some(k)
    else FirstReturn(Turned(p, turns[k]), turns, k + 1)
  }

  /** What happens over a pace(): turns up to the first that returns. */
  function PaceEvents(p: Pacer, turns: seq<Turn>): seq<Event> {
    match FirstReturn(p, turns, 0)
    case Some(k) => Events(turns, k) + [Locked(turns[k].readings)]
    case None => Events(turns, |turns|)
  }

  /** One more turn that goes on. */
  lemma TurnGoesOn(p: Pacer, turns: seq<Turn>, k: nat)
    requires k < |turns| && Judge(Exec(p, Events(turns, k)), turns[k].readings) != Return
    ensures var q, r := Exec(p, Events(turns, k)), turns[k].readings;
            && Exec(p, Events(turns, k + 1)) == Turned(q, turns[k])
            && Marks(p, Events(turns, k + 1)) == Marks(p, Events(turns, k))
            && Serves(p, Events(turns, k + 1)) == Serves(p, Events(turns, k)) + if Judge(q, r) == Serve then 1 else 0
  {
    var q, r, n := Exec(p, Events(turns, k)), turns[k].readings, turns[k].arrivals;
    RunConcat(p, Events(turns, k), [Locked(r)] + Arrivals(n));
    RunConcat(q, [Locked(r)], Arrivals(n));
    OneStretch(q, r);
    ArrivalsAreWakes(Stretch(q, r), n);
  }

  /** pace() is still going after `used` turns. */
  ghost predicate Pacing(p: Pacer, turns: seq<Turn>, used: nat, q: Pacer, calls: nat) {
    && used <= |turns| && FirstReturn(p, turns, 0) == FirstReturn(q, turns, used)
    && q == Exec(p, Events(turns, used))
    && Marks(p, Events(turns, used)) == [] && calls == Serves(p, Events(turns, used))
  }

  lemma PacingGoesOn(p: Pacer, turns: seq<Turn>, used: nat, q: Pacer, calls: nat)
    requires Pacing(p, turns, used, q, calls) && used < |turns| && Judge(q, turns[used].readings) != Return
    ensures Pacing(p, turns, used + 1, Turned(q, turns[used]),
                   if Judge(q, turns[used].readings) == Serve then calls + 1 else calls)
  {
    TurnGoesOn(p, turns, used);
  }

  /** What a pace() comes to: `used` turns, up to the first that returns or all of
      them, with `calls` calls of on_wake, leaving `q` and, if it returned, marking
      the end of a frame. */
  ghost predicate Done(p: Pacer, turns: seq<Turn>, returned: bool, used: nat, calls: nat, q: Pacer) {
    && used <= |turns|
    && (if returned then used > 0 && FirstReturn(p, turns, 0) == Some(used - 1)
        else used == |turns| && FirstReturn(p, turns, 0) == None)
    && q == Exec(p, PaceEvents(p, turns)) && calls == Serves(p, PaceEvents(p, turns))
    && Marks(p, PaceEvents(p, turns))
       == if returned then [Mark(turns[used - 1].readings.clamp, q.deadline)] else []
  }

  lemma PacingReturns(p: Pacer, turns: seq<Turn>, used: nat, q: Pacer, calls: nat)
    requires Pacing(p, turns, used, q, calls) && used < |turns| && Judge(q, turns[used].readings) == Return
    ensures Done(p, turns, true, used + 1, calls, Stretch(q, turns[used].readings))
  {
    var r := turns[used].readings;
    RunConcat(p, Events(turns, used), [Locked(r)]);
    OneStretch(q, r);
  }

  lemma PacingEnds(p: Pacer, turns: seq<Turn>, q: Pacer, calls: nat)
    requires Pacing(p, turns, |turns|, q, calls)
    ensures Done(p, turns, false, |turns|, calls, q)
  {
  }

  lemma {:induction false} StartsLocked(turns: seq<Turn>, n: nat)
    requires 0 < n <= |turns|
    ensures Events(turns, n) != [] && Events(turns, n)[0] == Locked(turns[0].readings)
    decreases n
  {
    if n > 1 { StartsLocked(turns, n - 1); }
  }

  /** A wake pending as pace() is entered is answered by that pace() exactly when the
      first reading of the clock is before the deadline. */
  lemma WakeServedExactly(p: Pacer, turns: seq<Turn>)
    requires p.consumed < p.wakes && turns != [] && turns[0].readings.Ordered()
    ensures Serves(p, PaceEvents(p, turns)) > 0 <==> turns[0].readings.guard < p.deadline
  {
    assert Events(turns, 0) == [];
    if turns[0].readings.guard < p.deadline {
      match FirstReturn(p, turns, 0)
      case Some(k) => StartsLocked(turns, k);
      case None => StartsLocked(turns, |turns|);
    } else {
      assert PaceEvents(p, turns) == [Locked(turns[0].readings)];
      OneStretch(p, turns[0].readings);
    }
  }

  /** A pass of the render loop: what lands while the frame is drawn, and the
      turns its pace() may take. */
  datatype Frame = Frame(arrivals: nat, turns: seq<Turn>)

  /** What happens over one pass, and over passes until a pace() does not return. */
  function FrameEvents(p: Pacer, frame: Frame): seq<Event> {
    Arrivals(frame.arrivals) + PaceEvents(p.(wakes := p.wakes + frame.arrivals), frame.turns)
  }

  function LoopEvents(p: Pacer, frames: seq<Frame>): seq<Event>
    decreases |frames|
  {
    if frames == [] then []
    else
      var events := FrameEvents(p, frames[0]);
      if Marks(p, events) == [] then events else events + LoopEvents(Exec(p, events), frames[1..])
  }

  /** A run that came to `q` with these marks, continued. */
  lemma Afterwards(p: Pacer, ran: seq<Event>, q: Pacer, marks: seq<Mark>, events: seq<Event>)
    requires Exec(p, ran) == q && Marks(p, ran) == marks
    ensures Exec(p, ran + events) == Exec(q, events) && Marks(p, ran + events) == marks + Marks(q, events)
  {
    RunConcat(p, ran, events);
  }

  lemma FrameRun(p: Pacer, n: nat, q: Pacer, events: seq<Event>, paced: seq<Event>)
    requires q == p.(wakes := p.wakes + n) && events == Arrivals(n) + paced
    ensures Exec(p, events) == Exec(q, paced) && Marks(p, events) == Marks(q, paced)
  {
    ArrivalsAreWakes(p, n);
    Afterwards(p, Arrivals(n), q, [], paced);
  }

  lemma FrameParts(p: Pacer, frame: Frame, q: Pacer)
    requires q == p.(wakes := p.wakes + frame.arrivals)
    ensures FrameEvents(p, frame) == Arrivals(frame.arrivals) + PaceEvents(q, frame.turns)
  {
  }

  lemma PassState(p: Pacer, frame: Frame, q: Pacer)
    requires q == p.(wakes := p.wakes + frame.arrivals)
    ensures Exec(p, FrameEvents(p, frame)) == Exec(q, PaceEvents(q, frame.turns))
  {
    FrameParts(p, frame, q);
    FrameRun(p, frame.arrivals, q, FrameEvents(p, frame), PaceEvents(q, frame.turns));
  }

  lemma PassMarks(p: Pacer, frame: Frame, q: Pacer)
    requires q == p.(wakes := p.wakes + frame.arrivals)
    ensures Marks(p, FrameEvents(p, frame)) == Marks(q, PaceEvents(q, frame.turns))
  {
    FrameParts(p, frame, q);
    FrameRun(p, frame.arrivals, q, FrameEvents(p, frame), PaceEvents(q, frame.turns));
  }

  /** After `n` passes, the loop still `going` or not. */
  ghost predicate Looping(p: Pacer, frames: seq<Frame>, n: nat, going: bool, q: Pacer, ends: seq<Mark>) {
    && n <= |frames|
    && exists ran :: Ran(p, frames, n, going, q, ends, ran)
  }

  ghost predicate Ran(p: Pacer, frames: seq<Frame>, n: nat, going: bool, q: Pacer, ends: seq<Mark>, ran: seq<Event>)
    requires n <= |frames|
  {
    && q == Exec(p, ran) && ends == Marks(p, ran)
    && LoopEvents(p, frames) == if going then ran + LoopEvents(q, frames[n..]) else ran
  }

  lemma NextFrame(q: Pacer, frames: seq<Frame>, n: nat, ran: seq<Event>)
    requires n < |frames|
    ensures var events := FrameEvents(q, frames[n]);
            ran + LoopEvents(q, frames[n..])
            == if Marks(q, events) == [] then ran + events
               else (ran + events) + LoopEvents(Exec(q, events), frames[n + 1..])
  {
    var rest := frames[n..];
    assert rest[0] == frames[n] && rest[1..] == frames[n + 1..];
  }

  lemma LoopStep(p: Pacer, frames: seq<Frame>, n: nat, q: Pacer, ends: seq<Mark>, r: Pacer, more: seq<Mark>)
    requires Looping(p, frames, n, true, q, ends) && n < |frames|
    requires r == Exec(q, FrameEvents(q, frames[n])) && more == Marks(q, FrameEvents(q, frames[n]))
    ensures Looping(p, frames, n + 1, more != [], r, ends + more)
  {
    var ran :| Ran(p, frames, n, true, q, ends, ran);
    var events := FrameEvents(q, frames[n]);
    Afterwards(p, ran, q, ends, events);
    NextFrame(q, frames, n, ran);
    assert Ran(p, frames, n + 1, more != [], r, ends + more, ran + events);
  }

  lemma LoopEnds(p: Pacer, frames: seq<Frame>, n: nat, going: bool, q: Pacer, ends: seq<Mark>)
    requires Looping(p, frames, n, going, q, ends) && (going ==> n == |frames|)
    ensures q == Exec(p, LoopEvents(p, frames)) && ends == Marks(p, LoopEvents(p, frames))
  {
    var ran :| Ran(p, frames, n, going, q, ends, ran);
    assert frames[|frames|..] == [] && ran + [] == ran;
  }

  class FramePacer {
    const period: int
    var deadline: int
    var wakes: nat
    var consumed: nat

    function State(): Pacer
      reads this
    {
      Pacer(period, deadline, wakes, consumed)
    }

    constructor (period: int, now: int)
      ensures State() == Pacer(period, now + period, 0, 0)
    {
      this.period := period;
      deadline := now + period;
      wakes, consumed := 0, 0;
    }

    method WakeUp()
      modifies this
      ensures State() == Step(old(State()), Wake)
    {
      wakes := wakes + 1;
    }

    /** Other threads' wake() calls, landing while pace() holds no lock. */
    method Interfere(arrivals: nat)
      modifies this
      ensures State() == old(State()).(wakes := old(wakes) + arrivals)
    {
      for i := 0 to arrivals
        invariant State() == old(State()).(wakes := old(wakes) + i)
      {
        WakeUp();
      }
    }

    /** The part of pace()'s loop that holds the mutex. */
    method LockedStretch(r: Readings) returns (v: Verdict)
      modifies this
      ensures v == Judge(old(State()), r) && State() == Stretch(old(State()), r)
    {
      if consumed < wakes && r.guard < deadline {
        consumed := wakes;
        return Serve;
      }
      if r.check < deadline {
        return Sleep;
      }
      deadline := deadline + period;
      if deadline < r.clamp {
        deadline := r.clamp + period;
      }
      return Return;
    }

    /** pace(): loops until it finds the deadline passed, or the environment's
        turns run out. It took `used` turns and called on_wake `calls` times. */
    method Pace(turns: seq<Turn>) returns (returned: bool, used: nat, calls: nat)
      modifies this
      ensures Done(old(State()), turns, returned, used, calls, State())
    {
      ghost var start := State();
      returned, used, calls := false, 0, 0;
      while used < |turns|
        invariant Pacing(start, turns, used, State(), calls)
      {
        ghost var q := State();
        var verdict := LockedStretch(turns[used].readings);
        if verdict == Return {
          PacingReturns(start, turns, used, q, calls);
          returned, used := true, used + 1;
          return;
        }
        PacingGoesOn(start, turns, used, q, calls);
        if verdict == Serve {
          calls := calls + 1;
        }
        Interfere(turns[used].arrivals);
        used := used + 1;
      }
      PacingEnds(start, turns, State(), calls);
    }

    /** One pass of the render loop; `end` is the clock as its pace() returned. */
    method Pass(frame: Frame) returns (returned: bool, end: int)
      modifies this
      ensures State() == Exec(old(State()), FrameEvents(old(State()), frame))
      ensures Marks(old(State()), FrameEvents(old(State()), frame)) == if returned then [Mark(end, deadline)] else []
    {
      ghost var start := State();
      Interfere(frame.arrivals);
      ghost var woken := State();
      var used, calls;
      returned, used, calls := Pace(frame.turns);
      PassState(start, frame, woken);
      PassMarks(start, frame, woken);
      end := if returned then frame.turns[used - 1].readings.clamp else 0;
    }

    /** The render loop: a frame drawn, then a pace(), until one does not return. On
        a clock that never goes back its frames are spaced, bursts of wakes or not. */
    method RunLoop(frames: seq<Frame>, ghost now: int) returns (ends: seq<Mark>)
      modifies this
      ensures State() == Exec(old(State()), LoopEvents(old(State()), frames))
      ensures ends == Marks(old(State()), LoopEvents(old(State()), frames))
      ensures period >= 0 && Monotone(now, LoopEvents(old(State()), frames)) ==> Spaced(period, ends)
    {
      ghost var start := State();
      ends := [];
      var n, going := 0, true;
      assert Ran(start, frames, 0, true, start, [], []);
      while going && n < |frames|
        invariant Looping(start, frames, n, going, State(), ends) && start.period == period
        decreases |frames| - n
      {
        ghost var before := State();
        var returned, end := Pass(frames[n]);
        var more := if returned then [Mark(end, deadline)] else [];
        LoopStep(start, frames, n, before, ends, State(), more);
        ends := ends + more;
        n, going := n + 1, returned;
      }
      LoopEnds(start, frames, n, going, State(), ends);
      if period >= 0 && Monotone(now, LoopEvents(start, frames)) {
        NoCatchUpBurst(start, now, LoopEvents(start, frames));
      }
    }
  }
}
