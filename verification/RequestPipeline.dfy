/**
 The viewer's request pipeline as one transition system: an accept thread,
 serve threads (one a connection), the GL thread that paces frames and drains
 the queue, and the thread inside stop(). Every lock-protected block, atomic
 store and promise operation is one action; any enabled action may come next.
 */
module RequestPipeline {
  import opened Wrappers
  import Pacing = FramePacing

  const MAX_CLIENTS: nat := 8

  // ---------------------------------------------------------------------
  // Requests and their dispatch
  // ---------------------------------------------------------------------

  type ClientId = nat
  type RequestId = nat

  /** A decoded frame: `token` is the string under "token", if there is one. */
  datatype Message = Malformed | Call(name: string, token: Option<string>)

  datatype Reply = Refused(code: string) | Welcome | Served(name: string)

  const METHODS := {"ping", "list_buffers", "get_buffer", "get_view", "set_view"}

  predicate IsGoodHello(token: string, m: Message) {
    m.Call? && m.name == "hello" && m.token.GetOr("") == token
  }

  /** AgentCore::handle: the reply, and the connection's auth flag after it. */
  function Dispatch(token: string, m: Message, authed: bool): (Reply, bool) {
    if m.Malformed? then (Refused("unknown_method"), authed)
    else if m.name == "hello" then
      if m.token.GetOr("") == token then (Welcome, true) else (Refused("bad_token"), authed)
    else if !authed then (Refused("bad_token"), authed)
    else if m.name in METHODS then (Served(m.name), authed)
    else (Refused("unknown_method"), authed)
  }

  /** One enqueued request. Its `authed` pointer is the flag of `client`, on
      that client's serve thread's stack. */
  datatype Request = Request(id: RequestId, client: ClientId, message: Message)

  /** How a promise was settled. */
  datatype Outcome =
    | Replied(reply: Reply)   // set_value
    | Threw                   // set_exception: the handler failed
    | TurnedAway              // enqueue() saw stopped_
    | Broken                  // stop() destroyed the queued promise

  predicate Failure(o: Outcome) { !o.Replied? }

  // ---------------------------------------------------------------------
  // Threads
  // ---------------------------------------------------------------------

  datatype ServePc =
    | Reading                    // in decode_frame
    | Queued(id: RequestId)      // request queued; the wake counter not yet bumped
    | Notifying(id: RequestId)   // counter bumped; cv_.notify_one() not yet called
    | Waiting(id: RequestId)     // in future.get()
    | Replying(reply: Reply)     // in write_reply
    | Unwound                    // the serve loop is left; `authed` is gone
    | Finished                   // `finished` stored; the thread can be joined
    | Gone                       // joined and erased from clients_

  /** A connection and its serve thread; `sent` is the history of replies written. */
  datatype Serve = Serve(pc: ServePc, authed: bool, sent: seq<Reply>)

  const CONNECTED := Serve(Reading, false, [])

  function InFlight(pc: ServePc): Option<RequestId> {
    match pc
    case Queued(id) => Some(id)
    case Notifying(id) => Some(id)
    case Waiting(id) => Some(id)
    case _ => None
  }

  datatype GlPc =
    | Frame                      // in a frame, whose own drain() is still to come
    | FrameDrain                 // in that drain(), past the swap
    | Drawn                      // past it, pace() comes next
    | InPace                     // in pace(), about to hold the mutex
    | Answering                  // consumed_ updated, mutex released, on_wake to be called
    | OnWake                     // on_wake has begun; drain() has not swapped yet
    | WakeDrain                  // in on_wake's drain(), past the swap
    | Asleep(notified: bool)     // in cv_.wait_until

  datatype Teardown = Running | QueueBroken | IoStopped | AcceptJoined | Signalled | Stopped

  /** History of handler runs. */
  datatype Event = Granted(client: ClientId) | Ran(client: ClientId, name: string)

  datatype State = State(
    token: string,
    // AgentServer
    stopped: bool,
    pending: seq<Request>,
    clients: seq<Serve>,
    accepting: bool,             // the accept thread has not ended
    late: bool,                  // its context stopped, one handler may be under way
    teardown: Teardown,
    // drain()'s local batch, and the outcome computed for its head
    batch: seq<Request>,
    inHand: Option<Outcome>,
    // FramePacer
    pacer: Pacing.Pacer,
    now: int,
    gl: GlPc,
    // history
    created: seq<Request>,
    settled: seq<Request>,
    outcomes: map<RequestId, Outcome>,
    events: seq<Event>,
    wakesAtOnWake: nat)

  function Initial(token: string, period: int, now: int): State {
    State(token, false, [], [], true, false, Running, [], None,
          Pacing.Pacer(period, now + period, 0, 0), now, Frame, [], [], map[], [], 0)
  }

  // ---------------------------------------------------------------------
  // Actions
  // ---------------------------------------------------------------------

  datatype Crash = NoCrash | CrashBefore | CrashAfter

  datatype AcceptStep = Accept | AcceptEnds

  datatype ServeStep =
    | Receive(message: Message) | ReadFails
    | CountWake | Notify | Resume
    | ReplySent | ReplyFails | Finish

  datatype GlStep =
    | SwapInFrame | SwapOnWake | Handle(crash: Crash) | Settle | DrainEnds
    | EnterPace | PaceStretch(readings: Pacing.Readings) | BeginOnWake | WakeUp

  datatype StopStep = BreakQueue | StopIo | JoinAccept | SignalClients | Reap

  datatype Action =
    | Accepting(accept: AcceptStep)
    | Serving(c: ClientId, serve: ServeStep)
    | Rendering(gl: GlStep)
    | Stopping(stop: StopStep)

  function Reaped(clients: seq<Serve>): (r: seq<Serve>)
    ensures |r| == |clients|
    ensures forall i :: 0 <= i < |r| ==>
              r[i] == if clients[i].pc == Finished then clients[i].(pc := Gone) else clients[i]
  {
    seq(|clients|, i requires 0 <= i < |clients| =>
      if clients[i].pc == Finished then clients[i].(pc := Gone) else clients[i])
  }

  function Total(clients: seq<Serve>, weight: ServePc -> nat): nat {
    if clients == [] then 0
    else Total(clients[..|clients| - 1], weight) + weight(clients[|clients| - 1].pc)
  }

  function Presence(pc: ServePc): nat { if pc == Gone then 0 else 1 }

  /** clients_.size(): connections not yet erased. */
  function Alive(clients: seq<Serve>): nat { Total(clients, Presence) }

  predicate Draining(gl: GlPc) { gl == FrameDrain || gl == WakeDrain }

  predicate ServeEnabled(s: State, c: ClientId, step: ServeStep) {
    c < |s.clients| &&
    var pc := s.clients[c].pc;
    match step
    case Receive(_) => pc == Reading
    case ReadFails => pc == Reading
    case CountWake => pc.Queued?
    case Notify => pc.Notifying?
    case Resume => pc.Waiting? && pc.id in s.outcomes
    case ReplySent => pc.Replying?
    case ReplyFails => pc.Replying?
    case Finish => pc == Unwound
  }

  predicate GlEnabled(s: State, step: GlStep) {
    match step
    case SwapInFrame => s.gl == Frame
    case SwapOnWake => s.gl == OnWake
    case Handle(_) => Draining(s.gl) && s.batch != [] && s.inHand == None && s.batch[0].client < |s.clients|
    case Settle => Draining(s.gl) && s.batch != [] && s.inHand.Some?
    case DrainEnds => Draining(s.gl) && s.batch == []
    case EnterPace => s.gl == Drawn
    case PaceStretch(r) => s.gl == InPace && r.Ordered() && s.now <= r.guard
    case BeginOnWake => s.gl == Answering
    case WakeUp => s.gl.Asleep?
  }

  predicate StopEnabled(s: State, step: StopStep) {
    match step
    case BreakQueue => s.teardown == Running
    case StopIo => s.teardown == QueueBroken
    case JoinAccept => s.teardown == IoStopped && !s.accepting
    case SignalClients => s.teardown == AcceptJoined
    case Reap => s.teardown == Signalled
  }

  predicate Enabled(s: State, a: Action) {
    match a
    case Accepting(Accept) => s.accepting && (s.late || s.teardown == Running || s.teardown == QueueBroken)
    case Accepting(AcceptEnds) => s.accepting && s.teardown == IoStopped
    case Serving(c, step) => ServeEnabled(s, c, step)
    case Rendering(step) => GlEnabled(s, step)
    case Stopping(step) => StopEnabled(s, step)
  }

  /** handle_accept: reap, then serve the connection unless the server is full. */
  function ApplyAccept(s: State, step: AcceptStep): State {
    match step
    case Accept =>
      var kept := Reaped(s.clients);
      s.(late := false, clients := if Alive(kept) >= MAX_CLIENTS then kept else kept + [CONNECTED])
    case AcceptEnds => s.(accepting := false)
  }

  function NextPc(s: State, c: ClientId, step: ServeStep): ServePc
    requires ServeEnabled(s, c, step)
  {
    match step
    case Receive(_) => if s.stopped then Waiting(|s.created|) else Queued(|s.created|)
    case ReadFails => Unwound
    case CountWake => Notifying(s.clients[c].pc.id)
    case Notify => Waiting(s.clients[c].pc.id)
    case Resume =>
      (match s.outcomes[s.clients[c].pc.id]
       case Replied(reply) => Replying(reply)
       case _ => Unwound)
    case ReplySent => Reading
    case ReplyFails => Unwound
    case Finish => Finished
  }

  /** enqueue()'s block under queue_mutex_. */
  function Enqueue(s: State, r: Request): State {
    var s' := s.(created := s.created + [r]);
    if s.stopped then s'.(settled := s.settled + [r], outcomes := s.outcomes[r.id := TurnedAway])
    else s'.(pending := s.pending + [r])
  }

  function ApplyServe(s: State, c: ClientId, step: ServeStep): State
    requires ServeEnabled(s, c, step)
  {
    var s' :=
      match step
      case Receive(m) => Enqueue(s, Request(|s.created|, c, m))
      case CountWake => s.(pacer := Pacing.Step(s.pacer, Pacing.Wake))
      case Notify => s.(gl := if s.gl.Asleep? then Asleep(true) else s.gl)
      case _ => s;
    var thread := s.clients[c];
    s'.(clients := s.clients[c := thread.(
          pc := NextPc(s, c, step),
          sent := if step.ReplySent? then thread.sent + [thread.pc.reply] else thread.sent)])
  }

  /** Running the head of the batch through AgentCore::handle, through the
      `authed` pointer. A handler may throw, before or after hello sets the
      flag; drain() then settles the promise with the exception. */
  function RunHandler(s: State, crash: Crash): State
    requires s.batch != [] && s.batch[0].client < |s.clients|
  {
    var r := s.batch[0];
    var (reply, after) := Dispatch(s.token, r.message, s.clients[r.client].authed);
    var authed := if crash == CrashBefore then s.clients[r.client].authed else after;
    var ran := if reply.Welcome? && crash != CrashBefore then [Granted(r.client)]
               else if reply.Served? then [Ran(r.client, reply.name)] else [];
    s.(inHand := Some(if crash == NoCrash then Replied(reply) else Threw),
       clients := s.clients[r.client := s.clients[r.client].(authed := authed)],
       events := s.events + ran)
  }

  function ApplyGl(s: State, step: GlStep): State
    requires GlEnabled(s, step)
  {
    match step
    case SwapInFrame => s.(batch := s.pending, pending := [], gl := FrameDrain)
    case SwapOnWake => s.(batch := s.pending, pending := [], gl := WakeDrain)
    case Handle(crash) => RunHandler(s, crash)
    case Settle =>
      s.(settled := s.settled + [s.batch[0]], outcomes := s.outcomes[s.batch[0].id := s.inHand.value],
         batch := s.batch[1..], inHand := None)
    case DrainEnds => s.(gl := if s.gl == FrameDrain then Drawn else InPace)
    case EnterPace => s.(gl := InPace)
    case PaceStretch(r) =>
      s.(pacer := Pacing.Stretch(s.pacer, r), now := r.clamp,
         gl := match Pacing.Judge(s.pacer, r)
               case Serve => Answering
               case Sleep => Asleep(false)
               case Return => Frame)
    case BeginOnWake => s.(gl := OnWake, wakesAtOnWake := s.pacer.wakes)
    case WakeUp => s.(gl := InPace)
  }

  function ApplyStop(s: State, step: StopStep): State
    requires StopEnabled(s, step)
  {
    match step
    case BreakQueue =>
      s.(teardown := QueueBroken, stopped := true, settled := s.settled + s.pending,
         outcomes := s.outcomes + map r | r in s.pending :: r.id := Broken, pending := [])
    case StopIo => s.(teardown := IoStopped, late := true)
    case JoinAccept => s.(teardown := AcceptJoined)
    case SignalClients => s.(teardown := Signalled)
    case Reap =>
      var kept := Reaped(s.clients);
      s.(clients := kept, teardown := if Alive(kept) == 0 then Stopped else Signalled)
  }

  function Apply(s: State, a: Action): State
    requires Enabled(s, a)
  {
    match a
    case Accepting(step) => ApplyAccept(s, step)
    case Serving(c, step) => ApplyServe(s, c, step)
    case Rendering(step) => ApplyGl(s, step)
    case Stopping(step) => ApplyStop(s, step)
  }

  predicate Allowed(s: State, actions: seq<Action>)
    decreases |actions|
  {
    actions == [] || (Enabled(s, actions[0]) && Allowed(Apply(s, actions[0]), actions[1..]))
  }

  function Run(s: State, actions: seq<Action>): State
    requires Allowed(s, actions)
    decreases |actions|
  {
    if actions == [] then s else Run(Apply(s, actions[0]), actions[1..])
  }

  // ---------------------------------------------------------------------
  // Invariants
  // ---------------------------------------------------------------------

  /** The serve thread of `r` still has `r` in flight, so its stack frame -- and
      the flag `r` points at -- is alive. */
  ghost predicate HeldByClient(s: State, r: Request) {
    r.client < |s.clients| && InFlight(s.clients[r.client].pc) == Some(r.id)
  }

  ghost predicate Numbered(s: State) {
    forall i :: 0 <= i < |s.created| ==> s.created[i].id == i
  }

  ghost predicate Conserved(s: State) {
    multiset(s.created) == multiset(s.pending) + multiset(s.batch) + multiset(s.settled)
  }

  ghost predicate Owned(s: State) {
    && (forall r :: r in s.pending ==> HeldByClient(s, r))
    && (forall r :: r in s.batch ==> HeldByClient(s, r))
  }

  ghost predicate Tracked(s: State) {
    forall c :: 0 <= c < |s.clients| && InFlight(s.clients[c].pc).Some? ==>
      var id := InFlight(s.clients[c].pc).value;
      id < |s.created| && s.created[id].client == c
  }

  ghost predicate Recorded(s: State) {
    && (forall id :: id in s.outcomes ==> id < |s.created|)
    && (forall i :: 0 <= i < |s.created| ==> (i in s.outcomes <==> s.created[i] in s.settled))
  }

  ghost predicate DrainShape(s: State) {
    && (s.batch != [] ==> Draining(s.gl))
    && (s.inHand.Some? ==> s.batch != [])
  }

  ghost predicate TeardownShape(s: State) {
    && (s.stopped <==> s.teardown != Running)
    && (s.stopped ==> s.pending == [])
    && (s.teardown in {AcceptJoined, Signalled, Stopped} ==> !s.accepting)
    && (s.teardown == Stopped ==> forall c :: 0 <= c < |s.clients| ==> s.clients[c].pc == Gone)
  }

  /** A queued request whose wake has been counted is either about to be
      answered or still shows as an unconsumed wake; while the GL thread sleeps
      unnotified, its notify_one is still to come. */
  ghost predicate WakesKept(s: State) {
    && s.pacer.consumed <= s.pacer.wakes
    && s.wakesAtOnWake <= s.pacer.wakes
    && (s.gl == Answering || s.pacer.consumed <= s.wakesAtOnWake)
    && (s.gl !in {Answering, OnWake} ==>
          forall r :: r in s.pending && HeldByClient(s, r) && !s.clients[r.client].pc.Queued? ==>
            s.pacer.consumed < s.pacer.wakes)
    && (s.gl == Asleep(false) ==>
          forall r :: r in s.pending && HeldByClient(s, r) ==> !s.clients[r.client].pc.Waiting?)
  }

  ghost predicate Authorized(s: State) {
    && (forall c :: 0 <= c < |s.clients| && s.clients[c].authed ==> Granted(c) in s.events)
    && (forall i :: 0 <= i < |s.events| && s.events[i].Ran? ==>
          Granted(s.events[i].client) in s.events[..i] && s.events[i].name in METHODS)
    && (forall c :: Granted(c) in s.events ==>
          exists r :: r in s.created && r.client == c && IsGoodHello(s.token, r.message))
  }

  ghost predicate Invariant(s: State) {
    && Numbered(s) && Conserved(s) && Owned(s) && Tracked(s) && Recorded(s)
    && DrainShape(s) && TeardownShape(s) && WakesKept(s) && Authorized(s)
    && Alive(s.clients) <= MAX_CLIENTS
  }

  lemma Placed(s: State, r: Request)
    requires Conserved(s) && Numbered(s)
    requires r in s.pending || r in s.batch || r in s.settled
    ensures r in s.created && r.id < |s.created| && s.created[r.id] == r
  {
    assert r in multiset(s.pending) + multiset(s.batch) + multiset(s.settled);
    assert r in multiset(s.created);
  }

  lemma {:induction false} DistinctCreated(created: seq<Request>, r: Request)
    requires forall i :: 0 <= i < |created| ==> created[i].id == i
    ensures multiset(created)[r] <= 1
  {
    if created != [] {
      var init := created[..|created| - 1];
      assert created == init + [created[|created| - 1]];
      DistinctCreated(init, r);
      if r == created[|created| - 1] {
        assert r !in init;
      }
    }
  }

  /** A request waiting to be served is queued or in the batch once, unsettled. */
  lemma Unsettled(s: State, r: Request)
    requires Numbered(s) && Conserved(s) && Recorded(s) && (r in s.pending || r in s.batch)
    ensures multiset(s.pending)[r] + multiset(s.batch)[r] == 1
    ensures r !in s.settled && r.id !in s.outcomes
    ensures r.id < |s.created| && s.created[r.id] == r
  {
    Placed(s, r);
    DistinctCreated(s.created, r);
    assert multiset(s.created)[r] == multiset(s.pending)[r] + multiset(s.batch)[r] + multiset(s.settled)[r];
  }

  lemma {:induction false} AliveZero(clients: seq<Serve>)
    ensures Alive(clients) == 0 <==> forall c :: 0 <= c < |clients| ==> clients[c].pc == Gone
  {
    if clients != [] { AliveZero(clients[..|clients| - 1]); }
  }

  /** Pointwise smaller weights add up to less, by at least the gap at `c`. */
  lemma {:induction false} TotalBelow(a: seq<Serve>, v: ServePc -> nat, b: seq<Serve>, w: ServePc -> nat, c: nat)
    requires |a| == |b| && c < |a|
    requires forall i :: 0 <= i < |a| ==> v(a[i].pc) <= w(b[i].pc)
    ensures Total(a, v) + (w(b[c].pc) - v(a[c].pc)) <= Total(b, w)
  {
    var n := |a| - 1;
    if n > 0 { TotalBelow(a[..n], v, b[..n], w, if c < n then c else 0); }
  }

  lemma ReapedOwned(s: State, clients: seq<Serve>)
    requires Owned(s) && Tracked(s) && clients == Reaped(s.clients)
    ensures Owned(s.(clients := clients)) && Tracked(s.(clients := clients))
  {
    forall r | r in s.pending || r in s.batch ensures HeldByClient(s.(clients := clients), r) {
      assert HeldByClient(s, r);
    }
  }

  lemma ReapedFewer(clients: seq<Serve>)
    ensures Alive(Reaped(clients)) <= Alive(clients)
  {
    if clients != [] { TotalBelow(Reaped(clients), Presence, clients, Presence, 0); }
  }

  lemma ReapedKeeps(s: State, clients: seq<Serve>)
    requires Owned(s) && Tracked(s) && WakesKept(s) && Authorized(s) && Alive(s.clients) <= MAX_CLIENTS
    requires clients == Reaped(s.clients)
    ensures var t := s.(clients := clients);
            Owned(t) && Tracked(t) && WakesKept(t) && Authorized(t) && Alive(clients) <= Alive(s.clients)
  {
    ReapedOwned(s, clients);
    ReapedFewer(s.clients);
  }

  lemma ConnectingKeeps(s: State)
    requires Owned(s) && Tracked(s) && WakesKept(s) && Authorized(s)
    ensures var t := s.(clients := s.clients + [CONNECTED]);
            Owned(t) && Tracked(t) && WakesKept(t) && Authorized(t) && Alive(t.clients) == Alive(s.clients) + 1
  {
    var t := s.(clients := s.clients + [CONNECTED]);
    assert t.clients[..|s.clients|] == s.clients;
    forall r | r in s.pending || r in s.batch ensures HeldByClient(t, r) { assert HeldByClient(s, r); }
  }

  lemma AcceptKeeps(s: State, step: AcceptStep)
    requires Invariant(s) && Enabled(s, Accepting(step))
    ensures Invariant(ApplyAccept(s, step))
  {
    if step == Accept {
      var kept := Reaped(s.clients);
      ReapedKeeps(s, kept);
      ConnectingKeeps(s.(late := false, clients := kept));
    }
  }

  lemma EnqueueKeepsQueue(s: State, r: Request)
    requires Numbered(s) && Conserved(s) && Recorded(s) && r.id == |s.created|
    ensures var t := Enqueue(s, r); Numbered(t) && Conserved(t) && Recorded(t)
  {
    EnqueueConserves(s, r);
    EnqueueKeepsRecorded(s, r);
  }

  lemma EnqueueConserves(s: State, r: Request)
    requires Numbered(s) && Conserved(s) && r.id == |s.created|
    ensures var t := Enqueue(s, r); Numbered(t) && Conserved(t)
  {
  }

  lemma EnqueueKeepsRecorded(s: State, r: Request)
    requires Numbered(s) && Conserved(s) && Recorded(s) && r.id == |s.created|
    ensures Recorded(Enqueue(s, r))
  {
    if r in s.settled { Placed(s, r); }
  }

  lemma ServeKeepsQueue(s: State, c: ClientId, step: ServeStep)
    requires Numbered(s) && Conserved(s) && Recorded(s) && ServeEnabled(s, c, step)
    ensures var t := ApplyServe(s, c, step); Numbered(t) && Conserved(t) && Recorded(t)
  {
    if step.Receive? {
      var r := Request(|s.created|, c, step.message);
      EnqueueKeepsQueue(s, r);
      assert ApplyServe(s, c, step) == Enqueue(s, r).(clients := ApplyServe(s, c, step).clients);
    }
  }

  lemma ServeKeepsOwned(s: State, c: ClientId, step: ServeStep)
    requires Numbered(s) && Conserved(s) && Owned(s) && Recorded(s) && ServeEnabled(s, c, step)
    ensures Owned(ApplyServe(s, c, step))
  {
    if !step.CountWake? && !step.Notify? {
      forall r | r in s.pending || r in s.batch ensures r.client != c {
        assert HeldByClient(s, r);
        Unsettled(s, r);
      }
    }
  }

  lemma ServeKeepsShapes(s: State, c: ClientId, step: ServeStep)
    requires Tracked(s) && DrainShape(s) && TeardownShape(s) && Alive(s.clients) <= MAX_CLIENTS
    requires ServeEnabled(s, c, step)
    ensures var t := ApplyServe(s, c, step);
            Tracked(t) && DrainShape(t) && TeardownShape(t) && Alive(t.clients) <= MAX_CLIENTS
  {
    ServeKeepsTracked(s, c, step);
    ServeKeepsAlive(s, c, step);
  }

  lemma ServeKeepsTracked(s: State, c: ClientId, step: ServeStep)
    requires Tracked(s) && ServeEnabled(s, c, step)
    ensures Tracked(ApplyServe(s, c, step))
  {
  }

  lemma ServeKeepsAlive(s: State, c: ClientId, step: ServeStep)
    requires Alive(s.clients) <= MAX_CLIENTS && ServeEnabled(s, c, step)
    ensures Alive(ApplyServe(s, c, step).clients) <= MAX_CLIENTS
  {
    TotalBelow(ApplyServe(s, c, step).clients, Presence, s.clients, Presence, c);
  }

  lemma ServeKeepsWakes(s: State, c: ClientId, step: ServeStep)
    requires Owned(s) && WakesKept(s) && ServeEnabled(s, c, step)
    ensures WakesKept(ApplyServe(s, c, step))
  {
    forall r | r in s.pending ensures HeldByClient(s, r) {}
  }

  lemma ServeKeepsAuthorized(s: State, c: ClientId, step: ServeStep)
    requires Authorized(s) && ServeEnabled(s, c, step)
    ensures Authorized(ApplyServe(s, c, step))
  {
    var t := ApplyServe(s, c, step);
    assert t.events == s.events && t.token == s.token;
    forall d | Granted(d) in t.events
      ensures exists r :: r in t.created && r.client == d && IsGoodHello(t.token, r.message)
    {
      var r :| r in s.created && r.client == d && IsGoodHello(s.token, r.message);
      assert r in t.created;
    }
  }

  lemma GlKeepsQueue(s: State, step: GlStep)
    requires Numbered(s) && Conserved(s) && Recorded(s) && DrainShape(s) && GlEnabled(s, step)
    ensures var t := ApplyGl(s, step); Numbered(t) && Conserved(t) && Recorded(t)
  {
    if step.Settle? {
      assert s.batch == [s.batch[0]] + s.batch[1..];
      Placed(s, s.batch[0]);
    }
  }

  lemma GlKeepsOwned(s: State, step: GlStep)
    requires Owned(s) && Tracked(s) && GlEnabled(s, step)
    ensures var t := ApplyGl(s, step); Owned(t) && Tracked(t)
  {
    forall r | r in s.pending || r in s.batch ensures HeldByClient(ApplyGl(s, step), r) {
      assert HeldByClient(s, r);
    }
  }

  lemma GlKeepsShapes(s: State, step: GlStep)
    requires DrainShape(s) && TeardownShape(s) && Alive(s.clients) <= MAX_CLIENTS
    requires GlEnabled(s, step)
    ensures var t := ApplyGl(s, step); DrainShape(t) && TeardownShape(t) && Alive(t.clients) <= MAX_CLIENTS
  {
    if step.Handle? { TotalBelow(ApplyGl(s, step).clients, Presence, s.clients, Presence, 0); }
  }

  lemma GlKeepsWakes(s: State, step: GlStep)
    requires Owned(s) && WakesKept(s) && GlEnabled(s, step)
    ensures WakesKept(ApplyGl(s, step))
  {
    forall r | r in s.pending ensures HeldByClient(s, r) {}
  }

  lemma GlKeepsAuthorized(s: State, step: GlStep)
    requires Numbered(s) && Conserved(s) && Authorized(s) && GlEnabled(s, step)
    ensures Authorized(ApplyGl(s, step))
  {
    if step.Handle? { HandlingKeepsAuthorized(s, step.crash); }
  }

  lemma HandlingKeepsAuthorized(s: State, crash: Crash)
    requires Numbered(s) && Conserved(s) && Authorized(s) && GlEnabled(s, Handle(crash))
    ensures Authorized(RunHandler(s, crash))
  {
    HandlerRanAfterHello(s, crash);
    GrantsComeFromHellos(s, crash);
  }

  lemma HandlerRanAfterHello(s: State, crash: Crash)
    requires Numbered(s) && Conserved(s) && Authorized(s) && GlEnabled(s, Handle(crash))
    ensures var t := RunHandler(s, crash);
      forall i :: 0 <= i < |t.events| && t.events[i].Ran? ==>
        Granted(t.events[i].client) in t.events[..i] && t.events[i].name in METHODS
  {
    var t := RunHandler(s, crash);
    Placed(s, s.batch[0]);
    assert s.events <= t.events;
    forall i | 0 <= i < |t.events| && t.events[i].Ran?
      ensures Granted(t.events[i].client) in t.events[..i] && t.events[i].name in METHODS
    {
      assert t.events[..i] == if i < |s.events| then s.events[..i] else s.events;
    }
  }

  lemma GrantsComeFromHellos(s: State, crash: Crash)
    requires Numbered(s) && Conserved(s) && Authorized(s) && GlEnabled(s, Handle(crash))
    ensures var t := RunHandler(s, crash);
      forall c :: Granted(c) in t.events ==>
        exists r :: r in t.created && r.client == c && IsGoodHello(t.token, r.message)
  {
    var t := RunHandler(s, crash);
    var head := s.batch[0];
    Placed(s, head);
    forall c | Granted(c) in t.events
      ensures exists r :: r in t.created && r.client == c && IsGoodHello(t.token, r.message)
    {
      if Granted(c) !in s.events {
        assert head in t.created && head.client == c && IsGoodHello(t.token, head.message);
      }
    }
  }

  lemma BreakingKeeps(s: State)
    requires Invariant(s) && StopEnabled(s, BreakQueue)
    ensures Invariant(ApplyStop(s, BreakQueue))
  {
    forall r | r in s.pending ensures r.id < |s.created| && s.created[r.id] == r { Placed(s, r); }
  }

  lemma ReapingKeeps(s: State)
    requires Invariant(s) && StopEnabled(s, Reap)
    ensures Invariant(ApplyStop(s, Reap))
  {
    ReapedKeeps(s, Reaped(s.clients));
    AliveZero(Reaped(s.clients));
  }

  lemma StopKeeps(s: State, step: StopStep)
    requires Invariant(s) && StopEnabled(s, step)
    ensures Invariant(ApplyStop(s, step))
  {
    match step
    case BreakQueue => BreakingKeeps(s);
    case Reap => ReapingKeeps(s);
    case _ =>
  }

  lemma InvariantStep(s: State, a: Action)
    requires Invariant(s) && Enabled(s, a)
    ensures Invariant(Apply(s, a))
  {
    match a
    case Accepting(step) =>
      AcceptKeeps(s, step);
    case Serving(c, step) =>
      ServeKeepsQueue(s, c, step);
      ServeKeepsOwned(s, c, step);
      ServeKeepsShapes(s, c, step);
      ServeKeepsWakes(s, c, step);
      ServeKeepsAuthorized(s, c, step);
    case Rendering(step) =>
      GlKeepsQueue(s, step);
      GlKeepsOwned(s, step);
      GlKeepsShapes(s, step);
      GlKeepsWakes(s, step);
      GlKeepsAuthorized(s, step);
    case Stopping(step) =>
      StopKeeps(s, step);
  }

  lemma {:induction false} InvariantRun(s: State, actions: seq<Action>)
    requires Invariant(s) && Allowed(s, actions)
    ensures Invariant(Run(s, actions))
    decreases |actions|
  {
    if actions != [] {
      InvariantStep(s, actions[0]);
      InvariantRun(Apply(s, actions[0]), actions[1..]);
    }
  }

  // ---------------------------------------------------------------------
  // What holds in every run
  // ---------------------------------------------------------------------

  /** `s` is where some run of the freshly started viewer ends. */
  ghost predicate Reachable(s: State) {
    exists token, period, now, actions ::
      && Allowed(Initial(token, period, now), actions)
      && s == Run(Initial(token, period, now), actions)
  }

  lemma ReachableInvariant(s: State)
    requires Reachable(s)
    ensures Invariant(s)
  {
    var token, period, now, actions :|
      && Allowed(Initial(token, period, now), actions)
      && s == Run(Initial(token, period, now), actions);
    InvariantRun(Initial(token, period, now), actions);
  }

  /** No lost wakeup: while pace() sleeps and has not been notified, every queued
      request is one whose wake() is still running or yet to run. Every wake
      counted as consumed is answered by an on_wake that began after it, or by
      one about to begin. */
  lemma NoLostWakeup(s: State)
    requires Reachable(s)
    ensures s.gl == Asleep(false) ==>
              forall r :: r in s.pending ==>
                r.client < |s.clients| && s.clients[r.client].pc in {Queued(r.id), Notifying(r.id)}
    ensures s.gl == Answering || s.pacer.consumed <= s.wakesAtOnWake
  {
    ReachableInvariant(s);
    if s.gl == Asleep(false) {
      forall r | r in s.pending
        ensures r.client < |s.clients| && s.clients[r.client].pc in {Queued(r.id), Notifying(r.id)}
      {
        assert HeldByClient(s, r);
      }
    }
  }

  /** Conservation: every request ever enqueued is in exactly one place -- queued,
      in the batch, or settled -- and has an outcome exactly when settled. */
  lemma SettledExactlyOnce(s: State, r: Request)
    requires Reachable(s) && r in s.created
    ensures multiset(s.pending)[r] + multiset(s.batch)[r] + multiset(s.settled)[r] == 1
    ensures r in s.settled <==> r.id in s.outcomes
  {
    ReachableInvariant(s);
    DistinctCreated(s.created, r);
    assert multiset(s.created)[r] == multiset(s.pending)[r] + multiset(s.batch)[r] + multiset(s.settled)[r];
  }

  lemma OutcomesKept(s: State, a: Action, id: RequestId)
    requires Invariant(s) && Enabled(s, a) && id in s.outcomes
    ensures var t := Apply(s, a); id in t.outcomes && t.outcomes[id] == s.outcomes[id]
  {
    match a
    case Accepting(_) =>
    case Serving(c, step) => ServeKeepsOutcome(s, c, step, id);
    case Rendering(step) => GlKeepsOutcome(s, step, id);
    case Stopping(step) => StopKeepsOutcome(s, step, id);
  }

  lemma ServeKeepsOutcome(s: State, c: ClientId, step: ServeStep, id: RequestId)
    requires Invariant(s) && ServeEnabled(s, c, step) && id in s.outcomes
    ensures var t := ApplyServe(s, c, step); id in t.outcomes && t.outcomes[id] == s.outcomes[id]
  {
  }

  lemma GlKeepsOutcome(s: State, step: GlStep, id: RequestId)
    requires Invariant(s) && GlEnabled(s, step) && id in s.outcomes
    ensures var t := ApplyGl(s, step); id in t.outcomes && t.outcomes[id] == s.outcomes[id]
  {
    if step.Settle? { Unsettled(s, s.batch[0]); }
  }

  lemma StopKeepsOutcome(s: State, step: StopStep, id: RequestId)
    requires Invariant(s) && StopEnabled(s, step) && id in s.outcomes
    ensures var t := ApplyStop(s, step); id in t.outcomes && t.outcomes[id] == s.outcomes[id]
  {
    forall r | r in s.pending ensures r.id != id { Unsettled(s, r); }
  }

  /** An outcome, once recorded, is never replaced. */
  lemma {:induction false} OutcomesAreFinal(s: State, actions: seq<Action>, id: RequestId)
    requires Invariant(s) && Allowed(s, actions) && id in s.outcomes
    ensures var t := Run(s, actions); id in t.outcomes && t.outcomes[id] == s.outcomes[id]
    decreases |actions|
  {
    if actions != [] {
      OutcomesKept(s, actions[0], id);
      InvariantStep(s, actions[0]);
      OutcomesAreFinal(Apply(s, actions[0]), actions[1..], id);
    }
  }

  /** No dangling pointer: whenever a request is queued or in a batch, the serve
      thread whose stack holds its `authed` flag is still blocked on it. */
  lemma AuthedPointersAlive(s: State, r: Request)
    requires Reachable(s) && (r in s.pending || r in s.batch)
    ensures r.client < |s.clients|
    ensures s.clients[r.client].pc in {Queued(r.id), Notifying(r.id), Waiting(r.id)}
    ensures r.id !in s.outcomes
  {
    ReachableInvariant(s);
    assert HeldByClient(s, r);
    Unsettled(s, r);
  }

  /** The queue and the batch together never hold more than MAX_CLIENTS requests. */
  lemma QueueBounded(s: State)
    requires Reachable(s)
    ensures |s.pending| + |s.batch| <= MAX_CLIENTS
  {
    ReachableInvariant(s);
    var open := s.pending + s.batch;
    forall i, j | 0 <= i < j < |open| ensures open[i].client != open[j].client {
      OneRequestPerClient(s, i, j);
    }
    forall i | 0 <= i < |open| ensures HeldByClient(s, open[i]) {
      assert open[i] in open;
    }
    DistinctClientsAreAlive(open, s.clients);
  }

  lemma OneRequestPerClient(s: State, i: nat, j: nat)
    requires Invariant(s) && i < j < |s.pending + s.batch|
    ensures (s.pending + s.batch)[i].client != (s.pending + s.batch)[j].client
  {
    var open := s.pending + s.batch;
    var r, q := open[i], open[j];
    assert multiset(open) == multiset(s.pending) + multiset(s.batch);
    assert r in open && q in open;
    assert HeldByClient(s, r) && HeldByClient(s, q);
    Unsettled(s, r);
    Unsettled(s, q);
    if r == q {
      TwiceInSeq(open, i, j);
    }
  }

  lemma TwiceInSeq(rs: seq<Request>, i: nat, j: nat)
    requires i < j < |rs| && rs[i] == rs[j]
    ensures multiset(rs)[rs[i]] >= 2
  {
    assert rs == rs[..j] + [rs[j]] + rs[j + 1..];
    assert rs[..j][i] in rs[..j];
  }

  lemma {:induction false} DistinctClientsAreAlive(open: seq<Request>, clients: seq<Serve>)
    requires forall i, j :: 0 <= i < j < |open| ==> open[i].client != open[j].client
    requires forall i :: 0 <= i < |open| ==> open[i].client < |clients| && clients[open[i].client].pc != Gone
    ensures |open| <= Alive(clients)
    decreases |open|
  {
    if open != [] {
      var c := open[0].client;
      var rest := clients[c := clients[c].(pc := Gone)];
      DistinctClientsAreAlive(open[1..], rest);
      TotalBelow(rest, Presence, clients, Presence, c);
    }
  }

  /** No stuck future: a serve thread in future.get() either has its outcome, or
      its request is queued while the server runs, or the GL thread is working
      through the batch that holds it. */
  lemma NoStuckFuture(s: State, c: ClientId)
    requires Reachable(s) && c < |s.clients| && InFlight(s.clients[c].pc).Some?
    ensures var id := InFlight(s.clients[c].pc).value;
            && id < |s.created|
            && (|| id in s.outcomes
                || (s.created[id] in s.pending && !s.stopped)
                || (s.created[id] in s.batch && Draining(s.gl)))
  {
    ReachableInvariant(s);
    InFlightIsSomewhere(s, c);
  }

  lemma InFlightIsSomewhere(s: State, c: ClientId)
    requires Invariant(s) && c < |s.clients| && InFlight(s.clients[c].pc).Some?
    ensures var id := InFlight(s.clients[c].pc).value;
            && id < |s.created|
            && (id in s.outcomes || s.created[id] in s.pending || s.created[id] in s.batch)
  {
    var r := s.created[InFlight(s.clients[c].pc).value];
    assert r in multiset(s.created);
  }

  /** Authentication gates: every handler other than hello ran for a connection
      that had completed a good hello before. */
  lemma HandlersOnlyAfterHello(s: State, i: nat)
    requires Reachable(s) && i < |s.events| && s.events[i].Ran?
    ensures s.events[i].name in METHODS
    ensures exists j :: 0 <= j < i && s.events[j] == Granted(s.events[i].client)
    ensures exists r :: r in s.created && r.client == s.events[i].client && IsGoodHello(s.token, r.message)
  {
    ReachableInvariant(s);
    var grant := Granted(s.events[i].client);
    assert grant in s.events[..i];
    var j :| 0 <= j < i && s.events[..i][j] == grant;
    assert s.events[j] == grant;
  }

  /** Once authenticated, a connection stays so for the rest of its life. */
  lemma {:induction false} AuthNeverRevoked(s: State, actions: seq<Action>, c: ClientId)
    requires Allowed(s, actions) && c < |s.clients| && s.clients[c].authed
    ensures c < |Run(s, actions).clients| && Run(s, actions).clients[c].authed
    decreases |actions|
  {
    if actions != [] {
      AuthNeverRevoked(Apply(s, actions[0]), actions[1..], c);
    }
  }

  // ---------------------------------------------------------------------
  // Teardown
  // ---------------------------------------------------------------------

  lemma BatchIsHeld(s: State)
    requires Owned(s) && s.batch != []
    ensures exists c :: 0 <= c < |s.clients| && s.clients[c].pc != Gone
  {
    assert HeldByClient(s, s.batch[0]);
  }

  /** When the stop() that did the work returns, every promise is settled, every
      serve thread has been joined and no new connection can arrive. */
  lemma StopReturnsClean(s: State)
    requires Reachable(s) && s.teardown == Stopped
    ensures s.pending == [] && s.batch == [] && !s.accepting
    ensures forall c :: 0 <= c < |s.clients| ==> s.clients[c].pc == Gone
    ensures forall r :: r in s.created ==> r.id in s.outcomes
  {
    ReachableInvariant(s);
    if s.batch != [] { BatchIsHeld(s); }
    forall r | r in s.created ensures r.id in s.outcomes {
      SettledExactlyOnce(s, r);
    }
  }

  /** A second stop() finds stopped_ set and returns at once, so its return says
      nothing: here it can return while a serve thread is still reading. */
  lemma SecondStopReturnsEarly()
    ensures exists s :: Reachable(s) && s.stopped && s.teardown != Stopped && s.clients == [CONNECTED]
  {
    var start := Initial("t", 10, 0);
    var accept, stop := Accepting(Accept), Stopping(BreakQueue);
    var first := Apply(start, accept);
    assert first.clients == [CONNECTED];
    assert [accept, stop][1..] == [stop] && [stop][1..] == [];
    assert Allowed(first, [stop]);
    assert Allowed(start, [accept, stop]);
    var s := Run(start, [accept, stop]);
    assert s == Run(first, [stop]) == Apply(first, stop);
    assert Reachable(s);
  }

  /** Nothing left to wait for: no thread, no request, no newcomer. */
  ghost predicate AllDown(s: State) {
    && (forall c :: 0 <= c < |s.clients| ==> s.clients[c].pc == Gone)
    && s.pending == [] && s.batch == [] && !s.accepting
    && forall r :: r in s.created ==> r.id in s.outcomes
  }

  /** What a second stop() returns to is all down exactly when the accept thread
      has ended and every connection has been erased -- that is, when the first
      stop()'s two waits are over, returned or not. */
  lemma SecondStopFindsAllDownExactly(s: State)
    requires Reachable(s) && s.stopped
    ensures AllDown(s) <==> !s.accepting && Alive(s.clients) == 0
  {
    ReachableInvariant(s);
    AliveZero(s.clients);
    if !s.accepting && Alive(s.clients) == 0 {
      if s.batch != [] { BatchIsHeld(s); }
      forall r | r in s.created ensures r.id in s.outcomes {
        SettledExactlyOnce(s, r);
      }
    }
    if AllDown(s) { AllGoneIsZero(s.clients); }
  }

  lemma {:induction false} AllGoneIsZero(clients: seq<Serve>)
    requires forall c :: 0 <= c < |clients| ==> clients[c].pc == Gone
    ensures Alive(clients) == 0
  {
    if clients != [] { AllGoneIsZero(clients[..|clients| - 1]); }
  }

  /** Bounds the steps a serve thread has left once the server is stopped. */
  function Rank(outcomes: map<RequestId, Outcome>, pc: ServePc): nat {
    match pc
    case Gone => 0
    case Finished => 1
    case Unwound => 2
    case Reading => 4
    case Replying(_) => 5
    case Waiting(id) => if id in outcomes && Failure(outcomes[id]) then 3 else 6
    case Notifying(_) => 7
    case Queued(_) => 8
  }

  function PhaseRank(t: Teardown): nat {
    match t
    case Stopped => 0
    case Signalled => 1
    case AcceptJoined => 2
    case _ => 3
  }

  /** What the accept thread may still bring: its end, and before it one connection,
      which will have a serve thread's steps of its own. */
  function AcceptShare(s: State): nat { if !s.accepting then 0 else if s.late then 6 else 1 }

  /** What remains besides the serve threads' own steps. */
  function ServerShare(s: State): nat {
    PhaseRank(s.teardown) + AcceptShare(s) + (if s.batch == [] then 0 else 2 * |s.batch| - if s.inHand.Some? then 1 else 0)
  }

  function Remaining(s: State): nat {
    Total(s.clients, pc => Rank(s.outcomes, pc)) + ServerShare(s)
  }

  /** stop() has stopped the accept thread's context and has not returned. */
  predicate TearingDown(s: State) {
    s.teardown == IoStopped || s.teardown == AcceptJoined || s.teardown == Signalled
  }

  /** The steps that bring stop() closer to returning; the render loop's own
      cycle and a fruitless reap do not. */
  ghost predicate Advances(s: State, a: Action) {
    || a.Serving? || a.Accepting?
    || (a.Rendering? && (a.gl.Handle? || a.gl.Settle?))
    || a == Stopping(JoinAccept) || a == Stopping(SignalClients)
    || (a == Stopping(Reap) && (HasFinished(s) || Alive(s.clients) == 0))
  }

  ghost predicate HasFinished(s: State) {
    exists c :: 0 <= c < |s.clients| && s.clients[c].pc == Finished
  }

  lemma ServingDescends(s: State, c: ClientId, step: ServeStep, i: ClientId)
    requires Invariant(s) && TearingDown(s) && ServeEnabled(s, c, step) && i < |s.clients|
    ensures |ApplyServe(s, c, step).clients| == |s.clients|
    ensures var t := ApplyServe(s, c, step);
      Rank(t.outcomes, t.clients[i].pc) + (if i == c then 1 else 0) <= Rank(s.outcomes, s.clients[i].pc)
  {
    assert InFlight(s.clients[i].pc).Some? ==> InFlight(s.clients[i].pc).value < |s.created|;
  }

  lemma ServeDescends(s: State, c: ClientId, step: ServeStep)
    requires Invariant(s) && TearingDown(s) && ServeEnabled(s, c, step)
    ensures Remaining(ApplyServe(s, c, step)) < Remaining(s)
  {
    var t := ApplyServe(s, c, step);
    forall i | 0 <= i < |s.clients|
      ensures |t.clients| == |s.clients|
      ensures Rank(t.outcomes, t.clients[i].pc) + (if i == c then 1 else 0) <= Rank(s.outcomes, s.clients[i].pc)
    {
      ServingDescends(s, c, step, i);
    }
    ServingDescends(s, c, step, c);
    TotalBelow(t.clients, pc => Rank(t.outcomes, pc), s.clients, pc => Rank(s.outcomes, pc), c);
  }

  lemma RenderingDescends(s: State, step: GlStep, i: ClientId)
    requires Invariant(s) && TearingDown(s) && GlEnabled(s, step) && i < |s.clients|
    ensures |ApplyGl(s, step).clients| == |s.clients|
    ensures Rank(ApplyGl(s, step).outcomes, ApplyGl(s, step).clients[i].pc) <= Rank(s.outcomes, s.clients[i].pc)
  {
    if step.Settle? { Unsettled(s, s.batch[0]); }
  }

  lemma StoppingDescends(s: State, step: StopStep, i: ClientId)
    requires Invariant(s) && TearingDown(s) && StopEnabled(s, step) && i < |s.clients|
    ensures |ApplyStop(s, step).clients| == |s.clients|
    ensures Rank(ApplyStop(s, step).outcomes, ApplyStop(s, step).clients[i].pc) <= Rank(s.outcomes, s.clients[i].pc)
    ensures step == Reap && s.clients[i].pc == Finished ==>
              Rank(ApplyStop(s, step).outcomes, ApplyStop(s, step).clients[i].pc) < Rank(s.outcomes, s.clients[i].pc)
  {
  }

  lemma OutcomesDescend(s: State, a: Action, i: ClientId)
    requires Invariant(s) && TearingDown(s) && Enabled(s, a) && !a.Serving? && !a.Accepting? && i < |s.clients|
    ensures |Apply(s, a).clients| == |s.clients|
    ensures Rank(Apply(s, a).outcomes, Apply(s, a).clients[i].pc) <= Rank(s.outcomes, s.clients[i].pc)
    ensures a == Stopping(Reap) && s.clients[i].pc == Finished ==>
              Rank(Apply(s, a).outcomes, Apply(s, a).clients[i].pc) < Rank(s.outcomes, s.clients[i].pc)
  {
    match a
    case Rendering(step) => RenderingDescends(s, step, i);
    case Stopping(step) => StoppingDescends(s, step, i);
  }

  lemma OthersDescend(s: State, a: Action)
    requires Invariant(s) && TearingDown(s) && Enabled(s, a) && !a.Serving? && !a.Accepting?
    ensures var t := Apply(s, a);
            Total(t.clients, pc => Rank(t.outcomes, pc))
            + (if a == Stopping(Reap) && HasFinished(s) then 1 else 0)
            <= Total(s.clients, pc => Rank(s.outcomes, pc))
  {
    if s.clients != [] {
      var c: ClientId := 0;
      if HasFinished(s) { c :| c < |s.clients| && s.clients[c].pc == Finished; }
      forall i | 0 <= i < |s.clients| ensures PairDescends(s, a, i, 0) { OutcomesDescend(s, a, i); }
      OutcomesDescend(s, a, c);
      RanksBelow(s, Apply(s, a), a, c, if a == Stopping(Reap) && HasFinished(s) then 1 else 0);
    } else {
      OutcomesOfNobody(s, a);
    }
  }

  /** Client `i`'s rank falls by at least `drop`. */
  predicate PairDescends(s: State, a: Action, i: ClientId, drop: nat)
    requires Enabled(s, a) && i < |s.clients|
  {
    var t := Apply(s, a);
    && |t.clients| == |s.clients|
    && Rank(t.outcomes, t.clients[i].pc) + drop <= Rank(s.outcomes, s.clients[i].pc)
  }

  lemma RanksBelow(s: State, t: State, a: Action, c: ClientId, drop: nat)
    requires Enabled(s, a) && t == Apply(s, a) && c < |s.clients| && drop <= 1
    requires forall i :: 0 <= i < |s.clients| ==> PairDescends(s, a, i, 0)
    requires PairDescends(s, a, c, drop)
    ensures Total(t.clients, pc => Rank(t.outcomes, pc)) + drop <= Total(s.clients, pc => Rank(s.outcomes, pc))
  {
    forall i | 0 <= i < |s.clients|
      ensures |t.clients| == |s.clients| && Rank(t.outcomes, t.clients[i].pc) <= Rank(s.outcomes, s.clients[i].pc)
    {
      assert PairDescends(s, a, i, 0);
    }
    TotalBelow(t.clients, pc => Rank(t.outcomes, pc), s.clients, pc => Rank(s.outcomes, pc), c);
  }

  lemma OutcomesOfNobody(s: State, a: Action)
    requires Enabled(s, a) && !a.Serving? && !a.Accepting? && s.clients == []
    ensures Apply(s, a).clients == []
  {
    match a
    case Rendering(step) => assert ApplyGl(s, step).clients == [];
    case Stopping(step) => assert ApplyStop(s, step).clients == [];
  }

  lemma NobodyLeft(s: State)
    requires StopEnabled(s, Reap) && Alive(s.clients) == 0
    ensures ApplyStop(s, Reap).teardown == Stopped
  {
    AliveZero(s.clients);
    AliveZero(Reaped(s.clients));
  }

  lemma ServerShareDescends(s: State, a: Action)
    requires Invariant(s) && TearingDown(s) && Enabled(s, a) && !a.Serving? && !a.Accepting?
    ensures ServerShare(Apply(s, a))
            + (if Advances(s, a) && !(a == Stopping(Reap) && HasFinished(s)) then 1 else 0) <= ServerShare(s)
  {
    match a
    case Rendering(step) => RenderingShare(s, step);
    case Stopping(step) => StoppingShare(s, step);
  }

  lemma RenderingShare(s: State, step: GlStep)
    requires Invariant(s) && TearingDown(s) && GlEnabled(s, step)
    ensures ServerShare(ApplyGl(s, step)) + (if step.Handle? || step.Settle? then 1 else 0) <= ServerShare(s)
  {
  }

  lemma StoppingShare(s: State, step: StopStep)
    requires Invariant(s) && TearingDown(s) && StopEnabled(s, step)
    ensures ServerShare(ApplyStop(s, step))
            + (if step == JoinAccept || step == SignalClients || (step == Reap && Alive(s.clients) == 0) then 1 else 0)
            <= ServerShare(s)
  {
    if step == Reap && Alive(s.clients) == 0 { NobodyLeft(s); }
  }

  lemma ReapedRank(clients: seq<Serve>, outcomes: map<RequestId, Outcome>)
    ensures Total(Reaped(clients), pc => Rank(outcomes, pc)) <= Total(clients, pc => Rank(outcomes, pc))
  {
    if clients != [] {
      TotalBelow(Reaped(clients), pc => Rank(outcomes, pc), clients, pc => Rank(outcomes, pc), 0);
    }
  }

  lemma ConnectedRank(clients: seq<Serve>, outcomes: map<RequestId, Outcome>)
    ensures Total(clients + [CONNECTED], pc => Rank(outcomes, pc))
         == Total(clients, pc => Rank(outcomes, pc)) + 4
  {
    assert (clients + [CONNECTED])[..|clients|] == clients;
  }

  /** The last connection accepted adds fewer steps than its own acceptance takes off. */
  lemma AcceptingDescends(s: State, step: AcceptStep)
    requires Invariant(s) && TearingDown(s) && Enabled(s, Accepting(step))
    ensures Remaining(ApplyAccept(s, step)) < Remaining(s)
  {
    ReapedRank(s.clients, s.outcomes);
    ConnectedRank(Reaped(s.clients), s.outcomes);
  }

  /** Once the accept thread's context is stopped each advancing step of any thread
      takes off some of the work left, and no other step adds any: stop() waits for a
      bounded number of them. */
  lemma TeardownDescends(s: State, a: Action)
    requires Invariant(s) && TearingDown(s) && Enabled(s, a)
    ensures Remaining(Apply(s, a)) + (if Advances(s, a) then 1 else 0) <= Remaining(s)
  {
    if a.Serving? {
      ServeDescends(s, a.c, a.serve);
    } else if a.Accepting? {
      AcceptingDescends(s, a.accept);
    } else {
      OthersDescend(s, a);
      ServerShareDescends(s, a);
    }
  }

  /** Teardown never stalls: until stop() returns, some advancing step is possible
      that waits for no peer, no newcomer and no new request. (The accept thread's
      stopped context runs out; a serve thread still reading can fail, because its
      connection has been told to stop.) */
  lemma TeardownNeverStalls(s: State) returns (a: Action)
    requires Reachable(s) && TearingDown(s)
    ensures Enabled(s, a) && Advances(s, a)
    ensures a.Serving? ==> !a.serve.Receive? && (a.serve == ReadFails ==> s.teardown == Signalled)
    ensures a != Accepting(Accept)
  {
    ReachableInvariant(s);
    if s.teardown == IoStopped {
      return if s.accepting then Accepting(AcceptEnds) else Stopping(JoinAccept);
    }
    if s.teardown == AcceptJoined {
      return Stopping(SignalClients);
    }
    if HasFinished(s) || Alive(s.clients) == 0 {
      return Stopping(Reap);
    }
    AliveZero(s.clients);
    var c :| 0 <= c < |s.clients| && s.clients[c].pc != Gone;
    match s.clients[c].pc
    case Reading => return Serving(c, ReadFails);
    case Queued(_) => return Serving(c, CountWake);
    case Notifying(_) => return Serving(c, Notify);
    case Replying(_) => return Serving(c, ReplyFails);
    case Unwound => return Serving(c, Finish);
    case Waiting(id) =>
      InFlightIsSomewhere(s, c);
      if id in s.outcomes {
        return Serving(c, Resume);
      }
      assert HeldByClient(s, s.batch[0]);
      return Rendering(if s.inHand.Some? then Settle else Handle(NoCrash));
  }

  /** Advancing steps of a run, counted until stop() returns. */
  ghost function AdvancesIn(s: State, actions: seq<Action>): nat
    requires Allowed(s, actions)
    decreases |actions|
  {
    if actions == [] || !TearingDown(s) then 0
    else (if Advances(s, actions[0]) then 1 else 0) + AdvancesIn(Apply(s, actions[0]), actions[1..])
  }

  /** However the threads interleave, stop() waits for at most Remaining(s)
      advancing steps. */
  lemma {:induction false} StopWaitsBoundedly(s: State, actions: seq<Action>)
    requires Invariant(s) && TearingDown(s) && Allowed(s, actions)
    ensures AdvancesIn(s, actions) <= Remaining(s)
    decreases |actions|
  {
    if actions != [] {
      TeardownDescends(s, actions[0]);
      InvariantStep(s, actions[0]);
      if TearingDown(Apply(s, actions[0])) {
        StopWaitsBoundedly(Apply(s, actions[0]), actions[1..]);
      }
    }
  }

  // ---------------------------------------------------------------------
  // Bounded response
  // ---------------------------------------------------------------------

  /** Frames that may still end in pace() before the request is settled: one, or two
      when it was queued behind the current frame's drain. */
  function FramesDue(s: State, r: Request): nat {
    if r in s.pending then (if s.gl == FrameDrain || s.gl == Drawn then 2 else 1)
    else if r in s.batch then 1
    else 0
  }

  lemma DueStep(s: State, a: Action, r: Request)
    requires Invariant(s) && Enabled(s, a) && r in s.created
    ensures r in Apply(s, a).created
    ensures FramesDue(Apply(s, a), r) <= (if a == Rendering(EnterPace) && FramesDue(s, r) > 0
                                          then FramesDue(s, r) - 1 else FramesDue(s, r))
  {
    match a
    case Accepting(step) => DueAccept(s, step, r);
    case Serving(c, step) => DueServe(s, c, step, r);
    case Rendering(step) => DueGl(s, step, r);
    case Stopping(step) => DueStop(s, step, r);
  }

  lemma DueAccept(s: State, step: AcceptStep, r: Request)
    requires Enabled(s, Accepting(step)) && r in s.created
    ensures r in ApplyAccept(s, step).created && FramesDue(ApplyAccept(s, step), r) == FramesDue(s, r)
  {
  }

  lemma DueStop(s: State, step: StopStep, r: Request)
    requires StopEnabled(s, step) && r in s.created
    ensures r in ApplyStop(s, step).created && FramesDue(ApplyStop(s, step), r) <= FramesDue(s, r)
  {
  }

  lemma DueServe(s: State, c: ClientId, step: ServeStep, r: Request)
    requires Invariant(s) && ServeEnabled(s, c, step) && r in s.created
    ensures r in ApplyServe(s, c, step).created && FramesDue(ApplyServe(s, c, step), r) <= FramesDue(s, r)
  {
    assert r.id < |s.created|;
  }

  lemma DueGl(s: State, step: GlStep, r: Request)
    requires Invariant(s) && GlEnabled(s, step) && r in s.created
    ensures r in ApplyGl(s, step).created
    ensures FramesDue(ApplyGl(s, step), r) <= (if step == EnterPace && FramesDue(s, r) > 0
                                               then FramesDue(s, r) - 1 else FramesDue(s, r))
  {
  }

  /** How often a run enters pace(): once for every frame rendered to its end. */
  function FramesIn(actions: seq<Action>): nat {
    if actions == [] then 0 else (if actions[0] == Rendering(EnterPace) then 1 else 0) + FramesIn(actions[1..])
  }

  /** Bounded response: however the threads interleave, and whatever clients do, a
      request is settled before pace() is entered again -- a second time, if the
      current frame's drain had already begun when it was queued -- running server or
      not. */
  lemma {:induction false} SettledByTheNextFrame(s: State, actions: seq<Action>, r: Request)
    requires Invariant(s) && Allowed(s, actions) && r in s.created && FramesIn(actions) >= FramesDue(s, r)
    ensures r.id in Run(s, actions).outcomes
    decreases |actions|
  {
    if actions == [] {
      Accounted(s, r);
    } else {
      DueStep(s, actions[0], r);
      InvariantStep(s, actions[0]);
      SettledByTheNextFrame(Apply(s, actions[0]), actions[1..], r);
    }
  }

  /** A request neither queued nor in a batch has its outcome. */
  lemma Accounted(s: State, r: Request)
    requires Invariant(s) && r in s.created
    ensures FramesDue(s, r) == 0 ==> r.id in s.outcomes
  {
    assert r in multiset(s.created);
  }

  // ---------------------------------------------------------------------
  // One drain(), run without interference
  // ---------------------------------------------------------------------

  /** One pass of drain()'s loop. */
  function DispatchHead(s: State, crash: Crash): (t: State)
    requires GlEnabled(s, Handle(crash))
    ensures t.gl == s.gl && t.inHand == None && t.batch == s.batch[1..] && t.pending == s.pending
    ensures |t.clients| == |s.clients| && forall c :: 0 <= c < |s.clients| ==> t.clients[c].pc == s.clients[c].pc
    ensures t.settled == s.settled + [s.batch[0]] && t.outcomes.Keys == s.outcomes.Keys + {s.batch[0].id}
  {
    ApplyGl(RunHandler(s, crash), Settle)
  }

  predicate InDrain(s: State) {
    Draining(s.gl) && s.inHand == None && forall r :: r in s.batch ==> r.client < |s.clients|
  }

  /** What is left of drain() from `s` on: dispatch and settle the batch in
      order, then return. */
  function DrainedFrom(s: State, crashes: RequestId -> Crash): State
    requires InDrain(s)
    decreases |s.batch|
  {
    if s.batch == [] then ApplyGl(s, DrainEnds)
    else DrainedFrom(DispatchHead(s, crashes(s.batch[0].id)), crashes)
  }

  function Ids(rs: seq<Request>): set<RequestId> { set r | r in rs :: r.id }

  lemma SeqSplit(settled: seq<Request>, batch: seq<Request>)
    requires batch != []
    ensures settled + [batch[0]] + batch[1..] == settled + batch
    ensures Ids(batch) == {batch[0].id} + Ids(batch[1..])
  {
    assert batch == [batch[0]] + batch[1..];
  }

  /** A drain settles, in order, every request that was queued when it began. */
  lemma {:induction false} DrainSettlesItsBatch(s: State, crashes: RequestId -> Crash)
    requires InDrain(s)
    ensures var t := DrainedFrom(s, crashes);
            && t.settled == s.settled + s.batch && t.batch == [] && t.pending == s.pending
            && t.outcomes.Keys == s.outcomes.Keys + Ids(s.batch)
    decreases |s.batch|
  {
    if s.batch != [] {
      SeqSplit(s.settled, s.batch);
      DrainSettlesItsBatch(DispatchHead(s, crashes(s.batch[0].id)), crashes);
    }
  }

  /** What a promise is settled with: the exception exactly when its handler threw. */
  predicate Answers(o: Outcome, crash: Crash) { if crash == NoCrash then o.Replied? else o == Threw }

  lemma HeadAnswered(s: State, crash: Crash, id: RequestId)
    requires GlEnabled(s, Handle(crash))
    ensures Answers(DispatchHead(s, crash).outcomes[s.batch[0].id], crash)
    ensures id in s.outcomes && id != s.batch[0].id ==>
              id in DispatchHead(s, crash).outcomes && DispatchHead(s, crash).outcomes[id] == s.outcomes[id]
  {
  }

  lemma {:induction false} AnswersStay(s: State, crashes: RequestId -> Crash, id: RequestId)
    requires InDrain(s) && id in s.outcomes && Answers(s.outcomes[id], crashes(id))
    ensures id in DrainedFrom(s, crashes).outcomes && Answers(DrainedFrom(s, crashes).outcomes[id], crashes(id))
    decreases |s.batch|
  {
    if s.batch != [] {
      HeadAnswered(s, crashes(s.batch[0].id), id);
      AnswersStay(DispatchHead(s, crashes(s.batch[0].id)), crashes, id);
    }
  }

  /** Each request of the batch gets its own handler's result: a reply, or the
      exception when that handler threw, whatever the others did. */
  lemma {:induction false} DrainAnswersEach(s: State, crashes: RequestId -> Crash, r: Request)
    requires InDrain(s) && r in s.batch
    ensures var t := DrainedFrom(s, crashes);
            r.id in t.outcomes && Answers(t.outcomes[r.id], crashes(r.id))
    decreases |s.batch|
  {
    var head := s.batch[0];
    HeadAnswered(s, crashes(head.id), r.id);
    var after := DispatchHead(s, crashes(head.id));
    if r == head {
      AnswersStay(after, crashes, r.id);
    } else {
      DrainAnswersEach(after, crashes, r);
    }
  }

  // ---------------------------------------------------------------------
  // A drain with the other threads' steps in between
  // ---------------------------------------------------------------------

  /** How the handler of request `id` ended in a run, if it ran. */
  ghost function HandledIn(s: State, actions: seq<Action>, id: RequestId): Option<Crash>
    requires Allowed(s, actions)
    decreases |actions|
  {
    if actions == [] then None
    else if actions[0].Rendering? && actions[0].gl.Handle? && s.batch != [] && s.batch[0].id == id then
      Some(actions[0].gl.crash)
    else HandledIn(Apply(s, actions[0]), actions[1..], id)
  }

  /** Where a request taken into a batch stands: still unhandled, handled and
      about to be settled, or settled. */
  ghost predicate Unhandled(s: State, r: Request) { r in s.batch && (s.inHand == None || s.batch[0] != r) }

  ghost predicate InHandAs(s: State, r: Request, crash: Crash) {
    s.batch != [] && s.batch[0] == r && s.inHand.Some? && Answers(s.inHand.value, crash)
  }

  ghost predicate SettledAs(s: State, r: Request, crash: Crash) {
    r.id in s.outcomes && Answers(s.outcomes[r.id], crash)
  }

  lemma BatchIds(s: State, r: Request)
    requires Invariant(s) && r in s.batch && s.batch != [] && s.batch[0].id == r.id
    ensures s.batch[0] == r
  {
    Unsettled(s, r);
    Unsettled(s, s.batch[0]);
  }

  lemma UnhandledStep(s: State, a: Action, r: Request)
    requires Invariant(s) && Enabled(s, a) && Unhandled(s, r)
    ensures var t := Apply(s, a);
      if a.Rendering? && a.gl.Handle? && s.batch[0].id == r.id then InHandAs(t, r, a.gl.crash) else Unhandled(t, r)
  {
    match a
    case Accepting(step) => assert Unhandled(ApplyAccept(s, step), r);
    case Serving(c, step) => UnhandledServeStep(s, c, step, r);
    case Rendering(step) => UnhandledGlStep(s, step, r);
    case Stopping(step) => assert Unhandled(ApplyStop(s, step), r);
  }

  lemma UnhandledServeStep(s: State, c: ClientId, step: ServeStep, r: Request)
    requires ServeEnabled(s, c, step) && Unhandled(s, r)
    ensures Unhandled(ApplyServe(s, c, step), r)
  {
  }

  lemma UnhandledGlStep(s: State, step: GlStep, r: Request)
    requires Invariant(s) && GlEnabled(s, step) && Unhandled(s, r)
    ensures var t := ApplyGl(s, step);
      if step.Handle? && s.batch[0].id == r.id then InHandAs(t, r, step.crash) else Unhandled(t, r)
  {
    if s.batch[0].id == r.id { BatchIds(s, r); }
    if step.Settle? {
      Unsettled(s, s.batch[0]);
      Unsettled(s, r);
    }
  }

  lemma InHandStep(s: State, a: Action, r: Request, crash: Crash)
    requires Invariant(s) && Enabled(s, a) && InHandAs(s, r, crash)
    ensures InHandAs(Apply(s, a), r, crash) || SettledAs(Apply(s, a), r, crash)
  {
    if a.Rendering? {
      InHandGlStep(s, a.gl, r, crash);
    } else if a.Serving? {
      InHandServeStep(s, a.c, a.serve, r, crash);
    }
  }

  lemma InHandGlStep(s: State, step: GlStep, r: Request, crash: Crash)
    requires Invariant(s) && GlEnabled(s, step) && InHandAs(s, r, crash)
    ensures InHandAs(ApplyGl(s, step), r, crash) || SettledAs(ApplyGl(s, step), r, crash)
  {
  }

  lemma InHandServeStep(s: State, c: ClientId, step: ServeStep, r: Request, crash: Crash)
    requires Invariant(s) && ServeEnabled(s, c, step) && InHandAs(s, r, crash)
    ensures InHandAs(ApplyServe(s, c, step), r, crash) || SettledAs(ApplyServe(s, c, step), r, crash)
  {
  }

  lemma {:induction false} InHandRun(s: State, actions: seq<Action>, r: Request, crash: Crash)
    requires Invariant(s) && Allowed(s, actions) && (InHandAs(s, r, crash) || SettledAs(s, r, crash))
    ensures InHandAs(Run(s, actions), r, crash) || SettledAs(Run(s, actions), r, crash)
    decreases |actions|
  {
    if actions != [] {
      InvariantStep(s, actions[0]);
      if SettledAs(s, r, crash) {
        OutcomesKept(s, actions[0], r.id);
      } else {
        InHandStep(s, actions[0], r, crash);
      }
      InHandRun(Apply(s, actions[0]), actions[1..], r, crash);
    }
  }

  /** Over any interleaving, a request a drain() has taken is either still waiting
      in that drain's batch, or its own handler has run and its promise holds -- or
      is about to be given -- that handler's result. Once the drain is over it is
      settled. */
  lemma {:induction false} InterleavedDrainAnswersEach(s: State, actions: seq<Action>, r: Request)
    requires Invariant(s) && Allowed(s, actions) && Unhandled(s, r)
    ensures var t := Run(s, actions);
      && (match HandledIn(s, actions, r.id)
          case None => Unhandled(t, r)
          case Some(crash) => InHandAs(t, r, crash) || SettledAs(t, r, crash))
      && (!Draining(t.gl) ==>
            HandledIn(s, actions, r.id).Some? && SettledAs(t, r, HandledIn(s, actions, r.id).value))
    decreases |actions|
  {
    InvariantRun(s, actions);
    if actions != [] {
      var a := actions[0];
      InvariantStep(s, a);
      UnhandledStep(s, a, r);
      if a.Rendering? && a.gl.Handle? && s.batch[0].id == r.id {
        InHandRun(Apply(s, a), actions[1..], r, a.gl.crash);
      } else {
        InterleavedDrainAnswersEach(Apply(s, a), actions[1..], r);
      }
    }
  }

  /** The members of `batch` among the requests settled, in the order settled. */
  function Among(settled: seq<Request>, batch: seq<Request>): seq<Request> {
    if settled == [] then []
    else
      var front, last := settled[..|settled| - 1], settled[|settled| - 1];
      Among(front, batch) + if last in batch then [last] else []
  }

  lemma {:induction false} AmongNone(settled: seq<Request>, more: seq<Request>, batch: seq<Request>)
    requires forall r :: r in more ==> r !in batch
    ensures Among(settled + more, batch) == Among(settled, batch)
    decreases |more|
  {
    if more == [] {
      assert settled + more == settled;
    } else {
      var front, last := more[..|more| - 1], more[|more| - 1];
      assert settled + more == (settled + front) + [last];
      assert (settled + more)[..|settled + more| - 1] == settled + front;
      AmongNone(settled, front, batch);
    }
  }

  lemma AmongOne(settled: seq<Request>, r: Request, batch: seq<Request>)
    requires r in batch
    ensures Among(settled + [r], batch) == Among(settled, batch) + [r]
  {
    assert (settled + [r])[..|settled|] == settled;
  }

  /** Of a batch taken when `from` requests had been settled, the first `n` have
      been settled since, in order, and the rest is still to come. */
  ghost predicate DrainedInOrder(s: State, batch: seq<Request>, from: nat, n: nat) {
    && n <= |batch| && s.batch == batch[n..] && from <= |s.settled|
    && Among(s.settled[from..], batch) == batch[..n]
    && forall r :: r in batch ==> r in s.batch || r in s.settled
  }

  lemma NotFromBatch(s: State, batch: seq<Request>, from: nat, n: nat, r: Request)
    requires Invariant(s) && DrainedInOrder(s, batch, from, n)
    requires r in s.pending || r.id == |s.created|
    ensures r !in batch
  {
    if r in batch {
      Placed(s, r);
      if r in s.pending { Unsettled(s, r); }
    }
  }

  lemma SettledMore(s: State, t: State, batch: seq<Request>, from: nat, n: nat, more: seq<Request>)
    requires DrainedInOrder(s, batch, from, n) && t.batch == s.batch && t.settled == s.settled + more
    requires forall r :: r in more ==> r !in batch
    ensures DrainedInOrder(t, batch, from, n)
  {
    assert t.settled[from..] == s.settled[from..] + more;
    AmongNone(s.settled[from..], more, batch);
  }

  lemma SettleInOrder(s: State, batch: seq<Request>, from: nat, n: nat)
    requires GlEnabled(s, Settle) && DrainedInOrder(s, batch, from, n)
    ensures DrainedInOrder(ApplyGl(s, Settle), batch, from, n + 1)
  {
    var t := ApplyGl(s, Settle);
    var head := s.batch[0];
    assert head == batch[n] && s.batch == [head] + batch[n + 1..];
    assert t.settled[from..] == s.settled[from..] + [head];
    AmongOne(s.settled[from..], head, batch);
    assert batch[..n + 1] == batch[..n] + [head];
  }

  lemma OrderStep(s: State, a: Action, batch: seq<Request>, from: nat, n: nat) returns (m: nat)
    requires Invariant(s) && Enabled(s, a) && Draining(s.gl) && a != Rendering(DrainEnds)
    requires DrainedInOrder(s, batch, from, n)
    ensures Draining(Apply(s, a).gl) && DrainedInOrder(Apply(s, a), batch, from, m)
  {
    m := n;
    if a == Rendering(Settle) {
      m := n + 1;
      SettleInOrder(s, batch, from, n);
    } else if a.Serving? {
      OrderServe(s, a.c, a.serve, batch, from, n);
    } else if a.Rendering? {
      OrderGl(s, a.gl, batch, from, n);
    } else if a.Accepting? {
      OrderAccept(s, a.accept, batch, from, n);
    } else {
      OrderStop(s, a.stop, batch, from, n);
    }
  }

  lemma OrderGl(s: State, step: GlStep, batch: seq<Request>, from: nat, n: nat)
    requires GlEnabled(s, step) && Draining(s.gl) && DrainedInOrder(s, batch, from, n)
    requires step != Settle && step != DrainEnds
    ensures Draining(ApplyGl(s, step).gl) && DrainedInOrder(ApplyGl(s, step), batch, from, n)
  {
    SettledMore(s, ApplyGl(s, step), batch, from, n, []);
  }

  lemma OrderAccept(s: State, step: AcceptStep, batch: seq<Request>, from: nat, n: nat)
    requires Enabled(s, Accepting(step)) && Draining(s.gl) && DrainedInOrder(s, batch, from, n)
    ensures Draining(ApplyAccept(s, step).gl) && DrainedInOrder(ApplyAccept(s, step), batch, from, n)
  {
    SettledMore(s, ApplyAccept(s, step), batch, from, n, []);
  }

  lemma OrderStop(s: State, step: StopStep, batch: seq<Request>, from: nat, n: nat)
    requires Invariant(s) && StopEnabled(s, step) && Draining(s.gl) && DrainedInOrder(s, batch, from, n)
    ensures Draining(ApplyStop(s, step).gl) && DrainedInOrder(ApplyStop(s, step), batch, from, n)
  {
    var broken := if step == BreakQueue then s.pending else [];
    forall r | r in broken ensures r !in batch { NotFromBatch(s, batch, from, n, r); }
    SettledMore(s, ApplyStop(s, step), batch, from, n, broken);
  }

  lemma OrderServe(s: State, c: ClientId, step: ServeStep, batch: seq<Request>, from: nat, n: nat)
    requires Invariant(s) && ServeEnabled(s, c, step) && Draining(s.gl) && DrainedInOrder(s, batch, from, n)
    ensures Draining(ApplyServe(s, c, step).gl) && DrainedInOrder(ApplyServe(s, c, step), batch, from, n)
  {
    if step.Receive? && s.stopped {
      var r := Request(|s.created|, c, step.message);
      NotFromBatch(s, batch, from, n, r);
      SettledMore(s, ApplyServe(s, c, step), batch, from, n, [r]);
    } else {
      SettledMore(s, ApplyServe(s, c, step), batch, from, n, []);
    }
  }

  /** However other threads step in between, a drain() settles its batch from the
      front: at any time before it returns, some number of the batch's requests
      have been settled, in their order, and the others remain, in theirs. */
  lemma {:induction false} InterleavedDrainKeepsOrder(s: State, actions: seq<Action>, batch: seq<Request>, from: nat, n: nat)
    returns (m: nat)
    requires Invariant(s) && Allowed(s, actions) && Draining(s.gl) && DrainedInOrder(s, batch, from, n)
    requires forall i :: 0 <= i < |actions| ==> actions[i] != Rendering(DrainEnds)
    ensures DrainedInOrder(Run(s, actions), batch, from, m)
    decreases |actions|
  {
    m := n;
    if actions != [] {
      InvariantStep(s, actions[0]);
      var k := OrderStep(s, actions[0], batch, from, n);
      m := InterleavedDrainKeepsOrder(Apply(s, actions[0]), actions[1..], batch, from, k);
    }
  }
}
