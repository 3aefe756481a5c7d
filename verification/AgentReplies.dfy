/**
 What each connection is told. The pipeline interleaves accept, serve, render and
 stop threads; seen from one connection it is a dialogue that depends on nothing
 but what that connection sent.
 */
module AgentReplies {
  import opened Wrappers
  import opened RequestPipeline

  // ---------------------------------------------------------------------
  // The requests of one connection
  // ---------------------------------------------------------------------

  /** The requests `c` has sent, in order. */
  function From(created: seq<Request>, c: ClientId): (asked: seq<Request>)
    ensures forall i :: 0 <= i < |asked| ==> asked[i] in created && asked[i].client == c
  {
    if created == [] then []
    else
      var last := created[|created| - 1];
      From(created[..|created| - 1], c) + if last.client == c then [last] else []
  }

  lemma FromMore(created: seq<Request>, r: Request, c: ClientId)
    ensures From(created + [r], c) == From(created, c) + if r.client == c then [r] else []
  {
    assert (created + [r])[..|created|] == created;
  }

  lemma {:induction false} FromHolds(created: seq<Request>, r: Request)
    requires r in created
    ensures r in From(created, r.client)
  {
    var front := created[..|created| - 1];
    assert created == front + [created[|created| - 1]];
    if r in front { FromHolds(front, r); }
  }

  /** A good hello is among the first `n` requests. */
  ghost predicate Greeted(token: string, asked: seq<Request>, n: nat) {
    exists j :: 0 <= j < n && j < |asked| && IsGoodHello(token, asked[j].message)
  }

  /** The reply due to request `i` of a connection, given what it sent before. */
  ghost predicate IsDue(token: string, asked: seq<Request>, i: nat, reply: Reply)
    requires i < |asked|
  {
    var m := asked[i].message;
    && (reply == Welcome <==> IsGoodHello(token, m))
    && (forall name :: reply == Served(name) <==>
          m.Call? && m.name == name && name in METHODS && Greeted(token, asked, i))
    && (reply == Refused("bad_token") <==>
          m.Call? && !IsGoodHello(token, m) && (m.name == "hello" || !Greeted(token, asked, i)))
    && (reply == Refused("unknown_method") <==>
          m.Malformed? || (m.name != "hello" && Greeted(token, asked, i) && m.name !in METHODS))
  }

  lemma GreetedMore(token: string, asked: seq<Request>, r: Request, n: nat)
    requires n <= |asked|
    ensures Greeted(token, asked + [r], n) == Greeted(token, asked, n)
  {
    if Greeted(token, asked, n) {
      var j :| 0 <= j < n && j < |asked| && IsGoodHello(token, asked[j].message);
      assert (asked + [r])[j] == asked[j];
    }
    if Greeted(token, asked + [r], n) {
      var j :| 0 <= j < n && j < |asked + [r]| && IsGoodHello(token, (asked + [r])[j].message);
      assert asked[j] == (asked + [r])[j];
    }
  }

  lemma GreetedNext(token: string, asked: seq<Request>, n: nat)
    requires n < |asked|
    ensures Greeted(token, asked, n + 1) <==> Greeted(token, asked, n) || IsGoodHello(token, asked[n].message)
  {
    if Greeted(token, asked, n) {
      var j :| 0 <= j < n && j < |asked| && IsGoodHello(token, asked[j].message);
      assert j < n + 1;
    }
    if IsGoodHello(token, asked[n].message) { assert n < n + 1; }
  }

  lemma DueMore(token: string, asked: seq<Request>, r: Request, i: nat, reply: Reply)
    requires i < |asked|
    ensures IsDue(token, asked + [r], i, reply) == IsDue(token, asked, i, reply)
  {
    GreetedMore(token, asked, r, i);
  }

  // ---------------------------------------------------------------------
  // How a request is decided
  // ---------------------------------------------------------------------

  /** The outcome of request `id`, recorded or about to be. */
  ghost function Fate(s: State, id: RequestId): Option<Outcome> {
    if id in s.outcomes then Some(s.outcomes[id])
    else if s.batch != [] && s.batch[0].id == id then s.inHand
    else None
  }

  /** The step at which request `id` gets its fate. */
  ghost predicate Decides(s: State, a: Action, id: RequestId) {
    || (a.Serving? && a.serve.Receive? && id == |s.created| && s.stopped)
    || (a == Stopping(BreakQueue) && id in Ids(s.pending))
    || (a.Rendering? && a.gl.Handle? && s.batch != [] && s.batch[0].id == id)
  }

  /** The fate a deciding step gives. */
  ghost predicate Given(o: Outcome, a: Action) {
    match a
    case Serving(_, _) => o == TurnedAway
    case Stopping(_) => o == Broken
    case Rendering(step) => step.Handle? && Answers(o, step.crash)
    case Accepting(_) => false
  }

  ghost predicate FateAfter(s: State, a: Action, t: State, id: RequestId) {
    if Fate(s, id).Some? then Fate(t, id) == Fate(s, id)
    else if Decides(s, a, id) then Fate(t, id).Some? && Given(Fate(t, id).value, a)
    else Fate(t, id) == None
  }

  lemma FateStep(s: State, a: Action, id: RequestId)
    requires Invariant(s) && Enabled(s, a)
    ensures FateAfter(s, a, Apply(s, a), id)
  {
    match a
    case Accepting(step) => FateAccept(s, step, id);
    case Serving(c, step) => FateServe(s, c, step, id);
    case Rendering(step) => FateGl(s, step, id);
    case Stopping(step) => FateStop(s, step, id);
  }

  lemma FateAccept(s: State, step: AcceptStep, id: RequestId)
    requires Enabled(s, Accepting(step))
    ensures FateAfter(s, Accepting(step), ApplyAccept(s, step), id)
  {
  }

  lemma FateServe(s: State, c: ClientId, step: ServeStep, id: RequestId)
    requires Numbered(s) && Conserved(s) && Recorded(s) && ServeEnabled(s, c, step)
    ensures FateAfter(s, Serving(c, step), ApplyServe(s, c, step), id)
  {
    if step.Receive? { FateReceive(s, c, step.message, id); }
  }

  lemma FateReceive(s: State, c: ClientId, m: Message, id: RequestId)
    requires Numbered(s) && Conserved(s) && Recorded(s) && ServeEnabled(s, c, Receive(m))
    ensures FateAfter(s, Serving(c, Receive(m)), ApplyServe(s, c, Receive(m)), id)
  {
    if s.batch != [] { Placed(s, s.batch[0]); }
    var t := ApplyServe(s, c, Receive(m));
    assert t.batch == s.batch && t.inHand == s.inHand;
  }

  lemma FateGl(s: State, step: GlStep, id: RequestId)
    requires Numbered(s) && Conserved(s) && Recorded(s) && DrainShape(s) && GlEnabled(s, step)
    ensures FateAfter(s, Rendering(step), ApplyGl(s, step), id)
  {
    if step.Handle? {
      FateHandle(s, step.crash, id);
    } else if step == Settle {
      FateSettle(s, id);
    } else {
      FateSwap(s, step, id);
    }
  }

  lemma FateHandle(s: State, crash: Crash, id: RequestId)
    requires Numbered(s) && Conserved(s) && Recorded(s) && GlEnabled(s, Handle(crash))
    ensures FateAfter(s, Rendering(Handle(crash)), RunHandler(s, crash), id)
  {
    Unsettled(s, s.batch[0]);
  }

  lemma FateSettle(s: State, id: RequestId)
    requires Numbered(s) && Conserved(s) && Recorded(s) && GlEnabled(s, Settle)
    ensures FateAfter(s, Rendering(Settle), ApplyGl(s, Settle), id)
  {
    Unsettled(s, s.batch[0]);
  }

  lemma FateSwap(s: State, step: GlStep, id: RequestId)
    requires DrainShape(s) && GlEnabled(s, step) && !step.Handle? && step != Settle
    ensures FateAfter(s, Rendering(step), ApplyGl(s, step), id)
  {
  }

  lemma FateStop(s: State, step: StopStep, id: RequestId)
    requires Numbered(s) && Conserved(s) && Recorded(s) && StopEnabled(s, step)
    ensures FateAfter(s, Stopping(step), ApplyStop(s, step), id)
  {
    if step == BreakQueue { FateBreak(s, id); }
  }

  lemma FateBreak(s: State, id: RequestId)
    requires Numbered(s) && Conserved(s) && Recorded(s) && StopEnabled(s, BreakQueue)
    ensures FateAfter(s, Stopping(BreakQueue), ApplyStop(s, BreakQueue), id)
  {
    if s.batch != [] { Unsettled(s, s.batch[0]); }
    forall r | r in s.pending ensures r.id !in s.outcomes && (s.batch != [] ==> s.batch[0].id != r.id) {
      Unsettled(s, r);
    }
  }

  /** The first step of a run that decides request `id`. */
  ghost function DecidedIn(s: State, actions: seq<Action>, id: RequestId): Option<Action>
    requires Allowed(s, actions)
    decreases |actions|
  {
    if actions == [] then None
    else if Decides(s, actions[0], id) then Some(actions[0])
    else DecidedIn(Apply(s, actions[0]), actions[1..], id)
  }

  lemma {:induction false} FateStays(s: State, actions: seq<Action>, id: RequestId)
    requires Invariant(s) && Allowed(s, actions) && Fate(s, id).Some?
    ensures Fate(Run(s, actions), id) == Fate(s, id)
    decreases |actions|
  {
    if actions != [] {
      FateStep(s, actions[0], id);
      InvariantStep(s, actions[0]);
      FateStays(Apply(s, actions[0]), actions[1..], id);
    }
  }

  /** Over any interleaving, one step decides what a request comes to: it is turned
      away when it arrives after stop() began, broken when it is queued as stop()
      begins, and otherwise answered by its handler, or failed if that threw. */
  lemma {:induction false} OutcomeIsAsDecided(s: State, actions: seq<Action>, id: RequestId)
    requires Invariant(s) && Allowed(s, actions) && Fate(s, id) == None
    ensures var end := Fate(Run(s, actions), id);
      match DecidedIn(s, actions, id)
      case None => end == None
      case Some(a) => end.Some? && Given(end.value, a)
    decreases |actions|
  {
    if actions != [] {
      FateStep(s, actions[0], id);
      InvariantStep(s, actions[0]);
      if Decides(s, actions[0], id) {
        FateStays(Apply(s, actions[0]), actions[1..], id);
      } else {
        OutcomeIsAsDecided(Apply(s, actions[0]), actions[1..], id);
      }
    }
  }

  // ---------------------------------------------------------------------
  // The dialogue
  // ---------------------------------------------------------------------

  /** The `authed` flag of a connection whose last request has this fate. */
  ghost predicate FlagIs(token: string, asked: seq<Request>, fate: Option<Outcome>, authed: bool)
    requires asked != []
  {
    match fate
    case None => authed == Greeted(token, asked, |asked| - 1)
    case Some(Replied(_)) => authed == Greeted(token, asked, |asked|)
    case _ => true
  }

  /** Every reply written was the recorded outcome of its request. */
  ghost predicate SentAsRecorded(s: State, asked: seq<Request>, sent: seq<Reply>) {
    && |sent| <= |asked|
    && forall i :: 0 <= i < |sent| ==>
         asked[i].id in s.outcomes && s.outcomes[asked[i].id] == Replied(sent[i])
  }

  ghost predicate FateIsDue(s: State, asked: seq<Request>, i: nat)
    requires i < |asked|
  {
    match Fate(s, asked[i].id)
    case Some(Replied(reply)) => IsDue(s.token, asked, i, reply)
    case _ => true
  }

  ghost predicate FatesAreDue(s: State, asked: seq<Request>) {
    forall i :: 0 <= i < |asked| ==> FateIsDue(s, asked, i)
  }

  /** Where a connection's thread stands in the dialogue. */
  ghost predicate AtTurn(s: State, asked: seq<Request>, thread: Serve) {
    var n := |asked|;
    match thread.pc
    case Reading => |thread.sent| == n && thread.authed == Greeted(s.token, asked, n)
    case Replying(reply) =>
      && n == |thread.sent| + 1 && asked[n - 1].id in s.outcomes
      && s.outcomes[asked[n - 1].id] == Replied(reply)
      && thread.authed == Greeted(s.token, asked, n)
    case Unwound => n <= |thread.sent| + 1
    case Finished => n <= |thread.sent| + 1
    case Gone => n <= |thread.sent| + 1
    case _ =>
      && n == |thread.sent| + 1 && asked[n - 1].id == InFlight(thread.pc).value
      && FlagIs(s.token, asked, Fate(s, asked[n - 1].id), thread.authed)
  }

  ghost predicate Conversing(s: State, asked: seq<Request>, thread: Serve) {
    SentAsRecorded(s, asked, thread.sent) && FatesAreDue(s, asked) && AtTurn(s, asked, thread)
  }

  ghost predicate Talks(s: State, c: ClientId)
    requires c < |s.clients|
  {
    Conversing(s, From(s.created, c), s.clients[c])
  }

  ghost predicate Dialogues(s: State) {
    && (forall c :: 0 <= c < |s.clients| ==> Talks(s, c))
    && (forall r :: r in s.created ==> r.client < |s.clients|)
  }

  /** Nothing about connection `c` moved from `s` to `t`, but for fates that are not
      replies and its being reaped. */
  ghost predicate Unmoved(s: State, t: State, c: ClientId)
    requires c < |s.clients|
  {
    && t.token == s.token && c < |t.clients| && From(t.created, c) == From(s.created, c)
    && (t.clients[c] == s.clients[c]
        || (s.clients[c].pc == Finished && t.clients[c] == s.clients[c].(pc := Gone)))
    && (forall id :: id in s.outcomes ==> id in t.outcomes && t.outcomes[id] == s.outcomes[id])
    && forall i :: 0 <= i < |From(s.created, c)| ==> SameFate(s, t, From(s.created, c)[i].id)
  }

  ghost predicate SameFate(s: State, t: State, id: RequestId) {
    Fate(t, id) == Fate(s, id) || (Fate(s, id) == None && !Fate(t, id).value.Replied?)
  }

  lemma UnmovedTalks(s: State, t: State, c: ClientId)
    requires c < |s.clients| && Talks(s, c) && Unmoved(s, t, c)
    ensures Talks(t, c)
  {
    var asked := From(s.created, c);
    forall i | 0 <= i < |asked| ensures FateIsDue(t, asked, i) {
      assert SameFate(s, t, asked[i].id) && FateIsDue(s, asked, i);
    }
    assert AtTurn(t, asked, t.clients[c]) by {
      if InFlight(s.clients[c].pc).Some? { assert SameFate(s, t, asked[|asked| - 1].id); }
    }
  }

  /** A step that does not run the handler of one of `c`'s requests gives none of them
      a reply. */
  lemma SameFateStep(s: State, a: Action, t: State, q: Request)
    requires Numbered(s) && Conserved(s) && Enabled(s, a) && q in s.created && FateAfter(s, a, t, q.id)
    requires a.Rendering? && a.gl.Handle? ==> s.batch[0].client != q.client
    ensures SameFate(s, t, q.id)
  {
    if s.batch != [] { Placed(s, s.batch[0]); }
  }

  lemma StepLeavesUnmoved(s: State, a: Action, t: State, c: ClientId)
    requires Invariant(s) && Enabled(s, a) && t == Apply(s, a) && c < |s.clients| && c < |t.clients|
    requires t.token == s.token && From(t.created, c) == From(s.created, c)
    requires t.clients[c] == s.clients[c]
          || (s.clients[c].pc == Finished && t.clients[c] == s.clients[c].(pc := Gone))
    requires a.Rendering? && a.gl.Handle? ==> s.batch[0].client != c
    ensures Unmoved(s, t, c)
  {
    forall id | id in s.outcomes ensures id in t.outcomes && t.outcomes[id] == s.outcomes[id] {
      OutcomesKept(s, a, id);
    }
    var asked := From(s.created, c);
    forall i | 0 <= i < |asked| ensures SameFate(s, t, asked[i].id) {
      FateStep(s, a, asked[i].id);
      SameFateStep(s, a, t, asked[i]);
    }
  }

  /** A connection sends its next request. */
  lemma ReceiveTalks(s: State, c: ClientId, m: Message)
    requires Numbered(s) && Conserved(s) && Recorded(s) && ServeEnabled(s, c, Receive(m)) && Talks(s, c)
    ensures Talks(ApplyServe(s, c, Receive(m)), c)
  {
    var t := ApplyServe(s, c, Receive(m));
    var asked, r := From(s.created, c), Request(|s.created|, c, m);
    assert t.created == s.created + [r];
    FromMore(s.created, r, c);
    NoFateYet(s, r.id);
    FateReceive(s, c, m, r.id);
    forall i | 0 <= i < |asked| + 1 ensures FateIsDue(t, asked + [r], i) {
      if i < |asked| { StillDue(s, c, m, t, asked, r, i); }
    }
    ReceiveTurn(s, c, m, t, asked, r);
  }

  lemma StillDue(s: State, c: ClientId, m: Message, t: State, asked: seq<Request>, r: Request, i: nat)
    requires Numbered(s) && Conserved(s) && Recorded(s) && ServeEnabled(s, c, Receive(m))
    requires t == ApplyServe(s, c, Receive(m)) && i < |asked| && asked[i] in s.created && FateIsDue(s, asked, i)
    ensures FateIsDue(t, asked + [r], i)
  {
    FateReceive(s, c, m, asked[i].id);
    if Fate(s, asked[i].id).Some? && Fate(s, asked[i].id).value.Replied? {
      DueMore(s.token, asked, r, i, Fate(s, asked[i].id).value.reply);
    }
  }

  lemma ReceiveTurn(s: State, c: ClientId, m: Message, t: State, asked: seq<Request>, r: Request)
    requires ServeEnabled(s, c, Receive(m)) && t == ApplyServe(s, c, Receive(m)) && r.id == |s.created|
    requires Recorded(s) && FateAfter(s, Serving(c, Receive(m)), t, r.id) && Fate(s, r.id) == None
    requires SentAsRecorded(s, asked, s.clients[c].sent) && AtTurn(s, asked, s.clients[c])
    ensures SentAsRecorded(t, asked + [r], t.clients[c].sent) && AtTurn(t, asked + [r], t.clients[c])
  {
    GreetedMore(s.token, asked, r, |asked|);
  }

  lemma NoFateYet(s: State, id: RequestId)
    requires Numbered(s) && Conserved(s) && Recorded(s) && id == |s.created|
    ensures Fate(s, id) == None
  {
    if s.batch != [] { Placed(s, s.batch[0]); }
  }

  /** Its thread takes a step of its own, other than receiving. */
  lemma ServeTalks(s: State, c: ClientId, step: ServeStep)
    requires ServeEnabled(s, c, step) && !step.Receive? && Talks(s, c)
    ensures Talks(ApplyServe(s, c, step), c)
  {
    var t := ApplyServe(s, c, step);
    var asked := From(s.created, c);
    assert t.created == s.created;
    forall i | 0 <= i < |asked| ensures FateIsDue(t, asked, i) { assert FateIsDue(s, asked, i); }
    TurnTaken(s, t, c, step, asked);
  }

  lemma TurnTaken(s: State, t: State, c: ClientId, step: ServeStep, asked: seq<Request>)
    requires ServeEnabled(s, c, step) && !step.Receive? && t == ApplyServe(s, c, step)
    requires SentAsRecorded(s, asked, s.clients[c].sent) && AtTurn(s, asked, s.clients[c])
    ensures SentAsRecorded(t, asked, t.clients[c].sent) && AtTurn(t, asked, t.clients[c])
  {
    assert t.outcomes == s.outcomes && t.batch == s.batch && t.inHand == s.inHand;
  }

  /** The request whose handler is about to run is the last its connection sent. */
  lemma HeadIsLast(s: State, c: ClientId)
    requires Numbered(s) && Conserved(s) && Recorded(s) && Owned(s)
    requires s.batch != [] && s.inHand == None && s.batch[0].client == c && c < |s.clients| && Talks(s, c)
    ensures var asked := From(s.created, c);
            asked != [] && asked[|asked| - 1] == s.batch[0] && Fate(s, s.batch[0].id) == None
    ensures InFlight(s.clients[c].pc).Some?
  {
    var asked, head := From(s.created, c), s.batch[0];
    assert HeldByClient(s, head);
    Unsettled(s, head);
    assert asked[|asked| - 1] in s.created;
  }

  /** The handler of its request runs. */
  lemma HandleTalks(s: State, crash: Crash, c: ClientId)
    requires Numbered(s) && Conserved(s) && Recorded(s) && Owned(s)
    requires GlEnabled(s, Handle(crash)) && s.batch[0].client == c && Talks(s, c)
    ensures Talks(RunHandler(s, crash), c)
  {
    var t, asked := RunHandler(s, crash), From(s.created, c);
    assert t.created == s.created;
    HeadIsLast(s, c);
    HandledIsDue(s, crash, t, asked);
    forall i | 0 <= i < |asked| ensures FateIsDue(t, asked, i) {
      if i < |asked| - 1 {
        FateHandle(s, crash, asked[i].id);
        assert FateIsDue(s, asked, i);
      }
    }
  }

  lemma HandledIsDue(s: State, crash: Crash, t: State, asked: seq<Request>)
    requires GlEnabled(s, Handle(crash)) && t == RunHandler(s, crash) && asked != []
    requires asked[|asked| - 1] == s.batch[0] && Fate(s, s.batch[0].id) == None
    requires AtTurn(s, asked, s.clients[s.batch[0].client])
    requires InFlight(s.clients[s.batch[0].client].pc).Some?
    ensures FateIsDue(t, asked, |asked| - 1) && AtTurn(t, asked, t.clients[s.batch[0].client])
  {
    GreetedNext(s.token, asked, |asked| - 1);
  }

  // ---------------------------------------------------------------------
  // Every run
  // ---------------------------------------------------------------------

  lemma {:induction false} NobodyYet(created: seq<Request>, c: ClientId)
    requires forall r :: r in created ==> r.client < c
    ensures From(created, c) == []
  {
    if created != [] {
      NobodyYet(created[..|created| - 1], c);
      assert created[|created| - 1] in created;
    }
  }

  lemma AcceptDialogues(s: State, step: AcceptStep)
    requires Invariant(s) && Enabled(s, Accepting(step)) && Dialogues(s)
    ensures Dialogues(ApplyAccept(s, step))
  {
    var t := ApplyAccept(s, step);
    forall c | 0 <= c < |t.clients| ensures Talks(t, c) {
      if c < |s.clients| {
        StepLeavesUnmoved(s, Accepting(step), t, c);
        UnmovedTalks(s, t, c);
      } else {
        NewcomerTalks(s, step, c);
      }
    }
  }

  lemma NewcomerTalks(s: State, step: AcceptStep, c: ClientId)
    requires Enabled(s, Accepting(step)) && |s.clients| <= c < |ApplyAccept(s, step).clients|
    requires forall r :: r in s.created ==> r.client < |s.clients|
    ensures Talks(ApplyAccept(s, step), c)
  {
    NobodyYet(s.created, c);
    assert !Greeted(s.token, [], 0);
  }

  lemma ServeDialogues(s: State, d: ClientId, step: ServeStep)
    requires Invariant(s) && ServeEnabled(s, d, step) && Dialogues(s)
    ensures Dialogues(ApplyServe(s, d, step))
  {
    var t := ApplyServe(s, d, step);
    forall c | 0 <= c < |t.clients| ensures Talks(t, c) {
      if c == d {
        if step.Receive? { ReceiveTalks(s, c, step.message); } else { ServeTalks(s, c, step); }
      } else {
        if step.Receive? { FromMore(s.created, Request(|s.created|, d, step.message), c); }
        StepLeavesUnmoved(s, Serving(d, step), t, c);
        UnmovedTalks(s, t, c);
      }
    }
  }

  lemma GlDialogues(s: State, step: GlStep)
    requires Invariant(s) && GlEnabled(s, step) && Dialogues(s)
    ensures Dialogues(ApplyGl(s, step))
  {
    var t := ApplyGl(s, step);
    forall c | 0 <= c < |t.clients| ensures Talks(t, c) {
      if step.Handle? && s.batch[0].client == c {
        HandleTalks(s, step.crash, c);
      } else {
        StepLeavesUnmoved(s, Rendering(step), t, c);
        UnmovedTalks(s, t, c);
      }
    }
  }

  lemma StopDialogues(s: State, step: StopStep)
    requires Invariant(s) && StopEnabled(s, step) && Dialogues(s)
    ensures Dialogues(ApplyStop(s, step))
  {
    var t := ApplyStop(s, step);
    forall c | 0 <= c < |t.clients| ensures Talks(t, c) {
      StepLeavesUnmoved(s, Stopping(step), t, c);
      UnmovedTalks(s, t, c);
    }
  }

  lemma DialoguesStep(s: State, a: Action)
    requires Invariant(s) && Dialogues(s) && Enabled(s, a)
    ensures Dialogues(Apply(s, a))
  {
    match a
    case Accepting(step) => AcceptDialogues(s, step);
    case Serving(c, step) => ServeDialogues(s, c, step);
    case Rendering(step) => GlDialogues(s, step);
    case Stopping(step) => StopDialogues(s, step);
  }

  lemma {:induction false} DialoguesRun(s: State, actions: seq<Action>)
    requires Invariant(s) && Dialogues(s) && Allowed(s, actions)
    ensures Dialogues(Run(s, actions))
    decreases |actions|
  {
    if actions != [] {
      DialoguesStep(s, actions[0]);
      InvariantStep(s, actions[0]);
      DialoguesRun(Apply(s, actions[0]), actions[1..]);
    }
  }

  lemma ReachableDialogues(s: State)
    requires Reachable(s)
    ensures Dialogues(s)
  {
    var token, period, now, actions :|
      && Allowed(Initial(token, period, now), actions)
      && s == Run(Initial(token, period, now), actions);
    DialoguesRun(Initial(token, period, now), actions);
  }

  /** Whatever the threads do meanwhile, a request that is answered gets exactly the
      reply due to it from what its own connection sent up to it. */
  lemma RepliesAreDue(s: State, r: Request) returns (i: nat)
    requires Reachable(s) && r in s.created
    ensures i < |From(s.created, r.client)| && From(s.created, r.client)[i] == r
    ensures r.id in s.outcomes && s.outcomes[r.id].Replied? ==>
              IsDue(s.token, From(s.created, r.client), i, s.outcomes[r.id].reply)
  {
    ReachableDialogues(s);
    FromHolds(s.created, r);
    var asked := From(s.created, r.client);
    i :| 0 <= i < |asked| && asked[i] == r;
    assert Talks(s, r.client) && FateIsDue(s, asked, i);
  }

  /** The dialogue: what has been written to a connection is one reply a request, in
      order, each due to its request; at most the last request is unanswered, and none
      is while the connection is being read from. */
  lemma DialogueIsSequential(s: State, c: ClientId)
    requires Reachable(s) && c < |s.clients|
    ensures var asked, sent := From(s.created, c), s.clients[c].sent;
      && |sent| <= |asked| <= |sent| + 1
      && (forall i :: 0 <= i < |sent| ==> IsDue(s.token, asked, i, sent[i]))
      && (s.clients[c].pc == Reading ==> |asked| == |sent|)
  {
    ReachableDialogues(s);
    assert Talks(s, c);
    var asked, sent := From(s.created, c), s.clients[c].sent;
    forall i | 0 <= i < |sent| ensures IsDue(s.token, asked, i, sent[i]) {
      assert FateIsDue(s, asked, i);
    }
  }

  /** A connection that is being read from has its flag set exactly when it has sent
      a good hello: authentication is granted by it, and by nothing else. */
  lemma AuthedExactlyAfterHello(s: State, c: ClientId)
    requires Reachable(s) && c < |s.clients| && s.clients[c].pc == Reading
    ensures s.clients[c].authed <==> exists r :: r in s.created && r.client == c && IsGoodHello(s.token, r.message)
  {
    ReachableDialogues(s);
    assert Talks(s, c);
    var asked := From(s.created, c);
    if r :| r in s.created && r.client == c && IsGoodHello(s.token, r.message) {
      FromHolds(s.created, r);
      var j :| 0 <= j < |asked| && asked[j] == r;
      assert Greeted(s.token, asked, |asked|);
    }
  }

  // ---------------------------------------------------------------------
  // Grants and handler runs
  // ---------------------------------------------------------------------

  /** What a request's fate says about the history of handler runs. */
  ghost predicate RanAsFated(s: State, r: Request) {
    match Fate(s, r.id)
    case Some(Replied(Welcome)) => Granted(r.client) in s.events
    case Some(Replied(Served(name))) => Ran(r.client, name) in s.events
    case _ => true
  }

  ghost predicate HistoryMatches(s: State) {
    && (forall c: ClientId :: Granted(c) in s.events ==> c < |s.clients| && s.clients[c].authed)
    && (forall r :: r in s.created ==> RanAsFated(s, r))
  }

  lemma FatesStillRan(s: State, a: Action, t: State, r: Request)
    requires Numbered(s) && Conserved(s) && Enabled(s, a) && r in s.created
    requires FateAfter(s, a, t, r.id) && RanAsFated(s, r) && s.events <= t.events
    requires a.Rendering? && a.gl.Handle? ==> t == RunHandler(s, a.gl.crash)
    ensures RanAsFated(t, r)
  {
    if a.Rendering? && a.gl.Handle? && s.batch[0].id == r.id { Placed(s, s.batch[0]); }
  }

  lemma HistoryStep(s: State, a: Action)
    requires Invariant(s) && Enabled(s, a) && HistoryMatches(s)
    ensures HistoryMatches(Apply(s, a))
  {
    var t := Apply(s, a);
    GrantsKept(s, a);
    HandlingIsRunning(s, a, t);
    forall r | r in t.created ensures RanAsFated(t, r) {
      FateStep(s, a, r.id);
      if r in s.created { FatesStillRan(s, a, t, r); } else { NewlyFated(s, a, t, r); }
    }
  }

  lemma HandlingIsRunning(s: State, a: Action, t: State)
    requires Enabled(s, a) && t == Apply(s, a)
    ensures a.Rendering? && a.gl.Handle? ==> t == RunHandler(s, a.gl.crash)
    ensures t.created == s.created
         || (a.Serving? && a.serve.Receive? && t.created == s.created + [Request(|s.created|, a.c, a.serve.message)])
  {
    match a
    case Accepting(step) => assert ApplyAccept(s, step).created == s.created;
    case Serving(c, step) => assert !step.Receive? ==> ApplyServe(s, c, step).created == s.created;
    case Rendering(step) => assert ApplyGl(s, step).created == s.created;
    case Stopping(step) => assert ApplyStop(s, step).created == s.created;
  }

  /** A request just received is turned away or has no fate yet. */
  lemma NewlyFated(s: State, a: Action, t: State, r: Request)
    requires Numbered(s) && Conserved(s) && Recorded(s) && a.Serving? && a.serve.Receive?
    requires t.created == s.created + [Request(|s.created|, a.c, a.serve.message)]
    requires r in t.created && r !in s.created && FateAfter(s, a, t, r.id)
    ensures RanAsFated(t, r)
  {
    NoFateYet(s, r.id);
  }

  lemma GrantsKept(s: State, a: Action)
    requires Enabled(s, a) && HistoryMatches(s)
    ensures s.events <= Apply(s, a).events
    ensures forall c: ClientId :: Granted(c) in Apply(s, a).events ==> c < |Apply(s, a).clients| && Apply(s, a).clients[c].authed
  {
    match a
    case Accepting(step) => assert ApplyAccept(s, step).events == s.events;
    case Serving(c, step) => assert ApplyServe(s, c, step).events == s.events;
    case Rendering(step) => GrantsKeptByGl(s, step);
    case Stopping(step) => assert ApplyStop(s, step).events == s.events;
  }

  lemma GrantsKeptByGl(s: State, step: GlStep)
    requires GlEnabled(s, step) && HistoryMatches(s)
    ensures s.events <= ApplyGl(s, step).events
    ensures var t := ApplyGl(s, step);
            forall c: ClientId :: Granted(c) in t.events ==> c < |t.clients| && t.clients[c].authed
  {
  }

  lemma {:induction false} HistoryRun(s: State, actions: seq<Action>)
    requires Invariant(s) && HistoryMatches(s) && Allowed(s, actions)
    ensures HistoryMatches(Run(s, actions))
    decreases |actions|
  {
    if actions != [] {
      HistoryStep(s, actions[0]);
      InvariantStep(s, actions[0]);
      HistoryRun(Apply(s, actions[0]), actions[1..]);
    }
  }

  /** A connection's flag is set exactly when a hello handler granted it, and each
      reply that reports a handler's work is of a handler that ran. */
  lemma GrantsSetTheFlag(s: State, c: ClientId, r: Request)
    requires Reachable(s) && r in s.created
    ensures Granted(c) in s.events <==> c < |s.clients| && s.clients[c].authed
    ensures r.id in s.outcomes ==>
              && (s.outcomes[r.id] == Replied(Welcome) ==> Granted(r.client) in s.events)
              && (forall name :: s.outcomes[r.id] == Replied(Served(name)) ==> Ran(r.client, name) in s.events)
  {
    var token, period, now, actions :|
      && Allowed(Initial(token, period, now), actions)
      && s == Run(Initial(token, period, now), actions);
    InvariantRun(Initial(token, period, now), actions);
    HistoryRun(Initial(token, period, now), actions);
    assert RanAsFated(s, r);
  }

  // ---------------------------------------------------------------------
  // How a connection begins and ends
  // ---------------------------------------------------------------------

  /** The connections whose threads have not ended. */
  ghost function Unended(clients: seq<Serve>): set<ClientId> {
    set c | 0 <= c < |clients| && clients[c].pc != Finished && clients[c].pc != Gone
  }

  lemma UnendedSnoc(front: seq<Serve>, last: Serve)
    ensures Unended(front + [last]) ==
              if last.pc == Finished || last.pc == Gone then Unended(front) else Unended(front) + {|front|}
    ensures |front| !in Unended(front)
  {
  }

  lemma AliveSnoc(front: seq<Serve>, last: Serve)
    ensures Alive(Reaped(front + [last])) ==
              Alive(Reaped(front)) + if last.pc == Finished || last.pc == Gone then 0 else 1
  {
    var all := Reaped(front + [last]);
    assert all[..|front|] == Reaped(front);
  }

  lemma {:induction false} UnendedCount(clients: seq<Serve>)
    ensures |Unended(clients)| == Alive(Reaped(clients))
  {
    if clients != [] {
      var front, last := clients[..|clients| - 1], clients[|clients| - 1];
      assert clients == front + [last];
      UnendedCount(front);
      UnendedSnoc(front, last);
      AliveSnoc(front, last);
    }
  }

  /** A newcomer is served exactly while fewer than MAX_CLIENTS connections have
      threads that have not ended; it starts unauthenticated, with nothing said. */
  lemma AdmittedBelowTheCap(s: State)
    requires Enabled(s, Accepting(Accept))
    ensures var t := Apply(s, Accepting(Accept));
      && Unended(t.clients) == Unended(s.clients)
           + (if |Unended(s.clients)| < MAX_CLIENTS then {|s.clients|} else {})
      && (|Unended(s.clients)| < MAX_CLIENTS ==>
            |t.clients| == |s.clients| + 1 && t.clients[|s.clients|] == CONNECTED)
  {
    UnendedCount(s.clients);
  }

  predicate HungUp(pc: ServePc) { pc == Unwound || pc == Finished || pc == Gone }

  /** The step ends its conversation with `c`: the peer is gone, or the request it
      resumes from was not answered. */
  ghost predicate HangsUp(s: State, a: Action, c: ClientId) {
    && a.Serving? && a.c == c && Enabled(s, a)
    && match a.serve
       case ReadFails => true
       case ReplyFails => true
       case Resume => Failure(s.outcomes[s.clients[c].pc.id])
       case _ => false
  }

  ghost predicate HangsUpIn(s: State, actions: seq<Action>, c: ClientId)
    requires Allowed(s, actions)
    decreases |actions|
  {
    actions != [] && (HangsUp(s, actions[0], c) || HangsUpIn(Apply(s, actions[0]), actions[1..], c))
  }

  /** After the step, which lost no connection, `c` has hung up exactly for a reason. */
  ghost predicate HungUpAfter(s: State, a: Action, t: State, c: ClientId) {
    && |s.clients| <= |t.clients|
    && (c < |t.clients| ==>
          (HungUp(t.clients[c].pc) <==> HangsUp(s, a, c) || (c < |s.clients| && HungUp(s.clients[c].pc))))
  }

  lemma HangUpStep(s: State, a: Action, c: ClientId)
    requires Enabled(s, a)
    ensures HungUpAfter(s, a, Apply(s, a), c)
  {
    match a
    case Accepting(step) => HangUpAccept(s, step, c);
    case Serving(d, step) => HangUpServe(s, d, step, c);
    case Rendering(step) => HangUpGl(s, step, c);
    case Stopping(step) => HangUpStop(s, step, c);
  }

  lemma HangUpAccept(s: State, step: AcceptStep, c: ClientId)
    requires Enabled(s, Accepting(step))
    ensures HungUpAfter(s, Accepting(step), ApplyAccept(s, step), c)
  {
  }

  lemma HangUpServe(s: State, d: ClientId, step: ServeStep, c: ClientId)
    requires ServeEnabled(s, d, step)
    ensures HungUpAfter(s, Serving(d, step), ApplyServe(s, d, step), c)
  {
  }

  lemma HangUpGl(s: State, step: GlStep, c: ClientId)
    requires GlEnabled(s, step)
    ensures HungUpAfter(s, Rendering(step), ApplyGl(s, step), c)
  {
  }

  lemma HangUpStop(s: State, step: StopStep, c: ClientId)
    requires StopEnabled(s, step)
    ensures HungUpAfter(s, Stopping(step), ApplyStop(s, step), c)
  {
  }

  lemma {:induction false} ClientsStayInRun(s: State, actions: seq<Action>)
    requires Allowed(s, actions)
    ensures |s.clients| <= |Run(s, actions).clients|
    decreases |actions|
  {
    if actions != [] {
      HangUpStep(s, actions[0], 0);
      ClientsStayInRun(Apply(s, actions[0]), actions[1..]);
    }
  }

  /** A conversation ends for these reasons and no other: a serve thread leaves its
      loop exactly when a read or a write fails or its request was not answered. */
  lemma {:induction false} HungUpExactly(s: State, actions: seq<Action>, c: ClientId)
    requires Allowed(s, actions) && c < |Run(s, actions).clients|
    ensures HungUp(Run(s, actions).clients[c].pc) <==>
              HangsUpIn(s, actions, c) || (c < |s.clients| && HungUp(s.clients[c].pc))
    decreases |actions|
  {
    if actions != [] {
      HangUpStep(s, actions[0], c);
      HungUpExactly(Apply(s, actions[0]), actions[1..], c);
    }
  }
}
