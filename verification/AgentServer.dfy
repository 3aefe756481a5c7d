/**
 The server object whose fields the request pipeline's actions stand for. Each
 method is one lock-protected block of the source (or a whole drain(), run on
 its own) and takes the abstract state by exactly the matching action.
 */
module AgentServing {
  import opened Wrappers
  import opened RequestPipeline

  /** One entry of clients_. */
  datatype Connection = Connection(id: ClientId, finished: bool)

  /** clients_ as the transition system sees it: every connection not yet erased. */
  function Listed(clients: seq<Serve>): seq<Connection> {
    if clients == [] then []
    else
      var last := clients[|clients| - 1];
      Listed(clients[..|clients| - 1])
      + if last.pc == Gone then [] else [Connection(|clients| - 1, last.pc == Finished)]
  }

  function Unfinished(connections: seq<Connection>): seq<Connection> {
    if connections == [] then []
    else Unfinished(connections[..|connections| - 1])
         + if connections[|connections| - 1].finished then [] else [connections[|connections| - 1]]
  }

  function Flags(clients: seq<Serve>): seq<bool> {
    seq(|clients|, i requires 0 <= i < |clients| => clients[i].authed)
  }

  lemma {:induction false} ListedCount(clients: seq<Serve>)
    ensures |Listed(clients)| == Alive(clients)
  {
    if clients != [] { ListedCount(clients[..|clients| - 1]); }
  }

  lemma {:induction false} ListedAfterReap(clients: seq<Serve>)
    ensures Listed(Reaped(clients)) == Unfinished(Listed(clients))
  {
    if clients != [] {
      var n := |clients| - 1;
      ListedAfterReap(clients[..n]);
      assert Reaped(clients)[..n] == Reaped(clients[..n]);
      if clients[n].pc != Gone {
        var entry := Connection(n, clients[n].pc == Finished);
        assert (Listed(clients[..n]) + [entry])[..|Listed(clients[..n])|] == Listed(clients[..n]);
        assert Listed(clients) == Listed(clients[..n]) + [entry];
      } else {
        assert Listed(clients) == Listed(clients[..n]);
      }
    }
  }

  lemma AfterReap(clients: seq<Serve>)
    ensures Listed(Reaped(clients)) == Unfinished(Listed(clients))
    ensures |Unfinished(Listed(clients))| == Alive(Reaped(clients))
    ensures Flags(Reaped(clients)) == Flags(clients)
  {
    ListedAfterReap(clients);
    ListedCount(Reaped(clients));
  }

  lemma ListedGrows(clients: seq<Serve>, v: Serve, grown: seq<Serve>)
    requires v.pc != Gone && |grown| == |clients| + 1 && grown[..|clients|] == clients && grown[|clients|] == v
    ensures Listed(grown) == Listed(clients) + [Connection(|clients|, v.pc == Finished)]
  {
  }

  lemma FlagsGrow(clients: seq<Serve>, v: Serve)
    ensures Flags(clients + [v]) == Flags(clients) + [v.authed]
  {
  }

  lemma AfterConnect(clients: seq<Serve>)
    ensures var grown := clients + [CONNECTED];
            && Listed(grown) == Listed(clients) + [Connection(|clients|, false)]
            && Flags(grown) == Flags(clients) + [false]
  {
    FlagsGrow(clients, CONNECTED);
    ListedGrows(clients, CONNECTED, clients + [CONNECTED]);
  }

  /** Moving a client between program points that are neither Finished nor Gone
      leaves clients_ as it was. */
  lemma {:induction false} ListedUnmoved(clients: seq<Serve>, c: ClientId, v: Serve)
    requires c < |clients|
    requires clients[c].pc !in {Finished, Gone} && v.pc !in {Finished, Gone}
    ensures Listed(clients[c := v]) == Listed(clients)
    ensures Flags(clients[c := v]) == Flags(clients)[c := v.authed]
  {
    var n := |clients| - 1;
    if c == n {
      assert clients[c := v][..n] == clients[..n];
    } else {
      assert clients[c := v][..n] == clients[..n][c := v];
      ListedUnmoved(clients[..n], c, v);
    }
  }

  class AgentServer {
    const token: string
    var stopped: bool
    var pending: seq<Request>
    var connections: seq<Connection>
    var flags: seq<bool>                       // each connection's `authed`
    var outcomes: map<RequestId, Outcome>      // the promises' shared states
    var requests: nat                          // promises made so far
    ghost var model: State

    ghost predicate Valid()
      reads this
    {
      && model.token == token && model.stopped == stopped && model.pending == pending
      && model.outcomes == outcomes && |model.created| == requests
      && connections == Listed(model.clients)
      && flags == Flags(model.clients)
    }

    constructor (token: string, period: int, now: int)
      ensures Valid() && model == Initial(token, period, now)
    {
      this.token := token;
      stopped, pending, connections, flags, outcomes, requests := false, [], [], [], map[], 0;
      model := Initial(token, period, now);
    }

    /** reap_finished_clients_locked(). */
    method ReapFinished()
      modifies `connections
      ensures connections == Unfinished(old(connections))
    {
      ghost var start := connections;
      var i := 0;
      ghost var seen := 0;
      while i < |connections|
        invariant 0 <= i <= |connections| && seen <= |start|
        invariant connections[..i] == Unfinished(start[..seen])
        invariant connections[i..] == start[seen..]
        decreases |connections| - i
      {
        assert connections[i] == start[seen] && connections[i..][1..] == start[seen..][1..];
        assert start[..seen + 1][..seen] == start[..seen];
        if connections[i].finished {
          connections := connections[..i] + connections[i + 1..];
        } else {
          assert connections[..i + 1] == connections[..i] + [connections[i]];
          i := i + 1;
        }
        seen := seen + 1;
      }
      assert start[..seen] == start && connections[..i] == connections;
    }

    /** handle_accept(): true when the connection got a serve thread. */
    method HandleAccept() returns (served: bool)
      requires Valid() && Enabled(model, Accepting(Accept))
      modifies this
      ensures Valid() && model == Apply(old(model), Accepting(Accept))
      ensures served <==> Alive(Reaped(old(model).clients)) < MAX_CLIENTS
    {
      AfterReap(model.clients);
      AfterConnect(Reaped(model.clients));
      ReapFinished();
      served := |connections| < MAX_CLIENTS;
      if served {
        connections := connections + [Connection(|flags|, false)];
        flags := flags + [false];
      }
      model := ApplyAccept(model, Accept);
    }

    /** enqueue()'s block under queue_mutex_; the listener is called when the
        request was queued. */
    method Enqueue(c: ClientId, message: Message) returns (id: RequestId, queued: bool)
      requires Valid() && ServeEnabled(model, c, Receive(message))
      modifies this
      ensures Valid() && model == Apply(old(model), Serving(c, Receive(message)))
      ensures id == old(requests) && queued == !old(stopped)
    {
      ghost var after := ApplyServe(model, c, Receive(message));
      ListedUnmoved(model.clients, c, after.clients[c]);
      id, queued := requests, !stopped;
      requests := requests + 1;
      if stopped {
        outcomes := outcomes[id := TurnedAway];
      } else {
        pending := pending + [Request(id, c, message)];
      }
      model := after;
    }

    /** One pass of drain()'s loop: handle through the `authed` pointer, settle. */
    method DispatchOne(r: Request, crash: Crash)
      requires Valid() && GlEnabled(model, Handle(crash)) && model.batch[0] == r
      requires model.clients[r.client].pc !in {Finished, Gone}
      modifies `flags, `outcomes, `model
      ensures Valid() && model == DispatchHead(old(model), crash)
    {
      ghost var handled := RunHandler(model, crash);
      ListedUnmoved(model.clients, r.client, handled.clients[r.client]);
      var (reply, authed) := Dispatch(token, r.message, flags[r.client]);
      if crash != CrashBefore {
        flags := flags[r.client := authed];
      }
      outcomes := outcomes[r.id := if crash == NoCrash then Replied(reply) else Threw];
      model := DispatchHead(model, crash);
    }

    /** drain(), called from the frame: swap the queue out, then dispatch and
        settle the batch in order. */
    method Drain(crashes: RequestId -> Crash)
      requires Valid() && model.gl == Frame && model.inHand == None
      requires Owned(model)
      modifies this
      ensures Valid()
      ensures InDrain(ApplyGl(old(model), SwapInFrame))
      ensures model == DrainedFrom(ApplyGl(old(model), SwapInFrame), crashes)
    {
      assert forall r :: r in model.pending ==> HeldByClient(model, r);
      model := ApplyGl(model, SwapInFrame);
      var batch := pending;
      pending := [];
      DispatchAll(batch, crashes);
      model := ApplyGl(model, DrainEnds);
    }

    method DispatchAll(requests: seq<Request>, crashes: RequestId -> Crash)
      requires Valid() && InDrain(model) && model.batch == requests
      requires forall r :: r in requests ==> model.clients[r.client].pc !in {Finished, Gone}
      modifies `flags, `outcomes, `model
      ensures Valid() && InDrain(model) && model.batch == []
      ensures ApplyGl(model, DrainEnds) == DrainedFrom(old(model), crashes)
    {
      var batch := requests;
      ghost var goal := DrainedFrom(model, crashes);
      while batch != []
        invariant Valid() && InDrain(model) && model.batch == batch
        invariant forall r :: r in batch ==> model.clients[r.client].pc !in {Finished, Gone}
        invariant DrainedFrom(model, crashes) == goal
        decreases |batch|
      {
        DispatchOne(batch[0], crashes(batch[0].id));
        batch := batch[1..];
      }
    }

    /** stop()'s block under queue_mutex_; false when stop() already ran. */
    method BreakPending() returns (first: bool)
      requires Valid() && (stopped <==> model.teardown != Running)
      modifies this
      ensures Valid() && first == !old(stopped)
      ensures model == if first then ApplyStop(old(model), BreakQueue) else old(model)
    {
      if stopped {
        return false;
      }
      model := ApplyStop(model, BreakQueue);
      stopped := true;
      outcomes := outcomes + map r | r in pending :: r.id := Broken;
      pending := [];
      return true;
    }

    /** One round of stop()'s final loop; true when no connection is left. */
    method ReapRound() returns (empty: bool)
      requires Valid() && model.teardown == Signalled
      modifies `connections, `model
      ensures Valid() && model == ApplyStop(old(model), Reap)
      ensures empty == (model.teardown == RequestPipeline.Stopped)
    {
      AfterReap(model.clients);
      ReapFinished();
      empty := connections == [];
      model := ApplyStop(model, Reap);
    }
  }
}
