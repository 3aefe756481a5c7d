/**
 Reaching a viewer through discovery files that may have outlived it: resolve,
 connect, and on a refusal remove the file and resolve again.
 */
module ViewerRetry {
  import opened Arithmetic
  import opened Wrappers

  /** A discovery entry: what its file says, and what trying it would meet -- a
      connection accepted or refused, a process alive or gone, a file that can be
      removed or not. */
  datatype Viewer = Viewer(
    path: Option<string>, pid: int, debuggerPid: Option<int>, startTime: real,
    accepts: bool, alive: bool, removable: bool)

  datatype Outcome = Connected(viewer: Viewer) | NoViewer | KeptRefusing

  /** No entry twice, and no file behind two entries. */
  predicate PathsDistinct(viewers: seq<Viewer>) {
    forall i, j :: 0 <= i < j < |viewers| ==>
      viewers[i] != viewers[j] && (viewers[i].path.Some? ==> viewers[i].path != viewers[j].path)
  }

  // ---------------------------------------------------------------------
  // Resolution
  // ---------------------------------------------------------------------

  /** max() by start time: the first of the latest. */
  function Latest(viewers: seq<Viewer>): (k: nat)
    requires viewers != []
    ensures k < |viewers|
  {
    if |viewers| == 1 then 0
    else
      var k := Latest(viewers[..|viewers| - 1]);
      if viewers[|viewers| - 1].startTime > viewers[k].startTime then |viewers| - 1 else k
  }

  lemma {:induction false} LatestIsFirstOfLatest(viewers: seq<Viewer>)
    requires viewers != []
    ensures forall i :: 0 <= i < |viewers| ==> viewers[i].startTime <= viewers[Latest(viewers)].startTime
    ensures forall i :: 0 <= i < Latest(viewers) ==> viewers[i].startTime < viewers[Latest(viewers)].startTime
    decreases |viewers|
  {
    if |viewers| > 1 { LatestIsFirstOfLatest(viewers[..|viewers| - 1]); }
  }

  /** The three tests entries are selected by. */
  datatype Test = HasPid(pid: int) | PairedTo(pid: int) | Living

  predicate Keeps(test: Test, v: Viewer) {
    match test
    case HasPid(pid) => v.pid == pid
    case PairedTo(pid) => v.debuggerPid == Some(pid)
    case Living => v.alive
  }

  /** The entries a test keeps, in order. */
  function Select(viewers: seq<Viewer>, test: Test): seq<Viewer> {
    if viewers == [] then []
    else
      var last := |viewers| - 1;
      Select(viewers[..last], test) + if Keeps(test, viewers[last]) then [viewers[last]] else []
  }

  function OwnPid(viewers: seq<Viewer>, pid: int): seq<Viewer> { Select(viewers, HasPid(pid)) }

  function PairedWith(viewers: seq<Viewer>, pid: int): seq<Viewer> { Select(viewers, PairedTo(pid)) }

  function Alive(viewers: seq<Viewer>): seq<Viewer> { Select(viewers, Living) }

  /** Each selected entry stands at its position among all, in order, and every entry
      kept has one. */
  ghost predicate Stand(viewers: seq<Viewer>, test: Test, selected: seq<Viewer>, at: seq<nat>) {
    && |at| == |selected|
    && (forall a :: 0 <= a < |at| ==> at[a] < |viewers| && selected[a] == viewers[at[a]] && Keeps(test, selected[a]))
    && (forall a, b :: 0 <= a < b < |at| ==> at[a] < at[b])
    && (forall i :: 0 <= i < |viewers| && Keeps(test, viewers[i]) ==> Has(at, i))
  }

  ghost predicate Has(at: seq<nat>, i: int) { exists a :: 0 <= a < |at| && at[a] == i }

  lemma StandKept(front: seq<Viewer>, last: Viewer, test: Test, selected: seq<Viewer>, at: seq<nat>)
    requires Stand(front, test, selected, at) && Keeps(test, last)
    ensures Stand(front + [last], test, selected + [last], at + [|front|])
  {
    var viewers, longer := front + [last], at + [|front|];
    forall i | 0 <= i < |viewers| && Keeps(test, viewers[i]) ensures Has(longer, i) {
      if i < |front| {
        assert front[i] == viewers[i] && Has(at, i);
        var a :| 0 <= a < |at| && at[a] == i;
        assert longer[a] == i;
      } else {
        assert longer[|at|] == i;
      }
    }
  }

  lemma StandSkipped(front: seq<Viewer>, last: Viewer, test: Test, selected: seq<Viewer>, at: seq<nat>)
    requires Stand(front, test, selected, at) && !Keeps(test, last)
    ensures Stand(front + [last], test, selected, at)
  {
    var viewers := front + [last];
    forall i | 0 <= i < |viewers| && Keeps(test, viewers[i]) ensures Has(at, i) {
      assert i < |front| && front[i] == viewers[i];
    }
  }

  lemma {:induction false} SelectedAt(viewers: seq<Viewer>, test: Test) returns (at: seq<nat>)
    ensures Stand(viewers, test, Select(viewers, test), at)
    decreases |viewers|
  {
    at := [];
    if viewers != [] {
      var front, last := viewers[..|viewers| - 1], viewers[|viewers| - 1];
      assert viewers == front + [last];
      at := SelectedAt(front, test);
      if Keeps(test, last) {
        StandKept(front, last, test, Select(front, test), at);
        at := at + [|front|];
      } else {
        StandSkipped(front, last, test, Select(front, test), at);
      }
    }
  }

  lemma {:induction false} SelectedAre(viewers: seq<Viewer>, test: Test)
    ensures forall v :: v in Select(viewers, test) <==> v in viewers && Keeps(test, v)
    decreases |viewers|
  {
    if viewers != [] {
      var last := |viewers| - 1;
      SelectedAre(viewers[..last], test);
      assert viewers == viewers[..last] + [viewers[last]];
    }
  }

  /** Among several paired viewers, those whose process still lives, if any do. */
  function StillAlive(paired: seq<Viewer>): (s: seq<Viewer>)
    ensures paired != [] ==> s != []
  {
    if |paired| > 1 && Alive(paired) != [] then Alive(paired) else paired
  }

  function Resolve(viewers: seq<Viewer>, session: Option<int>): Option<Viewer> {
    match session
    case None => if viewers == [] then None else Some(viewers[Latest(viewers)])
    case Some(pid) =>
      var own := OwnPid(viewers, pid);
      if own != [] then Some(own[0])
      else
        var from := StillAlive(PairedWith(viewers, pid));
        if from == [] then None else Some(from[Latest(from)])
  }

  /** What a selector asks for: a viewer's own pid, or the pid it is paired with. */
  predicate Matches(v: Viewer, session: Option<int>) {
    session.Some? ==> v.pid == session.value || v.debuggerPid == session
  }

  /** Resolution picks a listed viewer that matches, and fails only when none does. */
  lemma ResolveFinds(viewers: seq<Viewer>, session: Option<int>)
    ensures var r := Resolve(viewers, session);
      && (r.Some? ==> r.value in viewers && Matches(r.value, session))
      && (r.None? <==> forall v <- viewers :: !Matches(v, session))
  {
    if session.Some? {
      var pid := session.value;
      var paired := PairedWith(viewers, pid);
      SelectedAre(viewers, HasPid(pid));
      SelectedAre(viewers, PairedTo(pid));
      SelectedAre(paired, Living);
      forall v <- viewers ensures Matches(v, session) <==> v in OwnPid(viewers, pid) || v in paired {}
    } else if viewers != [] {
      assert viewers[0] in viewers;
    }
  }

  // ---------------------------------------------------------------------
  // The retry
  // ---------------------------------------------------------------------

  function WithoutPath(viewers: seq<Viewer>, path: string): seq<Viewer> {
    if viewers == [] then []
    else if viewers[0].path == Some(path) then WithoutPath(viewers[1..], path)
    else [viewers[0]] + WithoutPath(viewers[1..], path)
  }

  /** Unlinking a discovery file, where it can be unlinked. */
  function Reap(viewers: seq<Viewer>, v: Viewer): seq<Viewer> {
    if v.removable && v.path.Some? then WithoutPath(viewers, v.path.value) else viewers
  }

  lemma {:induction false} WithoutPathIsSubset(viewers: seq<Viewer>, path: string)
    ensures forall v <- WithoutPath(viewers, path) :: v in viewers
    decreases |viewers|
  {
    if viewers != [] { WithoutPathIsSubset(viewers[1..], path); }
  }

  function Paths(viewers: seq<Viewer>): set<string> {
    set i | 0 <= i < |viewers| && viewers[i].path.Some? :: viewers[i].path.value
  }

  lemma ReapPaths(viewers: seq<Viewer>, v: Viewer)
    ensures Paths(Reap(viewers, v)) <= Paths(viewers)
  {
    var left := Reap(viewers, v);
    if v.path.Some? { WithoutPathIsSubset(viewers, v.path.value); }
    forall p <- Paths(left) ensures p in Paths(viewers) {
      var i :| 0 <= i < |left| && left[i].path.Some? && left[i].path.value == p;
      assert left[i] in left;
      var j :| 0 <= j < |viewers| && viewers[j] == left[i];
    }
  }

  lemma RefusalShrinks(viewers: seq<Viewer>, v: Viewer, reaped: set<string>)
    requires v in viewers && v.path.Some? && v.path.value !in reaped
    ensures |Paths(Reap(viewers, v)) - (reaped + {v.path.value})| < |Paths(viewers) - reaped|
  {
    ReapPaths(viewers, v);
    var i :| 0 <= i < |viewers| && viewers[i] == v;
    assert v.path.value in Paths(viewers) - reaped;
    var smaller := Paths(Reap(viewers, v)) - (reaped + {v.path.value});
    SubsetSize(smaller, (Paths(viewers) - reaped) - {v.path.value});
  }

  /** The whole retry, and how many connections it had refused. */
  function Call(viewers: seq<Viewer>, session: Option<int>, reaped: set<string>): (Outcome, nat)
    decreases |Paths(viewers) - reaped|
  {
    match Resolve(viewers, session)
    case None => (NoViewer, 0)
    case Some(v) =>
      if v.accepts then (Connected(v), 0)
      else if v.path.None? || v.path.value in reaped then (KeptRefusing, 1)
      else
        ResolveFinds(viewers, session);
        RefusalShrinks(viewers, v, reaped);
        var more := Call(Reap(viewers, v), session, reaped + {v.path.value});
        (more.0, more.1 + 1)
  }

  /** At most one refusal per discovery file, and one more; and whoever is reached
      accepts, and is the viewer asked for or paired with the debugger asked for. */
  lemma {:induction false} CallIsBounded(viewers: seq<Viewer>, session: Option<int>, reaped: set<string>)
    ensures var r := Call(viewers, session, reaped);
      && r.1 <= |Paths(viewers) - reaped| + 1
      && (r.0.Connected? ==>
            && r.0.viewer in viewers && r.0.viewer.accepts
            && Matches(r.0.viewer, session))
    decreases |Paths(viewers) - reaped|
  {
    var info := Resolve(viewers, session);
    ResolveFinds(viewers, session);
    if info.Some? && !info.value.accepts && info.value.path.Some? && info.value.path.value !in reaped {
      var path := info.value.path.value;
      RefusalShrinks(viewers, info.value, reaped);
      WithoutPathIsSubset(viewers, path);
      CallIsBounded(Reap(viewers, info.value), session, reaped + {path});
    }
  }

  // ---------------------------------------------------------------------
  // Who wins
  // ---------------------------------------------------------------------

  /** The order of preference: the viewer's own pid before any pairing, and a paired
      viewer whose process lives before one whose does not. */
  function Preference(v: Viewer, session: Option<int>): nat {
    if session.None? then 1 else if v.pid == session.value then 0 else if v.alive then 1 else 2
  }

  /** Entry `i` is tried before entry `k`: preferred, or as much preferred and
      started later, or listed earlier at the same time. Viewers of one pid are
      taken as listed. */
  predicate TriedBefore(viewers: seq<Viewer>, session: Option<int>, i: nat, k: nat)
    requires i < |viewers| && k < |viewers|
  {
    var a, b := viewers[i], viewers[k];
    var p := Preference(a, session);
    || p < Preference(b, session)
    || (p == Preference(b, session)
        && ((p > 0 && a.startTime > b.startTime) || ((p == 0 || a.startTime == b.startTime) && i < k)))
  }

  /** Of the entries that match, the one tried before all others. */
  ghost predicate First(viewers: seq<Viewer>, session: Option<int>, first: nat) {
    && first < |viewers| && Matches(viewers[first], session)
    && forall k: nat :: k < |viewers| && k != first && Matches(viewers[k], session) ==>
         TriedBefore(viewers, session, first, k)
  }

  lemma ResolvesFirst(viewers: seq<Viewer>, session: Option<int>) returns (first: nat)
    requires Resolve(viewers, session).Some?
    ensures First(viewers, session, first) && Resolve(viewers, session).value == viewers[first]
  {
    match session
    case None =>
      LatestIsFirstOfLatest(viewers);
      first := Latest(viewers);
    case Some(pid) =>
      if OwnPid(viewers, pid) != [] {
        first := FirstOwn(viewers, pid);
      } else {
        first := FirstPaired(viewers, pid);
      }
  }

  lemma FirstOwn(viewers: seq<Viewer>, pid: int) returns (first: nat)
    requires OwnPid(viewers, pid) != []
    ensures First(viewers, Some(pid), first) && OwnPid(viewers, pid)[0] == viewers[first]
  {
    var at := SelectedAt(viewers, HasPid(pid));
    first := at[0];
    forall k: nat | k < |viewers| && k != first && Matches(viewers[k], Some(pid))
      ensures TriedBefore(viewers, Some(pid), first, k)
    {
      if viewers[k].pid == pid {
        assert Keeps(HasPid(pid), viewers[k]) && Has(at, k);
        var a :| 0 <= a < |at| && at[a] == k;
        assert at[0] < at[a];
      }
    }
  }

  /** The first of the latest in a list that stands in the whole at `at`. */
  lemma LatestStands(viewers: seq<Viewer>, from: seq<Viewer>, at: seq<nat>)
    requires from != [] && |at| == |from|
    requires forall a :: 0 <= a < |at| ==> at[a] < |viewers| && from[a] == viewers[at[a]]
    requires forall a, b :: 0 <= a < b < |at| ==> at[a] < at[b]
    ensures forall a :: 0 <= a < |at| && at[a] != at[Latest(from)] ==>
      var best, v := viewers[at[Latest(from)]], viewers[at[a]];
      best.startTime > v.startTime || (best.startTime == v.startTime && at[Latest(from)] < at[a])
  {
    LatestIsFirstOfLatest(from);
  }

  lemma FirstPaired(viewers: seq<Viewer>, pid: int) returns (first: nat)
    requires OwnPid(viewers, pid) == [] && PairedWith(viewers, pid) != []
    ensures First(viewers, Some(pid), first)
    ensures var from := StillAlive(PairedWith(viewers, pid)); from[Latest(from)] == viewers[first]
  {
    var paired := PairedWith(viewers, pid);
    SelectedAre(viewers, HasPid(pid));
    forall k | 0 <= k < |viewers| ensures viewers[k].pid != pid { assert viewers[k] !in OwnPid(viewers, pid); }
    var at := SelectedAt(viewers, PairedTo(pid));
    if |paired| > 1 && Alive(paired) != [] {
      first := FirstLiving(viewers, pid, at);
    } else {
      first := at[Latest(paired)];
      LatestStands(viewers, paired, at);
      NoneLiving(viewers, pid, at, first);
    }
  }

  /** A selection from a selection stands in the whole. */
  lemma StandWithin(viewers: seq<Viewer>, middle: seq<Viewer>, at: seq<nat>, selected: seq<Viewer>, among: seq<nat>)
    returns (all: seq<nat>)
    requires |at| == |middle| && |among| == |selected|
    requires forall a :: 0 <= a < |at| ==> at[a] < |viewers| && middle[a] == viewers[at[a]]
    requires forall a, b :: 0 <= a < b < |at| ==> at[a] < at[b]
    requires forall a :: 0 <= a < |among| ==> among[a] < |middle| && selected[a] == middle[among[a]]
    requires forall a, b :: 0 <= a < b < |among| ==> among[a] < among[b]
    ensures |all| == |among| && forall a :: 0 <= a < |all| ==> all[a] == at[among[a]] < |viewers| && selected[a] == viewers[all[a]]
    ensures forall a, b :: 0 <= a < b < |all| ==> all[a] < all[b]
  {
    all := seq(|among|, a requires 0 <= a < |among| => at[among[a]]);
  }

  lemma FirstLiving(viewers: seq<Viewer>, pid: int, at: seq<nat>) returns (first: nat)
    requires forall k :: 0 <= k < |viewers| ==> viewers[k].pid != pid
    requires Stand(viewers, PairedTo(pid), PairedWith(viewers, pid), at) && Alive(PairedWith(viewers, pid)) != []
    ensures First(viewers, Some(pid), first)
    ensures var living := Alive(PairedWith(viewers, pid)); living[Latest(living)] == viewers[first]
  {
    var paired := PairedWith(viewers, pid);
    var among := SelectedAt(paired, Living);
    var all := StandWithin(viewers, paired, at, Alive(paired), among);
    LatestStands(viewers, Alive(paired), all);
    first := all[Latest(Alive(paired))];
    assert Keeps(Living, viewers[first]) && Keeps(PairedTo(pid), viewers[first]);
    forall k: nat | k < |viewers| && k != first && Matches(viewers[k], Some(pid))
      ensures TriedBefore(viewers, Some(pid), first, k)
    {
      if viewers[k].alive { var a := LivingAt(viewers, pid, at, paired, among, k); assert all[a] == k; }
    }
  }

  lemma LivingAt(viewers: seq<Viewer>, pid: int, at: seq<nat>, paired: seq<Viewer>, among: seq<nat>, k: nat)
    returns (a: nat)
    requires Stand(viewers, PairedTo(pid), paired, at) && Stand(paired, Living, Select(paired, Living), among)
    requires k < |viewers| && viewers[k].debuggerPid == Some(pid) && viewers[k].alive
    ensures a < |among| && among[a] < |at| && at[among[a]] == k
  {
    assert Keeps(PairedTo(pid), viewers[k]) && Has(at, k);
    var b :| 0 <= b < |at| && at[b] == k;
    assert Keeps(Living, paired[b]) && Has(among, b);
    a :| 0 <= a < |among| && among[a] == b;
  }

  lemma NoneLiving(viewers: seq<Viewer>, pid: int, at: seq<nat>, first: nat)
    requires forall k :: 0 <= k < |viewers| ==> viewers[k].pid != pid
    requires Stand(viewers, PairedTo(pid), PairedWith(viewers, pid), at) && PairedWith(viewers, pid) != []
    requires |PairedWith(viewers, pid)| == 1 || Alive(PairedWith(viewers, pid)) == []
    requires first == at[Latest(PairedWith(viewers, pid))]
    requires forall a :: 0 <= a < |at| && at[a] != first ==>
      var best, v := viewers[first], viewers[at[a]];
      best.startTime > v.startTime || (best.startTime == v.startTime && first < at[a])
    ensures First(viewers, Some(pid), first)
  {
    var paired := PairedWith(viewers, pid);
    SelectedAre(paired, Living);
    forall k: nat | k < |viewers| && k != first && Matches(viewers[k], Some(pid))
      ensures TriedBefore(viewers, Some(pid), first, k)
    {
      assert Keeps(PairedTo(pid), viewers[k]) && Has(at, k);
      var a :| 0 <= a < |at| && at[a] == k;
      assert viewers[k] == paired[a] && viewers[first] == paired[Latest(paired)];
      assert |paired| > 1;
      assert paired[a] !in Alive(paired) && paired[Latest(paired)] !in Alive(paired);
    }
  }

  predicate Clears(v: Viewer) {
    !v.accepts && v.path.Some? && v.removable
  }

  /** The winner matches and accepts, and every match tried before it refuses and can
      be cleared away. */
  ghost predicate Wins(viewers: seq<Viewer>, session: Option<int>, k: nat) {
    && k < |viewers| && Matches(viewers[k], session) && viewers[k].accepts
    && forall i: nat ::
         i < |viewers| && Matches(viewers[i], session) && TriedBefore(viewers, session, i, k) ==> Clears(viewers[i])
  }

  lemma {:induction false} NoneRemoved(viewers: seq<Viewer>, path: string)
    requires forall v <- viewers :: v.path != Some(path)
    ensures WithoutPath(viewers, path) == viewers
    decreases |viewers|
  {
    if viewers != [] {
      assert viewers[0] in viewers;
      NoneRemoved(viewers[1..], path);
    }
  }

  lemma {:induction false} RemovedJoin(a: seq<Viewer>, b: seq<Viewer>, path: string)
    ensures WithoutPath(a + b, path) == WithoutPath(a, path) + WithoutPath(b, path)
    decreases |a|
  {
    if a == [] {
      assert a + b == b;
    } else {
      assert (a + b)[1..] == a[1..] + b;
      RemovedJoin(a[1..], b, path);
    }
  }

  lemma RemoveOne(viewers: seq<Viewer>, k: nat)
    requires PathsDistinct(viewers) && k < |viewers| && viewers[k].path.Some?
    ensures WithoutPath(viewers, viewers[k].path.value) == Dropped(viewers, k)
  {
    var path := viewers[k].path.value;
    assert viewers == viewers[..k] + viewers[k..];
    RemovedJoin(viewers[..k], viewers[k..], path);
    NoneRemoved(viewers[..k], path);
    NoneRemoved(viewers[k + 1..], path);
    assert viewers[k..][1..] == viewers[k + 1..];
  }

  function Dropped(viewers: seq<Viewer>, k: nat): (left: seq<Viewer>)
    requires k < |viewers|
    ensures |left| == |viewers| - 1
  {
    viewers[..k] + viewers[k + 1..]
  }

  function Squeeze(i: nat, k: nat): nat
    requires i != k
  {
    if i < k then i else i - 1
  }

  /** Taking out the first entry tried changes nothing for the others. */
  lemma WinsWithoutFirst(viewers: seq<Viewer>, session: Option<int>, first: nat, k: nat)
    requires First(viewers, session, first) && k < |viewers| && k != first && Matches(viewers[k], session)
    ensures Wins(viewers, session, k)
            <==> Clears(viewers[first]) && Wins(Dropped(viewers, first), session, Squeeze(k, first))
  {
    var left := Dropped(viewers, first);
    forall i: nat | i < |viewers| && i != first
      ensures left[Squeeze(i, first)] == viewers[i]
      ensures TriedBefore(viewers, session, i, k) <==> TriedBefore(left, session, Squeeze(i, first), Squeeze(k, first))
    {
    }
    if Clears(viewers[first]) && Wins(left, session, Squeeze(k, first)) {
      forall i: nat | i < |viewers| && Matches(viewers[i], session) && TriedBefore(viewers, session, i, k)
        ensures Clears(viewers[i])
      {
        if i != first { assert TriedBefore(left, session, Squeeze(i, first), Squeeze(k, first)); }
      }
    }
    if Wins(viewers, session, k) {
      forall j: nat | j < |left| && Matches(left[j], session) && TriedBefore(left, session, j, Squeeze(k, first))
        ensures Clears(left[j])
      {
        var i := if j < first then j else j + 1;
        assert Squeeze(i, first) == j && TriedBefore(viewers, session, i, k);
      }
    }
  }

  /** Who the call reaches, as an outcome over the entries by position. */
  ghost predicate Reaches(viewers: seq<Viewer>, session: Option<int>, reaped: set<string>, k: nat)
    requires k < |viewers|
  {
    Call(viewers, session, reaped).0 == Connected(viewers[k])
  }

  /** What holds with the first entry reaped holds with it in place. */
  lemma OneMore(viewers: seq<Viewer>, session: Option<int>, reaped: set<string>, first: nat, k: nat)
    requires PathsDistinct(viewers) && reaped !! Paths(viewers) && k < |viewers| && k != first
    requires First(viewers, session, first) && Resolve(viewers, session) == Some(viewers[first])
    requires Matches(viewers[k], session) && Clears(viewers[first])
    requires Reaches(Dropped(viewers, first), session, reaped + {viewers[first].path.value}, Squeeze(k, first))
             <==> Wins(Dropped(viewers, first), session, Squeeze(k, first))
    ensures Reaches(viewers, session, reaped, k) <==> Wins(viewers, session, k)
  {
    RefusedFirst(viewers, session, reaped, first, k);
    WinsWithoutFirst(viewers, session, first, k);
    assert Dropped(viewers, first)[Squeeze(k, first)] == viewers[k];
  }

  /** A viewer that does not match or does not accept neither wins nor is reached. */
  lemma RefusedIsNotReached(viewers: seq<Viewer>, session: Option<int>, reaped: set<string>, k: nat)
    requires k < |viewers| && !(viewers[k].accepts && Matches(viewers[k], session))
    ensures !Reaches(viewers, session, reaped, k) && !Wins(viewers, session, k)
  {
    CallIsBounded(viewers, session, reaped);
  }

  /** Whatever the selector, the call reaches a viewer exactly when that viewer
      matches it and accepts, and every matching entry tried before it refuses and
      can be removed. */
  lemma {:induction false} FirstAcceptingWins(viewers: seq<Viewer>, session: Option<int>, reaped: set<string>, k: nat)
    requires PathsDistinct(viewers) && reaped !! Paths(viewers) && k < |viewers|
    ensures Reaches(viewers, session, reaped, k) <==> Wins(viewers, session, k)
    decreases |viewers|
  {
    if !viewers[k].accepts || !Matches(viewers[k], session) {
      RefusedIsNotReached(viewers, session, reaped, k);
    } else {
      ResolveFinds(viewers, session);
      var first := ResolvesFirst(viewers, session);
      if viewers[first].accepts {
        AcceptedFirst(viewers, session, reaped, first, k);
      } else if Clears(viewers[first]) {
        ReapedNext(viewers, first, reaped);
        FirstAcceptingWins(Dropped(viewers, first), session, reaped + {viewers[first].path.value}, Squeeze(k, first));
        OneMore(viewers, session, reaped, first, k);
      } else {
        RefusedFirst(viewers, session, reaped, first, k);
      }
    }
  }

  /** An accepting first entry is reached, and no other. */
  lemma AcceptedFirst(viewers: seq<Viewer>, session: Option<int>, reaped: set<string>, first: nat, k: nat)
    requires PathsDistinct(viewers) && k < |viewers| && Matches(viewers[k], session)
    requires First(viewers, session, first) && Resolve(viewers, session) == Some(viewers[first])
    requires viewers[first].accepts
    ensures Reaches(viewers, session, reaped, k) <==> Wins(viewers, session, k)
  {
    CallUnfolds(viewers, session, reaped);
    if k == first {
      forall i: nat | i < |viewers| && Matches(viewers[i], session) && i != first
        ensures !TriedBefore(viewers, session, i, first)
      {
        assert TriedBefore(viewers, session, first, i);
      }
    } else {
      assert TriedBefore(viewers, session, first, k) && !Clears(viewers[first]);
      assert viewers[k] != viewers[first];
    }
  }

  /** A first entry that refuses is skipped if it can be cleared, and otherwise
      ends the call. */
  lemma RefusedFirst(viewers: seq<Viewer>, session: Option<int>, reaped: set<string>, first: nat, k: nat)
    requires PathsDistinct(viewers) && reaped !! Paths(viewers) && k < |viewers| && Matches(viewers[k], session)
    requires First(viewers, session, first) && Resolve(viewers, session) == Some(viewers[first])
    requires !viewers[first].accepts
    ensures if Clears(viewers[first]) then
        Call(viewers, session, reaped).0
        == Call(Dropped(viewers, first), session, reaped + {viewers[first].path.value}).0
      else Call(viewers, session, reaped).0 == KeptRefusing && !Wins(viewers, session, k)
  {
    var v := viewers[first];
    if v.path.Some? { assert v.path.value in Paths(viewers); }
    CallUnfolds(viewers, session, reaped);
    if Clears(v) {
      RemoveOne(viewers, first);
    } else {
      if k != first { assert TriedBefore(viewers, session, first, k); }
      if v.path.Some? { CallUnfolds(viewers, session, reaped + {v.path.value}); }
    }
  }

  lemma ReapedNext(viewers: seq<Viewer>, first: nat, reaped: set<string>)
    requires PathsDistinct(viewers) && reaped !! Paths(viewers)
    requires first < |viewers| && viewers[first].path.Some?
    ensures var left := Dropped(viewers, first);
      PathsDistinct(left) && (reaped + {viewers[first].path.value}) !! Paths(left)
  {
    var left := Dropped(viewers, first);
    forall j | 0 <= j < |left| ensures left[j] == viewers[if j < first then j else j + 1] {}
    forall p <- Paths(left) ensures p !in reaped && p != viewers[first].path.value {
      var j :| 0 <= j < |left| && left[j].path.Some? && left[j].path.value == p;
      var i := if j < first then j else j + 1;
      assert viewers[i].path.value in Paths(viewers);
    }
  }

  // ---------------------------------------------------------------------
  // The loop
  // ---------------------------------------------------------------------

  class Discovery {
    var viewers: seq<Viewer>

    constructor (viewers: seq<Viewer>)
      ensures this.viewers == viewers
    {
      this.viewers := viewers;
    }

    method Unlink(v: Viewer)
      requires v.path.Some?
      modifies this
      ensures viewers == Reap(old(viewers), v)
    {
      if v.removable {
        viewers := WithoutPath(viewers, v.path.value);
      }
    }

    method CallViewer(session: Option<int>) returns (r: Outcome)
      modifies this
      ensures r == Call(old(viewers), session, {}).0
    {
      var reaped: set<string> := {};
      ghost var left := |Paths(viewers) - reaped|;
      while true
        invariant Call(viewers, session, reaped).0 == Call(old(viewers), session, {}).0
        invariant |Paths(viewers) - reaped| <= left
        decreases left
      {
        var done, outcome;
        done, outcome, reaped, left := Attempt(session, reaped, left);
        if done {
          return outcome;
        }
      }
    }

    /** One turn of the retry: resolve, connect, and on a first refusal reap. `left`
        bounds the files not yet reaped. */
    method Attempt(session: Option<int>, reaped: set<string>, ghost left: nat)
      returns (done: bool, r: Outcome, more: set<string>, ghost fewer: nat)
      requires |Paths(viewers) - reaped| <= left
      modifies this
      ensures done ==> Call(old(viewers), session, reaped).0 == r
      ensures !done ==>
                && Call(old(viewers), session, reaped).0 == Call(viewers, session, more).0
                && |Paths(viewers) - more| <= fewer < left
    {
      fewer := left;
      CallUnfolds(viewers, session, reaped);
      var info := Resolve(viewers, session);
      if info.None? {
        return true, NoViewer, reaped, fewer;
      }
      if info.value.accepts {
        return true, Connected(info.value), reaped, fewer;
      }
      if info.value.path.None? || info.value.path.value in reaped {
        return true, KeptRefusing, reaped, fewer;
      }
      ResolveFinds(viewers, session);
      RefusalShrinks(viewers, info.value, reaped);
      more := reaped + {info.value.path.value};
      fewer := left - 1;
      Unlink(info.value);
      return false, KeptRefusing, more, fewer;
    }
  }

  function Counted(r: (Outcome, nat), refusals: nat): (Outcome, nat) { (r.0, r.1 + refusals) }

  lemma CallUnfolds(viewers: seq<Viewer>, session: Option<int>, reaped: set<string>)
    ensures Call(viewers, session, reaped)
         == match Resolve(viewers, session)
            case None => (NoViewer, 0)
            case Some(v) =>
              if v.accepts then (Connected(v), 0)
              else if v.path.None? || v.path.value in reaped then (KeptRefusing, 1)
              else Counted(Call(Reap(viewers, v), session, reaped + {v.path.value}), 1)
  {
  }
}
