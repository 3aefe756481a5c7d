/**
 Listing a frame's observable symbols by walking members. Values may refer to
 each other without end; only the type names are finitely many, and a path never
 goes through the same type twice.
 */
module MemberWalk {
  import opened Wrappers

  /** A value, by identity; there may be infinitely many. */
  type Node = nat

  datatype Member = Member(name: string, node: Node)

  /** What the debugger says of a value. */
  datatype World = World(
    typeOf: Node -> string,
    bearing: Node -> bool,
    members: Node -> seq<Member>,
    observable: (Node, string) -> bool)

  datatype Hit = Hit(chain: seq<string>, node: Node)

  ghost predicate Typed(w: World, types: set<string>) {
    forall n: Node :: w.typeOf(n) in types
  }

  lemma VisitingShrinks(types: set<string>, visited: set<string>, t: string)
    requires t in types && t !in visited
    ensures |types - (visited + {t})| < |types - visited|
  {
    assert types - visited == (types - (visited + {t})) + {t};
  }

  /** The hits below a value, in the order they are found. */
  ghost function Walk(w: World, types: set<string>, n: Node, chain: seq<string>, visited: set<string>): seq<Hit>
    requires Typed(w, types)
    decreases |types - visited|, 0, 0
  {
    if w.typeOf(n) in visited || !w.bearing(n) then []
    else
      VisitingShrinks(types, visited, w.typeOf(n));
      WalkEach(w, types, w.members(n), chain, visited + {w.typeOf(n)})
  }

  ghost function WalkEach(w: World, types: set<string>, members: seq<Member>, chain: seq<string>,
                                   visited: set<string>): seq<Hit>
    requires Typed(w, types)
    decreases |types - visited|, 1, |members|
  {
    if members == [] then []
    else WalkOne(w, types, members[0], chain, visited) + WalkEach(w, types, members[1..], chain, visited)
  }

  ghost function WalkOne(w: World, types: set<string>, m: Member, chain: seq<string>,
                                  visited: set<string>): seq<Hit>
    requires Typed(w, types)
    decreases |types - visited|, 1, 0
  {
    if w.observable(m.node, m.name) then [Hit(chain + [m.name], m.node)]
    else Walk(w, types, m.node, chain + [m.name], visited)
  }

  // ---------------------------------------------------------------------
  // Paths
  // ---------------------------------------------------------------------

  /** A path picks a member by position at each value. */
  predicate Walkable(w: World, n: Node, path: seq<nat>)
    decreases |path|
  {
    path == [] || (path[0] < |w.members(n)| && Walkable(w, w.members(n)[path[0]].node, path[1..]))
  }

  function Ends(w: World, n: Node, path: seq<nat>): Node
    requires Walkable(w, n, path)
    decreases |path|
  {
    if path == [] then n else Ends(w, w.members(n)[path[0]].node, path[1..])
  }

  function Names(w: World, n: Node, path: seq<nat>): seq<string>
    requires Walkable(w, n, path)
    decreases |path|
  {
    if path == [] then []
    else [w.members(n)[path[0]].name] + Names(w, w.members(n)[path[0]].node, path[1..])
  }

  lemma {:induction false} PrefixWalkable(w: World, n: Node, path: seq<nat>, k: nat)
    requires Walkable(w, n, path) && k <= |path|
    ensures Walkable(w, n, path[..k])
    ensures |Names(w, n, path)| == |path|
    decreases |path|
  {
    if path != [] {
      var child := w.members(n)[path[0]].node;
      PrefixWalkable(w, child, path[1..], if k == 0 then 0 else k - 1);
      if k > 0 { assert path[..k][1..] == path[1..][..k - 1]; }
    }
  }

  /** The value `k` steps along. */
  function Stop(w: World, n: Node, path: seq<nat>, k: nat): Node
    requires Walkable(w, n, path) && k <= |path|
  {
    PrefixWalkable(w, n, path, k);
    Ends(w, n, path[..k])
  }

  function Name(w: World, n: Node, path: seq<nat>, k: nat): string
    requires Walkable(w, n, path) && 0 < k <= |path|
  {
    PrefixWalkable(w, n, path, k);
    Names(w, n, path)[k - 1]
  }

  /** What the listing promises about a path: every value it goes through declares
      members, no two of them share a type and none has one in `visited`, none on
      the way is itself observable, and the last one is. */
  ghost predicate Shows(w: World, n: Node, visited: set<string>, path: seq<nat>) {
    && path != [] && Walkable(w, n, path)
    && (forall k: nat :: k < |path| ==> w.bearing(Stop(w, n, path, k)) && w.typeOf(Stop(w, n, path, k)) !in visited)
    && (forall j: nat, k: nat :: j < k < |path| ==> w.typeOf(Stop(w, n, path, j)) != w.typeOf(Stop(w, n, path, k)))
    && (forall k: nat :: 0 < k < |path| ==> !w.observable(Stop(w, n, path, k), Name(w, n, path, k)))
    && w.observable(Stop(w, n, path, |path|), Name(w, n, path, |path|))
  }

  lemma StepIn(w: World, n: Node, path: seq<nat>, k: nat)
    requires Walkable(w, n, path) && 0 < k <= |path|
    ensures var m := w.members(n)[path[0]];
      && Stop(w, n, path, k) == Stop(w, m.node, path[1..], k - 1)
      && Name(w, n, path, k) == if k == 1 then m.name else Name(w, m.node, path[1..], k - 1)
  {
    PrefixWalkable(w, n, path, k);
    PrefixWalkable(w, w.members(n)[path[0]].node, path[1..], k - 1);
    assert path[..k][1..] == path[1..][..k - 1];
  }

  lemma StopHere(w: World, n: Node, path: seq<nat>)
    requires Walkable(w, n, path)
    ensures Stop(w, n, path, 0) == n
  {
  }

  /** One step of a shown path. */
  lemma ShowsUnfolds(w: World, n: Node, visited: set<string>, path: seq<nat>)
    requires path != [] && Walkable(w, n, path)
    ensures var m := w.members(n)[path[0]];
      Shows(w, n, visited, path) <==>
        && w.typeOf(n) !in visited && w.bearing(n)
        && if |path| == 1 then w.observable(m.node, m.name)
           else !w.observable(m.node, m.name) && Shows(w, m.node, visited + {w.typeOf(n)}, path[1..])
  {
    StopHere(w, n, path);
    StepIn(w, n, path, 1);
    var m := w.members(n)[path[0]];
    var rest := path[1..];
    StopHere(w, m.node, rest);
    if |path| > 1 {
      if Shows(w, n, visited, path) { ShowsTail(w, n, visited, path); }
      if w.typeOf(n) !in visited && w.bearing(n) && !w.observable(m.node, m.name)
         && Shows(w, m.node, visited + {w.typeOf(n)}, rest) {
        ShowsCons(w, n, visited, path);
      }
    }
  }

  lemma ShowsTail(w: World, n: Node, visited: set<string>, path: seq<nat>)
    requires |path| > 1 && Shows(w, n, visited, path)
    ensures Shows(w, w.members(n)[path[0]].node, visited + {w.typeOf(n)}, path[1..])
  {
    var child, rest := w.members(n)[path[0]].node, path[1..];
    StopHere(w, n, path);
    forall k: nat | k < |rest|
      ensures w.bearing(Stop(w, child, rest, k)) && w.typeOf(Stop(w, child, rest, k)) !in visited + {w.typeOf(n)}
    {
      StepIn(w, n, path, k + 1);
      assert w.typeOf(Stop(w, n, path, 0)) != w.typeOf(Stop(w, n, path, k + 1));
    }
    forall j: nat, k: nat | j < k < |rest|
      ensures w.typeOf(Stop(w, child, rest, j)) != w.typeOf(Stop(w, child, rest, k))
    {
      StepIn(w, n, path, j + 1);
      StepIn(w, n, path, k + 1);
    }
    forall k: nat | 0 < k <= |rest|
      ensures w.observable(Stop(w, child, rest, k), Name(w, child, rest, k))
           == w.observable(Stop(w, n, path, k + 1), Name(w, n, path, k + 1))
    {
      StepIn(w, n, path, k + 1);
    }
  }

  lemma ShowsCons(w: World, n: Node, visited: set<string>, path: seq<nat>)
    requires |path| > 1 && Walkable(w, n, path)
    requires w.typeOf(n) !in visited && w.bearing(n)
    requires var m := w.members(n)[path[0]];
      !w.observable(m.node, m.name) && Shows(w, m.node, visited + {w.typeOf(n)}, path[1..])
    ensures Shows(w, n, visited, path)
  {
    var m, rest := w.members(n)[path[0]], path[1..];
    StopHere(w, n, path);
    StopHere(w, m.node, rest);
    forall k: nat | k < |path| ensures w.bearing(Stop(w, n, path, k)) && w.typeOf(Stop(w, n, path, k)) !in visited {
      if k > 0 { StepIn(w, n, path, k); }
    }
    forall j: nat, k: nat | j < k < |path|
      ensures w.typeOf(Stop(w, n, path, j)) != w.typeOf(Stop(w, n, path, k))
    {
      StepIn(w, n, path, k);
      if j > 0 { StepIn(w, n, path, j); }
    }
    forall k: nat | 0 < k < |path| ensures !w.observable(Stop(w, n, path, k), Name(w, n, path, k)) {
      StepIn(w, n, path, k);
    }
    StepIn(w, n, path, |path|);
  }

  // ---------------------------------------------------------------------
  // The walk finds exactly the shown paths
  // ---------------------------------------------------------------------

  /** The hit a path stands for. */
  ghost predicate Stands(w: World, n: Node, chain: seq<string>, visited: set<string>, path: seq<nat>, hit: Hit) {
    Shows(w, n, visited, path) && hit == Hit(chain + Names(w, n, path), Ends(w, n, path))
  }

  lemma {:induction false} InEach(w: World, types: set<string>, members: seq<Member>, chain: seq<string>,
                                     visited: set<string>, hit: Hit)
    requires Typed(w, types)
    ensures hit in WalkEach(w, types, members, chain, visited)
            <==> exists i: nat :: i < |members| && hit in WalkOne(w, types, members[i], chain, visited)
    decreases |members|
  {
    if members != [] {
      InEach(w, types, members[1..], chain, visited, hit);
      if i: nat :| i < |members| && hit in WalkOne(w, types, members[i], chain, visited) {
        if i > 0 { assert members[1..][i - 1] == members[i]; }
      }
      if i: nat :| i < |members[1..]| && hit in WalkOne(w, types, members[1..][i], chain, visited) {
        assert members[i + 1] == members[1..][i];
      }
    }
  }

  /** Every hit of the walk is a shown path ... */
  lemma {:induction false} HitsAreShown(w: World, types: set<string>, n: Node, chain: seq<string>,
                                           visited: set<string>, hit: Hit) returns (path: seq<nat>)
    requires Typed(w, types) && hit in Walk(w, types, n, chain, visited)
    ensures Stands(w, n, chain, visited, path, hit)
    decreases |types - visited|
  {
    var inner := visited + {w.typeOf(n)};
    VisitingShrinks(types, visited, w.typeOf(n));
    InEach(w, types, w.members(n), chain, inner, hit);
    var i: nat :| i < |w.members(n)| && hit in WalkOne(w, types, w.members(n)[i], chain, inner);
    var m := w.members(n)[i];
    if w.observable(m.node, m.name) {
      path := [i];
    } else {
      var rest := HitsAreShown(w, types, m.node, chain + [m.name], inner, hit);
      path := [i] + rest;
      assert path[1..] == rest;
    }
    ShowsUnfolds(w, n, visited, path);
    NamesUnfold(w, n, path, chain);
  }

  lemma NamesUnfold(w: World, n: Node, path: seq<nat>, chain: seq<string>)
    requires path != [] && Walkable(w, n, path)
    ensures var m := w.members(n)[path[0]];
      && chain + Names(w, n, path) == chain + [m.name] + Names(w, m.node, path[1..])
      && Ends(w, n, path) == Ends(w, m.node, path[1..])
  {
  }

  /** ... and every shown path is a hit. */
  lemma {:induction false} ShownAreHits(w: World, types: set<string>, n: Node, chain: seq<string>,
                                           visited: set<string>, path: seq<nat>)
    requires Typed(w, types) && Shows(w, n, visited, path)
    ensures Hit(chain + Names(w, n, path), Ends(w, n, path)) in Walk(w, types, n, chain, visited)
    decreases |path|
  {
    var inner := visited + {w.typeOf(n)};
    var hit := Hit(chain + Names(w, n, path), Ends(w, n, path));
    ShowsUnfolds(w, n, visited, path);
    NamesUnfold(w, n, path, chain);
    var m := w.members(n)[path[0]];
    if |path| > 1 {
      ShownAreHits(w, types, m.node, chain + [m.name], inner, path[1..]);
    } else {
      assert path[1..] == [] && chain + [m.name] + [] == chain + [m.name];
    }
    assert hit in WalkOne(w, types, m, chain, inner);
    InEach(w, types, w.members(n), chain, inner, hit);
  }

  // ---------------------------------------------------------------------
  // The listing
  // ---------------------------------------------------------------------

  function Join(chain: seq<string>): string {
    if chain == [] then "" else if |chain| == 1 then chain[0] else chain[0] + "." + Join(chain[1..])
  }

  datatype Found = Found(name: string, node: Node)

  ghost function Top(w: World, types: set<string>, symbol: Member): seq<Found>
    requires Typed(w, types)
  {
    if symbol.name == "" then []
    else
      Own(w, symbol) + Named(Walk(w, types, symbol.node, Chain(symbol), {}))
  }

  function Own(w: World, symbol: Member): seq<Found> {
    if w.observable(symbol.node, symbol.name) then [Found(symbol.name, symbol.node)] else []
  }

  function Named(hits: seq<Hit>): seq<Found> {
    seq(|hits|, i requires 0 <= i < |hits| => Found(Join(hits[i].chain), hits[i].node))
  }

  /** Everything emitted for a frame, before names are made unique. */
  ghost function Emitted(w: World, types: set<string>, frame: seq<Member>): seq<Found>
    requires Typed(w, types)
  {
    if frame == [] then [] else Emitted(w, types, frame[..|frame| - 1]) + Top(w, types, frame[|frame| - 1])
  }

  /** The first of each name, in order. */
  function Unique(all: seq<Found>): seq<Found> {
    if all == [] then []
    else
      var front, last := Unique(all[..|all| - 1]), all[|all| - 1];
      if last.name in NamesOf(front) then front else front + [last]
  }

  function NamesOf(found: seq<Found>): set<string> { set i | 0 <= i < |found| :: found[i].name }

  /** The first of its name. */
  ghost predicate Leads(all: seq<Found>, f: Found) {
    exists k :: 0 <= k < |all| && all[k] == f && forall j :: 0 <= j < k ==> all[j].name != f.name
  }

  lemma LeadsSnoc(front: seq<Found>, last: Found, f: Found)
    ensures Leads(front + [last], f) <==> Leads(front, f) || (f == last && last.name !in NamesOf(front))
  {
    var all := front + [last];
    if Leads(front, f) {
      var k :| 0 <= k < |front| && front[k] == f && forall j :: 0 <= j < k ==> front[j].name != f.name;
      assert all[k] == f && forall j :: 0 <= j < k ==> all[j].name != f.name;
    }
    if Leads(all, f) {
      var k :| 0 <= k < |all| && all[k] == f && forall j :: 0 <= j < k ==> all[j].name != f.name;
      assert forall j :: 0 <= j < |front| ==> all[j] == front[j];
    }
    if f == last && last.name !in NamesOf(front) {
      forall j | 0 <= j < |front| ensures all[j].name != f.name { assert front[j].name in NamesOf(front); }
      assert all[|front|] == f;
    }
  }

  /** Keeping the first of each name keeps every name, no name twice, and of each name
      the value found first. */
  lemma {:induction false} UniqueNames(all: seq<Found>)
    ensures NamesOf(Unique(all)) == NamesOf(all)
    ensures forall i, j :: 0 <= i < j < |Unique(all)| ==> Unique(all)[i].name != Unique(all)[j].name
    ensures forall f :: f in Unique(all) <==> Leads(all, f)
    decreases |all|
  {
    if all != [] {
      var front, last := all[..|all| - 1], all[|all| - 1];
      UniqueNames(front);
      NamesSnoc(front, last);
      assert front + [last] == all;
      NamesSnoc(Unique(front), last);
      forall i | 0 <= i < |Unique(front)| ensures Unique(front)[i].name in NamesOf(Unique(front)) {}
      forall f ensures f in Unique(all) <==> Leads(all, f) { LeadsSnoc(front, last, f); }
    }
  }

  lemma NamesSnoc(found: seq<Found>, last: Found)
    ensures NamesOf(found + [last]) == NamesOf(found) + {last.name}
  {
    var all := found + [last];
    assert all[|found|] == last;
    forall s <- NamesOf(found) ensures s in NamesOf(all) {
      var i :| 0 <= i < |found| && found[i].name == s;
      assert all[i].name == s;
    }
  }

  /** What the listing promises: an observable variable of the frame under its name, or
      the end of a shown path below one under the path's dotted name, `this` left out. */
  ghost predicate Promised(w: World, frame: seq<Member>, f: Found) {
    exists i: nat :: i < |frame| && PromisedBy(w, frame[i], f)
  }

  ghost predicate PromisedBy(w: World, symbol: Member, f: Found) {
    && symbol.name != ""
    && ((w.observable(symbol.node, symbol.name) && f == Found(symbol.name, symbol.node))
        || exists path :: IsPathTo(w, symbol, path, f))
  }

  ghost predicate IsPathTo(w: World, symbol: Member, path: seq<nat>, f: Found) {
    && Shows(w, symbol.node, {}, path)
    && f == Found(Join(Chain(symbol) + Names(w, symbol.node, path)), Ends(w, symbol.node, path))
  }

  function Chain(symbol: Member): seq<string> { if symbol.name != "this" then [symbol.name] else [] }

  lemma {:induction false} JoinSnoc(chain: seq<string>, name: string)
    ensures Join([]) == "" && Join([name]) == name
    ensures chain != [] ==> Join(chain + [name]) == Join(chain) + "." + name
    decreases |chain|
  {
    if |chain| > 1 {
      JoinSnoc(chain[1..], name);
      assert (chain + [name])[1..] == chain[1..] + [name];
      assert chain[0] + "." + (Join(chain[1..]) + "." + name) == (chain[0] + "." + Join(chain[1..])) + "." + name;
    } else if |chain| == 1 {
      assert (chain + [name])[1..] == [name] && Join([name]) == name;
    }
  }

  lemma JoinCons(name: string, rest: seq<string>)
    requires rest != []
    ensures Join([name] + rest) == name + "." + Join(rest)
  {
    assert ([name] + rest)[1..] == rest;
  }

  /** Joining puts a dot before each name but the first. */
  lemma MembersJoined(members: seq<string>)
    requires members != []
    ensures |members| == 1 ==> Join(members) == members[0]
    ensures |members| > 1 ==> Join(members) == Join(members[..|members| - 1]) + "." + members[|members| - 1]
  {
    var front, last := members[..|members| - 1], members[|members| - 1];
    assert front + [last] == members;
    JoinSnoc(front, last);
  }

  /** What a path is listed as: its variable's name and the members', with dots between
      them; `this` is left out. */
  lemma ListedAs(w: World, symbol: Member, path: seq<nat>, f: Found)
    requires IsPathTo(w, symbol, path, f)
    ensures var members := Names(w, symbol.node, path);
      && members != []
      && f.name == if symbol.name == "this" then Join(members) else symbol.name + "." + Join(members)
  {
    var members := Names(w, symbol.node, path);
    if symbol.name == "this" {
      assert Chain(symbol) + members == members;
    } else {
      JoinCons(symbol.name, members);
      assert Chain(symbol) == [symbol.name];
    }
  }

  lemma WalkIsPromised(w: World, types: set<string>, symbol: Member, f: Found)
    requires Typed(w, types)
    ensures f in Named(Walk(w, types, symbol.node, Chain(symbol), {})) <==> exists path :: IsPathTo(w, symbol, path, f)
  {
    var chain, hits := Chain(symbol), Walk(w, types, symbol.node, Chain(symbol), {});
    if f in Named(hits) {
      var i :| 0 <= i < |hits| && Named(hits)[i] == f;
      var path := HitsAreShown(w, types, symbol.node, chain, {}, hits[i]);
      assert IsPathTo(w, symbol, path, f);
    }
    if path :| IsPathTo(w, symbol, path, f) {
      ShownAreHits(w, types, symbol.node, chain, {}, path);
      var k :| 0 <= k < |hits| && hits[k] == Hit(chain + Names(w, symbol.node, path), Ends(w, symbol.node, path));
      assert Named(hits)[k] == f;
    }
  }

  lemma TopIsPromised(w: World, types: set<string>, symbol: Member, f: Found)
    requires Typed(w, types)
    ensures f in Top(w, types, symbol) <==> PromisedBy(w, symbol, f)
  {
    if symbol.name != "" { WalkIsPromised(w, types, symbol, f); }
  }

  lemma PromisedSnoc(w: World, front: seq<Member>, last: Member, f: Found)
    ensures Promised(w, front + [last], f) <==> Promised(w, front, f) || PromisedBy(w, last, f)
  {
    var frame := front + [last];
    if i: nat :| i < |front| && PromisedBy(w, front[i], f) { assert frame[i] == front[i]; }
    if PromisedBy(w, last, f) { assert frame[|front|] == last; }
    if i: nat :| i < |frame| && PromisedBy(w, frame[i], f) {
      if i < |front| { assert front[i] == frame[i]; }
    }
  }

  lemma {:induction false} EmittedIsPromised(w: World, types: set<string>, frame: seq<Member>, f: Found)
    requires Typed(w, types)
    ensures f in Emitted(w, types, frame) <==> Promised(w, frame, f)
    decreases |frame|
  {
    if frame != [] {
      var front, last := frame[..|frame| - 1], frame[|frame| - 1];
      assert frame == front + [last];
      EmittedIsPromised(w, types, front, f);
      TopIsPromised(w, types, last, f);
      PromisedSnoc(w, front, last, f);
    }
  }

  /** observable_symbols() lists, once each, exactly the names it promises, and under
      each name a value promised under it: the first one the walk comes to. */
  lemma ListingIsExact(w: World, types: set<string>, frame: seq<Member>, f: Found)
    requires Typed(w, types)
    ensures var all := Emitted(w, types, frame);
      var found := Unique(all);
      && (f in all <==> Promised(w, frame, f))
      && (f in found <==> Leads(all, f))
      && (f in found ==> Promised(w, frame, f))
      && (Promised(w, frame, f) ==> f.name in NamesOf(found))
      && forall i, j :: 0 <= i < j < |found| ==> found[i].name != found[j].name
  {
    EmittedIsPromised(w, types, frame, f);
    UniqueNames(Emitted(w, types, frame));
  }

  // ---------------------------------------------------------------------
  // The lister
  // ---------------------------------------------------------------------

  lemma UniqueSnoc(all: seq<Found>, last: Found)
    ensures Unique(all + [last])
         == if last.name in NamesOf(all) then Unique(all) else Unique(all) + [last]
  {
    assert (all + [last])[..|all|] == all;
    UniqueNames(all);
  }

  /** found and seen, filled by emit(). */
  class Lister {
    var found: seq<Found>
    var seen: set<string>
    ghost var emitted: seq<Found>

    ghost predicate Valid()
      reads this
    {
      found == Unique(emitted) && seen == NamesOf(emitted)
    }

    constructor ()
      ensures Valid() && emitted == []
    {
      found, seen, emitted := [], {}, [];
    }

    method Emit(qualifiedName: string, node: Node)
      requires Valid()
      modifies this
      ensures Valid() && emitted == old(emitted) + [Found(qualifiedName, node)]
    {
      UniqueSnoc(emitted, Found(qualifiedName, node));
      NamesSnoc(emitted, Found(qualifiedName, node));
      if qualifiedName !in seen {
        seen := seen + {qualifiedName};
        found := found + [Found(qualifiedName, node)];
      }
      emitted := emitted + [Found(qualifiedName, node)];
    }

    /** The recursive descent terminates on any graph, cyclic or not. */
    method WalkMembers(w: World, ghost types: set<string>, node: Node, chain: seq<string>, visited: set<string>)
      requires Valid() && Typed(w, types)
      modifies this
      ensures Valid() && emitted == old(emitted) + Named(Walk(w, types, node, chain, visited))
      decreases |types - visited|, 0
    {
      if w.typeOf(node) in visited {
        return;
      }
      if !w.bearing(node) {
        return;
      }
      VisitingShrinks(types, visited, w.typeOf(node));
      var inner := visited + {w.typeOf(node)};
      var members := w.members(node);
      ghost var before := emitted;
      for i := 0 to |members|
        invariant Valid()
        invariant before + Named(WalkEach(w, types, members, chain, inner))
               == emitted + Named(WalkEach(w, types, members[i..], chain, inner))
      {
        EachSplit(w, types, members, i, chain, inner);
        Regroup(emitted, Named(WalkOne(w, types, members[i], chain, inner)),
                Named(WalkEach(w, types, members[i + 1..], chain, inner)));
        WalkMember(w, types, members[i], chain, inner);
      }
    }

    method WalkMember(w: World, ghost types: set<string>, m: Member, chain: seq<string>, visited: set<string>)
      requires Valid() && Typed(w, types)
      modifies this
      ensures Valid() && emitted == old(emitted) + Named(WalkOne(w, types, m, chain, visited))
      decreases |types - visited|, 1
    {
      if w.observable(m.node, m.name) {
        Emit(Join(chain + [m.name]), m.node);
      } else {
        WalkMembers(w, types, m.node, chain + [m.name], visited);
      }
    }

    method Visit(w: World, ghost types: set<string>, symbol: Member)
      requires Valid() && Typed(w, types)
      modifies this
      ensures Valid() && emitted == old(emitted) + Top(w, types, symbol)
    {
      if symbol.name == "" {
        return;
      }
      if w.observable(symbol.node, symbol.name) {
        Emit(symbol.name, symbol.node);
      }
      ghost var below := Named(Walk(w, types, symbol.node, Chain(symbol), {}));
      Regroup(old(emitted), Own(w, symbol), below);
      WalkMembers(w, types, symbol.node, Chain(symbol), {});
    }

    method ObservableSymbols(w: World, ghost types: set<string>, frame: seq<Member>)
      requires Valid() && emitted == [] && Typed(w, types)
      modifies this
      ensures Valid() && found == Unique(Emitted(w, types, frame))
    {
      for i := 0 to |frame|
        invariant Valid() && emitted == Emitted(w, types, frame[..i])
      {
        assert frame[..i + 1][..i] == frame[..i];
        Visit(w, types, frame[i]);
      }
      assert frame[..|frame|] == frame;
    }
  }

  lemma Regroup<T>(a: seq<T>, b: seq<T>, c: seq<T>)
    ensures a + (b + c) == a + b + c
  {
  }

  lemma NamedJoin(a: seq<Hit>, b: seq<Hit>)
    ensures Named(a + b) == Named(a) + Named(b)
  {
  }

  lemma EachSplit(w: World, types: set<string>, members: seq<Member>, i: nat, chain: seq<string>, visited: set<string>)
    requires Typed(w, types) && i < |members|
    ensures Named(WalkEach(w, types, members[i..], chain, visited))
         == Named(WalkOne(w, types, members[i], chain, visited)) + Named(WalkEach(w, types, members[i + 1..], chain, visited))
  {
    assert members[i..][1..] == members[i + 1..];
    NamedJoin(WalkOne(w, types, members[i], chain, visited), WalkEach(w, types, members[i + 1..], chain, visited));
  }
}
