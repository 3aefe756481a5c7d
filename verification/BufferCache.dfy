/**
 The fetch cache: an ordered dictionary whose last entry is the most recently
 used. Entries are kept oldest first.
 */
module BufferCaching {
  import opened Arithmetic
  import opened Wrappers

  datatype Entry<K, V> = Entry(key: K, value: V)

  predicate Distinct<K(==), V>(e: seq<Entry<K, V>>) {
    forall i, j :: 0 <= i < j < |e| ==> e[i].key != e[j].key
  }

  function Keys<K(==), V>(e: seq<Entry<K, V>>): set<K> { set i | 0 <= i < |e| :: e[i].key }

  function Without<K(==), V>(e: seq<Entry<K, V>>, k: K): (r: seq<Entry<K, V>>)
    ensures forall x :: x in r ==> x in e && x.key != k
    ensures forall x :: x in e && x.key != k ==> x in r
    ensures |r| <= |e|
  {
    if e == [] then []
    else if e[0].key == k then Without(e[1..], k)
    else [e[0]] + Without(e[1..], k)
  }

  function Lookup<K(==), V>(e: seq<Entry<K, V>>, k: K): (r: Option<V>)
    ensures r.Some? ==> Entry(k, r.value) in e
    ensures r.None? ==> forall x <- e :: x.key != k
  {
    if e == [] then None
    else if e[0].key == k then Some(e[0].value)
    else Lookup(e[1..], k)
  }

  /** The last `n` entries. */
  function Newest<T>(e: seq<T>, n: nat): seq<T> { if |e| > n then e[|e| - n..] else e }

  datatype Op<K, V> = Get(key: K) | Put(key: K, value: V)

  function Apply<K(==), V>(e: seq<Entry<K, V>>, op: Op<K, V>, capacity: nat): seq<Entry<K, V>> {
    match op
    case Get(k) =>
      (match Lookup(e, k)
       case Some(v) => Without(e, k) + [Entry(k, v)]
       case None => e)
    case Put(k, v) => Newest(Without(e, k) + [Entry(k, v)], capacity)
  }

  function Run<K(==), V>(e: seq<Entry<K, V>>, ops: seq<Op<K, V>>, capacity: nat): seq<Entry<K, V>>
    decreases |ops|
  {
    if ops == [] then e else Run(Apply(e, ops[0], capacity), ops[1..], capacity)
  }

  predicate Sound<K(==), V>(e: seq<Entry<K, V>>, capacity: nat) { Distinct(e) && |e| <= capacity }

  lemma {:induction false} WithoutDistinct<K, V>(e: seq<Entry<K, V>>, k: K)
    requires Distinct(e)
    ensures Distinct(Without(e, k))
    decreases |e|
  {
    if e != [] {
      WithoutDistinct(e[1..], k);
      var rest := Without(e[1..], k);
      forall j | 0 <= j < |rest| ensures rest[j].key != e[0].key { assert rest[j] in rest; }
    }
  }

  lemma {:induction false} WithoutShorter<K, V>(e: seq<Entry<K, V>>, k: K, v: V)
    requires Lookup(e, k) == Some(v)
    ensures |Without(e, k)| < |e|
    decreases |e|
  {
    if e[0].key != k { WithoutShorter(e[1..], k, v); }
  }

  lemma AppendDistinct<K, V>(b: seq<Entry<K, V>>, k: K)
    requires Distinct(b)
    ensures Distinct(Without(b, k)) && forall v: V :: Distinct(Without(b, k) + [Entry(k, v)])
  {
    WithoutDistinct(b, k);
    var rest := Without(b, k);
    forall j | 0 <= j < |rest| ensures rest[j].key != k { assert rest[j] in rest; }
  }

  /** Keys stay distinct and the capacity is never exceeded. */
  lemma ApplySound<K, V>(e: seq<Entry<K, V>>, op: Op<K, V>, capacity: nat)
    requires Sound(e, capacity)
    ensures Sound(Apply(e, op, capacity), capacity)
  {
    AppendDistinct(e, op.key);
    if op.Get? && Lookup(e, op.key).Some? { WithoutShorter(e, op.key, Lookup(e, op.key).value); }
  }

  lemma {:induction false} RunSound<K, V>(e: seq<Entry<K, V>>, ops: seq<Op<K, V>>, capacity: nat)
    requires Sound(e, capacity)
    ensures Sound(Run(e, ops, capacity), capacity)
    decreases |ops|
  {
    if ops != [] {
      ApplySound(e, ops[0], capacity);
      RunSound(Apply(e, ops[0], capacity), ops[1..], capacity);
    }
  }

  // ---------------------------------------------------------------------
  // Least recently used
  // ---------------------------------------------------------------------

  lemma {:induction false} WithoutJoin<K, V>(a: seq<Entry<K, V>>, b: seq<Entry<K, V>>, k: K)
    ensures Without(a + b, k) == Without(a, k) + Without(b, k)
    decreases |a|
  {
    if a == [] {
      assert a + b == b;
    } else {
      assert (a + b)[1..] == a[1..] + b;
      WithoutJoin(a[1..], b, k);
    }
  }

  lemma {:induction false} LookupJoin<K, V>(a: seq<Entry<K, V>>, x: Entry<K, V>, b: seq<Entry<K, V>>)
    requires Distinct(a + [x] + b)
    ensures Lookup(a + [x] + b, x.key) == Some(x.value)
    decreases |a|
  {
    var e := a + [x] + b;
    if a == [] {
      assert e[0] == x;
    } else {
      assert e[0] == a[0] && e[|a|] == x;
      assert e[1..] == a[1..] + [x] + b;
      LookupJoin(a[1..], x, b);
    }
  }

  /** Distinct keys drawn from a set are at most as many as the set. */
  lemma {:induction false} KeysBounded<K, V>(e: seq<Entry<K, V>>, s: set<K>)
    requires Distinct(e) && forall x <- e :: x.key in s
    ensures |e| <= |s|
    decreases |e|
  {
    if e != [] {
      var n := |e| - 1;
      forall x <- e[..n] ensures x.key in s - {e[n].key} {
        var i :| 0 <= i < n && e[i] == x;
      }
      KeysBounded(e[..n], s - {e[n].key});
    }
  }

  lemma {:induction false} KeysCovered<K, V>(e: seq<Entry<K, V>>, s: set<K>)
    requires forall k <- s :: exists i :: 0 <= i < |e| && e[i].key == k
    ensures |s| <= |e|
    decreases |e|
  {
    if e == [] {
      assert s == {};
    } else {
      var n := |e| - 1;
      forall k <- s - {e[n].key} ensures exists i :: 0 <= i < |e[..n]| && e[..n][i].key == k {
        var i :| 0 <= i < |e| && e[i].key == k;
        assert e[..n][i].key == k;
      }
      KeysCovered(e[..n], s - {e[n].key});
    }
  }

  lemma DistinctTail<K, V>(a: seq<Entry<K, V>>, b: seq<Entry<K, V>>)
    requires Distinct(a + b)
    ensures Distinct(b)
  {
    forall i, j | 0 <= i < j < |b| ensures b[i].key != b[j].key {
      assert (a + b)[|a| + i] == b[i] && (a + b)[|a| + j] == b[j];
    }
  }

  lemma WithoutAround<K, V>(a: seq<Entry<K, V>>, x: Entry<K, V>, b: seq<Entry<K, V>>, k: K)
    requires x.key != k
    ensures Without(a + [x] + b, k) == Without(a, k) + [x] + Without(b, k)
  {
    WithoutJoin(a + [x], b, k);
    WithoutJoin(a, [x], k);
    WithoutSingle(x, k);
  }

  lemma WithoutSingle<K, V>(x: Entry<K, V>, k: K)
    requires x.key != k
    ensures Without([x], k) == [x]
  {
    var none: seq<Entry<K, V>> := [];
    assert [x][1..] == none;
    assert Without([x], k) == [x] + Without(none, k);
  }

  /** Writing another key at the end: `x` keeps its place, and the new entry joins
      those after it. */
  lemma WriteOther<K, V>(a: seq<Entry<K, V>>, x: Entry<K, V>, b: seq<Entry<K, V>>, y: Entry<K, V>)
    returns (c: seq<Entry<K, V>>, d: seq<Entry<K, V>>)
    requires Distinct(a + [x] + b) && y.key != x.key
    ensures Without(a + [x] + b, y.key) + [y] == c + [x] + d
    ensures Distinct(c + [x] + d) && Distinct(d)
    ensures d == Without(b, y.key) + [y]
  {
    c, d := Without(a, y.key), Without(b, y.key) + [y];
    WithoutAround(a, x, b, y.key);
    assert c + [x] + Without(b, y.key) + [y] == c + [x] + d;
    AppendDistinct(a + [x] + b, y.key);
    DistinctTail(c + [x], d);
  }

  /** An operation on another key leaves `x` in place among the newer entries, the
      operation's key now among them, unless the capacity pushes `x` out. */
  lemma OtherKey<K, V>(a: seq<Entry<K, V>>, x: Entry<K, V>, b: seq<Entry<K, V>>, op: Op<K, V>, capacity: nat)
    returns (c: seq<Entry<K, V>>, d: seq<Entry<K, V>>)
    requires Sound(a + [x] + b, capacity) && op.key != x.key
    ensures op.Get? ==> Apply(a + [x] + b, op, capacity) == c + [x] + d
    ensures op.Put? ==> Apply(a + [x] + b, op, capacity) == Newest(c + [x] + d, capacity)
    ensures Distinct(c + [x] + d) && Distinct(d)
    ensures forall y <- d :: y in b || y.key == op.key
    ensures forall y <- b :: y.key != op.key ==> y in d
    ensures op.Put? || Lookup(a + [x] + b, op.key).Some? ==> exists y <- d :: y.key == op.key
  {
    var found := Lookup(a + [x] + b, op.key);
    if op.Put? || found.Some? {
      var y := if op.Put? then Entry(op.key, op.value) else Entry(op.key, found.value);
      c, d := WriteOther(a, x, b, y);
      assert y in d;
    } else {
      c, d := a, b;
      DistinctTail(a + [x], b);
    }
  }

  function Touched<K, V>(ops: seq<Op<K, V>>): set<K> { set i | 0 <= i < |ops| :: ops[i].key }

  function PutKeys<K, V>(ops: seq<Op<K, V>>): set<K> { set i | 0 <= i < |ops| && ops[i].Put? :: ops[i].key }

  /** An entry outlives any run of operations that touches fewer other keys than
      the cache holds. */
  lemma {:induction false} Retained<K, V>(a: seq<Entry<K, V>>, x: Entry<K, V>, b: seq<Entry<K, V>>,
                                          ops: seq<Op<K, V>>, seen: set<K>, capacity: nat)
    requires Sound(a + [x] + b, capacity)
    requires forall y <- b :: y.key in seen
    requires forall op <- ops :: op.key != x.key
    requires x.key !in seen && |seen + Touched(ops)| < capacity
    ensures Lookup(Run(a + [x] + b, ops, capacity), x.key) == Some(x.value)
    decreases |ops|
  {
    if ops == [] {
      LookupJoin(a, x, b);
    } else {
      var op, rest := ops[0], ops[1..];
      assert op in ops;
      var c, d := OtherKey(a, x, b, op, capacity);
      ApplySound(a + [x] + b, op, capacity);
      assert op.key in Touched(ops);
      TouchedSplit(ops);
      var now := seen + {op.key};
      assert now + Touched(rest) == seen + Touched(ops);
      forall y <- d ensures y.key in now {}
      var kept := KeepNewest(a, x, b, c, d, op, now, seen + Touched(ops), capacity);
      Retained(kept, x, d, rest, now, capacity);
    }
  }

  lemma TouchedSplit<K, V>(ops: seq<Op<K, V>>)
    requires ops != []
    ensures Touched(ops) == {ops[0].key} + Touched(ops[1..])
  {
    forall k <- Touched(ops) ensures k in {ops[0].key} + Touched(ops[1..]) {
      var i :| 0 <= i < |ops| && ops[i].key == k;
      if i > 0 { assert ops[1..][i - 1].key == k; }
    }
    forall k <- Touched(ops[1..]) ensures k in Touched(ops) {
      var i :| 0 <= i < |ops[1..]| && ops[1..][i].key == k;
      assert ops[i + 1].key == k;
    }
  }

  /** With few newer entries the trim takes only from the older ones. */
  lemma KeepNewest<K, V>(a: seq<Entry<K, V>>, x: Entry<K, V>, b: seq<Entry<K, V>>, c: seq<Entry<K, V>>,
                         d: seq<Entry<K, V>>, op: Op<K, V>, now: set<K>, bound: set<K>, capacity: nat)
    returns (kept: seq<Entry<K, V>>)
    requires Apply(a + [x] + b, op, capacity) == if op.Put? then Newest(c + [x] + d, capacity) else c + [x] + d
    requires (forall y <- d :: y.key in now) && now <= bound && |bound| < capacity
    requires Distinct(d)
    ensures Apply(a + [x] + b, op, capacity) == kept + [x] + d
  {
    KeysBounded(d, now);
    SubsetSize(now, bound);
    if op.Put? {
      kept := TrimOlder(c, x, d, capacity);
    } else {
      kept := c;
    }
  }

  lemma TrimOlder<T>(c: seq<T>, x: T, d: seq<T>, capacity: nat) returns (kept: seq<T>)
    requires |d| < capacity
    ensures Newest(c + [x] + d, capacity) == kept + [x] + d
  {
    var all := c + [x] + d;
    if |all| > capacity {
      kept := c[|all| - capacity..];
      assert all[|all| - capacity..] == kept + [x] + d;
    } else {
      kept := c;
    }
  }

  /** And is gone once as many other keys as the cache holds have been put since it
      was last used. */
  lemma {:induction false} Evicted<K, V>(e: seq<Entry<K, V>>, k: K, ops: seq<Op<K, V>>, newer: set<K>, capacity: nat)
    requires Sound(e, capacity)
    requires NewerThan(e, k, newer) && forall op <- ops :: op.key != k
    requires |newer + PutKeys(ops)| >= capacity
    ensures Lookup(Run(e, ops, capacity), k) == None
    decreases |ops|
  {
    if ops == [] {
      assert newer + PutKeys(ops) == newer;
      FullMeansGone(e, k, newer, capacity);
    } else {
      var op, rest := ops[0], ops[1..];
      assert op in ops;
      ApplySound(e, op, capacity);
      PutKeysSplit(ops);
      var now := if op.Put? then newer + {op.key} else newer;
      assert now + PutKeys(rest) == newer + PutKeys(ops);
      StaysNewer(e, k, op, newer, capacity);
      Evicted(Apply(e, op, capacity), k, rest, now, capacity);
    }
  }

  /** Either `k` is absent, or every key of `newer` comes after it. */
  ghost predicate NewerThan<K, V>(e: seq<Entry<K, V>>, k: K, newer: set<K>) {
    forall i :: 0 <= i < |e| && e[i].key == k ==>
      forall n <- newer :: exists j :: i < j < |e| && e[j].key == n
  }

  lemma PutKeysSplit<K, V>(ops: seq<Op<K, V>>)
    requires ops != []
    ensures PutKeys(ops) == (if ops[0].Put? then {ops[0].key} else {}) + PutKeys(ops[1..])
  {
    forall k <- PutKeys(ops[1..]) ensures k in PutKeys(ops) {
      var i :| 0 <= i < |ops[1..]| && ops[1..][i].Put? && ops[1..][i].key == k;
      assert ops[i + 1].key == k;
    }
    forall k <- PutKeys(ops) ensures k in (if ops[0].Put? then {ops[0].key} else {}) + PutKeys(ops[1..]) {
      var i :| 0 <= i < |ops| && ops[i].Put? && ops[i].key == k;
      if i > 0 { assert ops[1..][i - 1].key == k; }
    }
  }

  lemma FullMeansGone<K, V>(e: seq<Entry<K, V>>, k: K, newer: set<K>, capacity: nat)
    requires Sound(e, capacity) && NewerThan(e, k, newer) && |newer| >= capacity
    ensures Lookup(e, k) == None
  {
    if Lookup(e, k).Some? {
      var x := Entry(k, Lookup(e, k).value);
      var i :| 0 <= i < |e| && e[i] == x;
      var b := e[i + 1..];
      forall n <- newer ensures exists j :: 0 <= j < |b| && b[j].key == n {
        var j :| i < j < |e| && e[j].key == n;
        assert b[j - i - 1].key == n;
      }
      KeysCovered(b, newer);
    }
  }

  lemma StaysNewer<K, V>(e: seq<Entry<K, V>>, k: K, op: Op<K, V>, newer: set<K>, capacity: nat)
    requires Sound(e, capacity) && NewerThan(e, k, newer) && op.key != k
    ensures NewerThan(Apply(e, op, capacity), k, if op.Put? then newer + {op.key} else newer)
  {
    var after := Apply(e, op, capacity);
    var now := if op.Put? then newer + {op.key} else newer;
    forall i, n | 0 <= i < |after| && after[i].key == k && n in now
      ensures exists j :: i < j < |after| && after[j].key == n
    {
      StaysNewerAt(e, op, newer, capacity, i, n);
    }
  }

  lemma StaysNewerAt<K, V>(e: seq<Entry<K, V>>, op: Op<K, V>, newer: set<K>, capacity: nat, i: nat, n: K)
    requires Sound(e, capacity) && i < |Apply(e, op, capacity)|
    requires Apply(e, op, capacity)[i].key != op.key && NewerThan(e, Apply(e, op, capacity)[i].key, newer)
    requires n in newer || (op.Put? && n == op.key)
    ensures exists j :: i < j < |Apply(e, op, capacity)| && Apply(e, op, capacity)[j].key == n
  {
    var p := Origin(e, op, capacity, i);
    var c, d := Around(e, p, op, capacity);
    var y := NewerEntry(e, p, e[p].key, d, op, newer, n);
    FollowsInSuffix(c, e[p], d, y, Apply(e, op, capacity), i);
  }

  /** What an operation makes of the entries before and after one it does not write. */
  lemma Around<K, V>(e: seq<Entry<K, V>>, p: nat, op: Op<K, V>, capacity: nat)
    returns (c: seq<Entry<K, V>>, d: seq<Entry<K, V>>)
    requires Sound(e, capacity) && p < |e| && e[p].key != op.key
    ensures IsSuffix(Apply(e, op, capacity), c + [e[p]] + d) && Distinct(c + [e[p]] + d)
    ensures forall z <- e[p + 1..] :: z.key != op.key ==> z in d
    ensures op.Put? || Lookup(e, op.key).Some? ==> exists z <- d :: z.key == op.key
  {
    var a, b := e[..p], e[p + 1..];
    assert e == a + [e[p]] + b;
    c, d := OtherKey(a, e[p], b, op, capacity);
    NewestIsSuffix(c + [e[p]] + d, capacity);
  }

  predicate IsSuffix<T(==)>(s: seq<T>, t: seq<T>) { |s| <= |t| && s == t[|t| - |s|..] }

  lemma NewestIsSuffix<T>(s: seq<T>, n: nat)
    ensures IsSuffix(Newest(s, n), s) && IsSuffix(s, s)
  {
  }

  lemma FollowsInSuffix<K, V>(c: seq<Entry<K, V>>, x: Entry<K, V>, d: seq<Entry<K, V>>, y: Entry<K, V>,
                              after: seq<Entry<K, V>>, i: nat)
    requires IsSuffix(after, c + [x] + d) && i < |after| && after[i] == x && y in d && Distinct(c + [x] + d)
    ensures exists j :: i < j < |after| && after[j].key == y.key
  {
    var all := c + [x] + d;
    assert all[|c|] == x && all[|c| + 1..] == d;
    AfterEntry(all, |c|, d, y);
    TrimKeepsOrder(all, after, |c|, i, y);
  }

  /** An entry the operation did not write was there before. */
  lemma Origin<K, V>(e: seq<Entry<K, V>>, op: Op<K, V>, capacity: nat, i: nat) returns (p: nat)
    requires i < |Apply(e, op, capacity)| && Apply(e, op, capacity)[i].key != op.key
    ensures p < |e| && e[p] == Apply(e, op, capacity)[i]
  {
    var x := Apply(e, op, capacity)[i];
    assert x in e by {
      if op.Put? || Lookup(e, op.key).Some? {
        var kept := Without(e, op.key);
        assert x in kept;
      }
    }
    p :| 0 <= p < |e| && e[p] == x;
  }

  /** After the operation some newer entry still carries each key of `newer`. */
  lemma NewerEntry<K, V>(e: seq<Entry<K, V>>, p: nat, k: K, d: seq<Entry<K, V>>, op: Op<K, V>, newer: set<K>, n: K)
    returns (y: Entry<K, V>)
    requires p < |e| && e[p].key == k && NewerThan(e, k, newer)
    requires n in newer || (op.Put? && n == op.key)
    requires forall z <- e[p + 1..] :: z.key != op.key ==> z in d
    requires op.Put? || Lookup(e, op.key).Some? ==> exists z <- d :: z.key == op.key
    ensures y in d && y.key == n
  {
    if n == op.key {
      if n in newer {
        var j :| p < j < |e| && e[j].key == n;
        assert e[j] in e;
      }
      y :| y in d && y.key == op.key;
    } else {
      var j :| p < j < |e| && e[j].key == n;
      assert e[p + 1..][j - p - 1] == e[j];
      y := e[j];
    }
  }

  lemma AfterEntry<K, V>(all: seq<Entry<K, V>>, p: nat, d: seq<Entry<K, V>>, y: Entry<K, V>)
    requires p < |all| && all[p + 1..] == d && y in d
    ensures exists j :: p < j < |all| && all[j] == y
  {
    var t :| 0 <= t < |d| && d[t] == y;
    assert all[p + 1 + t] == y;
  }

  lemma TrimKeepsOrder<K, V>(all: seq<Entry<K, V>>, after: seq<Entry<K, V>>, p: nat, i: nat, y: Entry<K, V>)
    requires p < |all| && i < |after| <= |all| && after == all[|all| - |after|..] && after[i] == all[p]
    requires exists j :: p < j < |all| && all[j] == y
    requires Distinct(all)
    ensures exists j :: i < j < |after| && after[j].key == y.key
  {
    var cut := |all| - |after|;
    var j :| p < j < |all| && all[j] == y;
    assert after[i] == all[cut + i];
    assert cut + i == p;
    assert after[j - cut] == y;
  }

  // ---------------------------------------------------------------------
  // The cache itself
  // ---------------------------------------------------------------------

  /** Assigning to an ordered dictionary: an existing key keeps its place. */
  function Assign<K(==), V>(e: seq<Entry<K, V>>, k: K, v: V): seq<Entry<K, V>> {
    if e == [] then [Entry(k, v)]
    else if e[0].key == k then [Entry(k, v)] + e[1..]
    else [e[0]] + Assign(e[1..], k, v)
  }

  function MoveToEnd<K(==), V>(e: seq<Entry<K, V>>, k: K): seq<Entry<K, V>> {
    match Lookup(e, k)
    case Some(v) => Without(e, k) + [Entry(k, v)]
    case None => e
  }

  lemma {:induction false} AssignThenMove<K, V>(e: seq<Entry<K, V>>, k: K, v: V)
    requires Distinct(e)
    ensures Lookup(Assign(e, k, v), k) == Some(v) && Without(Assign(e, k, v), k) == Without(e, k)
    decreases |e|
  {
    if e == [] {
      var none: seq<Entry<K, V>> := [];
      assert [Entry(k, v)][1..] == none;
    } else if e[0].key == k {
      assert ([Entry(k, v)] + e[1..])[1..] == e[1..];
    } else {
      AssignThenMove(e[1..], k, v);
      assert ([e[0]] + Assign(e[1..], k, v))[1..] == Assign(e[1..], k, v);
    }
  }

  lemma DropFirst<T>(s: seq<T>, full: seq<T>)
    requires IsSuffix(s, full) && s != []
    ensures IsSuffix(s[1..], full)
  {
  }

  lemma SuffixIsNewest<T>(s: seq<T>, full: seq<T>, n: nat)
    requires IsSuffix(s, full) && |Newest(full, n)| <= |s| <= n
    ensures s == Newest(full, n)
  {
  }

  class BufferCache<K(==), V> {
    const capacity: nat
    var entries: seq<Entry<K, V>>

    ghost predicate Valid()
      reads this
    {
      Sound(entries, capacity)
    }

    constructor (capacity: nat)
      ensures Valid() && entries == [] && this.capacity == capacity
    {
      this.capacity := capacity;
      entries := [];
    }

    method Get(k: K) returns (r: Option<V>)
      requires Valid()
      modifies this
      ensures Valid() && r == Lookup(old(entries), k) && entries == Apply(old(entries), Op.Get(k), capacity)
    {
      ApplySound(entries, Op.Get(k), capacity);
      r := Lookup(entries, k);
      if r == None {
        return None;
      }
      entries := MoveToEnd(entries, k);
    }

    method Put(k: K, v: V)
      requires Valid()
      modifies this
      ensures Valid() && entries == Apply(old(entries), Op.Put(k, v), capacity)
    {
      ApplySound(entries, Op.Put(k, v), capacity);
      AssignThenMove(entries, k, v);
      ghost var full := Without(entries, k) + [Entry(k, v)];
      entries := Assign(entries, k, v);
      entries := MoveToEnd(entries, k);
      while |entries| > capacity
        invariant IsSuffix(entries, full) && |entries| >= |Newest(full, capacity)|
      {
        DropFirst(entries, full);
        entries := entries[1..];
      }
      SuffixIsNewest(entries, full, capacity);
    }
  }
}
