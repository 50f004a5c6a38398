/**
 What the smaller of two registries holds, when every build succeeds: exactly the most recent part
 of the larger one's recency list.
 */
module RecentSuffix {
  import opened Base
  import opened Registry
  import opened Recency
  import opened Inclusion

  /** The same use of the cache; the clients may be different builds. */
  predicate SameUse(a: Item, b: Item) {
    a.digest == b.digest && a.entry.credKeys == b.entry.credKeys && a.entry.lastUsed == b.entry.lastUsed
  }

  predicate Matches(a: Recency, b: Recency) {
    |a| == |b| && forall i :: 0 <= i < |a| ==> SameUse(a[i], b[i])
  }

  predicate SuffixOf(small: Recency, large: Recency) {
    |small| <= |large| && Matches(small, large[|large| - |small|..])
  }

  /** What an operation needs for the comparison: it succeeds, and its keys go with its digest. */
  predicate Comparable(keysOf: CredDigest -> seq<CredKey>, op: Op) {
    op.Use? ==> op.built.Some? && op.credKeys == keysOf(op.digest)
  }

  predicate KeyedBy(keysOf: CredDigest -> seq<CredKey>, l: Recency) {
    forall x :: x in l ==> x.entry.credKeys == keysOf(x.digest)
  }

  ghost predicate IgnoresClient(keep: Item -> bool) {
    forall a, b :: SameUse(a, b) ==> keep(a) == keep(b)
  }

  lemma {:induction false} KeepConcat(a: Recency, b: Recency, keep: Item -> bool)
    ensures Keep(a + b, keep) == Keep(a, keep) + Keep(b, keep)
  {
    if a == [] {
      assert a + b == b;
    } else {
      assert (a + b)[0] == a[0] && (a + b)[1..] == a[1..] + b;
      KeepConcat(a[1..], b, keep);
      var head := if keep(a[0]) then [a[0]] else [];
      assert Keep(a, keep) == head + Keep(a[1..], keep);
      assert Keep(a + b, keep) == head + Keep(a[1..] + b, keep);
    }
  }

  lemma {:induction false} KeepAll(l: Recency, keep: Item -> bool)
    requires forall x :: x in l ==> keep(x)
    ensures Keep(l, keep) == l
  {
    if l != [] {
      KeepAll(l[1..], keep);
    }
  }

  lemma {:induction false} KeepMatches(a: Recency, b: Recency, keep: Item -> bool)
    requires Matches(a, b) && IgnoresClient(keep)
    ensures Matches(Keep(a, keep), Keep(b, keep))
  {
    if a != [] {
      assert SameUse(a[0], b[0]);
      KeepMatches(a[1..], b[1..], keep);
    }
  }

  lemma KeepSuffix(small: Recency, large: Recency, keep: Item -> bool)
    requires SuffixOf(small, large) && IgnoresClient(keep)
    ensures SuffixOf(Keep(small, keep), Keep(large, keep))
  {
    var n := |large| - |small|;
    assert large == large[..n] + large[n..];
    KeepConcat(large[..n], large[n..], keep);
    KeepMatches(small, large[n..], keep);
    var p, q := Keep(large[..n], keep), Keep(large[n..], keep);
    assert (p + q)[|p|..] == q;
  }

  lemma AppendSuffix(small: Recency, large: Recency, x: Item, y: Item)
    requires SuffixOf(small, large) && SameUse(x, y)
    ensures SuffixOf(small + [x], large + [y])
  {
    var n := |large| - |small|;
    assert (large + [y])[n..] == large[n..] + [y];
  }

  /** `large` holds `d` and `small` does not: taking it out of `large` leaves the suffix alone. */
  lemma WithoutSuffix(small: Recency, large: Recency, d: CredDigest)
    requires SuffixOf(small, large) && FindEntry(small, d).None?
    ensures SuffixOf(small, Without(large, d))
  {
    KeepSuffix(small, large, (x: Item) => x.digest != d);
    KeepAll(small, (x: Item) => x.digest != d);
  }

  /** LRU drops the head of an overflowing list. */
  lemma DropHead(strict: bool, l: Recency)
    requires l != [] && Ordered(strict, l)
    ensures Without(l, l[0].digest) == l[1..]
  {
    forall x | x in l[1..] ensures x.digest != l[0].digest {
      var i :| 0 <= i < |l[1..]| && l[1..][i] == x;
      assert l[i + 1] == x;
    }
    KeepAll(l[1..], (x: Item) => x.digest != l[0].digest);
  }

  function Step(max: nat, threshold: nat, l: Recency, op: Op): Recency {
    Apply(max, threshold, l, Lru(max, l, op)).0
  }

  function Appended(l: Recency, op: Op): Recency
    requires op.Use? && op.built.Some?
  {
    l + [Item(op.digest, ClientEntry(op.built.value, op.credKeys, op.now))]
  }

  lemma MissStep(max: nat, threshold: nat, l: Recency, op: Op)
    requires op.Use? && op.built.Some? && FindEntry(l, op.digest).None?
    requires Ordered(true, Appended(l, op))
    ensures Step(max, threshold, l, op) == if |l| + 1 > max then Appended(l, op)[1..] else Appended(l, op)
  {
    if |l| + 1 > max {
      DropHead(true, Appended(l, op));
    }
  }

  lemma HitStep(max: nat, threshold: nat, l: Recency, op: Op)
    requires op.Use? && FindEntry(l, op.digest).Some?
    ensures Step(max, threshold, l, op) == Without(l, op.digest)
              + [Item(op.digest, FindEntry(l, op.digest).value.(lastUsed := op.now))]
  {
  }

  lemma SuffixEntry(small: Recency, large: Recency, d: CredDigest)
    requires SuffixOf(small, large) && FindEntry(small, d).Some?
    ensures exists y :: y in large && y.digest == d
                        && y.entry.credKeys == FindEntry(small, d).value.credKeys
  {
    var i :| 0 <= i < |small| && small[i] == Item(d, FindEntry(small, d).value);
    assert SameUse(small[i], large[|large| - |small|..][i]);
    assert large[|large| - |small| + i] in large;
  }

  lemma HitKeepsSuffix(
    keysOf: CredDigest -> seq<CredKey>, m: nat, n: nat, threshold: nat, small: Recency, large: Recency, op: Op)
    requires SuffixOf(small, large) && KeyedBy(keysOf, large)
    requires op.Use? && FindEntry(small, op.digest).Some?
    ensures SuffixOf(Step(m, threshold, small, op), Step(n, threshold, large, op))
  {
    var d := op.digest;
    SuffixEntry(small, large, d);
    KeepSuffix(small, large, (x: Item) => x.digest != d);
    AppendSuffix(Without(small, d), Without(large, d),
                 Item(d, FindEntry(small, d).value.(lastUsed := op.now)),
                 Item(d, FindEntry(large, d).value.(lastUsed := op.now)));
  }

  lemma HalfMissKeepsSuffix(
    keysOf: CredDigest -> seq<CredKey>, m: nat, n: nat, threshold: nat, small: Recency, large: Recency, op: Op)
    requires SuffixOf(small, large) && KeyedBy(keysOf, large)
    requires op.Use? && Comparable(keysOf, op)
    requires FindEntry(small, op.digest).None? && Ordered(true, Appended(small, op))
    requires FindEntry(large, op.digest).Some?
    ensures SuffixOf(Step(m, threshold, small, op), Step(n, threshold, large, op))
  {
    var d := op.digest;
    var x := Item(d, ClientEntry(op.built.value, op.credKeys, op.now));
    var y := Item(d, FindEntry(large, d).value.(lastUsed := op.now));
    assert y.entry.credKeys == keysOf(d);
    MissStep(m, threshold, small, op);
    WithoutSuffix(small, large, d);
    AppendSuffix(small, Without(large, d), x, y);
    HitStep(n, threshold, large, op);
    TailSuffix(small + [x], Without(large, d) + [y], |small| + 1 > m, false);
  }

  /** Dropping heads keeps a suffix, unless only the larger list drops and both are as long. */
  lemma TailSuffix(a: Recency, b: Recency, dropA: bool, dropB: bool)
    requires SuffixOf(a, b) && a != [] && (dropB && !dropA ==> |a| < |b|)
    ensures SuffixOf(if dropA then a[1..] else a, if dropB then b[1..] else b)
  {
    var n := |b| - |a|;
    assert b[n..][1..] == b[n + 1..];
    if dropB && !dropA {
      assert b[1..][n - 1..] == b[n..];
    } else if dropB {
      assert b[1..][n..] == b[n + 1..];
    }
  }

  lemma MissKeepsSuffix(m: nat, n: nat, threshold: nat, small: Recency, large: Recency, op: Op)
    requires m <= n && SuffixOf(small, large) && op.Use? && op.built.Some?
    requires FindEntry(small, op.digest).None? && Ordered(true, Appended(small, op))
    requires FindEntry(large, op.digest).None? && Ordered(true, Appended(large, op))
    ensures SuffixOf(Step(m, threshold, small, op), Step(n, threshold, large, op))
  {
    MissStep(m, threshold, small, op);
    MissStep(n, threshold, large, op);
    var newest := Item(op.digest, ClientEntry(op.built.value, op.credKeys, op.now));
    AppendSuffix(small, large, newest, newest);
    TailSuffix(Appended(small, op), Appended(large, op), |small| + 1 > m, |large| + 1 > n);
  }

  lemma UseKeepsSuffix(
    keysOf: CredDigest -> seq<CredKey>, m: nat, n: nat, threshold: nat, small: Recency, large: Recency, op: Op)
    requires m <= n && SuffixOf(small, large) && KeyedBy(keysOf, large)
    requires op.Use? && Comparable(keysOf, op)
    requires FindEntry(small, op.digest).None? ==> Ordered(true, Appended(small, op))
    requires FindEntry(large, op.digest).None? ==> Ordered(true, Appended(large, op))
    ensures SuffixOf(Step(m, threshold, small, op), Step(n, threshold, large, op))
  {
    if FindEntry(small, op.digest).Some? {
      HitKeepsSuffix(keysOf, m, n, threshold, small, large, op);
    } else if FindEntry(large, op.digest).Some? {
      HalfMissKeepsSuffix(keysOf, m, n, threshold, small, large, op);
    } else {
      MissKeepsSuffix(m, n, threshold, small, large, op);
    }
  }

  /** What a step does to the keys and to the order, for the next step. */
  lemma StepKeepsKeys(keysOf: CredDigest -> seq<CredKey>, max: nat, threshold: nat, l: Recency, op: Op)
    requires KeyedBy(keysOf, l) && Comparable(keysOf, op)
    ensures KeyedBy(keysOf, Step(max, threshold, l, op))
  {
    match op
    case Use(_, d, _, _, _, _) =>
      KeepOrdered(true, l, (x: Item) => x.digest != d);
      if Overflows(max, l, op) {
        var v := Head(l, op).digest;
        KeepOrdered(true, Appended(l, op), (x: Item) => x.digest != v);
      }
    case Forget(scope) => KeepOrdered(true, l, (x: Item) => !Selected(scope, x.entry.credKeys));
    case Expire(now) => KeepOrdered(true, l, (x: Item) => !IsIdle(x.entry, now, threshold));
  }

  lemma StepKeepsSuffix(
    keysOf: CredDigest -> seq<CredKey>, m: nat, n: nat, threshold: nat, small: Recency, large: Recency, op: Op)
    requires m <= n && SuffixOf(small, large) && KeyedBy(keysOf, large) && Comparable(keysOf, op)
    requires op.Use? ==>
               && (FindEntry(small, op.digest).None? ==> Ordered(true, Appended(small, op)))
               && (FindEntry(large, op.digest).None? ==> Ordered(true, Appended(large, op)))
    ensures SuffixOf(Step(m, threshold, small, op), Step(n, threshold, large, op))
  {
    match op
    case Use(_, _, _, _, _, _) => UseKeepsSuffix(keysOf, m, n, threshold, small, large, op);
    case Forget(scope) => KeepSuffix(small, large, (x: Item) => !Selected(scope, x.entry.credKeys));
    case Expire(now) => KeepSuffix(small, large, (x: Item) => !IsIdle(x.entry, now, threshold));
  }

  // ----- on registries -----

  lemma RegistrySimInsert(
    max: nat, threshold: nat, s: RegistryState, l: Recency, op: Op, e: ClientEntry, v: CredDigest)
    requires Sim(true, s.clients, l) && op.Use? && op.built.Some? && op.digest !in s.clients
    requires e == ClientEntry(op.built.value, op.credKeys, op.now)
    requires forall d :: d in s.clients ==> s.clients[d].lastUsed < op.now
    requires |s.clients| + 1 > max ==> IsOldest(s.clients[op.digest := e], v)
    ensures Sim(true, Admit(s, max, op.digest, e, v).clients, Step(max, threshold, l, op))
    ensures Ordered(true, Appended(l, op))
  {
    SimFind(true, s.clients, l, op.digest);
    SimAppend(true, s.clients, l, op.digest, e);
    SimInsert(true, max, threshold, s, l, op.(victim := v));
    VictimIrrelevant(max, threshold, l, op, v);
  }

  /** The LRU step does not look at the victim the operation names. */
  lemma VictimIrrelevant(max: nat, threshold: nat, l: Recency, op: Op, v: CredDigest)
    requires op.Use? && op.built.Some? && FindEntry(l, op.digest).None?
    requires VictimOk(true, max, l, op.(victim := v))
    ensures Step(max, threshold, l, op) == Apply(max, threshold, l, op.(victim := v)).0
  {
  }

  /** A sequential registry operation at a fresh time is the list operation with the LRU victim. */
  lemma RegistrySim(max: nat, threshold: nat, s: RegistryState, l: Recency, op: Op, s': RegistryState)
    requires Sim(true, s.clients, l) && RegistryStep(max, threshold, s, op, s')
    requires op.Use? ==> op.built.Some? && forall d :: d in s.clients ==> s.clients[d].lastUsed < op.now
    ensures Sim(true, s'.clients, Step(max, threshold, l, op))
    ensures op.Use? && FindEntry(l, op.digest).None? ==> Ordered(true, Appended(l, op))
  {
    match op
    case Use(_, d, _, _, now, _) =>
      SimFind(true, s.clients, l, d);
      if d in s.clients {
        SimUse(true, s.clients, l, d, now);
      } else {
        var e := ClientEntry(op.built.value, op.credKeys, now);
        var v :| s' == Admit(s, max, d, e, v) && (|s.clients| + 1 > max ==> IsOldest(s.clients[d := e], v));
        RegistrySimInsert(max, threshold, s, l, op, e, v);
      }
    case Forget(scope) => SimForget(true, s, l, scope);
    case Expire(now) => SimExpire(true, s, l, now, threshold);
  }

  ghost predicate Related(
    keysOf: CredDigest -> seq<CredKey>, a: RegistryState, b: RegistryState, small: Recency, large: Recency)
  {
    && Sim(true, a.clients, small) && Sim(true, b.clients, large)
    && SuffixOf(small, large) && KeyedBy(keysOf, large)
  }

  lemma RelatedStep(
    keysOf: CredDigest -> seq<CredKey>, m: nat, n: nat, threshold: nat, op: Op,
    a: RegistryState, b: RegistryState, a': RegistryState, b': RegistryState, small: Recency, large: Recency)
    requires m <= n && Comparable(keysOf, op) && Related(keysOf, a, b, small, large)
    requires RegistryStep(m, threshold, a, op, a') && RegistryStep(n, threshold, b, op, b')
    requires op.Use? ==> forall d :: d in a.clients ==> a.clients[d].lastUsed < op.now
    requires op.Use? ==> forall d :: d in b.clients ==> b.clients[d].lastUsed < op.now
    ensures Related(keysOf, a', b', Step(m, threshold, small, op), Step(n, threshold, large, op))
  {
    RegistrySim(m, threshold, a, small, op, a');
    RegistrySim(n, threshold, b, large, op, b');
    StepKeepsSuffix(keysOf, m, n, threshold, small, large, op);
    StepKeepsKeys(keysOf, n, threshold, large, op);
  }

  lemma TracesNext(
    keysOf: CredDigest -> seq<CredKey>, m: nat, n: nat, threshold: nat, ops: seq<Op>,
    a: seq<RegistryState>, b: seq<RegistryState>, k: nat, before: Recency, beforeLarge: Recency)
    returns (small: Recency, large: Recency)
    requires m <= n && k < |ops| && StrictTimes(ops) && Comparable(keysOf, ops[k])
    requires Trace(m, threshold, ops, a) && Trace(n, threshold, ops, b)
    requires Related(keysOf, a[k], b[k], before, beforeLarge)
    ensures Related(keysOf, a[k + 1], b[k + 1], small, large)
  {
    TraceStamps(m, threshold, ops, a, k);
    TraceStamps(n, threshold, ops, b, k);
    StampsOlder(a[k].clients, ops, k);
    StampsOlder(b[k].clients, ops, k);
    RelatedStep(keysOf, m, n, threshold, ops[k], a[k], b[k], a[k + 1], b[k + 1], before, beforeLarge);
    small, large := Step(m, threshold, before, ops[k]), Step(n, threshold, beforeLarge, ops[k]);
  }

  lemma RelatedEmpty(keysOf: CredDigest -> seq<CredKey>)
    ensures Related(keysOf, EMPTY, EMPTY, [], [])
  {
  }

  lemma {:induction false} TracesRelated(
    keysOf: CredDigest -> seq<CredKey>, m: nat, n: nat, threshold: nat, ops: seq<Op>,
    a: seq<RegistryState>, b: seq<RegistryState>, i: nat)
    returns (small: Recency, large: Recency)
    requires m <= n && i <= |ops| && StrictTimes(ops) && (forall op :: op in ops ==> Comparable(keysOf, op))
    requires Trace(m, threshold, ops, a) && Trace(n, threshold, ops, b)
    ensures Related(keysOf, a[i], b[i], small, large)
  {
    if i == 0 {
      RelatedEmpty(keysOf);
      small, large := [], [];
    } else {
      small, large := TracesRelated(keysOf, m, n, threshold, ops, a, b, i - 1);
      assert ops[i - 1] in ops;
      small, large := TracesNext(keysOf, m, n, threshold, ops, a, b, i - 1, small, large);
    }
  }
}
