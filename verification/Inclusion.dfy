/**
 LRU inclusion. Two registries are fed the same calls, evictions and sweeps; whatever the smaller
 one holds, the larger one holds with the same stamp and keys.
 */
module Inclusion {
  import opened Base
  import opened Registry
  import opened Recency

  /** One sequential operation on a registry of capacity `max`. */
  ghost predicate RegistryStep(max: nat, threshold: nat, s: RegistryState, op: Op, s': RegistryState) {
    match op
    case Use(_, d, credKeys, built, now, victim) =>
      var answer := if d in s.clients then Some(s.clients[d].client) else built;
      Served(s, max, d, credKeys, built, now, now, s', answer)
    case Forget(scope) => s' == Evict(s, scope)
    case Expire(now) => s' == Sweep(s, now, threshold)
  }

  ghost predicate Trace(max: nat, threshold: nat, ops: seq<Op>, trace: seq<RegistryState>) {
    && |trace| == |ops| + 1 && trace[0] == EMPTY
    && forall i :: 0 <= i < |ops| ==> RegistryStep(max, threshold, trace[i], ops[i], trace[i + 1])
  }

  /** The times of the calls strictly increase. */
  predicate StrictTimes(ops: seq<Op>) {
    forall i, j :: 0 <= i < j < |ops| && ops[i].Use? && ops[j].Use? ==> ops[i].now < ops[j].now
  }

  /** Every stamp held was written by one of the first `i` calls. */
  ghost predicate StampedBy(m: Clients, ops: seq<Op>, i: nat)
    requires i <= |ops|
  {
    forall d :: d in m ==> exists j :: 0 <= j < i && ops[j].Use? && ops[j].now == m[d].lastUsed
  }

  lemma StepStamps(max: nat, threshold: nat, s: RegistryState, ops: seq<Op>, i: nat, s': RegistryState)
    requires i < |ops| && StampedBy(s.clients, ops, i) && RegistryStep(max, threshold, s, ops[i], s')
    ensures StampedBy(s'.clients, ops, i + 1)
  {
    forall d | d in s'.clients
      ensures exists j :: 0 <= j < i + 1 && ops[j].Use? && ops[j].now == s'.clients[d].lastUsed
    {
      if d in s.clients && s'.clients[d] == s.clients[d] {
        var j :| 0 <= j < i && ops[j].Use? && ops[j].now == s.clients[d].lastUsed;
      } else {
        assert ops[i].Use? && ops[i].now == s'.clients[d].lastUsed;
      }
    }
  }

  lemma StampsOlder(m: Clients, ops: seq<Op>, i: nat)
    requires i < |ops| && StrictTimes(ops) && StampedBy(m, ops, i)
    ensures ops[i].Use? ==> forall d :: d in m ==> m[d].lastUsed < ops[i].now
  {
  }

  lemma {:induction false} TraceStamps(max: nat, threshold: nat, ops: seq<Op>, a: seq<RegistryState>, i: nat)
    requires i <= |ops| && Trace(max, threshold, ops, a)
    ensures StampedBy(a[i].clients, ops, i)
  {
    if i > 0 {
      TraceStamps(max, threshold, ops, a, i - 1);
      StepStamps(max, threshold, a[i - 1], ops, i - 1, a[i]);
    }
  }

  // ----- the invariant on the two maps -----

  /** What an operation that inserts needs for the comparison: its keys go with its digest. */
  predicate Keyed(keysOf: CredDigest -> seq<CredKey>, op: Op) {
    op.Use? && op.built.Some? ==> op.credKeys == keysOf(op.digest)
  }

  /** The entries of `a` are in `b`, with the same stamps and keys. */
  ghost predicate Within(a: Clients, b: Clients) {
    forall d :: d in a ==> d in b && a[d].lastUsed == b[d].lastUsed && a[d].credKeys == b[d].credKeys
  }

  ghost predicate Distinct(b: Clients) {
    forall d, e :: d in b && e in b && b[d].lastUsed == b[e].lastUsed ==> d == e
  }

  ghost predicate KeyedMap(keysOf: CredDigest -> seq<CredKey>, b: Clients) {
    forall d :: d in b ==> b[d].credKeys == keysOf(d)
  }

  /** The larger map holds at most `slack` entries more, so the smaller is full whenever it is. */
  ghost predicate Nested(keysOf: CredDigest -> seq<CredKey>, slack: nat, a: Clients, b: Clients) {
    Within(a, b) && Distinct(b) && KeyedMap(keysOf, b) && |b| <= |a| + slack
  }

  ghost predicate OlderThan(m: Clients, now: nat) {
    forall d :: d in m ==> m[d].lastUsed < now
  }

  lemma PutSize(m: Clients, d: CredDigest, e: ClientEntry)
    ensures |m[d := e]| == if d in m then |m| else |m| + 1
  {
    assert m[d := e].Keys == m.Keys + {d};
  }

  /** Both use `d` now, whether it was held or is new. */
  lemma PutBoth(
    keysOf: CredDigest -> seq<CredKey>, slack: nat, a: Clients, b: Clients, d: CredDigest,
    x: ClientEntry, y: ClientEntry)
    requires Nested(keysOf, slack, a, b) && OlderThan(b, y.lastUsed)
    requires x.lastUsed == y.lastUsed && x.credKeys == y.credKeys == keysOf(d)
    ensures Nested(keysOf, slack, a[d := x], b[d := y])
  {
    PutSize(a, d, x);
    PutSize(b, d, y);
  }

  /** Only the larger one holds `d`, and stamps it: a failed build in the smaller one. */
  lemma TouchLarger(
    keysOf: CredDigest -> seq<CredKey>, slack: nat, a: Clients, b: Clients, d: CredDigest, now: nat)
    requires Nested(keysOf, slack, a, b) && OlderThan(b, now) && d in b && d !in a
    ensures Nested(keysOf, slack, a, Touched(b, d, now))
  {
    PutSize(b, d, b[d].(lastUsed := now));
  }

  function Bounded(m: Clients, max: nat, victim: CredDigest): Clients {
    if |m| > max then m - {victim} else m
  }

  lemma DropSize(m: Clients, victim: CredDigest)
    requires victim in m
    ensures |m - {victim}| == |m| - 1
  {
    assert (m - {victim}).Keys == m.Keys - {victim};
  }

  /** A victim both hold is the same one: stamps are distinct, and both hold it as the oldest. */
  lemma SameVictim(a: Clients, b: Clients, u: CredDigest, v: CredDigest)
    requires Within(a, b) && Distinct(b) && IsOldest(a, u) && IsOldest(b, v) && v in a
    ensures u == v
  {
  }

  lemma DropBoth(
    keysOf: CredDigest -> seq<CredKey>, m: nat, n: nat, a: Clients, b: Clients, u: CredDigest, v: CredDigest)
    requires m <= n && Nested(keysOf, n - m, a, b) && |a| <= m + 1 && |b| <= n + 1
    requires |a| > m ==> IsOldest(a, u)
    requires |b| > n ==> IsOldest(b, v)
    ensures Nested(keysOf, n - m, Bounded(a, m, u), Bounded(b, n, v))
    ensures |Bounded(a, m, u)| <= m && |Bounded(b, n, v)| <= n
  {
    if |a| > m { DropSize(a, u); }
    if |b| > n {
      DropSize(b, v);
      if v in a { SameVictim(a, b, u, v); }
    }
  }

  /** Both lose exactly the entries that are not kept, which stamps and keys decide. */
  lemma FilterBoth(
    keysOf: CredDigest -> seq<CredKey>, slack: nat, a: Clients, b: Clients, a': Clients, b': Clients)
    requires Nested(keysOf, slack, a, b)
    requires forall d :: d in a' ==> d in a && a'[d] == a[d]
    requires forall d :: d in b' ==> d in b && b'[d] == b[d]
    requires forall d :: d in a ==> (d in a' <==> d in b')
    ensures Nested(keysOf, slack, a', b') && |a'| <= |a| && |b'| <= |b|
  {
    SubmapSize(a, a');
    SubmapSize(b, b');
    var gone, lost := b.Keys - b'.Keys, a.Keys - a'.Keys;
    assert lost <= gone;
    SubsetSize(lost, gone);
  }

  lemma SubsetSize(small: set<CredDigest>, large: set<CredDigest>)
    requires small <= large
    ensures |small| <= |large|
  {
    assert large == small + (large - small);
  }

  // ----- what each operation keeps -----

  ghost predicate Pair(
    keysOf: CredDigest -> seq<CredKey>, m: nat, n: nat, a: RegistryState, b: RegistryState)
    requires m <= n
  {
    Nested(keysOf, n - m, a.clients, b.clients) && |a.clients| <= m && |b.clients| <= n
  }

  lemma UseKeepsPair(
    keysOf: CredDigest -> seq<CredKey>, m: nat, n: nat, threshold: nat, op: Op,
    a: RegistryState, b: RegistryState, a': RegistryState, b': RegistryState)
    requires m <= n && op.Use? && Keyed(keysOf, op) && Pair(keysOf, m, n, a, b)
    requires RegistryStep(m, threshold, a, op, a') && RegistryStep(n, threshold, b, op, b')
    requires OlderThan(b.clients, op.now)
    ensures Pair(keysOf, m, n, a', b')
  {
    var d, now := op.digest, op.now;
    if d in a.clients {
      PutBoth(keysOf, n - m, a.clients, b.clients, d,
              a.clients[d].(lastUsed := now), b.clients[d].(lastUsed := now));
      PutSize(a.clients, d, a.clients[d].(lastUsed := now));
      PutSize(b.clients, d, b.clients[d].(lastUsed := now));
    } else if op.built.None? {
      if d in b.clients {
        TouchLarger(keysOf, n - m, a.clients, b.clients, d, now);
        PutSize(b.clients, d, b.clients[d].(lastUsed := now));
      }
    } else {
      MissKeepsPair(keysOf, m, n, threshold, op, a, b, a', b');
    }
  }

  lemma MissKeepsPair(
    keysOf: CredDigest -> seq<CredKey>, m: nat, n: nat, threshold: nat, op: Op,
    a: RegistryState, b: RegistryState, a': RegistryState, b': RegistryState)
    requires m <= n && op.Use? && op.built.Some? && Keyed(keysOf, op) && Pair(keysOf, m, n, a, b)
    requires RegistryStep(m, threshold, a, op, a') && RegistryStep(n, threshold, b, op, b')
    requires OlderThan(b.clients, op.now) && op.digest !in a.clients
    ensures Pair(keysOf, m, n, a', b')
  {
    var d, e := op.digest, ClientEntry(op.built.value, op.credKeys, op.now);
    var y := if d in b.clients then b.clients[d].(lastUsed := op.now) else e;
    var a1, b1 := a.clients[d := e], b.clients[d := y];
    PutBoth(keysOf, n - m, a.clients, b.clients, d, e, y);
    PutSize(a.clients, d, e);
    PutSize(b.clients, d, y);
    var u := Dropped(m, threshold, op, a, a');
    var v := d;
    if d !in b.clients { v := Dropped(n, threshold, op, b, b'); }
    DropBoth(keysOf, m, n, a1, b1, u, v);
  }

  /** The victim of an insertion, and what is left. */
  lemma Dropped(max: nat, threshold: nat, op: Op, s: RegistryState, s': RegistryState) returns (v: CredDigest)
    requires op.Use? && op.built.Some? && op.digest !in s.clients && RegistryStep(max, threshold, s, op, s')
    ensures var m := s.clients[op.digest := ClientEntry(op.built.value, op.credKeys, op.now)];
      s'.clients == Bounded(m, max, v) && (|m| > max ==> IsOldest(m, v))
  {
    var e := ClientEntry(op.built.value, op.credKeys, op.now);
    PutSize(s.clients, op.digest, e);
    v :| s' == Admit(s, max, op.digest, e, v)
         && (|s.clients| + 1 > max ==> IsOldest(s.clients[op.digest := e], v));
  }

  lemma StepKeepsPair(
    keysOf: CredDigest -> seq<CredKey>, m: nat, n: nat, threshold: nat, op: Op,
    a: RegistryState, b: RegistryState, a': RegistryState, b': RegistryState)
    requires m <= n && Keyed(keysOf, op) && Pair(keysOf, m, n, a, b)
    requires RegistryStep(m, threshold, a, op, a') && RegistryStep(n, threshold, b, op, b')
    requires op.Use? ==> OlderThan(b.clients, op.now)
    ensures Pair(keysOf, m, n, a', b')
  {
    match op
    case Use(_, _, _, _, _, _) => UseKeepsPair(keysOf, m, n, threshold, op, a, b, a', b');
    case Forget(_) => FilterBoth(keysOf, n - m, a.clients, b.clients, a'.clients, b'.clients);
    case Expire(_) => FilterBoth(keysOf, n - m, a.clients, b.clients, a'.clients, b'.clients);
  }

  lemma {:induction false} TracesPair(
    keysOf: CredDigest -> seq<CredKey>, m: nat, n: nat, threshold: nat, ops: seq<Op>,
    a: seq<RegistryState>, b: seq<RegistryState>, i: nat)
    requires m <= n && i <= |ops| && StrictTimes(ops) && (forall op :: op in ops ==> Keyed(keysOf, op))
    requires Trace(m, threshold, ops, a) && Trace(n, threshold, ops, b)
    ensures Pair(keysOf, m, n, a[i], b[i])
  {
    if i > 0 {
      TracesPair(keysOf, m, n, threshold, ops, a, b, i - 1);
      TraceStamps(n, threshold, ops, b, i - 1);
      StampsOlder(b[i - 1].clients, ops, i - 1);
      assert ops[i - 1] in ops;
      StepKeepsPair(keysOf, m, n, threshold, ops[i - 1], a[i - 1], b[i - 1], a[i], b[i]);
    }
  }

  /**
   A larger `max_entries` never loses a hit: whatever the smaller registry holds, the larger one
   holds with the same stamp and keys, failed builds, revocations and sweeps included.
   */
  lemma LruInclusion(
    keysOf: CredDigest -> seq<CredKey>, m: nat, n: nat, threshold: nat, ops: seq<Op>,
    a: seq<RegistryState>, b: seq<RegistryState>, i: nat, d: CredDigest)
    requires m <= n && i <= |ops| && StrictTimes(ops) && (forall op :: op in ops ==> Keyed(keysOf, op))
    requires Trace(m, threshold, ops, a) && Trace(n, threshold, ops, b)
    requires d in a[i].clients
    ensures d in b[i].clients
    ensures a[i].clients[d].lastUsed == b[i].clients[d].lastUsed
    ensures a[i].clients[d].credKeys == b[i].clients[d].credKeys
  {
    TracesPair(keysOf, m, n, threshold, ops, a, b, i);
  }

  // ----- why the times must differ -----

  function TieOp(d: CredDigest): Op {
    Use(0, d, [], Some(Client(0, 0, 0, Call(d, [], Bundle("", [])), 0)), 0, d)
  }

  function TieEntry(d: CredDigest): ClientEntry {
    ClientEntry(TieOp(d).built.value, [], 0)
  }

  lemma TieStep(max: nat, s: RegistryState, d: CredDigest, v: CredDigest)
    requires d !in s.clients && forall k :: k in s.clients ==> s.clients[k].lastUsed == 0
    requires v in s.clients || v == d
    ensures RegistryStep(max, 0, s, TieOp(d), Admit(s, max, d, TieEntry(d), v))
  {
    assert IsOldest(s.clients[d := TieEntry(d)], v);
  }

  const TIE_OPS := [TieOp(1), TieOp(2), TieOp(3)]

  lemma TieTrace(max: nat, s1: RegistryState, s2: RegistryState, s3: RegistryState)
    requires RegistryStep(max, 0, EMPTY, TieOp(1), s1) && RegistryStep(max, 0, s1, TieOp(2), s2)
    requires RegistryStep(max, 0, s2, TieOp(3), s3)
    ensures Trace(max, 0, TIE_OPS, [EMPTY, s1, s2, s3])
  {
    var trace := [EMPTY, s1, s2, s3];
    assert TIE_OPS[0] == TieOp(1) && TIE_OPS[1] == TieOp(2) && TIE_OPS[2] == TieOp(3);
    assert trace[0] == EMPTY && trace[1] == s1 && trace[2] == s2 && trace[3] == s3;
  }

  /** The smaller registry keeps dropping the newest entry. */
  lemma SmallerKeepsFirst() returns (a: seq<RegistryState>)
    ensures Trace(1, 0, TIE_OPS, a) && 1 in a[3].clients
  {
    var a1 := Admit(EMPTY, 1, 1, TieEntry(1), 1);
    PutSize(map[], 1, TieEntry(1));
    TieStep(1, EMPTY, 1, 1);
    var a2 := Admit(a1, 1, 2, TieEntry(2), 2);
    PutSize(a1.clients, 2, TieEntry(2));
    TieStep(1, a1, 2, 2);
    var a3 := Admit(a2, 1, 3, TieEntry(3), 3);
    TieStep(1, a2, 3, 3);
    TieTrace(1, a1, a2, a3);
    a := [EMPTY, a1, a2, a3];
    assert a[3] == a3;
  }

  /** The larger one drops the first entry when it overflows. */
  lemma LargerDropsFirst() returns (b: seq<RegistryState>)
    ensures Trace(2, 0, TIE_OPS, b) && 1 !in b[3].clients
  {
    var b1 := Admit(EMPTY, 2, 1, TieEntry(1), 1);
    PutSize(map[], 1, TieEntry(1));
    TieStep(2, EMPTY, 1, 1);
    var b2 := Admit(b1, 2, 2, TieEntry(2), 1);
    PutSize(b1.clients, 2, TieEntry(2));
    TieStep(2, b1, 2, 1);
    var b3 := Admit(b2, 2, 3, TieEntry(3), 1);
    PutSize(b2.clients, 3, TieEntry(3));
    TieStep(2, b2, 3, 1);
    TieTrace(2, b1, b2, b3);
    b := [EMPTY, b1, b2, b3];
    assert b[3] == b3;
  }

  /**
   In one and the same millisecond the scan may drop different entries: three calls after which the
   smaller registry holds an entry the larger one has lost.
   */
  lemma TiesLoseHits() returns (a: seq<RegistryState>, b: seq<RegistryState>)
    ensures forall op :: op in TIE_OPS ==> Keyed((_: CredDigest) => [], op) && op.Use? && op.now == 0
    ensures Trace(1, 0, TIE_OPS, a) && Trace(2, 0, TIE_OPS, b)
    ensures 1 in a[3].clients && 1 !in b[3].clients
  {
    a := SmallerKeepsFirst();
    b := LargerDropsFirst();
  }
}
