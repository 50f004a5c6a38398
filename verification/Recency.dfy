/**
 The cache the registry implements: a list of entries, least recently used first, on which a call
 is one atomic operation. `Sim` ties a registry map to a list.
 */
module Recency {
  import opened Base
  import opened Registry

  datatype Item = Item(digest: CredDigest, entry: ClientEntry)

  type Recency = seq<Item>

  datatype Op =
    | Use(id: nat, digest: CredDigest, credKeys: seq<CredKey>, built: Option<Client>, now: nat, victim: CredDigest)
    | Forget(scope: Scope)
    | Expire(now: nat)

  function Keep(l: Recency, keep: Item -> bool): Recency {
    if l == [] then [] else (if keep(l[0]) then [l[0]] else []) + Keep(l[1..], keep)
  }

  function Without(l: Recency, d: CredDigest): Recency {
    Keep(l, (x: Item) => x.digest != d)
  }

  function FindEntry(l: Recency, d: CredDigest): (r: Option<ClientEntry>)
    ensures r.Some? ==> Item(d, r.value) in l
    ensures r.None? ==> forall x :: x in l ==> x.digest != d
  {
    if l == [] then None
    else if l[0].digest == d then Some(l[0].entry)
    else FindEntry(l[1..], d)
  }

  /** An operation's new list and its answer. A full list loses the operation's victim. */
  function Apply(max: nat, threshold: nat, l: Recency, op: Op): (Recency, Option<Client>) {
    match op
    case Use(_, d, credKeys, built, now, victim) =>
      (match FindEntry(l, d)
       case Some(e) => (Without(l, d) + [Item(d, e.(lastUsed := now))], Some(e.client))
       case None =>
         if built.None? then (l, None)
         else
           var l' := l + [Item(d, ClientEntry(built.value, credKeys, now))];
           (if |l'| > max then Without(l', victim) else l', built))
    case Forget(scope) => (Keep(l, (x: Item) => !Selected(scope, x.entry.credKeys)), None)
    case Expire(now) => (Keep(l, (x: Item) => !IsIdle(x.entry, now, threshold)), None)
  }

  /** The item at the head of the list when the operation has to drop one. */
  function Head(l: Recency, op: Op): Item
    requires op.Use? && op.built.Some?
  {
    (l + [Item(op.digest, ClientEntry(op.built.value, op.credKeys, op.now))])[0]
  }

  predicate Overflows(max: nat, l: Recency, op: Op) {
    op.Use? && op.built.Some? && FindEntry(l, op.digest).None? && |l| + 1 > max
  }

  /** The same operation with the victim LRU prescribes. */
  function Lru(max: nat, l: Recency, op: Op): Op {
    if Overflows(max, l, op) then op.(victim := Head(l, op).digest) else op
  }

  /** Distinct digests, in the order of their stamps (strictly so when `strict`). */
  predicate Ordered(strict: bool, l: Recency) {
    forall i, j :: 0 <= i < j < |l| ==>
      && l[i].digest != l[j].digest
      && l[i].entry.lastUsed <= l[j].entry.lastUsed
      && (strict ==> l[i].entry.lastUsed < l[j].entry.lastUsed)
  }

  /** The list holds exactly the entries of the map. */
  ghost predicate Sim(strict: bool, m: Clients, l: Recency) {
    && Ordered(strict, l)
    && (forall x :: x in l ==> x.digest in m && m[x.digest] == x.entry)
    && (forall d :: d in m ==> Item(d, m[d]) in l)
  }

  /**
   The operation drops the head of the list when stamps are strictly ordered, and otherwise an
   item whose stamp ties with the head's.
   */
  ghost predicate VictimOk(strict: bool, max: nat, l: Recency, op: Op) {
    Overflows(max, l, op) ==>
      && (strict ==> op == Lru(max, l, op))
      && var l' := l + [Item(op.digest, ClientEntry(op.built.value, op.credKeys, op.now))];
         exists i :: 0 <= i < |l'| && l'[i].digest == op.victim
                     && l'[i].entry.lastUsed == l'[0].entry.lastUsed
  }

  lemma {:induction false} KeepOrdered(strict: bool, l: Recency, keep: Item -> bool)
    ensures forall x :: x in Keep(l, keep) <==> x in l && keep(x)
    ensures Ordered(strict, l) ==> Ordered(strict, Keep(l, keep))
  {
    if l != [] {
      KeepOrdered(strict, l[1..], keep);
      assert l == [l[0]] + l[1..];
      if Ordered(strict, l) {
        var rest := Keep(l[1..], keep);
        forall j | 0 <= j < |rest|
          ensures l[0].digest != rest[j].digest && l[0].entry.lastUsed <= rest[j].entry.lastUsed
          ensures strict ==> l[0].entry.lastUsed < rest[j].entry.lastUsed
        {
          assert rest[j] in l[1..];
          var i :| 0 <= i < |l[1..]| && l[1..][i] == rest[j];
          assert l[i + 1] == rest[j];
        }
      }
    }
  }

  function Digests(l: Recency): set<CredDigest> {
    if l == [] then {} else {l[0].digest} + Digests(l[1..])
  }

  lemma {:induction false} DigestsMember(l: Recency, d: CredDigest)
    ensures d in Digests(l) <==> exists x :: x in l && x.digest == d
  {
    if l != [] {
      DigestsMember(l[1..], d);
      assert l == [l[0]] + l[1..];
    }
  }

  lemma {:induction false} DigestsCount(strict: bool, l: Recency)
    requires Ordered(strict, l)
    ensures |Digests(l)| == |l|
  {
    if l != [] {
      DigestsCount(strict, l[1..]);
      DigestsMember(l[1..], l[0].digest);
    }
  }

  lemma SimSize(strict: bool, m: Clients, l: Recency)
    requires Sim(strict, m, l)
    ensures |l| == |m|
  {
    DigestsCount(strict, l);
    forall d ensures d in Digests(l) <==> d in m {
      DigestsMember(l, d);
      assert d in m ==> Item(d, m[d]) in l;
    }
    assert Digests(l) == m.Keys;
  }

  lemma SimFind(strict: bool, m: Clients, l: Recency, d: CredDigest)
    requires Sim(strict, m, l)
    ensures FindEntry(l, d) == if d in m then Some(m[d]) else None
  {
  }

  lemma SimKeep(strict: bool, m: Clients, l: Recency, keep: Item -> bool, m': Clients)
    requires Sim(strict, m, l)
    requires forall d :: d in m' <==> d in m && keep(Item(d, m[d]))
    requires forall d :: d in m' ==> m'[d] == m[d]
    ensures Sim(strict, m', Keep(l, keep))
  {
    KeepOrdered(strict, l, keep);
  }

  lemma SimAppend(strict: bool, m: Clients, l: Recency, d: CredDigest, e: ClientEntry)
    requires Sim(strict, m, l) && d !in m
    requires forall k :: k in m ==> m[k].lastUsed <= e.lastUsed && (strict ==> m[k].lastUsed < e.lastUsed)
    ensures Sim(strict, m[d := e], l + [Item(d, e)])
  {
    var l' := l + [Item(d, e)];
    var m' := m[d := e];
    forall k | k in m' ensures Item(k, m'[k]) in l' {
      if k == d { assert l'[|l|] == Item(d, e); } else { assert Item(k, m[k]) in l; }
    }
    forall i, j | 0 <= i < j < |l'|
      ensures l'[i].digest != l'[j].digest && l'[i].entry.lastUsed <= l'[j].entry.lastUsed
      ensures strict ==> l'[i].entry.lastUsed < l'[j].entry.lastUsed
    {
      assert l'[i] in l;
    }
  }

  lemma SimUse(strict: bool, m: Clients, l: Recency, d: CredDigest, now: nat)
    requires Sim(strict, m, l) && d in m
    requires forall k :: k in m ==> m[k].lastUsed <= now && (strict ==> m[k].lastUsed < now)
    ensures Sim(strict, Touched(m, d, now), Without(l, d) + [Item(d, m[d].(lastUsed := now))])
  {
    SimKeep(strict, m, l, (x: Item) => x.digest != d, m - {d});
    SimAppend(strict, m - {d}, Without(l, d), d, m[d].(lastUsed := now));
    assert (m - {d})[d := m[d].(lastUsed := now)] == Touched(m, d, now);
  }

  /** A hit on the registry is one operation on the list. */
  lemma SimHit(strict: bool, max: nat, threshold: nat, m: Clients, l: Recency, op: Op)
    requires Sim(strict, m, l) && op.Use? && op.digest in m
    requires forall k :: k in m ==> m[k].lastUsed <= op.now && (strict ==> m[k].lastUsed < op.now)
    ensures Sim(strict, Touched(m, op.digest, op.now), Apply(max, threshold, l, op).0)
    ensures Apply(max, threshold, l, op).1 == Some(m[op.digest].client)
    ensures VictimOk(strict, max, l, op)
  {
    SimFind(strict, m, l, op.digest);
    SimUse(strict, m, l, op.digest, op.now);
  }

  /** An oldest entry of the map sits in the block of the list that ties with the head. */
  lemma OldestIsFirst(strict: bool, m: Clients, l: Recency, victim: CredDigest)
    requires Sim(strict, m, l) && IsOldest(m, victim)
    ensures l != []
    ensures exists i :: 0 <= i < |l| && l[i].digest == victim && l[i].entry.lastUsed == l[0].entry.lastUsed
    ensures strict ==> l[0].digest == victim
  {
    assert Item(victim, m[victim]) in l;
    var i :| 0 <= i < |l| && l[i] == Item(victim, m[victim]);
    assert l[0] in l;
    assert m[victim].lastUsed <= m[l[0].digest].lastUsed;
  }

  /** One insertion into the registry, victim included, is one operation on the list. */
  lemma SimInsert(strict: bool, max: nat, threshold: nat, s: RegistryState, l: Recency, op: Op)
    requires Sim(strict, s.clients, l) && op.Use? && op.built.Some? && op.digest !in s.clients
    requires forall k :: k in s.clients ==>
               s.clients[k].lastUsed <= op.now && (strict ==> s.clients[k].lastUsed < op.now)
    requires var e := ClientEntry(op.built.value, op.credKeys, op.now);
      |s.clients| + 1 > max ==> IsOldest(s.clients[op.digest := e], op.victim)
    ensures var e := ClientEntry(op.built.value, op.credKeys, op.now);
      Sim(strict, Admit(s, max, op.digest, e, op.victim).clients, Apply(max, threshold, l, op).0)
    ensures Apply(max, threshold, l, op).1 == op.built
    ensures VictimOk(strict, max, l, op)
  {
    var e := ClientEntry(op.built.value, op.credKeys, op.now);
    var m := s.clients[op.digest := e];
    var l' := l + [Item(op.digest, e)];
    SimFind(strict, s.clients, l, op.digest);
    SimSize(strict, s.clients, l);
    SimAppend(strict, s.clients, l, op.digest, e);
    SimSize(strict, m, l');
    if |l'| > max {
      OldestIsFirst(strict, m, l', op.victim);
      SimKeep(strict, m, l', (x: Item) => x.digest != op.victim, m - {op.victim});
    }
  }

  lemma SimForget(strict: bool, s: RegistryState, l: Recency, scope: Scope)
    requires Sim(strict, s.clients, l)
    ensures Sim(strict, Evict(s, scope).clients, Keep(l, (x: Item) => !Selected(scope, x.entry.credKeys)))
  {
    SimKeep(strict, s.clients, l, (x: Item) => !Selected(scope, x.entry.credKeys), Kept(s.clients, scope));
  }

  lemma SimExpire(strict: bool, s: RegistryState, l: Recency, now: nat, threshold: nat)
    requires Sim(strict, s.clients, l)
    ensures Sim(strict, Sweep(s, now, threshold).clients, Keep(l, (x: Item) => !IsIdle(x.entry, now, threshold)))
  {
    SimKeep(strict, s.clients, l, (x: Item) => !IsIdle(x.entry, now, threshold), Fresh(s.clients, now, threshold));
  }
}
