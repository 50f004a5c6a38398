/**
 The per-credential client registry. The functions say what each locked section does to the
 registry's value; the class does it, with the source's loops and the source's arbitrary choice
 among the entries of minimal stamp, and is proved against the functions.
 */
module Registry {
  import opened Base

  /** The 32 bytes of a digest, read as a number. */
  type CredDigest = nat
  /** A plugin id and a target. */
  type CredKey = (string, string)
  type Address = nat

  /** What a client is built from: the resolved URL and the resolved headers by name. */
  datatype Bundle = Bundle(url: string, headers: seq<(string, string)>)

  /** The arguments of one `get_or_build`. */
  datatype Call = Call(digest: CredDigest, credKeys: seq<CredKey>, bundle: Bundle)

  /**
   A shared client handle. A call builds at most once, so equal values are the same allocation.
   `resolved` is the step of the run at which that call's credentials were read, and `began` the
   one at which it missed.
   */
  datatype Client = Client(builder: nat, resolved: nat, began: nat, call: Call, address: Address)

  datatype ClientEntry = ClientEntry(client: Client, credKeys: seq<CredKey>, lastUsed: nat)

  type Clients = map<CredDigest, ClientEntry>

  /** The map and the counters the sections report to. */
  datatype RegistryState = RegistryState(
    clients: Clients, inserts: nat, lru: nat, revoked: nat, rotated: nat, idle: nat)

  const EMPTY := RegistryState(map[], 0, 0, 0, 0, 0)

  const DEFAULT_MAX_ENTRIES: nat := 256
  const DEFAULT_IDLE_MILLIS: nat := 15 * 60 * 1000

  /** `idle_eviction.as_millis() as u64`. */
  function IdleThreshold(idleMillis: nat): nat {
    idleMillis % 0x1_0000_0000_0000_0000
  }

  /** Which entries an eviction is after: those of one credential, or all of them. */
  datatype Scope = Credential(key: CredKey) | Everything

  predicate Selected(scope: Scope, credKeys: seq<CredKey>) {
    scope.Everything? || scope.key in credKeys
  }

  predicate IsIdle(e: ClientEntry, now: nat, threshold: nat) {
    (if now >= e.lastUsed then now - e.lastUsed else 0) > threshold
  }

  predicate IsOldest(m: Clients, victim: CredDigest) {
    victim in m && forall d :: d in m ==> m[victim].lastUsed <= m[d].lastUsed
  }

  function Touched(m: Clients, d: CredDigest, now: nat): Clients
    requires d in m
  {
    m[d := m[d].(lastUsed := now)]
  }

  function Touch(s: RegistryState, d: CredDigest, now: nat): RegistryState
    requires d in s.clients
  {
    s.(clients := Touched(s.clients, d, now))
  }

  /** Insert an entry; over capacity, drop `victim`. */
  function Admit(s: RegistryState, max: nat, d: CredDigest, e: ClientEntry, victim: CredDigest): RegistryState {
    var m := s.clients[d := e];
    if |m| > max then s.(clients := m - {victim}, inserts := s.inserts + 1, lru := s.lru + 1)
    else s.(clients := m, inserts := s.inserts + 1)
  }

  function Kept(m: Clients, scope: Scope): Clients {
    map d | d in m && !Selected(scope, m[d].credKeys) :: m[d]
  }

  function Evict(s: RegistryState, scope: Scope): RegistryState {
    var kept := Kept(s.clients, scope);
    KeptSize(s.clients, scope);
    var count := |s.clients| - |kept|;
    if scope.Everything? then s.(clients := kept, rotated := s.rotated + count)
    else s.(clients := kept, revoked := s.revoked + count)
  }

  function Fresh(m: Clients, now: nat, threshold: nat): Clients {
    map d | d in m && !IsIdle(m[d], now, threshold) :: m[d]
  }

  function Sweep(s: RegistryState, now: nat, threshold: nat): RegistryState {
    var kept := Fresh(s.clients, now, threshold);
    FreshSize(s.clients, now, threshold);
    s.(clients := kept, idle := s.idle + |s.clients| - |kept|)
  }

  /**
   What one undisturbed `get_or_build` does and answers: a hit stamps the entry, a failed build
   changes nothing, and a built client is inserted, at the cost of an oldest entry over capacity.
   */
  ghost predicate Served(
    s: RegistryState, max: nat, d: CredDigest, credKeys: seq<CredKey>, built: Option<Client>,
    now: nat, later: nat, s': RegistryState, r: Option<Client>)
  {
    if d in s.clients then r == Some(s.clients[d].client) && s' == Touch(s, d, now)
    else if built.None? then r == None && s' == s
    else
      r == built && Admitted(s, max, d, ClientEntry(built.value, credKeys, later), s')
  }

  /** `e` is inserted under `d`, at the cost of an entry of minimal stamp if over capacity. */
  ghost predicate Admitted(s: RegistryState, max: nat, d: CredDigest, e: ClientEntry, s': RegistryState) {
    exists v :: s' == Admit(s, max, d, e, v) && (|s.clients| + 1 > max ==> IsOldest(s.clients[d := e], v))
  }

  lemma SubmapSize(big: Clients, small: Clients)
    requires small.Keys <= big.Keys
    ensures |small| <= |big|
    ensures |big.Keys - small.Keys| == |big| - |small|
  {
    assert big.Keys == small.Keys + (big.Keys - small.Keys);
  }

  lemma KeptSize(m: Clients, scope: Scope)
    ensures |Kept(m, scope)| <= |m|
  {
    SubmapSize(m, Kept(m, scope));
  }

  lemma FreshSize(m: Clients, now: nat, threshold: nat)
    ensures |Fresh(m, now, threshold)| <= |m|
  {
    SubmapSize(m, Fresh(m, now, threshold));
  }

  lemma KeptIs(m: Clients, scope: Scope, toDrop: set<CredDigest>)
    requires toDrop == set d | d in m && Selected(scope, m[d].credKeys)
    ensures m - toDrop == Kept(m, scope) && m.Keys - Kept(m, scope).Keys == toDrop
    ensures |toDrop| == |m| - |Kept(m, scope)|
  {
    SubmapSize(m, Kept(m, scope));
    assert m.Keys - Kept(m, scope).Keys == toDrop;
  }

  lemma FreshIs(m: Clients, now: nat, threshold: nat, toDrop: set<CredDigest>)
    requires toDrop == set d | d in m && IsIdle(m[d], now, threshold)
    ensures m - toDrop == Fresh(m, now, threshold) && m.Keys - Fresh(m, now, threshold).Keys == toDrop
    ensures |toDrop| == |m| - |Fresh(m, now, threshold)|
  {
    SubmapSize(m, Fresh(m, now, threshold));
    assert m.Keys - Fresh(m, now, threshold).Keys == toDrop;
  }

  lemma FreshKeeps(m: Clients, now: nat, threshold: nat)
    requires forall d :: d in m ==> m[d].lastUsed <= now
    ensures forall d :: d in m ==> (d in Fresh(m, now, threshold) <==> now - m[d].lastUsed <= threshold)
  {
  }

  lemma SweepExactly(m: Clients, now: nat, idleMillis: nat)
    requires forall d :: d in m ==> m[d].lastUsed <= now
    ensures var kept := Fresh(m, now, IdleThreshold(idleMillis));
      && (forall d :: d in m ==> (d in kept <==> now - m[d].lastUsed <= IdleThreshold(idleMillis)))
      && (idleMillis < 0x1_0000_0000_0000_0000 ==>
            forall d :: d in m ==> (d in kept <==> now - m[d].lastUsed <= idleMillis))
  {
    FreshKeeps(m, now, IdleThreshold(idleMillis));
  }

  lemma {:induction false} OldestExists(m: Clients)
    requires m != map[]
    ensures exists v :: IsOldest(m, v)
  {
    var d :| d in m;
    var rest := m - {d};
    assert forall k :: k in m <==> k == d || k in rest;
    assert forall k :: k in rest ==> rest[k] == m[k];
    if rest == map[] {
      assert IsOldest(m, d);
    } else {
      OldestExists(rest);
      var v :| IsOldest(rest, v);
      if m[d].lastUsed <= m[v].lastUsed {
        assert IsOldest(m, d);
      } else {
        assert IsOldest(m, v);
      }
    }
  }

  /** Inserts are the entries held plus the entries each counter accounts for. */
  predicate Conserved(s: RegistryState) {
    s.inserts == |s.clients| + s.lru + s.revoked + s.rotated + s.idle
  }

  lemma EvictionsConserve(s: RegistryState, scope: Scope, now: nat, threshold: nat)
    requires Conserved(s)
    ensures Conserved(Evict(s, scope)) && Conserved(Sweep(s, now, threshold))
  {
  }

  /** An insertion, with its eviction, keeps the bound and the count. */
  lemma InsertSize(s: RegistryState, max: nat, d: CredDigest, e: ClientEntry, victim: CredDigest)
    requires |s.clients| <= max && Conserved(s) && d !in s.clients
    requires |s.clients| + 1 > max ==> IsOldest(s.clients[d := e], victim)
    ensures |Admit(s, max, d, e, victim).clients| <= max && Conserved(Admit(s, max, d, e, victim))
    ensures |s.clients[d := e]| == |s.clients| + 1
  {
    var m := s.clients[d := e];
    assert m.Keys == s.clients.Keys + {d};
    if |m| > max {
      SubmapSize(m, m - {victim});
      assert m.Keys - (m - {victim}).Keys == {victim};
    }
  }

  lemma AdmitStamps(s: RegistryState, max: nat, d: CredDigest, e: ClientEntry, victim: CredDigest)
    requires forall k :: k in s.clients ==> s.clients[k].lastUsed <= e.lastUsed
    ensures forall k :: k in Admit(s, max, d, e, victim).clients ==>
              Admit(s, max, d, e, victim).clients[k].lastUsed <= e.lastUsed
  {
  }

  /**
   When the entry just inserted is safe. Stamps never exceed the clock; then every victim the
   scan may pick spares the fresh entry if and only if there is room, or an older stamp is held.
   */
  lemma FreshEntrySurvives(s: RegistryState, max: nat, d: CredDigest, e: ClientEntry)
    requires d !in s.clients
    requires forall k :: k in s.clients ==> s.clients[k].lastUsed <= e.lastUsed
    ensures (forall v :: IsOldest(s.clients[d := e], v) ==> d in Admit(s, max, d, e, v).clients)
       <==> (|s.clients| < max || exists k :: k in s.clients && s.clients[k].lastUsed < e.lastUsed)
  {
    var m := s.clients[d := e];
    if |s.clients| < max {
    } else if k :| k in s.clients && s.clients[k].lastUsed < e.lastUsed {
      assert forall v :: IsOldest(m, v) ==> m[v].lastUsed <= m[k].lastUsed;
    } else {
      assert IsOldest(m, d);
      assert d !in Admit(s, max, d, e, d).clients;
    }
  }

  class ClientRegistry {
    var clients: map<CredDigest, ClientEntry>
    const maxEntries: nat
    const idleMillis: nat
    /** Ghost mirrors of the metrics counters. */
    ghost var inserts: nat
    ghost var lru: nat
    ghost var revoked: nat
    ghost var rotated: nat
    ghost var idle: nat
    /** The last reading of the registry clock. */
    ghost var clock: nat

    ghost function View(): RegistryState
      reads this
    {
      RegistryState(clients, inserts, lru, revoked, rotated, idle)
    }

    ghost predicate Valid()
      reads this
    {
      && |clients| <= maxEntries
      && (forall d :: d in clients ==> clients[d].lastUsed <= clock)
      && Conserved(View())
    }

    constructor (maxEntries: nat := DEFAULT_MAX_ENTRIES, idleMillis: nat := DEFAULT_IDLE_MILLIS)
      ensures Valid() && View() == EMPTY
      ensures this.maxEntries == maxEntries && this.idleMillis == idleMillis && clock == 0
    {
      this.clients := map[];
      this.maxEntries := maxEntries;
      this.idleMillis := idleMillis;
      this.inserts, this.lru, this.revoked, this.rotated, this.idle := 0, 0, 0, 0, 0;
      this.clock := 0;
    }

    /** The first locked section of `get_or_build`. */
    method Lookup(digest: CredDigest, now: nat) returns (r: Option<Client>)
      requires Valid() && clock <= now
      modifies this
      ensures Valid() && clock == now
      ensures r.Some? <==> digest in old(clients)
      ensures r.Some? ==> r.value == old(clients)[digest].client
      ensures View() == if digest in old(clients) then Touch(old(View()), digest, now) else old(View())
    {
      r := None;
      if digest in clients {
        clients := clients[digest := clients[digest].(lastUsed := now)];
        r := Some(clients[digest].client);
      }
      clock := now;
    }

    /**
     The second locked section, with the client this call built. `victim` is the entry the scan
     for the minimal stamp picked, if it ran.
     */
    method Finish(digest: CredDigest, credKeys: seq<CredKey>, client: Client, now: nat)
      returns (r: Client, ghost victim: CredDigest)
      requires Valid() && clock <= now
      modifies this
      ensures Valid() && clock == now
      ensures digest in old(clients) ==>
                && r == old(clients)[digest].client
                && View() == Touch(old(View()), digest, now)
      ensures digest !in old(clients) ==>
                var e := ClientEntry(client, credKeys, now);
                && r == client
                && (|old(clients)| + 1 > maxEntries ==> IsOldest(old(clients)[digest := e], victim))
                && View() == Admit(old(View()), maxEntries, digest, e, victim)
    {
      ghost var before := View();
      ghost var e := ClientEntry(client, credKeys, now);
      clock := now;
      victim := digest;
      if digest in clients {
        clients := clients[digest := clients[digest].(lastUsed := now)];
        return clients[digest].client, digest;
      }
      clients := clients[digest := ClientEntry(client, credKeys, now)];
      inserts := inserts + 1;
      if |clients| > maxEntries {
        victim := DropOldest();
      }
      assert View() == Admit(before, maxEntries, digest, e, victim);
      InsertSize(before, maxEntries, digest, e, victim);
      AdmitStamps(before, maxEntries, digest, e, victim);
      r := client;
    }

    /** The eviction of an insertion that went over capacity: any entry of minimal stamp. */
    method DropOldest() returns (ghost victim: CredDigest)
      requires clients != map[]
      modifies this`clients, this`lru
      ensures IsOldest(old(clients), victim)
      ensures clients == old(clients) - {victim} && lru == old(lru) + 1
    {
      OldestExists(clients);
      var oldest :| IsOldest(clients, oldest);
      victim := oldest;
      clients := clients - {oldest};
      lru := lru + 1;
    }

    /** `get_or_build` when nobody else gets in between; `built` is what the build would return. */
    method GetOrBuild(digest: CredDigest, credKeys: seq<CredKey>, built: Option<Client>, now: nat, later: nat)
      returns (r: Option<Client>)
      requires Valid() && clock <= now <= later
      modifies this
      ensures Valid() && now <= clock <= later
      ensures Served(old(View()), maxEntries, digest, credKeys, built, now, later, View(), r)
      ensures digest in old(clients) ==>
                r == Some(old(clients)[digest].client) && View() == Touch(old(View()), digest, now)
      ensures digest !in old(clients) ==> r == built && (built.None? ==> View() == old(View()))
      ensures digest !in old(clients) && built.Some? ==>
                Admitted(old(View()), maxEntries, digest, ClientEntry(built.value, credKeys, later), View())
    {
      r := Lookup(digest, now);
      if r.None? && built.Some? {
        ghost var victim;
        var c;
        c, victim := Finish(digest, credKeys, built.value, later);
        r := Some(c);
      }
    }

    method EvictFor(pluginId: string, target: string) returns (count: nat)
      requires Valid()
      modifies this
      ensures Valid() && clock == old(clock)
      ensures View() == Evict(old(View()), Credential((pluginId, target)))
      ensures forall d :: d in old(clients) ==>
                (d in clients <==> (pluginId, target) !in old(clients)[d].credKeys)
      ensures count == |old(clients).Keys - clients.Keys|
    {
      var toDrop := set d | d in clients && (pluginId, target) in clients[d].credKeys;
      count := |toDrop|;
      KeptIs(clients, Credential((pluginId, target)), toDrop);
      RemoveAll(toDrop);
      revoked := revoked + count;
    }

    method EvictForSecret(secretRef: string) returns (count: nat)
      requires Valid()
      modifies this
      ensures Valid() && clock == old(clock)
      ensures View() == Evict(old(View()), Everything) && clients == map[]
      ensures count == |old(clients)|
    {
      count := |clients|;
      clients := map[];
      assert clients == Kept(old(clients), Everything);
      rotated := rotated + count;
    }

    method SweepIdle(now: nat) returns (count: nat)
      requires Valid() && clock <= now
      modifies this
      ensures Valid() && clock == now
      ensures View() == Sweep(old(View()), now, IdleThreshold(idleMillis))
      ensures forall d :: d in old(clients) ==>
                (d in clients <==> now - old(clients)[d].lastUsed <= IdleThreshold(idleMillis))
      ensures idleMillis < 0x1_0000_0000_0000_0000 ==> forall d :: d in old(clients) ==>
                (d in clients <==> now - old(clients)[d].lastUsed <= idleMillis)
      ensures count == |old(clients).Keys - clients.Keys|
    {
      var threshold := idleMillis % 0x1_0000_0000_0000_0000;
      var toDrop := set d | d in clients && IsIdle(clients[d], now, threshold);
      count := |toDrop|;
      FreshIs(clients, now, threshold, toDrop);
      SweepExactly(clients, now, idleMillis);
      RemoveAll(toDrop);
      idle := idle + count;
      clock := now;
    }

    /** The removal loop both evictions and the sweep end with. */
    method RemoveAll(toDrop: set<CredDigest>)
      modifies this`clients
      ensures clients == old(clients) - toDrop
    {
      var pending := toDrop;
      while pending != {}
        invariant pending <= toDrop
        invariant clients == old(clients) - (toDrop - pending)
        decreases |pending|
      {
        var d :| d in pending;
        clients := clients - {d};
        pending := pending - {d};
      }
    }
  }
}
