/**
 The registry as a concurrent protocol. `get_or_build` is two locked sections with an unlocked
 build between them (the guard is dropped before the build), and a call's credentials are read
 before the first of them. So a call is an actor with phases, and any number of calls, evictions
 and sweeps interleave over a clock that never goes back. An action carries every choice the code
 leaves open: the time, the answers of the lookup, whether the build is accepted, and the victim
 among entries of minimal stamp.
 */
module Protocol {
  import opened Base
  import opened Registry
  import opened Connect

  datatype Config = Config(
    maxEntries: nat, threshold: nat,
    allowPrivate: bool, isPrivate: Address -> bool,
    secretRefs: seq<string>)

  datatype Phase =
    /** The credentials have been read, at step `resolved`; the registry has not been asked yet. */
    | Resolved(call: Call, resolved: nat)
    | Building(call: Call, resolved: nat, began: nat)
    | Built(call: Call, client: Client)
    | Failed(call: Call)
    /** `credKeys` are those of the entry the client came from; `at` is the returning step. */
    | Returned(call: Call, client: Client, credKeys: seq<CredKey>, at: nat)

  datatype Event = Inserted(digest: CredDigest) | Dropped(digests: set<CredDigest>)

  /** `born`, `lastSweep`, `log` and `step` only record the past. */
  datatype State = State(
    reg: RegistryState, born: map<CredDigest, nat>, clock: nat, lastSweep: nat,
    callers: map<nat, Phase>, log: seq<Event>, step: nat)

  datatype Action =
    | Resolve(id: nat, call: Call)
    | Lookup(id: nat, now: nat)
    | Build(id: nat, answers: seq<Address>, accepted: bool)
    | Finish(id: nat, now: nat, victim: CredDigest)
    | Revoke(key: CredKey)
    | Rotate(secretRef: string)
    | SweepIdle(now: nat)

  const INIT := State(EMPTY, map[], 0, 0, map[], [], 0)

  function FreshEntry(phase: Phase, now: nat): ClientEntry
    requires phase.Built?
  {
    ClientEntry(phase.client, phase.call.credKeys, now)
  }

  predicate Enabled(cfg: Config, s: State, a: Action) {
    match a
    case Resolve(id, _) => id !in s.callers
    case Lookup(id, now) => id in s.callers && s.callers[id].Resolved? && s.clock <= now
    case Build(id, _, _) => id in s.callers && s.callers[id].Building?
    case Finish(id, now, victim) =>
      && id in s.callers && s.callers[id].Built? && s.clock <= now
      && var d := s.callers[id].call.digest;
         (d !in s.reg.clients && |s.reg.clients| + 1 > cfg.maxEntries ==>
            IsOldest(s.reg.clients[d := FreshEntry(s.callers[id], now)], victim))
    case Revoke(_) => true
    case Rotate(_) => true
    case SweepIdle(now) => s.clock <= now
  }

  /** What `build_http_client` yields: an error, or a client tagged with its call and address. */
  function BuildClient(cfg: Config, id: nat, phase: Phase, answers: seq<Address>, accepted: bool): Option<Client>
    requires phase.Building?
  {
    match ChooseAddress(answers, cfg.allowPrivate, cfg.isPrivate)
    case Some(address) => 
      if accepted then Some(Client(id, phase.resolved, phase.began, phase.call, address)) else None
    case None => None
  }

  function WithRegistry(s: State, reg: RegistryState, events: seq<Event>): State {
    s.(reg := reg,
       born := map d | d in s.born && d in reg.clients :: s.born[d],
       log := s.log + events,
       step := s.step + 1)
  }

  function Hit(s: State, id: nat, call: Call, now: nat): State
    requires call.digest in s.reg.clients
  {
    var e := s.reg.clients[call.digest];
    WithRegistry(s, Touch(s.reg, call.digest, now), [])
      .(clock := now, callers := s.callers[id := Returned(call, e.client, e.credKeys, s.step)])
  }

  function InsertFresh(cfg: Config, s: State, id: nat, now: nat, victim: CredDigest): State
    requires id in s.callers && s.callers[id].Built?
  {
    var Built(call, client) := s.callers[id];
    var reg := Admit(s.reg, cfg.maxEntries, call.digest, FreshEntry(s.callers[id], now), victim);
    var full := |s.reg.clients[call.digest := FreshEntry(s.callers[id], now)]| > cfg.maxEntries;
    var events := [Inserted(call.digest)] + if full then [Dropped({victim})] else [];
    WithRegistry(s.(born := s.born[call.digest := s.step]), reg, events)
      .(clock := now, callers := s.callers[id := Returned(call, client, call.credKeys, s.step)])
  }

  function EvictScope(s: State, scope: Scope): State {
    var reg := Evict(s.reg, scope);
    WithRegistry(s, reg, [Dropped(s.reg.clients.Keys - reg.clients.Keys)])
  }

  /** What an eviction action is after; `None` for a rotation of a secret this profile does not use. */
  function ScopeOf(cfg: Config, a: Action): Option<Scope> {
    match a
    case Revoke(key) => Some(Credential(key))
    case Rotate(secretRef) => if secretRef in cfg.secretRefs then Some(Everything) else None
    case _ => None
  }

  function Next(cfg: Config, s: State, a: Action): State
    requires Enabled(cfg, s, a)
  {
    match a
    case Resolve(id, call) => s.(callers := s.callers[id := Resolved(call, s.step)], step := s.step + 1)
    case Lookup(id, now) =>
      var Resolved(call, resolved) := s.callers[id];
      if call.digest in s.reg.clients then Hit(s, id, call, now)
      else s.(clock := now, callers := s.callers[id := Building(call, resolved, s.step)], step := s.step + 1)
    case Build(id, answers, accepted) =>
      var phase := s.callers[id];
      var built := BuildClient(cfg, id, phase, answers, accepted);
      var phase' := if built.Some? then Built(phase.call, built.value) else Failed(phase.call);
      s.(callers := s.callers[id := phase'], step := s.step + 1)
    case Finish(id, now, victim) =>
      var call := s.callers[id].call;
      if call.digest in s.reg.clients then Hit(s, id, call, now)
      else InsertFresh(cfg, s, id, now, victim)
    case Revoke(key) => EvictScope(s, Credential(key))
    case Rotate(secretRef) =>
      if secretRef in cfg.secretRefs then EvictScope(s, Everything) else s.(step := s.step + 1)
    case SweepIdle(now) =>
      var reg := Sweep(s.reg, now, cfg.threshold);
      WithRegistry(s, reg, [Dropped(s.reg.clients.Keys - reg.clients.Keys)]).(clock := now, lastSweep := now)
  }

  predicate Legal(cfg: Config, s: State, run: seq<Action>)
    decreases |run|
  {
    run == [] || (Enabled(cfg, s, run[0]) && Legal(cfg, Next(cfg, s, run[0]), run[1..]))
  }

  function Run(cfg: Config, s: State, run: seq<Action>): State
    requires Legal(cfg, s, run)
    decreases |run|
  {
    if run == [] then s else Run(cfg, Next(cfg, s, run[0]), run[1..])
  }

  lemma {:induction false} RunAppend(cfg: Config, s: State, run: seq<Action>, more: seq<Action>)
    requires Legal(cfg, s, run)
    ensures Legal(cfg, s, run + more) <==> Legal(cfg, Run(cfg, s, run), more)
    ensures Legal(cfg, s, run + more) ==> Run(cfg, s, run + more) == Run(cfg, Run(cfg, s, run), more)
    decreases |run|
  {
    if run == [] {
      assert run + more == more;
    } else {
      assert (run + more)[0] == run[0] && (run + more)[1..] == run[1..] + more;
      RunAppend(cfg, Next(cfg, s, run[0]), run[1..], more);
    }
  }

  lemma {:induction false} LegalPrefix(cfg: Config, s: State, run: seq<Action>, more: seq<Action>)
    requires Legal(cfg, s, run + more)
    ensures Legal(cfg, s, run)
    decreases |run|
  {
    if run != [] {
      assert (run + more)[0] == run[0] && (run + more)[1..] == run[1..] + more;
      LegalPrefix(cfg, Next(cfg, s, run[0]), run[1..], more);
    }
  }

  // ----- what every step keeps -----

  /** A client that exists: tagged with a digest, built before now, pinned to an allowed address. */
  predicate ClientOk(cfg: Config, s: State, c: Client) {
    c.resolved < c.began < s.step && (cfg.allowPrivate || !cfg.isPrivate(c.address))
  }

  ghost predicate EntriesOk(cfg: Config, s: State) {
    forall d :: d in s.reg.clients ==>
      var e := s.reg.clients[d];
      && ClientOk(cfg, s, e.client) && e.client.call.digest == d && e.client.call.credKeys == e.credKeys
      && e.lastUsed <= s.clock && s.lastSweep <= e.lastUsed + cfg.threshold
  }

  ghost predicate BornOk(s: State) {
    && s.born.Keys == s.reg.clients.Keys
    && forall d :: d in s.born ==> s.reg.clients[d].client.began < s.born[d] < s.step
  }

  predicate PhaseOk(cfg: Config, s: State, id: nat, phase: Phase) {
    match phase
    case Resolved(_, resolved) => resolved < s.step
    case Building(_, resolved, began) => resolved < began < s.step
    case Built(call, client) => ClientOk(cfg, s, client) && client.call == call && client.builder == id
    case Failed(_) => true
    case Returned(call, client, credKeys, at) =>
      && ClientOk(cfg, s, client) && client.call.digest == call.digest
      && client.call.credKeys == credKeys && at < s.step
  }

  ghost predicate CallersOk(cfg: Config, s: State) {
    forall id :: id in s.callers ==> PhaseOk(cfg, s, id, s.callers[id])
  }

  /** Since an entry was inserted, every call with its digest has been given its client. */
  ghost predicate OneWinner(s: State) {
    forall id :: id in s.callers && s.callers[id].Returned? ==>
      var r := s.callers[id];
      r.call.digest in s.reg.clients && r.call.digest in s.born && s.born[r.call.digest] <= r.at ==>
        r.client == s.reg.clients[r.call.digest].client
  }

  ghost predicate Inv(cfg: Config, s: State) {
    && |s.reg.clients| <= cfg.maxEntries
    && Conserved(s.reg)
    && s.lastSweep <= s.clock
    && EntriesOk(cfg, s)
    && BornOk(s)
    && CallersOk(cfg, s)
    && OneWinner(s)
  }

  /** Only caller `id` moves, to a phase that is in order. */
  lemma OneCallerMoves(cfg: Config, s: State, s': State, id: nat)
    requires CallersOk(cfg, s) && s.step <= s'.step && id in s'.callers
    requires s'.callers == s.callers[id := s'.callers[id]]
    requires PhaseOk(cfg, s', id, s'.callers[id])
    ensures CallersOk(cfg, s')
  {
    forall i | i in s'.callers ensures PhaseOk(cfg, s', i, s'.callers[i]) {
      if i != id { assert PhaseOk(cfg, s, i, s.callers[i]); }
    }
  }

  lemma HitBorn(s: State, id: nat, call: Call, now: nat)
    requires BornOk(s) && call.digest in s.reg.clients
    ensures var s' := Hit(s, id, call, now);
      BornOk(s') && s'.reg.clients.Keys == s.reg.clients.Keys && s'.born == s.born
  {
    var s' := Hit(s, id, call, now);
    assert s'.reg.clients.Keys == s.reg.clients.Keys;
    assert s'.born == s.born;
  }

  lemma HitEntries(cfg: Config, s: State, id: nat, call: Call, now: nat)
    requires EntriesOk(cfg, s) && s.lastSweep <= s.clock && call.digest in s.reg.clients && s.clock <= now
    ensures EntriesOk(cfg, Hit(s, id, call, now))
  {
    var s' := Hit(s, id, call, now);
    forall d | d in s'.reg.clients
      ensures ClientOk(cfg, s', s'.reg.clients[d].client)
    {
      assert ClientOk(cfg, s, s.reg.clients[d].client);
    }
  }

  lemma HitWinner(cfg: Config, s: State, id: nat, call: Call, now: nat)
    requires BornOk(s) && OneWinner(s) && call.digest in s.reg.clients
    requires id in s.callers ==> !s.callers[id].Returned?
    ensures OneWinner(Hit(s, id, call, now))
  {
    var s' := Hit(s, id, call, now);
    forall i | i in s'.callers && s'.callers[i].Returned? && s'.callers[i].call.digest in s'.reg.clients
               && s'.callers[i].call.digest in s'.born && s'.born[s'.callers[i].call.digest] <= s'.callers[i].at
      ensures s'.callers[i].client == s'.reg.clients[s'.callers[i].call.digest].client
    {
      assert i != id ==> s'.callers[i] == s.callers[i];
    }
  }

  lemma HitKeeps(cfg: Config, s: State, id: nat, call: Call, now: nat)
    requires Inv(cfg, s) && call.digest in s.reg.clients && s.clock <= now
    requires id in s.callers ==> !s.callers[id].Returned?
    ensures Inv(cfg, Hit(s, id, call, now))
  {
    var s' := Hit(s, id, call, now);
    HitBorn(s, id, call, now);
    HitEntries(cfg, s, id, call, now);
    OneCallerMoves(cfg, s, s', id);
    HitWinner(cfg, s, id, call, now);
  }

  lemma InsertBorn(cfg: Config, s: State, id: nat, now: nat, victim: CredDigest)
    requires Inv(cfg, s) && Enabled(cfg, s, Finish(id, now, victim))
    requires s.callers[id].call.digest !in s.reg.clients
    ensures BornOk(InsertFresh(cfg, s, id, now, victim))
  {
    var s' := InsertFresh(cfg, s, id, now, victim);
    assert PhaseOk(cfg, s, id, s.callers[id]);
    assert s'.born.Keys == s'.reg.clients.Keys;
  }

  lemma InsertEntries(cfg: Config, s: State, id: nat, now: nat, victim: CredDigest)
    requires Inv(cfg, s) && Enabled(cfg, s, Finish(id, now, victim))
    requires s.callers[id].call.digest !in s.reg.clients
    ensures var s' := InsertFresh(cfg, s, id, now, victim);
      EntriesOk(cfg, s') && CallersOk(cfg, s')
  {
    var s' := InsertFresh(cfg, s, id, now, victim);
    assert PhaseOk(cfg, s, id, s.callers[id]);
    OneCallerMoves(cfg, s, s', id);
  }

  lemma InsertWinner(cfg: Config, s: State, id: nat, now: nat, victim: CredDigest)
    requires Inv(cfg, s) && Enabled(cfg, s, Finish(id, now, victim))
    requires s.callers[id].call.digest !in s.reg.clients
    ensures OneWinner(InsertFresh(cfg, s, id, now, victim))
  {
    var s' := InsertFresh(cfg, s, id, now, victim);
    var d := s.callers[id].call.digest;
    forall i | i in s'.callers && s'.callers[i].Returned? && s'.callers[i].call.digest in s'.reg.clients
               && s'.callers[i].call.digest in s'.born && s'.born[s'.callers[i].call.digest] <= s'.callers[i].at
      ensures s'.callers[i].client == s'.reg.clients[s'.callers[i].call.digest].client
    {
      if i != id {
        assert PhaseOk(cfg, s, i, s.callers[i]);
        assert s.callers[i].call.digest != d;
      }
    }
  }

  lemma InsertKeeps(cfg: Config, s: State, id: nat, now: nat, victim: CredDigest)
    requires Inv(cfg, s) && Enabled(cfg, s, Finish(id, now, victim))
    requires s.callers[id].call.digest !in s.reg.clients
    ensures Inv(cfg, InsertFresh(cfg, s, id, now, victim))
  {
    InsertSize(s.reg, cfg.maxEntries, s.callers[id].call.digest, FreshEntry(s.callers[id], now), victim);
    InsertBorn(cfg, s, id, now, victim);
    InsertEntries(cfg, s, id, now, victim);
    InsertWinner(cfg, s, id, now, victim);
  }

  lemma ShrinkKeeps(cfg: Config, s: State, reg: RegistryState, events: seq<Event>, clock: nat, lastSweep: nat)
    requires Inv(cfg, s) && Conserved(reg) && s.clock <= clock
    requires forall d :: d in reg.clients ==> d in s.reg.clients && reg.clients[d] == s.reg.clients[d]
    requires lastSweep <= clock
    requires forall d :: d in reg.clients ==> lastSweep <= reg.clients[d].lastUsed + cfg.threshold
    ensures Inv(cfg, WithRegistry(s, reg, events).(clock := clock, lastSweep := lastSweep))
  {
    ShrunkKeeps(cfg, s, WithRegistry(s, reg, events).(clock := clock, lastSweep := lastSweep));
  }

  /** A state with some of the entries, and the callers as they were. */
  lemma ShrunkKeeps(cfg: Config, s: State, s': State)
    requires Inv(cfg, s) && Conserved(s'.reg) && s.clock <= s'.clock && s.step <= s'.step
    requires s'.callers == s.callers && s'.lastSweep <= s'.clock
    requires forall d :: d in s'.reg.clients ==> d in s.reg.clients && s'.reg.clients[d] == s.reg.clients[d]
    requires s'.born == map d | d in s.born && d in s'.reg.clients :: s.born[d]
    requires forall d :: d in s'.reg.clients ==> s'.lastSweep <= s'.reg.clients[d].lastUsed + cfg.threshold
    ensures Inv(cfg, s')
  {
    SubmapSize(s.reg.clients, s'.reg.clients);
    ShrinkEntries(cfg, s, s');
    CallersStay(cfg, s, s');
    WinnersStay(s, s');
  }

  lemma ShrinkEntries(cfg: Config, s: State, s': State)
    requires EntriesOk(cfg, s) && BornOk(s) && s.clock <= s'.clock && s.step <= s'.step
    requires forall d :: d in s'.reg.clients ==> d in s.reg.clients && s'.reg.clients[d] == s.reg.clients[d]
    requires s'.born == map d | d in s.born && d in s'.reg.clients :: s.born[d]
    requires forall d :: d in s'.reg.clients ==> s'.lastSweep <= s'.reg.clients[d].lastUsed + cfg.threshold
    ensures EntriesOk(cfg, s') && BornOk(s')
  {
    assert s'.born.Keys == s'.reg.clients.Keys;
  }

  lemma CallersStay(cfg: Config, s: State, s': State)
    requires CallersOk(cfg, s) && s'.callers == s.callers && s.step <= s'.step
    ensures CallersOk(cfg, s')
  {
    forall i | i in s'.callers ensures PhaseOk(cfg, s', i, s'.callers[i]) {
      assert PhaseOk(cfg, s, i, s.callers[i]);
    }
  }

  lemma WinnersStay(s: State, s': State)
    requires OneWinner(s) && s'.callers == s.callers
    requires forall d :: d in s'.reg.clients ==> d in s.reg.clients && s'.reg.clients[d] == s.reg.clients[d]
    requires forall d :: d in s'.born ==> d in s.born && s'.born[d] == s.born[d]
    ensures OneWinner(s')
  {
  }

  /** A step that leaves the registry alone and changes one unreturned caller at most. */
  lemma QuietKeeps(cfg: Config, s: State, s': State)
    requires Inv(cfg, s)
    requires s' == s.(callers := s'.callers, clock := s'.clock, step := s.step + 1) && s.clock <= s'.clock
    requires forall i :: i in s'.callers ==>
               || (i in s.callers && s'.callers[i] == s.callers[i])
               || (!s'.callers[i].Returned? && PhaseOk(cfg, s', i, s'.callers[i]))
    ensures Inv(cfg, s')
  {
    forall i | i in s'.callers ensures PhaseOk(cfg, s', i, s'.callers[i]) {
      if i in s.callers { assert PhaseOk(cfg, s, i, s.callers[i]); }
    }
  }

  lemma EvictKeeps(cfg: Config, s: State, scope: Scope)
    requires Inv(cfg, s)
    ensures Inv(cfg, EvictScope(s, scope))
  {
    var reg := Evict(s.reg, scope);
    EvictionsConserve(s.reg, scope, s.clock, cfg.threshold);
    ShrinkKeeps(cfg, s, reg, [Dropped(s.reg.clients.Keys - reg.clients.Keys)], s.clock, s.lastSweep);
  }

  lemma SweepKeeps(cfg: Config, s: State, now: nat)
    requires Inv(cfg, s) && s.clock <= now
    ensures Inv(cfg, Next(cfg, s, SweepIdle(now)))
  {
    var reg := Sweep(s.reg, now, cfg.threshold);
    EvictionsConserve(s.reg, Everything, now, cfg.threshold);
    assert forall d :: d in reg.clients ==> now <= reg.clients[d].lastUsed + cfg.threshold;
    ShrinkKeeps(cfg, s, reg, [Dropped(s.reg.clients.Keys - reg.clients.Keys)], now, now);
  }

  lemma LookupKeeps(cfg: Config, s: State, id: nat, now: nat)
    requires Inv(cfg, s) && Enabled(cfg, s, Lookup(id, now))
    ensures Inv(cfg, Next(cfg, s, Lookup(id, now)))
  {
    assert PhaseOk(cfg, s, id, s.callers[id]);
    if s.callers[id].call.digest in s.reg.clients { HitKeeps(cfg, s, id, s.callers[id].call, now); }
    else { QuietKeeps(cfg, s, Next(cfg, s, Lookup(id, now))); }
  }

  lemma BuildKeeps(cfg: Config, s: State, id: nat, answers: seq<Address>, accepted: bool)
    requires Inv(cfg, s) && Enabled(cfg, s, Build(id, answers, accepted))
    ensures Inv(cfg, Next(cfg, s, Build(id, answers, accepted)))
  {
    assert PhaseOk(cfg, s, id, s.callers[id]);
    QuietKeeps(cfg, s, Next(cfg, s, Build(id, answers, accepted)));
  }

  lemma FinishKeeps(cfg: Config, s: State, id: nat, now: nat, victim: CredDigest)
    requires Inv(cfg, s) && Enabled(cfg, s, Finish(id, now, victim))
    ensures Inv(cfg, Next(cfg, s, Finish(id, now, victim)))
  {
    if s.callers[id].call.digest in s.reg.clients { HitKeeps(cfg, s, id, s.callers[id].call, now); }
    else { InsertKeeps(cfg, s, id, now, victim); }
  }

  lemma RotateKeeps(cfg: Config, s: State, secretRef: string)
    requires Inv(cfg, s)
    ensures Inv(cfg, Next(cfg, s, Rotate(secretRef)))
  {
    if secretRef in cfg.secretRefs { EvictKeeps(cfg, s, Everything); }
    else { QuietKeeps(cfg, s, Next(cfg, s, Rotate(secretRef))); }
  }

  lemma StepKeeps(cfg: Config, s: State, a: Action)
    requires Inv(cfg, s) && Enabled(cfg, s, a)
    ensures Inv(cfg, Next(cfg, s, a))
  {
    match a
    case Resolve(_, _) => QuietKeeps(cfg, s, Next(cfg, s, a));
    case Lookup(id, now) => LookupKeeps(cfg, s, id, now);
    case Build(id, answers, accepted) => BuildKeeps(cfg, s, id, answers, accepted);
    case Finish(id, now, victim) => FinishKeeps(cfg, s, id, now, victim);
    case Revoke(key) => EvictKeeps(cfg, s, Credential(key));
    case Rotate(secretRef) => RotateKeeps(cfg, s, secretRef);
    case SweepIdle(now) => SweepKeeps(cfg, s, now);
  }

  lemma {:induction false} RunKeeps(cfg: Config, s: State, run: seq<Action>)
    requires Inv(cfg, s) && Legal(cfg, s, run)
    ensures Inv(cfg, Run(cfg, s, run))
    ensures Run(cfg, s, run).step == s.step + |run|
    ensures s.clock <= Run(cfg, s, run).clock
    decreases |run|
  {
    if run != [] {
      StepKeeps(cfg, s, run[0]);
      RunKeeps(cfg, Next(cfg, s, run[0]), run[1..]);
    }
  }

  /** `run` is a run from the empty registry, and ends in `s`. */
  predicate Reaches(cfg: Config, run: seq<Action>, s: State) {
    Legal(cfg, INIT, run) && s == Run(cfg, INIT, run)
  }

  lemma InitInv(cfg: Config)
    ensures Inv(cfg, INIT)
  {
  }

  lemma ReachableInv(cfg: Config, run: seq<Action>, s: State)
    requires Reaches(cfg, run, s)
    ensures Inv(cfg, s) && s.step == |run|
  {
    InitInv(cfg);
    RunKeeps(cfg, INIT, run);
  }

  /** A step moves the caller it names, and no other. */
  lemma OthersStay(cfg: Config, s: State, a: Action, id: nat)
    requires Enabled(cfg, s, a) && id in Next(cfg, s, a).callers
    ensures (id in s.callers && Next(cfg, s, a).callers[id] == s.callers[id])
         || ((a.Resolve? || a.Lookup? || a.Build? || a.Finish?) && id == a.id)
  {
  }

  // ----- where entries come from -----

  /** The entry was there before, up to its stamp. */
  predicate EntryKept(s: State, s': State, d: CredDigest) {
    && d in s.reg.clients && d in s'.reg.clients
    && s'.reg.clients[d].client == s.reg.clients[d].client
    && s'.reg.clients[d].credKeys == s.reg.clients[d].credKeys
    && (d in s.born ==> d in s'.born && s'.born[d] == s.born[d])
  }

  /** The entry is the finishing call's own. */
  predicate EntryNew(s: State, s': State, a: Action, d: CredDigest) {
    && a.Finish? && a.id in s.callers && s.callers[a.id].Built?
    && d == s.callers[a.id].call.digest && d !in s.reg.clients && d in s'.reg.clients
    && s'.reg.clients[d].client == s.callers[a.id].client
    && s'.reg.clients[d].credKeys == s.callers[a.id].call.credKeys
    && d in s'.born && s'.born[d] == s.step
    && a.id in s'.callers && s'.callers[a.id].Returned?
  }

  lemma HitEntry(s: State, id: nat, call: Call, now: nat, d: CredDigest)
    requires call.digest in s.reg.clients && d in s.reg.clients
    ensures EntryKept(s, Hit(s, id, call, now), d)
  {
  }

  lemma InsertEntry(cfg: Config, s: State, id: nat, now: nat, victim: CredDigest, d: CredDigest)
    requires id in s.callers && s.callers[id].Built? && s.callers[id].call.digest !in s.reg.clients
    requires d in InsertFresh(cfg, s, id, now, victim).reg.clients
    ensures var s' := InsertFresh(cfg, s, id, now, victim);
      EntryKept(s, s', d) || EntryNew(s, s', Finish(id, now, victim), d)
  {
  }

  lemma EvictEntry(s: State, scope: Scope, d: CredDigest)
    requires d in EvictScope(s, scope).reg.clients
    ensures EntryKept(s, EvictScope(s, scope), d)
  {
  }

  lemma SweepEntry(cfg: Config, s: State, now: nat, d: CredDigest)
    requires s.clock <= now && d in Next(cfg, s, SweepIdle(now)).reg.clients
    ensures EntryKept(s, Next(cfg, s, SweepIdle(now)), d)
  {
  }

  /** An entry after a step was there before, or came from the finishing call. */
  lemma StepEntry(cfg: Config, s: State, a: Action, d: CredDigest)
    requires Enabled(cfg, s, a) && d in Next(cfg, s, a).reg.clients
    ensures EntryKept(s, Next(cfg, s, a), d) || EntryNew(s, Next(cfg, s, a), a, d)
  {
    match a
    case Resolve(_, _) =>
    case Lookup(id, now) =>
      if s.callers[id].call.digest in s.reg.clients { HitEntry(s, id, s.callers[id].call, now, d); }
    case Build(_, _, _) =>
    case Finish(id, now, victim) =>
      if s.callers[id].call.digest in s.reg.clients { HitEntry(s, id, s.callers[id].call, now, d); }
      else { InsertEntry(cfg, s, id, now, victim, d); }
    case Revoke(key) => EvictEntry(s, Credential(key), d);
    case Rotate(secretRef) => if secretRef in cfg.secretRefs { EvictEntry(s, Everything, d); }
    case SweepIdle(now) => SweepEntry(cfg, s, now, d);
  }

  // ----- the states a run goes through -----

  lemma OneStep(cfg: Config, s: State, a: Action)
    ensures Legal(cfg, s, [a]) <==> Enabled(cfg, s, a)
    ensures Enabled(cfg, s, a) ==> Run(cfg, s, [a]) == Next(cfg, s, a)
  {
    assert [a][1..] == [];
  }

  lemma StepOfRun(cfg: Config, s: State, front: seq<Action>, a: Action, rest: seq<Action>)
    requires Legal(cfg, s, front + [a] + rest)
    ensures Legal(cfg, s, front) && Legal(cfg, s, front + [a]) && Enabled(cfg, Run(cfg, s, front), a)
    ensures Run(cfg, s, front + [a]) == Next(cfg, Run(cfg, s, front), a)
  {
    LegalPrefix(cfg, s, front + [a], rest);
    LegalPrefix(cfg, s, front, [a]);
    RunAppend(cfg, s, front, [a]);
    OneStep(cfg, Run(cfg, s, front), a);
  }

  lemma PrefixLegal(cfg: Config, run: seq<Action>, k: nat)
    requires Legal(cfg, INIT, run) && k <= |run|
    ensures Legal(cfg, INIT, run[..k])
    ensures k < |run| ==> Enabled(cfg, Run(cfg, INIT, run[..k]), run[k])
    ensures k < |run| ==> Legal(cfg, INIT, run[..k + 1])
    ensures k < |run| ==> Run(cfg, INIT, run[..k + 1]) == Next(cfg, Run(cfg, INIT, run[..k]), run[k])
  {
    if k < |run| {
      assert run[..k] + [run[k]] == run[..k + 1] && run[..k + 1] + run[k + 1..] == run;
      StepOfRun(cfg, INIT, run[..k], run[k], run[k + 1..]);
    } else {
      assert run[..k] == run;
    }
  }

  /** The state after the first `k` steps. */
  function StateAt(cfg: Config, run: seq<Action>, k: nat): State
    requires Legal(cfg, INIT, run) && k <= |run|
  {
    PrefixLegal(cfg, run, k);
    Run(cfg, INIT, run[..k])
  }
}
