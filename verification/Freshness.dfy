/**
 What an eviction guarantees afterwards. `k` is the step at which it ran. Unconditionally, an
 entry it selects that is held later was inserted later. That no client from before is held or
 handed out later holds exactly when no selected call is in flight: one that has read its
 credentials when the eviction runs can still build with them and insert afterwards. A client can
 be counted from the reading of its credentials, or from the lookup that missed.
 */
module Freshness {
  import opened Base
  import opened Registry
  import opened Protocol

  /** Where a client counts from: the reading of its credentials, or the lookup that missed. */
  datatype Mark = CredentialsRead | LookedUp

  function Since(mark: Mark, resolved: nat, began: nat): nat {
    if mark.CredentialsRead? then resolved else began
  }

  function ClientSince(mark: Mark, client: Client): nat {
    Since(mark, client.resolved, client.began)
  }

  predicate StalePhase(mark: Mark, scope: Scope, k: nat, phase: Phase) {
    match phase
    case Resolved(call, resolved) => mark.CredentialsRead? && Selected(scope, call.credKeys) && resolved <= k
    case Building(call, resolved, began) => Selected(scope, call.credKeys) && Since(mark, resolved, began) <= k
    case Built(call, client) => Selected(scope, call.credKeys) && ClientSince(mark, client) <= k
    case Failed(_) => false
    case Returned(_, client, credKeys, at) =>
      at > k && Selected(scope, credKeys) && ClientSince(mark, client) <= k
  }

  /** No selected client from step `k` or before is held, or was handed out after step `k`. */
  ghost predicate NoneStale(mark: Mark, s: State, scope: Scope, k: nat) {
    && (forall d :: d in s.reg.clients && Selected(scope, s.reg.clients[d].credKeys) ==>
          ClientSince(mark, s.reg.clients[d].client) > k)
    && (forall id :: id in s.callers && s.callers[id].Returned? ==>
          !StalePhase(mark, scope, k, s.callers[id]))
  }

  ghost predicate NoneStaleOrComing(mark: Mark, s: State, scope: Scope, k: nat) {
    NoneStale(mark, s, scope, k) && forall id :: id in s.callers ==> !StalePhase(mark, scope, k, s.callers[id])
  }

  predicate Unreturned(mark: Mark, phase: Phase) {
    (mark.CredentialsRead? && phase.Resolved?) || phase.Building? || phase.Built?
  }

  /** A selected call is between reading its credentials, or looking up, and its last section. */
  ghost predicate InFlight(mark: Mark, s: State, scope: Scope) {
    exists id :: id in s.callers && Unreturned(mark, s.callers[id])
                 && Selected(scope, s.callers[id].call.credKeys)
  }

  lemma LookupFresh(mark: Mark, cfg: Config, s: State, id: nat, now: nat, scope: Scope, k: nat)
    requires Enabled(cfg, s, Lookup(id, now)) && k < s.step && NoneStaleOrComing(mark, s, scope, k)
    ensures !StalePhase(mark, scope, k, Next(cfg, s, Lookup(id, now)).callers[id])
  {
    assert !StalePhase(mark, scope, k, s.callers[id]);
  }

  lemma BuildFresh(
    mark: Mark, cfg: Config, s: State, id: nat, answers: seq<Address>, accepted: bool, scope: Scope, k: nat)
    requires Enabled(cfg, s, Build(id, answers, accepted)) && NoneStaleOrComing(mark, s, scope, k)
    ensures !StalePhase(mark, scope, k, Next(cfg, s, Build(id, answers, accepted)).callers[id])
  {
    assert !StalePhase(mark, scope, k, s.callers[id]);
  }

  lemma FinishFresh(
    mark: Mark, cfg: Config, s: State, id: nat, now: nat, victim: CredDigest, scope: Scope, k: nat)
    requires Enabled(cfg, s, Finish(id, now, victim)) && NoneStaleOrComing(mark, s, scope, k)
    ensures !StalePhase(mark, scope, k, Next(cfg, s, Finish(id, now, victim)).callers[id])
  {
    assert !StalePhase(mark, scope, k, s.callers[id]);
  }

  lemma MovedCallerFresh(mark: Mark, cfg: Config, s: State, a: Action, scope: Scope, k: nat)
    requires Enabled(cfg, s, a) && k < s.step && NoneStaleOrComing(mark, s, scope, k)
    requires a.Resolve? || a.Lookup? || a.Build? || a.Finish?
    ensures !StalePhase(mark, scope, k, Next(cfg, s, a).callers[a.id])
  {
    match a
    case Resolve(_, _) =>
    case Lookup(id, now) => LookupFresh(mark, cfg, s, id, now, scope, k);
    case Build(id, answers, accepted) => BuildFresh(mark, cfg, s, id, answers, accepted, scope, k);
    case Finish(id, now, victim) => FinishFresh(mark, cfg, s, id, now, victim, scope, k);
  }

  lemma StepCallersFresh(mark: Mark, cfg: Config, s: State, a: Action, scope: Scope, k: nat)
    requires Inv(cfg, s) && Enabled(cfg, s, a) && k < s.step
    requires NoneStaleOrComing(mark, s, scope, k)
    ensures forall id :: id in Next(cfg, s, a).callers ==>
              !StalePhase(mark, scope, k, Next(cfg, s, a).callers[id])
  {
    forall id | id in Next(cfg, s, a).callers
      ensures !StalePhase(mark, scope, k, Next(cfg, s, a).callers[id])
    {
      OthersStay(cfg, s, a, id);
      if id in s.callers && Next(cfg, s, a).callers[id] == s.callers[id] {
        assert !StalePhase(mark, scope, k, s.callers[id]);
      } else {
        MovedCallerFresh(mark, cfg, s, a, scope, k);
      }
    }
  }

  lemma StepStaysFresh(mark: Mark, cfg: Config, s: State, a: Action, scope: Scope, k: nat)
    requires Inv(cfg, s) && Enabled(cfg, s, a) && k < s.step
    requires NoneStaleOrComing(mark, s, scope, k)
    ensures NoneStaleOrComing(mark, Next(cfg, s, a), scope, k)
  {
    var s' := Next(cfg, s, a);
    StepCallersFresh(mark, cfg, s, a, scope, k);
    forall d | d in s'.reg.clients && Selected(scope, s'.reg.clients[d].credKeys)
      ensures ClientSince(mark, s'.reg.clients[d].client) > k
    {
      StepEntry(cfg, s, a, d);
      if a.Finish? { assert !StalePhase(mark, scope, k, s.callers[a.id]); }
    }
  }

  lemma {:induction false} RunStaysFresh(mark: Mark, cfg: Config, s: State, run: seq<Action>, scope: Scope, k: nat)
    requires Inv(cfg, s) && Legal(cfg, s, run) && k < s.step
    requires NoneStaleOrComing(mark, s, scope, k)
    ensures NoneStaleOrComing(mark, Run(cfg, s, run), scope, k)
    decreases |run|
  {
    if run != [] {
      StepStaysFresh(mark, cfg, s, run[0], scope, k);
      StepKeeps(cfg, s, run[0]);
      RunStaysFresh(mark, cfg, Next(cfg, s, run[0]), run[1..], scope, k);
    }
  }

  lemma EvictionLeavesFresh(mark: Mark, cfg: Config, s: State, a: Action, scope: Scope)
    requires Inv(cfg, s) && Enabled(cfg, s, a) && ScopeOf(cfg, a) == Some(scope)
    requires !InFlight(mark, s, scope)
    ensures NoneStaleOrComing(mark, Next(cfg, s, a), scope, s.step)
  {
    var s' := Next(cfg, s, a);
    assert s'.callers == s.callers;
    forall id | id in s'.callers ensures !StalePhase(mark, scope, s.step, s'.callers[id]) {
      assert PhaseOk(cfg, s, id, s.callers[id]);
    }
  }

  lemma RunCons(cfg: Config, s: State, a: Action, rest: seq<Action>)
    requires Enabled(cfg, s, a) && Legal(cfg, Next(cfg, s, a), rest)
    ensures Legal(cfg, s, [a] + rest)
    ensures Run(cfg, s, [a] + rest) == Run(cfg, Next(cfg, s, a), rest)
  {
    assert ([a] + rest)[1..] == rest;
  }

  lemma SweptClean(cfg: Config, s: State)
    requires Inv(cfg, s)
    ensures Next(cfg, s, SweepIdle(s.clock + cfg.threshold + 1)).reg.clients == map[]
  {
    assert Fresh(s.reg.clients, s.clock + cfg.threshold + 1, cfg.threshold).Keys == {};
  }

  lemma BuildSucceeds(mark: Mark, cfg: Config, s: State, id: nat, address: Address, scope: Scope, k: nat)
    requires id in s.callers && s.callers[id].Building? && StalePhase(mark, scope, k, s.callers[id])
    requires cfg.allowPrivate || !cfg.isPrivate(address)
    ensures var s' := Next(cfg, s, Build(id, [address], true));
      && s'.callers[id].Built? && StalePhase(mark, scope, k, s'.callers[id])
      && s' == s.(callers := s'.callers, step := s.step + 1)
      && s'.callers[id].call == s.callers[id].call
  {
  }

  lemma LastStep(mark: Mark, cfg: Config, s: State, a: Action, scope: Scope, k: nat)
    requires a.Finish? && a.id in s.callers && s.callers[a.id].Built? && s.clock <= a.now
    requires s.reg.clients == map[] && a.victim == s.callers[a.id].call.digest
    requires StalePhase(mark, scope, k, s.callers[a.id]) && k < s.step
    ensures Enabled(cfg, s, a)
    ensures !NoneStale(mark, Next(cfg, s, a), scope, k)
  {
    var s' := Next(cfg, s, a);
    assert StalePhase(mark, scope, k, s'.callers[a.id]);
  }

  lemma FinishOvertakes(mark: Mark, cfg: Config, s: State, id: nat, now: nat, scope: Scope, k: nat)
    returns (run: seq<Action>)
    requires id in s.callers && s.callers[id].Built? && s.clock <= now && k < s.step
    requires s.reg.clients == map[] && StalePhase(mark, scope, k, s.callers[id])
    ensures Legal(cfg, s, run) && !NoneStale(mark, Run(cfg, s, run), scope, k)
  {
    var finish := Finish(id, now, s.callers[id].call.digest);
    LastStep(mark, cfg, s, finish, scope, k);
    RunCons(cfg, s, finish, []);
    run := [finish] + [];
  }

  lemma BuildOvertakes(mark: Mark, cfg: Config, s: State, id: nat, now: nat, address: Address, scope: Scope, k: nat)
    returns (run: seq<Action>)
    requires id in s.callers && s.callers[id].Building? && s.clock <= now && k < s.step
    requires s.reg.clients == map[] && StalePhase(mark, scope, k, s.callers[id])
    requires cfg.allowPrivate || !cfg.isPrivate(address)
    ensures Legal(cfg, s, run) && !NoneStale(mark, Run(cfg, s, run), scope, k)
  {
    var build := Build(id, [address], true);
    BuildSucceeds(mark, cfg, s, id, address, scope, k);
    var rest := FinishOvertakes(mark, cfg, Next(cfg, s, build), id, now, scope, k);
    RunCons(cfg, s, build, rest);
    run := [build] + rest;
  }

  lemma LookupOvertakes(mark: Mark, cfg: Config, s: State, id: nat, now: nat, address: Address, scope: Scope, k: nat)
    returns (run: seq<Action>)
    requires id in s.callers && s.callers[id].Resolved? && s.clock <= now && k < s.step
    requires s.reg.clients == map[] && StalePhase(mark, scope, k, s.callers[id])
    requires cfg.allowPrivate || !cfg.isPrivate(address)
    ensures Legal(cfg, s, run) && !NoneStale(mark, Run(cfg, s, run), scope, k)
  {
    var lookup := Lookup(id, now);
    var rest := BuildOvertakes(mark, cfg, Next(cfg, s, lookup), id, now, address, scope, k);
    RunCons(cfg, s, lookup, rest);
    run := [lookup] + rest;
  }

  /** A call in flight across an eviction can still hand out a client from before. */
  lemma Overtakes(mark: Mark, cfg: Config, s: State, id: nat, address: Address, scope: Scope, k: nat)
    returns (run: seq<Action>)
    requires Inv(cfg, s) && k < s.step && (cfg.allowPrivate || !cfg.isPrivate(address))
    requires id in s.callers && Unreturned(mark, s.callers[id]) && StalePhase(mark, scope, k, s.callers[id])
    ensures Legal(cfg, s, run) && !NoneStale(mark, Run(cfg, s, run), scope, k)
  {
    var sweep := SweepIdle(s.clock + cfg.threshold + 1);
    var s1 := Next(cfg, s, sweep);
    SweptClean(cfg, s);
    var rest;
    if s.callers[id].Resolved? {
      rest := LookupOvertakes(mark, cfg, s1, id, sweep.now, address, scope, k);
    } else if s.callers[id].Building? {
      rest := BuildOvertakes(mark, cfg, s1, id, sweep.now, address, scope, k);
    } else {
      rest := FinishOvertakes(mark, cfg, s1, id, sweep.now, scope, k);
    }
    RunCons(cfg, s, sweep, rest);
    run := [sweep] + rest;
  }

  /**
   Freshness. After an eviction in a reachable state, no client it selects whose credentials were
   read before (or whose call had looked up before) is ever held or handed out, on any
   continuation, if and only if no selected call had read its credentials (had looked up) and not
   yet returned. `address` is one the rebinding guard lets a build connect to.
   */
  lemma FreshAfterEviction(
    mark: Mark, cfg: Config, run: seq<Action>, s: State, a: Action, scope: Scope, address: Address)
    requires Reaches(cfg, run, s) && ScopeOf(cfg, a) == Some(scope)
    requires cfg.allowPrivate || !cfg.isPrivate(address)
    ensures (forall more :: Legal(cfg, Next(cfg, s, a), more) ==>
               NoneStale(mark, Run(cfg, Next(cfg, s, a), more), scope, s.step))
       <==> !InFlight(mark, s, scope)
  {
    ReachableInv(cfg, run, s);
    StepKeeps(cfg, s, a);
    var s' := Next(cfg, s, a);
    if InFlight(mark, s, scope) {
      var id :| id in s.callers && Unreturned(mark, s.callers[id])
                && Selected(scope, s.callers[id].call.credKeys);
      assert PhaseOk(cfg, s, id, s.callers[id]);
      assert StalePhase(mark, scope, s.step, s'.callers[id]);
      var more := Overtakes(mark, cfg, s', id, address, scope, s.step);
    } else {
      EvictionLeavesFresh(mark, cfg, s, a, scope);
      forall more | Legal(cfg, s', more) ensures NoneStale(mark, Run(cfg, s', more), scope, s.step) {
        RunStaysFresh(mark, cfg, s', more, scope, s.step);
      }
    }
  }

  // ----- without the side condition -----

  ghost predicate SelectedBornAfter(s: State, scope: Scope, k: nat) {
    forall d :: d in s.reg.clients && d in s.born && Selected(scope, s.reg.clients[d].credKeys) ==> s.born[d] > k
  }

  lemma StepBornAfter(cfg: Config, s: State, a: Action, scope: Scope, k: nat)
    requires Inv(cfg, s) && Enabled(cfg, s, a) && k < s.step && SelectedBornAfter(s, scope, k)
    ensures SelectedBornAfter(Next(cfg, s, a), scope, k)
  {
    var s' := Next(cfg, s, a);
    forall d | d in s'.reg.clients && d in s'.born && Selected(scope, s'.reg.clients[d].credKeys)
      ensures s'.born[d] > k
    {
      StepEntry(cfg, s, a, d);
      assert d in s.reg.clients ==> d in s.born;
    }
  }

  lemma {:induction false} RunBornAfter(cfg: Config, s: State, run: seq<Action>, scope: Scope, k: nat)
    requires Inv(cfg, s) && Legal(cfg, s, run) && k < s.step && SelectedBornAfter(s, scope, k)
    ensures SelectedBornAfter(Run(cfg, s, run), scope, k)
    decreases |run|
  {
    if run != [] {
      StepBornAfter(cfg, s, run[0], scope, k);
      StepKeeps(cfg, s, run[0]);
      RunBornAfter(cfg, Next(cfg, s, run[0]), run[1..], scope, k);
    }
  }

  /** Whatever was in flight, a selected entry held after an eviction was inserted after it. */
  lemma HeldMeansInsertedLater(
    cfg: Config, run: seq<Action>, s: State, a: Action, scope: Scope, more: seq<Action>, d: CredDigest)
    requires Reaches(cfg, run, s) && ScopeOf(cfg, a) == Some(scope)
    requires Legal(cfg, Next(cfg, s, a), more)
    ensures var end := Run(cfg, Next(cfg, s, a), more);
      d in end.reg.clients && Selected(scope, end.reg.clients[d].credKeys) ==>
        d in end.born && end.born[d] > s.step
  {
    ReachableInv(cfg, run, s);
    StepKeeps(cfg, s, a);
    RunBornAfter(cfg, Next(cfg, s, a), more, scope, s.step);
    RunKeeps(cfg, Next(cfg, s, a), more);
  }
}
