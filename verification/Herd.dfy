/**
 Parallel builds. The comment on `get_or_build` promises that callers serialise while one of them
 connects. They do not; this is when builds for one digest do and do not overlap, on every run.
 */
module Herd {
  import opened Registry
  import opened Protocol

  // ----- any number at once -----

  function HerdRun(call: Call, n: nat): seq<Action> {
    if n == 0 then [] else HerdRun(call, n - 1) + [Resolve(n - 1, call), Lookup(n - 1, 0)]
  }

  /** Any number of calls can be building for the same digest at once. */
  lemma {:induction false} ThunderingHerd(cfg: Config, call: Call, n: nat)
    ensures Legal(cfg, INIT, HerdRun(call, n))
    ensures HerdBuilding(Run(cfg, INIT, HerdRun(call, n)), call, n)
  {
    if n > 0 {
      var before, more := HerdRun(call, n - 1), [Resolve(n - 1, call), Lookup(n - 1, 0)];
      ThunderingHerd(cfg, call, n - 1);
      HerdExtends(cfg, before, more, call, n - 1);
      assert HerdRun(call, n) == before + more;
    }
  }

  lemma HerdExtends(cfg: Config, before: seq<Action>, more: seq<Action>, call: Call, n: nat)
    requires Legal(cfg, INIT, before) && HerdBuilding(Run(cfg, INIT, before), call, n)
    requires more == [Resolve(n, call), Lookup(n, 0)]
    ensures Legal(cfg, INIT, before + more)
    ensures HerdBuilding(Run(cfg, INIT, before + more), call, n + 1)
  {
    HerdGrows(cfg, Run(cfg, INIT, before), call, n);
    RunAppend(cfg, INIT, before, more);
  }

  /** Calls `0 .. n` are all building for `call`, and nothing is held. */
  ghost predicate HerdBuilding(s: State, call: Call, n: nat) {
    && s.reg == EMPTY && s.clock == 0 && s.step == 2 * n
    && (forall id :: id in s.callers <==> 0 <= id < n)
    && (forall id :: 0 <= id < n ==> s.callers[id] == Building(call, 2 * id, 2 * id + 1))
  }

  lemma HerdGrows(cfg: Config, s: State, call: Call, n: nat)
    requires HerdBuilding(s, call, n)
    ensures Legal(cfg, s, [Resolve(n, call), Lookup(n, 0)])
    ensures HerdBuilding(Run(cfg, s, [Resolve(n, call), Lookup(n, 0)]), call, n + 1)
  {
    var a, b := Resolve(n, call), Lookup(n, 0);
    var mid := Next(cfg, s, a);
    assert [a, b][1..] == [b] && [b][1..] == [];
    assert Run(cfg, mid, [b]) == Next(cfg, mid, b);
    assert Run(cfg, s, [a, b]) == Next(cfg, mid, b);
  }

  // ----- builds and misses -----

  predicate Held(cfg: Config, run: seq<Action>, k: nat, d: CredDigest)
    requires Legal(cfg, INIT, run) && k <= |run|
  {
    d in StateAt(cfg, run, k).reg.clients
  }

  predicate BuildingFor(s: State, id: nat, d: CredDigest) {
    id in s.callers && s.callers[id].Building? && s.callers[id].call.digest == d
  }

  /** The action is a first lookup of `id` for `d`, and `d` is not held. */
  predicate Misses(s: State, a: Action, id: nat, d: CredDigest) {
    a.Lookup? && a.id == id && id in s.callers && s.callers[id].call.digest == d && d !in s.reg.clients
  }

  predicate Builds(a: Action, id: nat) {
    a.Build? && a.id == id
  }

  // ----- when a build starts and ends -----

  /** A step starts a build for `d` exactly when it is a lookup that misses, whoever else builds. */
  lemma BuildStarts(cfg: Config, s: State, a: Action, id: nat, d: CredDigest)
    requires Enabled(cfg, s, a)
    ensures !BuildingFor(s, id, d) && BuildingFor(Next(cfg, s, a), id, d) <==> Misses(s, a, id, d)
    ensures BuildingFor(s, id, d) && !BuildingFor(Next(cfg, s, a), id, d)
       <==> BuildingFor(s, id, d) && Builds(a, id)
  {
  }

  /** A call that is building or has built missed before its digest's entry, if any, was inserted. */
  predicate Older(born: map<CredDigest, nat>, phase: Phase) {
    phase.call.digest in born ==>
      && (phase.Building? ==> phase.began < born[phase.call.digest])
      && (phase.Built? ==> phase.client.began < born[phase.call.digest])
  }

  ghost predicate BuildersOlder(s: State) {
    forall id :: id in s.callers ==> Older(s.born, s.callers[id])
  }

  /** What a step does to the time an entry was inserted. */
  lemma StepBorn(cfg: Config, s: State, a: Action, d: CredDigest)
    requires Inv(cfg, s) && Enabled(cfg, s, a) && d in Next(cfg, s, a).born
    ensures (d in s.born && Next(cfg, s, a).born[d] == s.born[d]) || Next(cfg, s, a).born[d] == s.step
  {
    StepKeeps(cfg, s, a);
    StepEntry(cfg, s, a, d);
  }

  lemma MovedCallerOlder(cfg: Config, s: State, a: Action)
    requires Inv(cfg, s) && Enabled(cfg, s, a) && (a.Lookup? || a.Build?)
    requires Older(s.born, s.callers[a.id])
    ensures Older(Next(cfg, s, a).born, Next(cfg, s, a).callers[a.id])
  {
  }

  lemma OlderStep(cfg: Config, s: State, a: Action, id: nat)
    requires Inv(cfg, s) && Enabled(cfg, s, a) && id in Next(cfg, s, a).callers
    requires id in s.callers ==> Older(s.born, s.callers[id])
    ensures Older(Next(cfg, s, a).born, Next(cfg, s, a).callers[id])
  {
    OthersStay(cfg, s, a, id);
    if id in s.callers && Next(cfg, s, a).callers[id] == s.callers[id] {
      assert PhaseOk(cfg, s, id, s.callers[id]);
      if s.callers[id].call.digest in Next(cfg, s, a).born { StepBorn(cfg, s, a, s.callers[id].call.digest); }
    } else if a.Lookup? || a.Build? {
      MovedCallerOlder(cfg, s, a);
    }
  }

  lemma BuildersOlderStep(cfg: Config, s: State, a: Action)
    requires Inv(cfg, s) && Enabled(cfg, s, a) && BuildersOlder(s)
    ensures BuildersOlder(Next(cfg, s, a))
  {
    forall id | id in Next(cfg, s, a).callers
      ensures Older(Next(cfg, s, a).born, Next(cfg, s, a).callers[id])
    {
      OlderStep(cfg, s, a, id);
    }
  }

  lemma {:induction false} BuildersOlderRun(cfg: Config, s: State, run: seq<Action>)
    requires Inv(cfg, s) && BuildersOlder(s) && Legal(cfg, s, run)
    ensures BuildersOlder(Run(cfg, s, run))
    decreases |run|
  {
    if run != [] {
      BuildersOlderStep(cfg, s, run[0]);
      StepKeeps(cfg, s, run[0]);
      BuildersOlderRun(cfg, Next(cfg, s, run[0]), run[1..]);
    }
  }

  /** In every reachable state, a call in flight for a held digest missed before the entry came. */
  lemma BuildersBeforeEntry(cfg: Config, run: seq<Action>, s: State, id: nat)
    requires Reaches(cfg, run, s)
    requires id in s.callers && s.callers[id].call.digest in s.reg.clients
    ensures s.callers[id].call.digest in s.born
    ensures s.callers[id].Building? ==> s.callers[id].began < s.born[s.callers[id].call.digest]
    ensures s.callers[id].Built? ==> s.callers[id].client.began < s.born[s.callers[id].call.digest]
  {
    ReachableInv(cfg, run, s);
    InitInv(cfg);
    BuildersOlderRun(cfg, INIT, run);
    assert Older(s.born, s.callers[id]);
  }

  // ----- which calls are building -----

  /** `id` missed for `d` at step `k`, and its build has not ended within the first `n` steps. */
  predicate MissPending(cfg: Config, run: seq<Action>, id: nat, d: CredDigest, k: nat, n: nat)
    requires Legal(cfg, INIT, run) && n <= |run|
  {
    k < n && Misses(StateAt(cfg, run, k), run[k], id, d) && forall j :: k < j < n ==> !Builds(run[j], id)
  }

  lemma PendingGrows(cfg: Config, run: seq<Action>, id: nat, d: CredDigest, n: nat, m: nat)
    requires Legal(cfg, INIT, run) && n < m <= |run| && m == n + 1
    ensures (exists k: nat :: MissPending(cfg, run, id, d, k, m))
       <==> Misses(StateAt(cfg, run, n), run[n], id, d)
            || ((exists k: nat :: MissPending(cfg, run, id, d, k, n)) && !Builds(run[n], id))
  {
    if k: nat :| MissPending(cfg, run, id, d, k, n) && !Builds(run[n], id) {
      assert MissPending(cfg, run, id, d, k, m);
    }
    if Misses(StateAt(cfg, run, n), run[n], id, d) {
      assert MissPending(cfg, run, id, d, n, m);
    }
    if k: nat :| MissPending(cfg, run, id, d, k, m) {
      assert k < n ==> MissPending(cfg, run, id, d, k, n);
    }
  }

  lemma {:induction false} BuildingAt(cfg: Config, run: seq<Action>, id: nat, d: CredDigest, n: nat)
    requires Legal(cfg, INIT, run) && n <= |run|
    ensures BuildingFor(StateAt(cfg, run, n), id, d) <==> exists k: nat :: MissPending(cfg, run, id, d, k, n)
  {
    if n > 0 {
      BuildingAt(cfg, run, id, d, n - 1);
      PrefixLegal(cfg, run, n - 1);
      PendingGrows(cfg, run, id, d, n - 1, n);
      BuildStarts(cfg, StateAt(cfg, run, n - 1), run[n - 1], id, d);
    }
  }

  /**
   On every run, a call is building for `d` if and only if it looked `d` up while it was not held
   and its build has not ended since.
   */
  lemma BuildingExactly(cfg: Config, run: seq<Action>, s: State, id: nat, d: CredDigest)
    requires Reaches(cfg, run, s)
    ensures BuildingFor(s, id, d) <==> exists k: nat :: MissPending(cfg, run, id, d, k, |run|)
  {
    assert run[..|run|] == run;
    BuildingAt(cfg, run, id, d, |run|);
  }

  // ----- spans -----

  /** While `d` stays held, no build for it starts. */
  lemma {:induction false} HeldSpanStartsNoBuild(
    cfg: Config, run: seq<Action>, from: nat, to: nat, d: CredDigest, id: nat)
    requires Legal(cfg, INIT, run) && from <= to <= |run|
    requires forall j :: from <= j < to ==> Held(cfg, run, j, d)
    requires BuildingFor(StateAt(cfg, run, to), id, d)
    ensures BuildingFor(StateAt(cfg, run, from), id, d)
  {
    if from < to {
      PrefixLegal(cfg, run, to - 1);
      BuildStarts(cfg, StateAt(cfg, run, to - 1), run[to - 1], id, d);
      assert Held(cfg, run, to - 1, d);
      HeldSpanStartsNoBuild(cfg, run, from, to - 1, d, id);
    }
  }

  predicate Removed(cfg: Config, run: seq<Action>, j: nat, d: CredDigest)
    requires Legal(cfg, INIT, run) && j < |run|
  {
    Held(cfg, run, j, d) && !Held(cfg, run, j + 1, d)
  }

  lemma {:induction false} UnheldSpan(cfg: Config, run: seq<Action>, from: nat, to: nat, d: CredDigest)
    requires Legal(cfg, INIT, run) && from <= to <= |run| && !Held(cfg, run, to, d)
    requires forall j :: from <= j < to ==> !Removed(cfg, run, j, d)
    ensures forall j :: from <= j <= to ==> !Held(cfg, run, j, d)
  {
    if from < to {
      assert !Removed(cfg, run, to - 1, d);
      UnheldSpan(cfg, run, from, to - 1, d);
    }
  }

  /**
   Two calls build for `d` at once if and only if both missed and neither build has ended. Between
   their lookups `d` was not held at any step, unless it was inserted and removed again in between.
   */
  lemma ParallelBuilds(cfg: Config, run: seq<Action>, s: State, id1: nat, id2: nat, d: CredDigest)
    requires Reaches(cfg, run, s)
    ensures BuildingFor(s, id1, d) && BuildingFor(s, id2, d)
       <==> exists k1: nat, k2: nat ::
              MissPending(cfg, run, id1, d, k1, |run|) && MissPending(cfg, run, id2, d, k2, |run|)
    ensures forall k1: nat, k2: nat ::
              (k1 <= k2
               && MissPending(cfg, run, id1, d, k1, |run|) && MissPending(cfg, run, id2, d, k2, |run|)) ==>
                || (forall j :: k1 <= j <= k2 ==> !Held(cfg, run, j, d))
                || (exists j :: k1 < j < k2 && Removed(cfg, run, j, d))
  {
    BuildingExactly(cfg, run, s, id1, d);
    BuildingExactly(cfg, run, s, id2, d);
    forall k1: nat, k2: nat | k1 <= k2
      && MissPending(cfg, run, id1, d, k1, |run|) && MissPending(cfg, run, id2, d, k2, |run|)
      && !exists j :: k1 < j < k2 && Removed(cfg, run, j, d)
      ensures forall j :: k1 <= j <= k2 ==> !Held(cfg, run, j, d)
    {
      assert !Held(cfg, run, k1, d) && !Removed(cfg, run, k1, d);
      UnheldSpan(cfg, run, k1, k2, d);
    }
  }

  // ----- when callers do serialise -----

  /** At no step are two calls building for `d`. */
  ghost predicate Serial(cfg: Config, run: seq<Action>, d: CredDigest)
    requires Legal(cfg, INIT, run)
  {
    forall n, id1, id2 :: 0 <= n <= |run| && id1 != id2 ==>
      !(BuildingFor(StateAt(cfg, run, n), id1, d) && BuildingFor(StateAt(cfg, run, n), id2, d))
  }

  /** Every lookup that misses `d` finds no other call building for it. */
  ghost predicate MissesAlone(cfg: Config, run: seq<Action>, d: CredDigest)
    requires Legal(cfg, INIT, run)
  {
    forall k, id, other :: 0 <= k < |run| && Misses(StateAt(cfg, run, k), run[k], id, d) ==>
      !BuildingFor(StateAt(cfg, run, k), other, d)
  }

  lemma {:induction false} AloneIsSerialAt(
    cfg: Config, run: seq<Action>, d: CredDigest, n: nat, id1: nat, id2: nat)
    requires Legal(cfg, INIT, run) && MissesAlone(cfg, run, d) && n <= |run| && id1 != id2
    ensures !(BuildingFor(StateAt(cfg, run, n), id1, d) && BuildingFor(StateAt(cfg, run, n), id2, d))
  {
    if n > 0 {
      PrefixLegal(cfg, run, n - 1);
      var s, a := StateAt(cfg, run, n - 1), run[n - 1];
      AloneIsSerialAt(cfg, run, d, n - 1, id1, id2);
      BuildStarts(cfg, s, a, id1, d);
      BuildStarts(cfg, s, a, id2, d);
      assert Misses(s, a, id1, d) ==> !BuildingFor(s, id2, d);
      assert Misses(s, a, id2, d) ==> !BuildingFor(s, id1, d);
    }
  }

  lemma MissOverlaps(cfg: Config, run: seq<Action>, d: CredDigest, k: nat, id: nat, other: nat)
    requires Legal(cfg, INIT, run) && k < |run|
    requires Misses(StateAt(cfg, run, k), run[k], id, d) && BuildingFor(StateAt(cfg, run, k), other, d)
    ensures id != other
    ensures BuildingFor(StateAt(cfg, run, k + 1), id, d) && BuildingFor(StateAt(cfg, run, k + 1), other, d)
  {
    PrefixLegal(cfg, run, k);
    BuildStarts(cfg, StateAt(cfg, run, k), run[k], id, d);
    BuildStarts(cfg, StateAt(cfg, run, k), run[k], other, d);
  }

  /**
   Builds for `d` never overlap on a run if and only if no lookup misses `d` while another call is
   building for it. The code has no guard for that: it tests only whether `d` is held.
   */
  lemma SerialExactly(cfg: Config, run: seq<Action>, d: CredDigest)
    requires Legal(cfg, INIT, run)
    ensures Serial(cfg, run, d) <==> MissesAlone(cfg, run, d)
  {
    if Serial(cfg, run, d) {
      forall k, id, other | 0 <= k < |run| && Misses(StateAt(cfg, run, k), run[k], id, d)
        ensures !BuildingFor(StateAt(cfg, run, k), other, d)
      {
        if BuildingFor(StateAt(cfg, run, k), other, d) {
          MissOverlaps(cfg, run, d, k, id, other);
          assert false;
        }
      }
    }
    if MissesAlone(cfg, run, d) {
      forall n, id1, id2 | 0 <= n <= |run| && id1 != id2
        ensures !(BuildingFor(StateAt(cfg, run, n), id1, d) && BuildingFor(StateAt(cfg, run, n), id2, d))
      {
        AloneIsSerialAt(cfg, run, d, n, id1, id2);
      }
    }
  }
}
