/**
 What a build pins: on every run, a client is pinned to the first allowed answer of its own build.
 */
module Pinned {
  import opened Base
  import opened Registry
  import opened Connect
  import opened Protocol

  /**
   A build succeeds exactly when it is accepted and some answer is allowed, and then pins the first
   one; otherwise it fails. Nothing but the caller changes.
   */
  lemma BuildExactly(cfg: Config, s: State, id: nat, answers: seq<Address>, accepted: bool)
    requires id in s.callers && s.callers[id].Building?
    ensures Enabled(cfg, s, Build(id, answers, accepted))
    ensures var p, s' := s.callers[id], Next(cfg, s, Build(id, answers, accepted));
      && s' == s.(callers := s.callers[id := s'.callers[id]], step := s.step + 1)
      && (forall i :: (0 <= i < |answers| && accepted
                       && (cfg.allowPrivate || !cfg.isPrivate(answers[i]))
                       && (forall j :: 0 <= j < i ==> !cfg.allowPrivate && cfg.isPrivate(answers[j]))) ==>
              s'.callers[id] == Built(p.call, Client(id, p.resolved, p.began, p.call, answers[i])))
      && (s'.callers[id].Built? <==>
            accepted && exists i :: 0 <= i < |answers| && (cfg.allowPrivate || !cfg.isPrivate(answers[i])))
      && (!s'.callers[id].Built? ==> s'.callers[id] == Failed(p.call))
  {
    forall i | 0 <= i < |answers| && accepted
      && (cfg.allowPrivate || !cfg.isPrivate(answers[i]))
      && (forall j :: 0 <= j < i ==> !cfg.allowPrivate && cfg.isPrivate(answers[j]))
      ensures FirstAllowed(answers, cfg.allowPrivate, cfg.isPrivate, i)
    {
    }
    if answers != [] && cfg.allowPrivate {
      assert FirstAllowed(answers, cfg.allowPrivate, cfg.isPrivate, 0);
    }
  }

  /** Step `k` is the build of `c`, which pinned its first allowed answer, number `i`. */
  predicate BuiltAt(cfg: Config, run: seq<Action>, c: Client, k: nat, i: nat) {
    && k < |run| && run[k].Build? && run[k].id == c.builder && run[k].accepted
    && i < |run[k].answers| && c.address == run[k].answers[i]
    && FirstAllowed(run[k].answers, cfg.allowPrivate, cfg.isPrivate, i)
  }

  ghost predicate BuiltIn(cfg: Config, run: seq<Action>, c: Client) {
    exists k: nat, i: nat :: BuiltAt(cfg, run, c, k, i)
  }

  /** Every client there is was built in the run. */
  ghost predicate AllBuilt(cfg: Config, run: seq<Action>, s: State) {
    && (forall d :: d in s.reg.clients ==> BuiltIn(cfg, run, s.reg.clients[d].client))
    && (forall id :: id in s.callers && (s.callers[id].Built? || s.callers[id].Returned?) ==>
          BuiltIn(cfg, run, s.callers[id].client))
  }

  lemma BuildPins(cfg: Config, run: seq<Action>, k: nat, s: State, id: nat)
    requires k < |run| && run[k].Build? && run[k].id == id && Enabled(cfg, s, run[k])
    requires Next(cfg, s, run[k]).callers[id].Built?
    ensures BuiltIn(cfg, run, Next(cfg, s, run[k]).callers[id].client)
  {
    BuildExactly(cfg, s, id, run[k].answers, run[k].accepted);
    var answers := run[k].answers;
    var good :| 0 <= good < |answers| && (cfg.allowPrivate || !cfg.isPrivate(answers[good]));
    var i := FirstOf(answers, cfg.allowPrivate, cfg.isPrivate, 0, good);
    assert BuiltAt(cfg, run, Next(cfg, s, run[k]).callers[id].client, k, i);
  }

  lemma {:induction false} FirstOf(
    answers: seq<Address>, allowPrivate: bool, isPrivate: Address -> bool, n: nat, good: nat) returns (i: nat)
    requires n <= good < |answers| && (allowPrivate || !isPrivate(answers[good]))
    requires n > 0 ==> !allowPrivate
    requires forall j :: 0 <= j < n ==> isPrivate(answers[j])
    ensures i < |answers| && FirstAllowed(answers, allowPrivate, isPrivate, i)
    decreases good - n
  {
    if allowPrivate || !isPrivate(answers[n]) {
      i := n;
    } else {
      i := FirstOf(answers, allowPrivate, isPrivate, n + 1, good);
    }
  }

  /** A caller's client after a step is one it or an entry had before, or its build's. */
  lemma ClientFrom(cfg: Config, s: State, a: Action, id: nat)
    requires Enabled(cfg, s, a) && id in Next(cfg, s, a).callers
    requires Next(cfg, s, a).callers[id].Built? || Next(cfg, s, a).callers[id].Returned?
    ensures var c := Next(cfg, s, a).callers[id].client;
      || (id in s.callers && (s.callers[id].Built? || s.callers[id].Returned?) && s.callers[id].client == c)
      || (exists d :: d in s.reg.clients && s.reg.clients[d].client == c)
      || (a.Build? && a.id == id && Next(cfg, s, a).callers[id].Built?)
  {
    OthersStay(cfg, s, a, id);
    if a.Lookup? || a.Finish? {
      var d := s.callers[a.id].call.digest;
      if d in s.reg.clients { assert s.reg.clients[d].client == s.reg.clients[d].client; }
    }
  }

  lemma AllBuiltStep(cfg: Config, run: seq<Action>, k: nat, s: State)
    requires k < |run| && Enabled(cfg, s, run[k]) && AllBuilt(cfg, run, s)
    ensures AllBuilt(cfg, run, Next(cfg, s, run[k]))
  {
    var a, s' := run[k], Next(cfg, s, run[k]);
    forall d | d in s'.reg.clients ensures BuiltIn(cfg, run, s'.reg.clients[d].client) {
      StepEntry(cfg, s, a, d);
    }
    forall id | id in s'.callers && (s'.callers[id].Built? || s'.callers[id].Returned?)
      ensures BuiltIn(cfg, run, s'.callers[id].client)
    {
      ClientFrom(cfg, s, a, id);
      if a.Build? && a.id == id && s'.callers[id].Built? { BuildPins(cfg, run, k, s, id); }
    }
  }

  lemma {:induction false} AllBuiltAt(cfg: Config, run: seq<Action>, n: nat)
    requires Legal(cfg, INIT, run) && n <= |run|
    ensures AllBuilt(cfg, run, StateAt(cfg, run, n))
  {
    if n > 0 {
      AllBuiltAt(cfg, run, n - 1);
      PrefixLegal(cfg, run, n - 1);
      AllBuiltStep(cfg, run, n - 1, StateAt(cfg, run, n - 1));
    }
  }

  predicate PastBuild(s: State, id: nat) {
    id in s.callers && (s.callers[id].Built? || s.callers[id].Failed? || s.callers[id].Returned?)
  }

  lemma PastBuildStep(cfg: Config, s: State, a: Action, id: nat)
    requires Enabled(cfg, s, a)
    ensures PastBuild(s, id) || (a.Build? && a.id == id) ==> PastBuild(Next(cfg, s, a), id)
    ensures PastBuild(s, id) ==> !(a.Build? && a.id == id)
  {
  }

  /** A call builds once: after its build it is past it for good. */
  lemma {:induction false} BuildsOnce(cfg: Config, run: seq<Action>, k: nat, n: nat)
    requires Legal(cfg, INIT, run) && k < n <= |run| && run[k].Build?
    ensures PastBuild(StateAt(cfg, run, n), run[k].id)
    ensures n < |run| ==> !(run[n].Build? && run[n].id == run[k].id)
  {
    PrefixLegal(cfg, run, n - 1);
    if k < n - 1 {
      BuildsOnce(cfg, run, k, n - 1);
    }
    PastBuildStep(cfg, StateAt(cfg, run, n - 1), run[n - 1], run[k].id);
    if n < |run| {
      PrefixLegal(cfg, run, n);
      PastBuildStep(cfg, StateAt(cfg, run, n), run[n], run[k].id);
    }
  }

  lemma AllowedFirst(answers: seq<Address>, allowPrivate: bool, isPrivate: Address -> bool, i: nat)
    requires i < |answers| && FirstAllowed(answers, allowPrivate, isPrivate, i)
    ensures allowPrivate || !isPrivate(answers[i])
    ensures i > 0 ==> !allowPrivate
    ensures forall j :: 0 <= j < i ==> isPrivate(answers[j])
  {
    if i > 0 {
      assert isPrivate(answers[0]);
    }
  }

  /**
   On every run, a held or handed-out client is pinned to the first allowed answer of its builder's
   one build.
   */
  lemma PinnedToFirstAllowed(cfg: Config, run: seq<Action>, s: State, c: Client)
    returns (k: nat, i: nat)
    requires Reaches(cfg, run, s)
    requires (exists d :: d in s.reg.clients && s.reg.clients[d].client == c)
          || (exists id :: id in s.callers && s.callers[id].Returned? && s.callers[id].client == c)
    ensures k < |run| && run[k].Build? && run[k].id == c.builder && run[k].accepted
    ensures i < |run[k].answers| && c.address == run[k].answers[i]
    ensures cfg.allowPrivate || !cfg.isPrivate(run[k].answers[i])
    ensures i > 0 ==> !cfg.allowPrivate
    ensures forall j :: 0 <= j < i ==> cfg.isPrivate(run[k].answers[j])
    ensures forall j :: 0 <= j < |run| && run[j].Build? && run[j].id == c.builder ==> j == k
  {
    assert run[..|run|] == run;
    AllBuiltAt(cfg, run, |run|);
    assert BuiltIn(cfg, run, c);
    k, i :| BuiltAt(cfg, run, c, k, i);
    AllowedFirst(run[k].answers, cfg.allowPrivate, cfg.isPrivate, i);
    forall j | 0 <= j < |run| && run[j].Build? && run[j].id == c.builder ensures j == k {
      if j < k { BuildsOnce(cfg, run, j, k); }
      if k < j { BuildsOnce(cfg, run, k, j); }
    }
  }

  /** The registry leaves the choice of victim open: any entry of minimal stamp may go. */
  lemma AnyOldestMayGo(cfg: Config, s: State, id: nat, now: nat, victim: CredDigest)
    requires id in s.callers && s.callers[id].Built? && s.clock <= now
    requires s.callers[id].call.digest !in s.reg.clients && |s.reg.clients| >= cfg.maxEntries
    requires IsOldest(s.reg.clients[s.callers[id].call.digest := FreshEntry(s.callers[id], now)], victim)
    ensures Enabled(cfg, s, Finish(id, now, victim))
    ensures victim !in Next(cfg, s, Finish(id, now, victim)).reg.clients
  {
    var m := s.reg.clients[s.callers[id].call.digest := FreshEntry(s.callers[id], now)];
    assert m.Keys == s.reg.clients.Keys + {s.callers[id].call.digest};
  }
}
