/**
 Every interleaving of the protocol refines the atomic cache. A call's last locked section is its
 linearization point; reading credentials, a first-lookup miss, the build and an unrelated
 rotation change nothing.
 */
module Refinement {
  import opened Base
  import opened Registry
  import opened Protocol
  import opened Recency

  /** The atomic operation an action is, if it is one. */
  function OpOf(cfg: Config, s: State, a: Action): Option<Op>
    requires Enabled(cfg, s, a)
  {
    match a
    case Resolve(_, _) => None
    case Lookup(id, now) =>
      var call := s.callers[id].call;
      if call.digest in s.reg.clients then Some(Use(id, call.digest, call.credKeys, None, now, 0)) else None
    case Build(_, _, _) => None
    case Finish(id, now, victim) =>
      var Built(call, client) := s.callers[id];
      Some(Use(id, call.digest, call.credKeys, Some(client), now, victim))
    case SweepIdle(now) => Some(Expire(now))
    case _ => (match ScopeOf(cfg, a) case Some(scope) => Some(Forget(scope)) case None => None)
  }

  /** The client an action hands to its caller, if it returns one. */
  function AnswerOf(cfg: Config, s: State, a: Action): Option<Client>
    requires Enabled(cfg, s, a)
  {
    if (a.Lookup? || a.Finish?) && Next(cfg, s, a).callers[a.id].Returned?
    then Some(Next(cfg, s, a).callers[a.id].client) else None
  }

  /** A section that stamps finds the clock past every stamp held. */
  predicate Advances(cfg: Config, s: State, a: Action)
    requires Enabled(cfg, s, a)
  {
    OpOf(cfg, s, a).Some? && (a.Lookup? || a.Finish?) ==>
      forall d :: d in s.reg.clients ==> s.reg.clients[d].lastUsed < a.now
  }

  predicate StrictClock(cfg: Config, s: State, run: seq<Action>)
    requires Legal(cfg, s, run)
    decreases |run|
  {
    run == [] || (Advances(cfg, s, run[0]) && StrictClock(cfg, Next(cfg, s, run[0]), run[1..]))
  }

  function Ops(cfg: Config, s: State, run: seq<Action>): seq<Op>
    requires Legal(cfg, s, run)
    decreases |run|
  {
    if run == [] then []
    else
      var rest := Ops(cfg, Next(cfg, s, run[0]), run[1..]);
      match OpOf(cfg, s, run[0]) case Some(op) => [op] + rest case None => rest
  }

  /** The answers at the linearization points. */
  function Answers(cfg: Config, s: State, run: seq<Action>): seq<Option<Client>>
    requires Legal(cfg, s, run)
    decreases |run|
  {
    if run == [] then []
    else
      var rest := Answers(cfg, Next(cfg, s, run[0]), run[1..]);
      if OpOf(cfg, s, run[0]).Some? then [AnswerOf(cfg, s, run[0])] + rest else rest
  }

  function Replay(cfg: Config, l: Recency, ops: seq<Op>): (Recency, seq<Option<Client>>)
    decreases |ops|
  {
    if ops == [] then (l, [])
    else
      var (l1, answer) := Apply(cfg.maxEntries, cfg.threshold, l, ops[0]);
      var (l2, answers) := Replay(cfg, l1, ops[1..]);
      (l2, [answer] + answers)
  }

  ghost predicate VictimsOk(cfg: Config, strict: bool, l: Recency, ops: seq<Op>)
    decreases |ops|
  {
    ops == [] ||
    (&& VictimOk(strict, cfg.maxEntries, l, ops[0])
     && VictimsOk(cfg, strict, Apply(cfg.maxEntries, cfg.threshold, l, ops[0]).0, ops[1..]))
  }

  lemma StutterStep(cfg: Config, s: State, a: Action)
    requires Inv(cfg, s) && Enabled(cfg, s, a) && OpOf(cfg, s, a).None?
    ensures Next(cfg, s, a).reg == s.reg && AnswerOf(cfg, s, a).None?
  {
  }

  /** The action and its operation lead to matching states, with the same answer and a fair victim. */
  ghost predicate StepRefines(cfg: Config, strict: bool, s: State, a: Action, l: Recency)
    requires Enabled(cfg, s, a) && OpOf(cfg, s, a).Some?
  {
    var op := OpOf(cfg, s, a).value;
    && Sim(strict, Next(cfg, s, a).reg.clients, Apply(cfg.maxEntries, cfg.threshold, l, op).0)
    && AnswerOf(cfg, s, a) == Apply(cfg.maxEntries, cfg.threshold, l, op).1
    && VictimOk(strict, cfg.maxEntries, l, op)
  }

  lemma HitStep(cfg: Config, strict: bool, s: State, a: Action, l: Recency)
    requires EntriesOk(cfg, s) && Enabled(cfg, s, a) && Sim(strict, s.reg.clients, l)
    requires (a.Lookup? || a.Finish?) && (strict ==> Advances(cfg, s, a))
    requires OpOf(cfg, s, a).Some? && OpOf(cfg, s, a).value.digest in s.reg.clients
    ensures StepRefines(cfg, strict, s, a, l)
  {
    var op := OpOf(cfg, s, a).value;
    SimHit(strict, cfg.maxEntries, cfg.threshold, s.reg.clients, l, op);
    assert Next(cfg, s, a).reg.clients == Touched(s.reg.clients, op.digest, op.now);
  }

  lemma InsertStep(cfg: Config, strict: bool, s: State, a: Action, l: Recency)
    requires Inv(cfg, s) && Enabled(cfg, s, a) && Sim(strict, s.reg.clients, l)
    requires a.Finish? && s.callers[a.id].call.digest !in s.reg.clients && (strict ==> Advances(cfg, s, a))
    ensures StepRefines(cfg, strict, s, a, l)
  {
    var op := OpOf(cfg, s, a).value;
    assert FreshEntry(s.callers[a.id], a.now) == ClientEntry(op.built.value, op.credKeys, op.now);
    SimInsert(strict, cfg.maxEntries, cfg.threshold, s.reg, l, op);
  }

  lemma ExpireStep(cfg: Config, strict: bool, s: State, a: Action, l: Recency)
    requires Enabled(cfg, s, a) && Sim(strict, s.reg.clients, l) && a.SweepIdle?
    ensures StepRefines(cfg, strict, s, a, l)
  {
    SimExpire(strict, s.reg, l, a.now, cfg.threshold);
  }

  lemma ForgetStep(cfg: Config, strict: bool, s: State, a: Action, l: Recency)
    requires Enabled(cfg, s, a) && Sim(strict, s.reg.clients, l) && ScopeOf(cfg, a).Some?
    ensures StepRefines(cfg, strict, s, a, l)
  {
    SimForget(strict, s.reg, l, ScopeOf(cfg, a).value);
  }

  lemma SimStep(cfg: Config, strict: bool, s: State, a: Action, l: Recency)
    requires Inv(cfg, s) && Enabled(cfg, s, a) && Sim(strict, s.reg.clients, l)
    requires OpOf(cfg, s, a).Some? && (strict ==> Advances(cfg, s, a))
    ensures StepRefines(cfg, strict, s, a, l)
  {
    if a.Finish? && s.callers[a.id].call.digest !in s.reg.clients {
      InsertStep(cfg, strict, s, a, l);
    } else if a.Lookup? || a.Finish? {
      HitStep(cfg, strict, s, a, l);
    } else if a.SweepIdle? {
      ExpireStep(cfg, strict, s, a, l);
    } else {
      ForgetStep(cfg, strict, s, a, l);
    }
  }

  lemma {:induction false} RunRefines(cfg: Config, strict: bool, s: State, run: seq<Action>, l: Recency)
    requires Inv(cfg, s) && Legal(cfg, s, run) && Sim(strict, s.reg.clients, l)
    requires strict ==> StrictClock(cfg, s, run)
    ensures Sim(strict, Run(cfg, s, run).reg.clients, Replay(cfg, l, Ops(cfg, s, run)).0)
    ensures Answers(cfg, s, run) == Replay(cfg, l, Ops(cfg, s, run)).1
    ensures VictimsOk(cfg, strict, l, Ops(cfg, s, run))
    decreases |run|
  {
    if run != [] {
      var s' := Next(cfg, s, run[0]);
      var rest := Ops(cfg, s', run[1..]);
      StepKeeps(cfg, s, run[0]);
      if OpOf(cfg, s, run[0]).Some? {
        var op := OpOf(cfg, s, run[0]).value;
        SimStep(cfg, strict, s, run[0], l);
        RunRefines(cfg, strict, s', run[1..], Apply(cfg.maxEntries, cfg.threshold, l, op).0);
        assert ([op] + rest)[1..] == rest;
      } else {
        StutterStep(cfg, s, run[0]);
        RunRefines(cfg, strict, s', run[1..], l);
      }
    }
  }

  /**
   Under every interleaving the registry is the atomic cache run on the calls' last sections: the
   same answers, the same entries, every victim among the entries that tie for oldest.
   */
  lemma Linearizable(cfg: Config, run: seq<Action>)
    requires Legal(cfg, INIT, run)
    ensures var ops := Ops(cfg, INIT, run);
      && Sim(false, Run(cfg, INIT, run).reg.clients, Replay(cfg, [], ops).0)
      && Answers(cfg, INIT, run) == Replay(cfg, [], ops).1
      && VictimsOk(cfg, false, [], ops)
  {
    InitInv(cfg);
    RunRefines(cfg, false, INIT, run, []);
  }

  /** With a clock that moves between stamps the victim is always the head of the recency list. */
  lemma LinearizableLru(cfg: Config, run: seq<Action>)
    requires Legal(cfg, INIT, run) && StrictClock(cfg, INIT, run)
    ensures var ops := Ops(cfg, INIT, run);
      && Sim(true, Run(cfg, INIT, run).reg.clients, Replay(cfg, [], ops).0)
      && Answers(cfg, INIT, run) == Replay(cfg, [], ops).1
      && VictimsOk(cfg, true, [], ops)
  {
    InitInv(cfg);
    RunRefines(cfg, true, INIT, run, []);
  }
}
