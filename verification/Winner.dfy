/**
 Which calls for one digest share a client: on every run, exactly those that return with no removal
 of the digest logged in between.
 */
module Winner {
  import opened Base
  import opened Registry
  import opened Protocol

  /** The log says that `d` was removed, somewhere after the first `n` events. */
  predicate RemovedSince(log: seq<Event>, n: nat, d: CredDigest) {
    exists i :: n <= i < |log| && log[i].Dropped? && d in log[i].digests
  }

  ghost predicate HeldAs(s: State, d: CredDigest, c: Client) {
    d in s.reg.clients && s.reg.clients[d].client == c
  }

  lemma LogGrows(cfg: Config, s: State, a: Action)
    requires Enabled(cfg, s, a)
    ensures |s.log| <= |Next(cfg, s, a).log| && Next(cfg, s, a).log[..|s.log|] == s.log
  {
  }

  /** An eviction or a sweep logs what it removes. */
  lemma DropLogged(cfg: Config, s: State, a: Action, d: CredDigest)
    requires Enabled(cfg, s, a) && (a.SweepIdle? || ScopeOf(cfg, a).Some?) && d in s.reg.clients
    requires !RemovedSince(Next(cfg, s, a).log, |s.log|, d)
    ensures d in Next(cfg, s, a).reg.clients
  {
    var s' := Next(cfg, s, a);
    assert s'.log[|s.log|] == Dropped(s.reg.clients.Keys - s'.reg.clients.Keys);
  }

  lemma StillHeld(cfg: Config, s: State, a: Action, d: CredDigest)
    requires Inv(cfg, s) && Enabled(cfg, s, a) && d in s.reg.clients
    requires !RemovedSince(Next(cfg, s, a).log, |s.log|, d)
    ensures d in Next(cfg, s, a).reg.clients
  {
    if a.Finish? && s.callers[a.id].call.digest !in s.reg.clients {
      InsertDrops(cfg, s, a.id, a.now, a.victim, d);
    } else if a.SweepIdle? || ScopeOf(cfg, a).Some? {
      DropLogged(cfg, s, a, d);
    }
  }

  /** A held entry keeps its client over a step that does not log its removal. */
  lemma HeldStays(cfg: Config, s: State, a: Action, d: CredDigest, c: Client)
    requires Inv(cfg, s) && Enabled(cfg, s, a) && HeldAs(s, d, c)
    requires !RemovedSince(Next(cfg, s, a).log, |s.log|, d)
    ensures HeldAs(Next(cfg, s, a), d, c)
  {
    StillHeld(cfg, s, a, d);
    StepEntry(cfg, s, a, d);
  }

  /** An inserting section without a logged removal of `d` leaves `d` held if it was or is inserted. */
  lemma InsertDrops(cfg: Config, s: State, id: nat, now: nat, victim: CredDigest, d: CredDigest)
    requires Inv(cfg, s) && Enabled(cfg, s, Finish(id, now, victim))
    requires s.callers[id].call.digest !in s.reg.clients
    requires !RemovedSince(InsertFresh(cfg, s, id, now, victim).log, |s.log|, d)
    ensures var s', call := InsertFresh(cfg, s, id, now, victim), s.callers[id].call;
      && (d == call.digest ==> HeldAs(s', d, s.callers[id].client))
      && (d != call.digest && d in s.reg.clients ==> HeldAs(s', d, s.reg.clients[d].client))
  {
    var s' := InsertFresh(cfg, s, id, now, victim);
    var full := |s.reg.clients[s.callers[id].call.digest := FreshEntry(s.callers[id], now)]| > cfg.maxEntries;
    if full {
      assert s'.log[|s.log| + 1] == Dropped({victim});
      assert victim != d;
    }
  }

  /** `id` returns at this step, for `d`. */
  predicate ReturnsNow(cfg: Config, s: State, a: Action, id: nat, d: CredDigest)
    requires Enabled(cfg, s, a)
  {
    && (a.Lookup? || a.Finish?) && a.id == id && s.callers[id].call.digest == d
    && Next(cfg, s, a).callers[id].Returned?
  }

  /** A return hands out the held client if there is one, and leaves its own client held. */
  lemma ReturnHolds(cfg: Config, s: State, a: Action, id: nat, d: CredDigest)
    requires Inv(cfg, s) && Enabled(cfg, s, a) && ReturnsNow(cfg, s, a, id, d)
    ensures d in s.reg.clients ==> Next(cfg, s, a).callers[id].client == s.reg.clients[d].client
    ensures !RemovedSince(Next(cfg, s, a).log, |s.log|, d) ==>
              HeldAs(Next(cfg, s, a), d, Next(cfg, s, a).callers[id].client)
  {
    if a.Finish? && d !in s.reg.clients && !RemovedSince(Next(cfg, s, a).log, |s.log|, d) {
      InsertDrops(cfg, s, a.id, a.now, a.victim, d);
    }
  }

  /** A returned call returned at the step its phase says, and has stayed as it was. */
  lemma {:induction false} ReturnStep(cfg: Config, run: seq<Action>, n: nat, id: nat)
    requires Legal(cfg, INIT, run) && n <= |run|
    requires id in StateAt(cfg, run, n).callers && StateAt(cfg, run, n).callers[id].Returned?
    ensures var r := StateAt(cfg, run, n).callers[id];
      && r.at < n && Enabled(cfg, StateAt(cfg, run, r.at), run[r.at])
      && ReturnsNow(cfg, StateAt(cfg, run, r.at), run[r.at], id, r.call.digest)
      && Next(cfg, StateAt(cfg, run, r.at), run[r.at]).callers[id] == r
  {
    PrefixLegal(cfg, run, n - 1);
    var s := StateAt(cfg, run, n - 1);
    StateStep(cfg, run, n - 1);
    if id in s.callers && s.callers[id].Returned? {
      ReturnedStays(cfg, s, run[n - 1], id);
      ReturnStep(cfg, run, n - 1, id);
    } else {
      ReturnBegins(cfg, s, run[n - 1], id);
    }
  }

  lemma ReturnedStays(cfg: Config, s: State, a: Action, id: nat)
    requires Enabled(cfg, s, a) && id in s.callers && s.callers[id].Returned?
    ensures Next(cfg, s, a).callers[id] == s.callers[id]
  {
  }

  lemma ReturnBegins(cfg: Config, s: State, a: Action, id: nat)
    requires Enabled(cfg, s, a) && id in Next(cfg, s, a).callers && Next(cfg, s, a).callers[id].Returned?
    requires !(id in s.callers && s.callers[id].Returned?)
    ensures ReturnsNow(cfg, s, a, id, Next(cfg, s, a).callers[id].call.digest)
    ensures Next(cfg, s, a).callers[id].at == s.step
  {
  }

  lemma StateStep(cfg: Config, run: seq<Action>, n: nat)
    requires Legal(cfg, INIT, run) && n <= |run|
    ensures StateAt(cfg, run, n).step == n && Inv(cfg, StateAt(cfg, run, n))
  {
    PrefixLegal(cfg, run, n);
    InitInv(cfg);
    RunKeeps(cfg, INIT, run[..n]);
  }

  lemma {:induction false} LogPrefix(cfg: Config, run: seq<Action>, from: nat, to: nat)
    requires Legal(cfg, INIT, run) && from <= to <= |run|
    ensures |StateAt(cfg, run, from).log| <= |StateAt(cfg, run, to).log|
    ensures StateAt(cfg, run, to).log[..|StateAt(cfg, run, from).log|] == StateAt(cfg, run, from).log
  {
    if from < to {
      LogPrefix(cfg, run, from, to - 1);
      PrefixLegal(cfg, run, to - 1);
      LogGrows(cfg, StateAt(cfg, run, to - 1), run[to - 1]);
    }
  }

  /** The call that built `c` has returned. */
  predicate Spent(s: State, c: Client) {
    c.builder in s.callers && s.callers[c.builder].Returned?
  }

  /** Clients held or handed out were built by calls that have returned. */
  ghost predicate AllSpent(s: State) {
    && (forall d :: d in s.reg.clients ==> Spent(s, s.reg.clients[d].client))
    && (forall id :: id in s.callers && s.callers[id].Returned? ==> Spent(s, s.callers[id].client))
  }

  lemma SpentStays(cfg: Config, s: State, a: Action, c: Client)
    requires Enabled(cfg, s, a) && Spent(s, c)
    ensures Spent(Next(cfg, s, a), c)
  {
    ReturnedStays(cfg, s, a, c.builder);
  }

  /** The client a step hands out was held, or is the own client of a call that returns with it. */
  lemma HandedOut(cfg: Config, s: State, a: Action, id: nat)
    requires Inv(cfg, s) && Enabled(cfg, s, a) && id in Next(cfg, s, a).callers
    requires Next(cfg, s, a).callers[id].Returned? && !(id in s.callers && s.callers[id].Returned?)
    ensures var c := Next(cfg, s, a).callers[id].client;
      || (exists d :: d in s.reg.clients && s.reg.clients[d].client == c)
      || (c.builder == id && a.Finish? && a.id == id)
  {
    assert PhaseOk(cfg, s, id, s.callers[id]);
  }

  /** The client an entry has after a step was held before, or is the finishing call's own. */
  lemma HeldFrom(cfg: Config, s: State, a: Action, d: CredDigest)
    requires Inv(cfg, s) && Enabled(cfg, s, a) && d in Next(cfg, s, a).reg.clients
    ensures var c := Next(cfg, s, a).reg.clients[d].client;
      || HeldAs(s, d, c)
      || (a.Finish? && c.builder == a.id && Next(cfg, s, a).callers[a.id].Returned?)
  {
    StepEntry(cfg, s, a, d);
    if a.Finish? { assert PhaseOk(cfg, s, a.id, s.callers[a.id]); }
  }

  lemma AllSpentStep(cfg: Config, s: State, a: Action)
    requires Inv(cfg, s) && Enabled(cfg, s, a) && AllSpent(s)
    ensures AllSpent(Next(cfg, s, a))
  {
    var s' := Next(cfg, s, a);
    forall d | d in s'.reg.clients ensures Spent(s', s'.reg.clients[d].client) {
      HeldFrom(cfg, s, a, d);
      if HeldAs(s, d, s'.reg.clients[d].client) { SpentStays(cfg, s, a, s'.reg.clients[d].client); }
    }
    forall id | id in s'.callers && s'.callers[id].Returned? ensures Spent(s', s'.callers[id].client) {
      if id in s.callers && s.callers[id].Returned? {
        ReturnedStays(cfg, s, a, id);
        SpentStays(cfg, s, a, s.callers[id].client);
      } else {
        HandedOut(cfg, s, a, id);
        if d :| d in s.reg.clients && s.reg.clients[d].client == s'.callers[id].client {
          SpentStays(cfg, s, a, s'.callers[id].client);
        }
      }
    }
  }

  lemma {:induction false} AllSpentAt(cfg: Config, run: seq<Action>, n: nat)
    requires Legal(cfg, INIT, run) && n <= |run|
    ensures AllSpent(StateAt(cfg, run, n))
  {
    if n > 0 {
      AllSpentAt(cfg, run, n - 1);
      PrefixLegal(cfg, run, n - 1);
      StateStep(cfg, run, n - 1);
      AllSpentStep(cfg, StateAt(cfg, run, n - 1), run[n - 1]);
    }
  }

  /** `c` is held nowhere, and its builder has returned: it is never held or handed out again. */
  ghost predicate Lost(s: State, c: Client) {
    Spent(s, c) && forall d :: d in s.reg.clients ==> s.reg.clients[d].client != c
  }

  lemma LostStays(cfg: Config, s: State, a: Action, c: Client)
    requires Inv(cfg, s) && Enabled(cfg, s, a) && Lost(s, c)
    ensures Lost(Next(cfg, s, a), c)
  {
    var s' := Next(cfg, s, a);
    SpentStays(cfg, s, a, c);
    forall d | d in s'.reg.clients ensures s'.reg.clients[d].client != c {
      HeldFrom(cfg, s, a, d);
    }
  }

  lemma LostNotReturned(cfg: Config, s: State, a: Action, id: nat, d: CredDigest, c: Client)
    requires Inv(cfg, s) && Enabled(cfg, s, a) && Lost(s, c) && ReturnsNow(cfg, s, a, id, d)
    ensures Next(cfg, s, a).callers[id].client != c
  {
    HandedOut(cfg, s, a, id);
  }

  lemma InsertOut(cfg: Config, s: State, id: nat, now: nat, victim: CredDigest, i: nat, d: CredDigest)
    requires id in s.callers && s.callers[id].Built?
    requires var log := InsertFresh(cfg, s, id, now, victim).log;
      |s.log| <= i < |log| && log[i].Dropped? && d in log[i].digests
    ensures d !in InsertFresh(cfg, s, id, now, victim).reg.clients
  {
    assert InsertFresh(cfg, s, id, now, victim).log[i] == Dropped({victim});
  }

  /** A step that logs the removal of `d` leaves `d` out. */
  lemma RemovedIsOut(cfg: Config, s: State, a: Action, d: CredDigest)
    requires Inv(cfg, s) && Enabled(cfg, s, a) && RemovedSince(Next(cfg, s, a).log, |s.log|, d)
    ensures d !in Next(cfg, s, a).reg.clients
  {
    var s' := Next(cfg, s, a);
    var i :| |s.log| <= i < |s'.log| && s'.log[i].Dropped? && d in s'.log[i].digests;
    if a.Finish? && s.callers[a.id].call.digest !in s.reg.clients {
      InsertOut(cfg, s, a.id, a.now, a.victim, i, d);
    } else if a.SweepIdle? || ScopeOf(cfg, a).Some? {
      assert s'.log[i] == Dropped(s.reg.clients.Keys - s'.reg.clients.Keys);
    }
  }

  /** What becomes of a client of `d`: held while no removal is logged, and lost from then on. */
  ghost predicate HeldOrLost(s: State, n: nat, d: CredDigest, c: Client) {
    && c.call.digest == d && Spent(s, c)
    && (if RemovedSince(s.log, n, d) then Lost(s, c) else HeldAs(s, d, c))
  }

  lemma OutIsLost(cfg: Config, s: State, d: CredDigest, c: Client)
    requires Inv(cfg, s) && Spent(s, c) && c.call.digest == d && d !in s.reg.clients
    ensures Lost(s, c)
  {
  }

  lemma HeldOrLostStep(cfg: Config, s: State, a: Action, n: nat, d: CredDigest, c: Client)
    requires Inv(cfg, s) && Enabled(cfg, s, a) && HeldOrLost(s, n, d, c) && n <= |s.log|
    ensures HeldOrLost(Next(cfg, s, a), n, d, c)
  {
    var s' := Next(cfg, s, a);
    LogGrows(cfg, s, a);
    SpentStays(cfg, s, a, c);
    if RemovedSince(s.log, n, d) {
      MoreRemovals(s.log, s'.log, n, d);
      LostStays(cfg, s, a, c);
    } else if RemovedSince(s'.log, |s.log|, d) {
      StepKeeps(cfg, s, a);
      LaterRemovals(s'.log, n, |s.log|, d);
      RemovedIsOut(cfg, s, a, d);
      OutIsLost(cfg, s', d, c);
    } else {
      NoRemovals(s.log, s'.log, n, d);
      HeldStays(cfg, s, a, d, c);
    }
  }

  lemma MoreRemovals(log: seq<Event>, longer: seq<Event>, n: nat, d: CredDigest)
    requires |log| <= |longer| && longer[..|log|] == log && RemovedSince(log, n, d)
    ensures RemovedSince(longer, n, d)
  {
    var i :| n <= i < |log| && log[i].Dropped? && d in log[i].digests;
    assert longer[i] == log[i];
  }

  lemma LaterRemovals(log: seq<Event>, n: nat, m: nat, d: CredDigest)
    requires n <= m && RemovedSince(log, m, d)
    ensures RemovedSince(log, n, d)
  {
  }

  lemma NoRemovals(log: seq<Event>, longer: seq<Event>, n: nat, d: CredDigest)
    requires |log| <= |longer| && longer[..|log|] == log && n <= |log|
    requires !RemovedSince(log, n, d) && !RemovedSince(longer, |log|, d)
    ensures !RemovedSince(longer, n, d)
  {
    forall i | n <= i < |longer| ensures !(longer[i].Dropped? && d in longer[i].digests) {
      if i < |log| { assert longer[i] == log[i]; }
    }
  }

  lemma HeldOrLostNext(cfg: Config, run: seq<Action>, k: nat, n: nat, d: CredDigest, c: Client)
    requires Legal(cfg, INIT, run) && k < |run|
    requires n <= |StateAt(cfg, run, k).log| && HeldOrLost(StateAt(cfg, run, k), n, d, c)
    ensures HeldOrLost(StateAt(cfg, run, k + 1), n, d, c)
  {
    PrefixLegal(cfg, run, k);
    StateStep(cfg, run, k);
    HeldOrLostStep(cfg, StateAt(cfg, run, k), run[k], n, d, c);
  }

  lemma {:induction false} HeldOrLostThrough(
    cfg: Config, run: seq<Action>, from: nat, to: nat, n: nat, d: CredDigest, c: Client)
    requires Legal(cfg, INIT, run) && from <= to <= |run|
    requires n <= |StateAt(cfg, run, from).log| && HeldOrLost(StateAt(cfg, run, from), n, d, c)
    ensures HeldOrLost(StateAt(cfg, run, to), n, d, c)
  {
    if from < to {
      HeldOrLostThrough(cfg, run, from, to - 1, n, d, c);
      LogPrefix(cfg, run, from, to - 1);
      HeldOrLostNext(cfg, run, to - 1, n, d, c);
    }
  }

  /** A return leaves its client held, or lost if its own section logged the removal. */
  lemma ReturnHeldOrLost(cfg: Config, s: State, a: Action, id: nat, d: CredDigest, s': State)
    requires Enabled(cfg, s, a) && s' == Next(cfg, s, a) && id in s'.callers && s'.callers[id].Returned?
    requires Inv(cfg, s) && ReturnsNow(cfg, s, a, id, d) && Inv(cfg, s') && AllSpent(s')
    ensures HeldOrLost(s', |s.log|, d, s'.callers[id].client)
  {
    ReturnHolds(cfg, s, a, id, d);
    assert PhaseOk(cfg, s', id, s'.callers[id]);
    if RemovedSince(s'.log, |s.log|, d) {
      RemovedIsOut(cfg, s, a, d);
      OutIsLost(cfg, s', d, s'.callers[id].client);
    }
  }

  lemma ReturnBeginsHold(cfg: Config, run: seq<Action>, at: nat, id: nat, d: CredDigest)
    requires Legal(cfg, INIT, run) && at < |run| && Enabled(cfg, StateAt(cfg, run, at), run[at])
    requires ReturnsNow(cfg, StateAt(cfg, run, at), run[at], id, d)
    ensures var s := StateAt(cfg, run, at); var s' := StateAt(cfg, run, at + 1);
      s' == Next(cfg, s, run[at]) && |s.log| <= |s'.log| && HeldOrLost(s', |s.log|, d, s'.callers[id].client)
  {
    var s, s' := StateAt(cfg, run, at), StateAt(cfg, run, at + 1);
    PrefixLegal(cfg, run, at);
    StateStep(cfg, run, at);
    StateStep(cfg, run, at + 1);
    AllSpentAt(cfg, run, at + 1);
    LogGrows(cfg, s, run[at]);
    ReturnHeldOrLost(cfg, s, run[at], id, d, s');
  }

  /** A removal of `d` is logged from the section of step `from` on, before that of step `to`. */
  predicate RemovedBetween(cfg: Config, run: seq<Action>, from: nat, to: nat, d: CredDigest)
    requires Legal(cfg, INIT, run)
  {
    from < to <= |run| && RemovedSince(StateAt(cfg, run, to).log, |StateAt(cfg, run, from).log|, d)
  }

  /**
   Two calls for one digest get the same client if and only if no removal of the digest is logged
   between their returns, whether they hit, built or lost the race, and whatever becomes of the
   entry later.
   */
  lemma SameClientExactly(cfg: Config, run: seq<Action>, s: State, id1: nat, id2: nat)
    requires Reaches(cfg, run, s) && id1 in s.callers && id2 in s.callers
    requires s.callers[id1].Returned? && s.callers[id2].Returned?
    requires s.callers[id1].call.digest == s.callers[id2].call.digest
    requires s.callers[id1].at <= s.callers[id2].at
    ensures s.callers[id1].client == s.callers[id2].client
       <==> !RemovedBetween(cfg, run, s.callers[id1].at, s.callers[id2].at, s.callers[id1].call.digest)
  {
    var r1, r2, d := s.callers[id1], s.callers[id2], s.callers[id1].call.digest;
    assert run[..|run|] == run;
    ReturnStep(cfg, run, |run|, id1);
    ReturnStep(cfg, run, |run|, id2);
    if r1.at < r2.at {
      ReturnBeginsHold(cfg, run, r1.at, id1, d);
      HeldOrLostThrough(cfg, run, r1.at + 1, r2.at, |StateAt(cfg, run, r1.at).log|, d, r1.client);
      SecondReturn(cfg, run, r2.at, id2, |StateAt(cfg, run, r1.at).log|, d, r1.client);
    }
  }

  lemma SecondReturn(cfg: Config, run: seq<Action>, at: nat, id: nat, n: nat, d: CredDigest, c: Client)
    requires Legal(cfg, INIT, run) && at < |run| && Enabled(cfg, StateAt(cfg, run, at), run[at])
    requires ReturnsNow(cfg, StateAt(cfg, run, at), run[at], id, d)
    requires HeldOrLost(StateAt(cfg, run, at), n, d, c)
    ensures Next(cfg, StateAt(cfg, run, at), run[at]).callers[id].client == c
       <==> !RemovedSince(StateAt(cfg, run, at).log, n, d)
  {
    var s := StateAt(cfg, run, at);
    StateStep(cfg, run, at);
    ReturnHolds(cfg, s, run[at], id, d);
    if RemovedSince(s.log, n, d) {
      LostNotReturned(cfg, s, run[at], id, d, c);
    }
  }
}
