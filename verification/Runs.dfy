/** What holds over whole runs of the protocol: every interleaving, from the empty registry. */
module Runs {
  import opened Base
  import opened Registry
  import opened Protocol

  /** At most `max_entries` entries, and inserts equal entries held plus every eviction counted. */
  lemma BoundAndConservation(cfg: Config, run: seq<Action>, s: State)
    requires Reaches(cfg, run, s)
    ensures |s.reg.clients| <= cfg.maxEntries
    ensures s.reg.inserts == |s.reg.clients| + s.reg.lru + s.reg.revoked + s.reg.rotated + s.reg.idle
  {
    ReachableInv(cfg, run, s);
  }

  /** A held or handed-out client is pinned to an address the rebinding guard allows. */
  lemma PinnedAddresses(cfg: Config, run: seq<Action>, s: State)
    requires Reaches(cfg, run, s) && !cfg.allowPrivate
    ensures forall d :: d in s.reg.clients ==> !cfg.isPrivate(s.reg.clients[d].client.address)
    ensures forall id :: id in s.callers && s.callers[id].Returned? ==>
              !cfg.isPrivate(s.callers[id].client.address)
  {
    ReachableInv(cfg, run, s);
    forall id | id in s.callers && s.callers[id].Returned?
      ensures !cfg.isPrivate(s.callers[id].client.address)
    {
      assert PhaseOk(cfg, s, id, s.callers[id]);
    }
  }

  /** A call is answered with a client whose own call had the same digest. */
  lemma AnswersMatchDigest(cfg: Config, run: seq<Action>, s: State, id: nat)
    requires Reaches(cfg, run, s) && id in s.callers && s.callers[id].Returned?
    ensures s.callers[id].client.call.digest == s.callers[id].call.digest
    ensures s.callers[id].client.call.credKeys == s.callers[id].credKeys
  {
    ReachableInv(cfg, run, s);
    assert PhaseOk(cfg, s, id, s.callers[id]);
  }

  /**
   However many calls built for one digest, those that returned since the held entry was inserted
   all have that entry's client, whether they hit, built or lost the race to insert.
   */
  lemma OneSurvivingWinner(cfg: Config, run: seq<Action>, s: State, d: CredDigest, id1: nat, id2: nat)
    requires Reaches(cfg, run, s) && d in s.reg.clients && d in s.born
    requires forall id :: id in {id1, id2} ==>
               && id in s.callers && s.callers[id].Returned?
               && s.callers[id].call.digest == d && s.born[d] <= s.callers[id].at
    ensures s.callers[id1].client == s.callers[id2].client == s.reg.clients[d].client
  {
    ReachableInv(cfg, run, s);
    assert id1 in {id1, id2} && id2 in {id1, id2};
  }

  // ----- repeat use -----

  /**
   After a call inserts with room to spare, or while an older stamp is held, an immediate repeat of
   the call is a hit on the same client, whichever victim was picked.
   */
  lemma ImmediateRepeatHits(
    cfg: Config, run: seq<Action>, s: State, id: nat, now: nat, victim: CredDigest, again: nat, later: nat)
    requires Reaches(cfg, run, s)
    requires Enabled(cfg, s, Finish(id, now, victim)) && again !in s.callers && now <= later
    requires s.callers[id].call.digest !in s.reg.clients
    requires |s.reg.clients| < cfg.maxEntries || exists k :: k in s.reg.clients && s.reg.clients[k].lastUsed < now
    ensures var s' := Next(cfg, Next(cfg, s, Finish(id, now, victim)), Resolve(again, s.callers[id].call));
      && Enabled(cfg, s', Lookup(again, later))
      && Next(cfg, s', Lookup(again, later)).callers[again].Returned?
      && Next(cfg, s', Lookup(again, later)).callers[again].client == s.callers[id].client
  {
    ReachableInv(cfg, run, s);
    var e := FreshEntry(s.callers[id], now);
    FreshEntrySurvives(s.reg, cfg.maxEntries, s.callers[id].call.digest, e);
    InsertSize(s.reg, cfg.maxEntries, s.callers[id].call.digest, e, victim);
  }

  // ----- idle age -----

  /** No section runs later than `gap` after the last sweep, or after the start. */
  predicate SweptEvery(cfg: Config, s: State, run: seq<Action>, gap: nat)
    requires Legal(cfg, s, run)
    decreases |run|
  {
    run == [] ||
    (&& (run[0].Lookup? || run[0].Finish? || run[0].SweepIdle? ==> run[0].now <= s.lastSweep + gap)
     && SweptEvery(cfg, Next(cfg, s, run[0]), run[1..], gap))
  }

  lemma {:induction false} SweptEveryClock(cfg: Config, s: State, run: seq<Action>, gap: nat)
    requires Legal(cfg, s, run) && SweptEvery(cfg, s, run, gap) && s.clock <= s.lastSweep + gap
    ensures Run(cfg, s, run).clock <= Run(cfg, s, run).lastSweep + gap
    decreases |run|
  {
    if run != [] {
      SweptEveryClock(cfg, Next(cfg, s, run[0]), run[1..], gap);
    }
  }

  /**
   In a run whose sweeps are at most `gap` apart, no entry is older than the idle threshold plus
   `gap` at any section, nor up to the last moment the next sweep may wait for.
   */
  lemma SweptRunsStayYoung(cfg: Config, run: seq<Action>, s: State, gap: nat)
    requires Reaches(cfg, run, s) && SweptEvery(cfg, INIT, run, gap)
    ensures s.clock <= s.lastSweep + gap
    ensures forall d :: d in s.reg.clients ==> s.clock - s.reg.clients[d].lastUsed <= cfg.threshold + gap
    ensures forall d :: d in s.reg.clients ==> s.lastSweep + gap - s.reg.clients[d].lastUsed <= cfg.threshold + gap
  {
    SweptEveryClock(cfg, INIT, run, gap);
    ReachableInv(cfg, run, s);
  }

  /**
   With the default configuration and a sweeper that is never more than `late` behind its minute,
   no entry held at any section is older than sixteen minutes plus `late`.
   */
  lemma DefaultIdleAge(cfg: Config, run: seq<Action>, s: State, late: nat)
    requires cfg.threshold == IdleThreshold(DEFAULT_IDLE_MILLIS)
    requires Reaches(cfg, run, s) && SweptEvery(cfg, INIT, run, 60 * 1000 + late)
    ensures forall d :: d in s.reg.clients ==> s.clock - s.reg.clients[d].lastUsed <= 16 * 60 * 1000 + late
  {
    SweptRunsStayYoung(cfg, run, s, 60 * 1000 + late);
  }

  /** With the default configuration a sweep keeps exactly what was used in the last fifteen minutes. */
  lemma DefaultSweepKeeps(cfg: Config, run: seq<Action>, s: State, now: nat, d: CredDigest)
    requires cfg.threshold == IdleThreshold(DEFAULT_IDLE_MILLIS)
    requires Reaches(cfg, run, s) && s.clock <= now && d in s.reg.clients
    ensures d in Next(cfg, s, SweepIdle(now)).reg.clients <==> now - s.reg.clients[d].lastUsed <= 15 * 60 * 1000
  {
    ReachableInv(cfg, run, s);
  }

  // ----- the event log -----

  function Touches(e: Event, d: CredDigest): seq<bool> {
    match e
    case Inserted(digest) => if digest == d then [true] else []
    case Dropped(digests) => if d in digests then [false] else []
  }

  /** The inserts (true) and removals (false) of one digest, in order. */
  function History(log: seq<Event>, d: CredDigest): seq<bool> {
    if log == [] then [] else History(log[..|log| - 1], d) + Touches(log[|log| - 1], d)
  }

  function InsertCount(log: seq<Event>): nat {
    if log == [] then 0
    else InsertCount(log[..|log| - 1]) + if log[|log| - 1].Inserted? then 1 else 0
  }

  function DropCount(log: seq<Event>): nat {
    if log == [] then 0
    else DropCount(log[..|log| - 1]) + if log[|log| - 1].Dropped? then |log[|log| - 1].digests| else 0
  }

  /** Inserts and removals strictly alternate, starting with an insert. */
  predicate Alternates(h: seq<bool>) {
    forall i :: 0 <= i < |h| ==> (h[i] <==> i % 2 == 0)
  }

  predicate DigestLogOk(s: State, d: CredDigest) {
    Alternates(History(s.log, d)) && (d in s.reg.clients <==> |History(s.log, d)| % 2 == 1)
  }

  ghost predicate LogOk(s: State) {
    && (forall d :: DigestLogOk(s, d))
    && InsertCount(s.log) == s.reg.inserts
    && DropCount(s.log) == s.reg.lru + s.reg.revoked + s.reg.rotated + s.reg.idle
  }

  lemma LogSnoc(log: seq<Event>, e: Event, d: CredDigest)
    ensures History(log + [e], d) == History(log, d) + Touches(e, d)
    ensures InsertCount(log + [e]) == InsertCount(log) + if e.Inserted? then 1 else 0
    ensures DropCount(log + [e]) == DropCount(log) + if e.Dropped? then |e.digests| else 0
  {
    assert (log + [e])[..|log + [e]| - 1] == log;
  }

  lemma AlternatesSnoc(h: seq<bool>, b: bool)
    requires Alternates(h) && (b <==> |h| % 2 == 0)
    ensures Alternates(h + [b]) && (|h + [b]| % 2 == 1 <==> b)
  {
  }

  lemma DigestLogStep(s: State, s': State, e: Event, k: CredDigest)
    requires DigestLogOk(s, k) && s'.log == s.log + [e]
    requires Touches(e, k) == [] ==> (k in s.reg.clients <==> k in s'.reg.clients)
    requires Touches(e, k) == [true] ==> k !in s.reg.clients && k in s'.reg.clients
    requires Touches(e, k) == [false] ==> k in s.reg.clients && k !in s'.reg.clients
    ensures DigestLogOk(s', k)
  {
    LogSnoc(s.log, e, k);
    var h := History(s.log, k);
    if Touches(e, k) == [] {
      assert h + [] == h;
    } else {
      AlternatesSnoc(h, Touches(e, k)[0]);
      assert Touches(e, k) == [Touches(e, k)[0]];
    }
  }

  lemma LogInsert(s: State, s': State, d: CredDigest)
    requires LogOk(s) && d !in s.reg.clients && s'.log == s.log + [Inserted(d)]
    requires s'.reg.clients.Keys == s.reg.clients.Keys + {d}
    requires s'.reg.inserts == s.reg.inserts + 1
    requires s'.reg.lru + s'.reg.revoked + s'.reg.rotated + s'.reg.idle
          == s.reg.lru + s.reg.revoked + s.reg.rotated + s.reg.idle
    ensures LogOk(s')
  {
    forall k ensures DigestLogOk(s', k) {
      assert DigestLogOk(s, k);
      DigestLogStep(s, s', Inserted(d), k);
    }
    LogSnoc(s.log, Inserted(d), d);
  }

  lemma LogDrop(s: State, s': State, gone: set<CredDigest>)
    requires LogOk(s) && gone <= s.reg.clients.Keys && s'.log == s.log + [Dropped(gone)]
    requires s'.reg.clients.Keys == s.reg.clients.Keys - gone
    requires s'.reg.inserts == s.reg.inserts
    requires s'.reg.lru + s'.reg.revoked + s'.reg.rotated + s'.reg.idle
          == s.reg.lru + s.reg.revoked + s.reg.rotated + s.reg.idle + |gone|
    ensures LogOk(s')
  {
    forall k ensures DigestLogOk(s', k) {
      assert DigestLogOk(s, k);
      DigestLogStep(s, s', Dropped(gone), k);
    }
    LogSnoc(s.log, Dropped(gone), 0);
  }

  lemma LogSame(s: State, s': State)
    requires LogOk(s) && s'.log == s.log && s'.reg == s.reg.(clients := s'.reg.clients)
    requires s'.reg.clients.Keys == s.reg.clients.Keys
    ensures LogOk(s')
  {
    forall k ensures DigestLogOk(s', k) { assert DigestLogOk(s, k); }
  }

  lemma LogShrink(s: State, s': State)
    requires LogOk(s) && s'.reg.clients.Keys <= s.reg.clients.Keys
    requires s'.log == s.log + [Dropped(s.reg.clients.Keys - s'.reg.clients.Keys)]
    requires s'.reg.inserts == s.reg.inserts
    requires s'.reg.lru + s'.reg.revoked + s'.reg.rotated + s'.reg.idle + |s'.reg.clients|
          == s.reg.lru + s.reg.revoked + s.reg.rotated + s.reg.idle + |s.reg.clients|
    ensures LogOk(s')
  {
    SubmapSize(s.reg.clients, s'.reg.clients);
    LogDrop(s, s', s.reg.clients.Keys - s'.reg.clients.Keys);
  }

  /** The state between an insertion and the eviction that may follow it in the same section. */
  function AfterInsert(s: State, id: nat, now: nat): State
    requires id in s.callers && s.callers[id].Built?
  {
    var d := s.callers[id].call.digest;
    s.(log := s.log + [Inserted(d)],
       reg := s.reg.(clients := s.reg.clients[d := FreshEntry(s.callers[id], now)], inserts := s.reg.inserts + 1))
  }

  /** The second half of an inserting section: the eviction, or nothing. */
  lemma InsertThenDrop(cfg: Config, s: State, id: nat, now: nat, victim: CredDigest)
    requires Inv(cfg, s) && Enabled(cfg, s, Finish(id, now, victim))
    requires s.callers[id].call.digest !in s.reg.clients
    ensures var s', mid := InsertFresh(cfg, s, id, now, victim), AfterInsert(s, id, now);
      if |mid.reg.clients| > cfg.maxEntries
      then s'.log == mid.log + [Dropped({victim})] && victim in mid.reg.clients
           && s'.reg == mid.reg.(clients := mid.reg.clients - {victim}, lru := mid.reg.lru + 1)
      else s'.log == mid.log && s'.reg == mid.reg
  {
    InsertSize(s.reg, cfg.maxEntries, s.callers[id].call.digest, FreshEntry(s.callers[id], now), victim);
  }

  lemma LogFinish(cfg: Config, s: State, id: nat, now: nat, victim: CredDigest)
    requires LogOk(s) && Inv(cfg, s) && Enabled(cfg, s, Finish(id, now, victim))
    requires s.callers[id].call.digest !in s.reg.clients
    ensures LogOk(InsertFresh(cfg, s, id, now, victim))
  {
    var s', mid := InsertFresh(cfg, s, id, now, victim), AfterInsert(s, id, now);
    LogInsert(s, mid, s.callers[id].call.digest);
    InsertThenDrop(cfg, s, id, now, victim);
    if |mid.reg.clients| > cfg.maxEntries {
      LogDrop(mid, s', {victim});
    } else {
      LogSame(mid, s');
    }
  }

  lemma LogStep(cfg: Config, s: State, a: Action)
    requires LogOk(s) && Inv(cfg, s) && Enabled(cfg, s, a)
    ensures LogOk(Next(cfg, s, a))
  {
    var s' := Next(cfg, s, a);
    if a.Finish? && s.callers[a.id].call.digest !in s.reg.clients {
      LogFinish(cfg, s, a.id, a.now, a.victim);
    } else if a.SweepIdle? || ScopeOf(cfg, a).Some? {
      LogShrink(s, s');
    } else {
      assert s'.log == s.log;
      LogSame(s, s');
    }
  }

  lemma {:induction false} LogRun(cfg: Config, s: State, run: seq<Action>)
    requires LogOk(s) && Inv(cfg, s) && Legal(cfg, s, run)
    ensures LogOk(Run(cfg, s, run))
    decreases |run|
  {
    if run != [] {
      LogStep(cfg, s, run[0]);
      StepKeeps(cfg, s, run[0]);
      LogRun(cfg, Next(cfg, s, run[0]), run[1..]);
    }
  }

  lemma InitLogOk()
    ensures LogOk(INIT)
  {
    forall k ensures DigestLogOk(INIT, k) { }
  }

  lemma LogSummary(cfg: Config, s: State, d: CredDigest)
    requires LogOk(s) && Inv(cfg, s)
    ensures DigestLogOk(s, d)
    ensures InsertCount(s.log) == |s.reg.clients| + DropCount(s.log)
  {
    assert DigestLogOk(s, d);
  }

  lemma ReachableLogOk(cfg: Config, run: seq<Action>, s: State)
    requires Reaches(cfg, run, s)
    ensures LogOk(s)
  {
    InitLogOk();
    InitInv(cfg);
    LogRun(cfg, INIT, run);
  }

  /** For each digest, inserts and removals strictly alternate in the log of every run. */
  lemma EventsAlternate(cfg: Config, run: seq<Action>, s: State, d: CredDigest)
    requires Reaches(cfg, run, s)
    ensures Alternates(History(s.log, d))
    ensures d in s.reg.clients <==> |History(s.log, d)| % 2 == 1
    ensures InsertCount(s.log) == |s.reg.clients| + DropCount(s.log)
  {
    ReachableInv(cfg, run, s);
    ReachableLogOk(cfg, run, s);
    LogSummary(cfg, s, d);
  }
}
