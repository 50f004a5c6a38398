/**
 One binding profile: the digest pairs and routing keys its calls go in with, and what follows for
 every run of its registry. Names and un-evaluated texts are fixed per profile; only the resolved
 URL and header values vary from call to call. The hash is a parameter, assumed to be free of
 collisions among the streams of the run.
 */
module Profile {
  import opened Base
  import opened Sorting
  import opened Text
  import opened Registry
  import opened Protocol
  import opened CacheKey
  import opened CredScanner
  import opened Routing

  /** `url` is the base URL; the raw texts are what the operator wrote, headers by name. */
  datatype Profile = Profile(url: string, rawUrl: string, rawHeaders: seq<(string, string)>)

  function HeaderPair(h: (string, string)): Pair {
    ("hdr:" + AsciiLower(h.0), h.1)
  }

  function HeaderPairs(headers: seq<(string, string)>): seq<Pair> {
    seq(|headers|, i requires 0 <= i < |headers| => HeaderPair(headers[i]))
  }

  function DigestPairs(b: Bundle): seq<Pair> {
    [("url", b.url)] + HeaderPairs(b.headers)
  }

  /** The pairs `resolve_client` digests. */
  method CollectDigestPairs(url: string, headers: seq<(string, string)>) returns (pairs: seq<Pair>)
    ensures pairs == DigestPairs(Bundle(url, headers))
  {
    pairs := [("url", url)];
    for i := 0 to |headers|
      invariant pairs == [("url", url)] + HeaderPairs(headers[..i])
    {
      var (k, v) := headers[i];
      pairs := pairs + [("hdr:" + AsciiLower(k), v)];
      assert HeaderPairs(headers[..i + 1]) == HeaderPairs(headers[..i]) + [HeaderPair(headers[i])];
    }
    assert headers[..|headers|] == headers;
  }

  // ----- the key is injective within a profile -----

  predicate SameNames(a: seq<(string, string)>, b: seq<(string, string)>) {
    |a| == |b| && forall i :: 0 <= i < |a| ==> a[i].0 == b[i].0
  }

  predicate ValuesClean(headers: seq<(string, string)>) {
    forall i :: 0 <= i < |headers| ==> '\n' !in headers[i].1
  }

  /** A bundle `resolve_client` can come to: the profile's names, values that passed validation. */
  predicate Resolvable(p: Profile, b: Bundle) {
    SameNames(b.headers, p.rawHeaders) && ValuesClean(b.headers)
  }

  function StaticBundle(p: Profile): Bundle {
    Bundle(p.url, [])
  }

  predicate BundleOk(p: Profile, b: Bundle) {
    Resolvable(p, b) || b == StaticBundle(p)
  }

  function BundleStream(b: Bundle): seq<byte> {
    Stream(DigestPairs(b))
  }

  lemma UrlSortsLast(b: Bundle)
    ensures Sort<Pair>(ByField, DigestPairs(b)) == Sort<Pair>(ByField, HeaderPairs(b.headers)) + [("url", b.url)]
  {
    var h := HeaderPairs(b.headers);
    assert DigestPairs(b)[1..] == h;
    ByFieldOrder<string>();
    SortCorrect<Pair>(ByField, h);
    forall x | x in Sort<Pair>(ByField, h) ensures !ByField(("url", b.url), x) {
      assert x in h;
      assert x.0[0] == 'h';
    }
    InsertLast(("url", b.url), Sort<Pair>(ByField, h));
  }

  lemma HeaderLinesEnd(headers: seq<(string, string)>, last: Pair)
    requires ValuesClean(headers)
    ensures LinesEnd(Sort<Pair>(ByField, HeaderPairs(headers)) + [last])
  {
    var h := HeaderPairs(headers);
    var s := Sort<Pair>(ByField, h);
    ByFieldOrder<string>();
    SortCorrect<Pair>(ByField, h);
    forall i | 0 <= i < |s| ensures '\n' !in s[i].1 {
      assert s[i] in h;
    }
  }

  lemma HeaderPairsInjective(a: seq<(string, string)>, b: seq<(string, string)>)
    requires SameNames(a, b) && HeaderPairs(a) == HeaderPairs(b)
    ensures a == b
  {
    forall i | 0 <= i < |a| ensures a[i] == b[i] {
      assert HeaderPairs(a)[i] == HeaderPairs(b)[i];
    }
  }

  /** Fixed names: equal streams mean equal URL and equal header values, whatever the URL text is. */
  lemma SameNamesInjective(a: Bundle, b: Bundle)
    requires SameNames(a.headers, b.headers) && ValuesClean(a.headers) && ValuesClean(b.headers)
    requires BundleStream(a) == BundleStream(b)
    ensures a == b
  {
    var ha, hb := HeaderPairs(a.headers), HeaderPairs(b.headers);
    var sa, sb := Sort<Pair>(ByField, ha), Sort<Pair>(ByField, hb);
    var ua, ub := ("url", a.url), ("url", b.url);
    UrlSortsLast(a);
    UrlSortsLast(b);
    Utf8Injective(Frame(sa + [ua]), Frame(sb + [ub]));
    SortSameFields(ha, hb);
    HeaderLinesEnd(a.headers, ua);
    HeaderLinesEnd(b.headers, ub);
    FrameFixedFields(sa + [ua], sb + [ub]);
    assert sa == (sa + [ua])[..|sa|] && sb == (sb + [ub])[..|sa|];
    assert ua == (sa + [ua])[|sa|] && ub == (sb + [ub])[|sa|];
    HeaderPairsInjective(a.headers, b.headers);
  }

  lemma StreamStart(b: Bundle)
    ensures var f := Frame(Sort<Pair>(ByField, DigestPairs(b)));
      f != "" && f[0] == if b.headers == [] then 'u' else 'h'
  {
    UrlSortsLast(b);
    var h := HeaderPairs(b.headers);
    ByFieldOrder<string>();
    SortCorrect<Pair>(ByField, h);
    var s := Sort<Pair>(ByField, h);
    assert |multiset(s)| == |s| && |multiset(h)| == |h|;
    if b.headers != [] {
      assert s[0] in h;
      assert (s + [("url", b.url)])[0] == s[0];
      assert Line(s[0])[0] == s[0].0[0];
    } else {
      assert (s + [("url", b.url)])[0] == ("url", b.url);
      assert Line(("url", b.url))[0] == 'u';
    }
  }

  /** Within a profile, static calls included, the stream determines the bundle. */
  lemma BundleInjective(p: Profile, a: Bundle, b: Bundle)
    requires BundleOk(p, a) && BundleOk(p, b)
    ensures BundleStream(a) == BundleStream(b) <==> a == b
  {
    if BundleStream(a) == BundleStream(b) {
      Utf8Injective(Frame(Sort<Pair>(ByField, DigestPairs(a))), Frame(Sort<Pair>(ByField, DigestPairs(b))));
      StreamStart(a);
      StreamStart(b);
      SameNamesInjective(a, b);
    }
  }

  // ----- routing keys -----

  function FlatMap(texts: seq<string>, f: string -> seq<CredKey>): seq<CredKey> {
    if texts == [] then [] else FlatMap(texts[..|texts| - 1], f) + f(texts[|texts| - 1])
  }

  lemma {:induction false} FlatMapMember(texts: seq<string>, f: string -> seq<CredKey>, key: CredKey)
    ensures key in FlatMap(texts, f) <==> exists i :: 0 <= i < |texts| && key in f(texts[i])
  {
    if texts != [] {
      var front := texts[..|texts| - 1];
      FlatMapMember(front, f, key);
      if key in FlatMap(front, f) {
        var i :| 0 <= i < |front| && key in f(front[i]);
        assert key in f(texts[i]);
      }
      if i :| 0 <= i < |texts| && key in f(texts[i]) {
        if i < |front| { assert key in f(front[i]); }
      }
    }
  }

  function ScanAll(texts: seq<string>): seq<CredKey> {
    FlatMap(texts, Scan)
  }

  function RawTexts(p: Profile): seq<string> {
    [p.rawUrl] + seq(|p.rawHeaders|, i requires 0 <= i < |p.rawHeaders| => p.rawHeaders[i].1)
  }

  function CredKeys(p: Profile): seq<CredKey> {
    Dedup(Sort(PairLe, ScanAll(RawTexts(p))))
  }

  /** The operator's URL or a header's text holds a reference the scanner reports for `key`. */
  predicate Scanned(p: Profile, key: CredKey) {
    key in Scan(p.rawUrl) || exists h :: h in p.rawHeaders && key in Scan(h.1)
  }

  lemma ScanAllSnoc(texts: seq<string>, n: nat)
    requires n < |texts|
    ensures ScanAll(texts[..n + 1]) == ScanAll(texts[..n]) + Scan(texts[n])
  {
    assert texts[..n + 1][..n] == texts[..n];
  }

  /** The part of `resolve_client` that gathers, sorts and dedups the routing keys. */
  method CollectCredKeys(p: Profile) returns (keys: seq<CredKey>)
    ensures keys == CredKeys(p)
    ensures forall key :: key in keys <==>
              key in Scan(p.rawUrl) || exists h :: h in p.rawHeaders && key in Scan(h.1)
  {
    keys := GatherRefs(p);
    keys := Sort(PairLe, keys);
    keys := Dedup(keys);
    CredKeysListing(p);
  }

  lemma HeaderTexts(p: Profile, n: nat)
    requires n < |p.rawHeaders|
    ensures ScanAll(RawTexts(p)[..n + 2]) == ScanAll(RawTexts(p)[..n + 1]) + Scan(p.rawHeaders[n].1)
  {
    var texts := RawTexts(p);
    assert texts[n + 1] == p.rawHeaders[n].1;
    ScanAllSnoc(texts, n + 1);
  }

  lemma UrlText(p: Profile)
    ensures ScanAll(RawTexts(p)[..1]) == Scan(p.rawUrl)
  {
    ScanAllSnoc(RawTexts(p), 0);
    assert ScanAll(RawTexts(p)[..0]) == [];
  }

  /** The references of the URL, then of each header's text. */
  method GatherRefs(p: Profile) returns (keys: seq<CredKey>)
    ensures keys == ScanAll(RawTexts(p))
  {
    keys := [];
    UrlText(p);
    var urlRefs := CollectCredRefs(p.rawUrl);
    if urlRefs.Some? {
      keys := keys + urlRefs.value;
    }
    assert keys == Scan(p.rawUrl);
    for i := 0 to |p.rawHeaders|
      invariant keys == ScanAll(RawTexts(p)[..i + 1])
    {
      ghost var extended := keys + Scan(p.rawHeaders[i].1);
      HeaderTexts(p, i);
      var refs := CollectCredRefs(p.rawHeaders[i].1);
      if refs.Some? {
        keys := keys + refs.value;
      }
      assert keys == extended;
    }
    assert RawTexts(p)[..|p.rawHeaders| + 1] == RawTexts(p);
  }

  lemma TextsMember(p: Profile, f: string -> seq<CredKey>, key: CredKey)
    ensures key in f(p.rawUrl) || (exists h :: h in p.rawHeaders && key in f(h.1))
       <==> exists i :: 0 <= i < |RawTexts(p)| && key in f(RawTexts(p)[i])
  {
    var texts := RawTexts(p);
    assert texts[0] == p.rawUrl;
    if h :| h in p.rawHeaders && key in f(h.1) {
      var j :| 0 <= j < |p.rawHeaders| && p.rawHeaders[j] == h;
      assert texts[j + 1] == h.1;
    }
    if i :| 1 <= i < |texts| && key in f(texts[i]) {
      assert p.rawHeaders[i - 1] in p.rawHeaders && texts[i] == p.rawHeaders[i - 1].1;
    }
  }

  /** The routing keys are the strictly increasing listing of everything scanned. */
  lemma CredKeysListing(p: Profile)
    ensures StrictlySorted(PairLe, CredKeys(p))
    ensures forall key :: key in CredKeys(p) <==> Scanned(p, key)
    ensures forall other :: StrictlySorted(PairLe, other) && (forall key :: key in other <==> Scanned(p, key))
              ==> other == CredKeys(p)
  {
    PairLeOrder();
    var all := ScanAll(RawTexts(p));
    SortCorrect(PairLe, all);
    DedupCorrect(PairLe, Sort(PairLe, all));
    forall key ensures key in CredKeys(p) <==> Scanned(p, key) {
      FlatMapMember(RawTexts(p), Scan, key);
      TextsMember(p, Scan, key);
    }
    forall other | StrictlySorted(PairLe, other) && (forall key :: key in other <==> Scanned(p, key))
      ensures other == CredKeys(p)
    {
      StrictListingUnique(PairLe, other, CredKeys(p));
    }
  }

  // ----- runs of a profile -----

  /** What `resolve_client` passes to the registry. */
  predicate ResolveCall(p: Profile, hash: seq<byte> -> CredDigest, c: Call) {
    Resolvable(p, c.bundle) && c.digest == hash(BundleStream(c.bundle)) && c.credKeys == CredKeys(p)
  }

  /** What `resolve_static_client` passes. */
  predicate StaticCall(p: Profile, hash: seq<byte> -> CredDigest, c: Call) {
    c.bundle == StaticBundle(p) && c.digest == hash(BundleStream(c.bundle)) && c.credKeys == []
  }

  predicate ProfileCall(p: Profile, hash: seq<byte> -> CredDigest, c: Call) {
    ResolveCall(p, hash, c) || StaticCall(p, hash, c)
  }

  /** The calls a run makes. */
  function CallsOf(run: seq<Action>): set<Call> {
    set a | a in run && a.Resolve? :: a.call
  }

  ghost predicate ProfileRun(p: Profile, hash: seq<byte> -> CredDigest, run: seq<Action>) {
    && (forall c :: c in CallsOf(run) ==> ProfileCall(p, hash, c))
    && (forall a, b :: a in CallsOf(run) && b in CallsOf(run) ==> NoCollision(hash, a.bundle, b.bundle))
  }

  predicate NoCollision(hash: seq<byte> -> CredDigest, a: Bundle, b: Bundle) {
    hash(BundleStream(a)) == hash(BundleStream(b)) ==> BundleStream(a) == BundleStream(b)
  }

  predicate PhaseCallsIn(calls: set<Call>, phase: Phase) {
    phase.call in calls && (phase.Built? || phase.Returned? ==> phase.client.call in calls)
  }

  ghost predicate CallsIn(calls: set<Call>, s: State) {
    && (forall d :: d in s.reg.clients ==> s.reg.clients[d].client.call in calls)
    && (forall id :: id in s.callers ==> PhaseCallsIn(calls, s.callers[id]))
  }

  lemma CallsStep(cfg: Config, s: State, a: Action, calls: set<Call>)
    requires Enabled(cfg, s, a) && CallsIn(calls, s) && (a.Resolve? ==> a.call in calls)
    ensures CallsIn(calls, Next(cfg, s, a))
  {
    var s' := Next(cfg, s, a);
    if a.Finish? || a.Build? || a.Lookup? { assert PhaseCallsIn(calls, s.callers[a.id]); }
    forall id | id in s'.callers ensures PhaseCallsIn(calls, s'.callers[id]) {
      if id in s.callers { assert PhaseCallsIn(calls, s.callers[id]); }
    }
  }

  lemma {:induction false} CallsRun(cfg: Config, s: State, run: seq<Action>, calls: set<Call>)
    requires Legal(cfg, s, run) && CallsIn(calls, s) && CallsOf(run) <= calls
    ensures CallsIn(calls, Run(cfg, s, run))
    decreases |run|
  {
    if run != [] {
      assert run[0].Resolve? ==> run[0].call in CallsOf(run);
      CallsStep(cfg, s, run[0], calls);
      assert CallsOf(run[1..]) <= CallsOf(run);
      CallsRun(cfg, Next(cfg, s, run[0]), run[1..], calls);
    }
  }

  /**
   Cache coherence. In every run of a profile, every call that succeeds gets a client built from
   exactly its own resolved URL and headers, whether it hit, built, or took the winner's client.
   */
  lemma Coherent(p: Profile, hash: seq<byte> -> CredDigest, cfg: Config, run: seq<Action>, s: State, id: nat)
    requires ProfileRun(p, hash, run) && Reaches(cfg, run, s)
    requires id in s.callers && s.callers[id].Returned?
    ensures s.callers[id].client.call.bundle == s.callers[id].call.bundle
  {
    ReachableInv(cfg, run, s);
    CallsRun(cfg, INIT, run, CallsOf(run));
    var r := s.callers[id];
    assert PhaseOk(cfg, s, id, r);
    assert PhaseCallsIn(CallsOf(run), r);
    assert ProfileCall(p, hash, r.call) && ProfileCall(p, hash, r.client.call);
    assert NoCollision(hash, r.call.bundle, r.client.call.bundle);
    BundleInjective(p, r.call.bundle, r.client.call.bundle);
  }

  lemma RevokedExactly(cfg: Config, s: State, key: CredKey, d: CredDigest)
    requires d in s.reg.clients
    ensures d in Next(cfg, s, Revoke(key)).reg.clients <==> key !in s.reg.clients[d].credKeys
  {
  }

  lemma CredKeysMember(p: Profile, key: CredKey)
    ensures key in CredKeys(p) <==> Scanned(p, key)
  {
    CredKeysListing(p);
  }

  /**
   Revocation routing. Revoking a credential drops every entry `resolve_client` inserted when the
   operator's texts name it, none of them otherwise, and never an entry of the static path.
   */
  lemma RevocationRouting(
    p: Profile, hash: seq<byte> -> CredDigest, cfg: Config, run: seq<Action>, s: State, key: CredKey, d: CredDigest)
    requires ProfileRun(p, hash, run) && Reaches(cfg, run, s) && d in s.reg.clients
    ensures var kept := d in Next(cfg, s, Revoke(key)).reg.clients;
      var origin := s.reg.clients[d].client.call;
      && ProfileCall(p, hash, origin)
      && (ResolveCall(p, hash, origin) ==>
            (kept <==> key !in Scan(p.rawUrl) && forall h :: h in p.rawHeaders ==> key !in Scan(h.1)))
      && (StaticCall(p, hash, origin) ==> kept)
  {
    ReachableInv(cfg, run, s);
    CallsRun(cfg, INIT, run, CallsOf(run));
    assert s.reg.clients[d].client.call in CallsOf(run);
    assert s.reg.clients[d].credKeys == s.reg.clients[d].client.call.credKeys;
    RevokedExactly(cfg, s, key, d);
    CredKeysMember(p, key);
  }

  /**
   When a revocation of `key` is routed to the profile: exactly when some operator text has the
   reference written with its target ended, and with no reference left open in front of it.
   */
  lemma ScannedExactly(p: Profile, key: CredKey)
    ensures key in CredKeys(p) <==>
      || (exists at: nat :: RefAt(p.rawUrl, at, key.0, key.1) && Closed(p.rawUrl[..at]))
      || (exists h, at: nat :: h in p.rawHeaders && RefAt(h.1, at, key.0, key.1) && Closed(h.1[..at]))
  {
    CredKeysMember(p, key);
    ReportedExactly(p.rawUrl, key);
    forall h | h in p.rawHeaders
      ensures key in Scan(h.1) <==> exists at: nat :: RefAt(h.1, at, key.0, key.1) && Closed(h.1[..at])
    {
      ReportedExactly(h.1, key);
    }
  }

  /** Wherever the text has the reference, a brace follows. */
  ghost predicate Braced(text: string, reference: string) {
    forall at: nat :: Occurs(reference, text, at) ==>
      at + |reference| < |text| && text[at + |reference|] == '}'
  }

  ghost predicate OnlyBraced(p: Profile, reference: string) {
    Braced(p.rawUrl, reference) && forall h :: h in p.rawHeaders ==> Braced(h.1, reference)
  }

  lemma BracedNotScanned(text: string, key: CredKey, reference: string)
    requires reference == RefText(key.0, key.1) && Braced(text, reference)
    ensures key !in Scan(text)
  {
    NeverEnded(text, key, reference);
  }

  /** A credential written only as `${cred://plugin/target}` is no routing key of the profile. */
  lemma BracedReferenceNotRouted(p: Profile, key: CredKey, reference: string)
    requires reference == RefText(key.0, key.1) && OnlyBraced(p, reference)
    ensures !Scanned(p, key) && key !in CredKeys(p)
  {
    BracedNotScanned(p.rawUrl, key, reference);
    if h :| h in p.rawHeaders && key in Scan(h.1) {
      BracedNotScanned(h.1, key, reference);
    }
    CredKeysMember(p, key);
  }

  /** So revoking it drops nothing, in every run of the profile. */
  lemma BracedRevocationDropsNothing(
    p: Profile, hash: seq<byte> -> CredDigest, cfg: Config, run: seq<Action>, s: State, key: CredKey,
    reference: string)
    requires ProfileRun(p, hash, run) && Reaches(cfg, run, s)
    requires reference == RefText(key.0, key.1) && OnlyBraced(p, reference)
    ensures Next(cfg, s, Revoke(key)).reg.clients == s.reg.clients
  {
    BracedReferenceNotRouted(p, key, reference);
    forall d | d in s.reg.clients ensures d in Next(cfg, s, Revoke(key)).reg.clients {
      RevocationRouting(p, hash, cfg, run, s, key, d);
    }
  }

  // ----- the runtime object -----

  /** The caller, and the steps at which it read its credentials and missed. */
  datatype Origin = Origin(id: nat, resolved: nat, began: nat)

  /** Every entry was put there by a call of the profile, under its own digest and keys. */
  ghost predicate Owned(p: Profile, hash: seq<byte> -> CredDigest, m: Clients) {
    forall d :: d in m ==>
      && m[d].client.call.digest == d && m[d].client.call.credKeys == m[d].credKeys
      && ProfileCall(p, hash, m[d].client.call)
  }

  /** A registry call of the profile keeps its entries its own, and answers with the call's bundle. */
  lemma ServedKeepsOwned(
    p: Profile, hash: seq<byte> -> CredDigest, s: RegistryState, max: nat, call: Call, built: Option<Client>,
    now: nat, later: nat, s': RegistryState, r: Option<Client>)
    requires Owned(p, hash, s.clients) && ProfileCall(p, hash, call)
    requires call.digest in s.clients ==> NoCollision(hash, s.clients[call.digest].client.call.bundle, call.bundle)
    requires built.Some? ==> built.value.call == call
    requires Served(s, max, call.digest, call.credKeys, built, now, later, s', r)
    ensures Owned(p, hash, s'.clients)
    ensures r.Some? ==> r.value.call.bundle == call.bundle
  {
    if call.digest in s.clients {
      var other := s.clients[call.digest].client.call;
      assert NoCollision(hash, other.bundle, call.bundle);
      BundleInjective(p, other.bundle, call.bundle);
    }
  }

  /** The static path digests the base URL's line alone. */
  lemma StaticStream(p: Profile)
    ensures DigestPairs(StaticBundle(p)) == [("url", p.url)]
    ensures BundleStream(StaticBundle(p)) == Utf8("url=" + p.url + "\n")
  {
    var pair := ("url", p.url);
    assert DigestPairs(StaticBundle(p)) == [pair] && [pair][1..] == [];
    assert Sort<Pair>(ByField, [pair]) == [pair];
    assert Frame([pair]) == Line(pair) + "" == "url=" + p.url + "\n";
  }

  /** One profile with its registry, for calls that come one after the other. */
  class NetworkProfileRuntime {
    const profile: Profile
    const hash: seq<byte> -> CredDigest
    const registry: ClientRegistry

    ghost predicate Valid()
      reads registry
    {
      registry.Valid() && Owned(profile, hash, registry.clients)
    }

    /** The hash tells `b` from the bundles held. */
    ghost predicate Distinguishes(b: Bundle)
      reads registry
    {
      forall d :: d in registry.clients ==> NoCollision(hash, registry.clients[d].client.call.bundle, b)
    }

    constructor (profile: Profile, hash: seq<byte> -> CredDigest)
      ensures Valid() && fresh(registry) && registry.View() == EMPTY && registry.clock == 0
      ensures registry.maxEntries == 256 && registry.idleMillis == 15 * 60 * 1000
      ensures this.profile == profile && this.hash == hash
    {
      this.profile := profile;
      this.hash := hash;
      this.registry := new ClientRegistry();
    }

    /**
     From the resolved URL and headers on. `built` is the address a build would pin, if it
     succeeds; `origin` identifies the client it would make.
     */
    method ResolveClient(
      url: string, headers: seq<(string, string)>, built: Option<Address>, origin: Origin, now: nat, later: nat)
      returns (r: Option<Client>)
      requires Valid() && registry.clock <= now <= later
      requires Resolvable(profile, Bundle(url, headers)) && Distinguishes(Bundle(url, headers))
      modifies registry
      ensures Valid()
      ensures var digest := hash(BundleStream(Bundle(url, headers)));
        digest in old(registry.clients) ==>
          && r == Some(old(registry.clients)[digest].client)
          && r.value.call.bundle == Bundle(url, headers)
          && registry.View() == Touch(old(registry.View()), digest, now)
      ensures hash(BundleStream(Bundle(url, headers))) !in old(registry.clients) && built.None? ==>
                r == None && registry.View() == old(registry.View())
      ensures var call := Call(hash(BundleStream(Bundle(url, headers))), CredKeys(profile), Bundle(url, headers));
        call.digest !in old(registry.clients) && built.Some? ==>
          && r == Some(Client(origin.id, origin.resolved, origin.began, call, built.value))
          && Admitted(old(registry.View()), registry.maxEntries, call.digest,
                      ClientEntry(r.value, call.credKeys, later), registry.View())
    {
      var pairs := CollectDigestPairs(url, headers);
      var fed := FeedHasher(pairs);
      var digest := hash(fed);
      var credKeys := CollectCredKeys(profile);
      r := GetOrBuild(Call(digest, credKeys, Bundle(url, headers)), built, origin, now, later);
    }

    method ResolveStaticClient(built: Option<Address>, origin: Origin, now: nat, later: nat)
      returns (r: Option<Client>)
      requires Valid() && registry.clock <= now <= later && Distinguishes(Bundle(profile.url, []))
      modifies registry
      ensures Valid()
      ensures var digest := hash(Utf8("url=" + profile.url + "\n"));
        digest in old(registry.clients) ==>
          && r == Some(old(registry.clients)[digest].client)
          && r.value.call.bundle == Bundle(profile.url, [])
          && registry.View() == Touch(old(registry.View()), digest, now)
      ensures hash(Utf8("url=" + profile.url + "\n")) !in old(registry.clients) && built.None? ==>
                r == None && registry.View() == old(registry.View())
      ensures var call := Call(hash(Utf8("url=" + profile.url + "\n")), [], Bundle(profile.url, []));
        call.digest !in old(registry.clients) && built.Some? ==>
          && r == Some(Client(origin.id, origin.resolved, origin.began, call, built.value))
          && Admitted(old(registry.View()), registry.maxEntries, call.digest,
                      ClientEntry(r.value, call.credKeys, later), registry.View())
    {
      var pairs := [("url", profile.url)];
      StaticStream(profile);
      var fed := FeedHasher(pairs);
      var digest := hash(fed);
      r := GetOrBuild(Call(digest, [], Bundle(profile.url, [])), built, origin, now, later);
    }

    /** The registry call both paths end with. */
    method GetOrBuild(call: Call, built: Option<Address>, origin: Origin, now: nat, later: nat)
      returns (r: Option<Client>)
      requires Valid() && registry.clock <= now <= later
      requires ProfileCall(profile, hash, call) && Distinguishes(call.bundle)
      modifies registry
      ensures Valid()
      ensures call.digest in old(registry.clients) ==>
                && r == Some(old(registry.clients)[call.digest].client) && r.value.call.bundle == call.bundle
                && registry.View() == Touch(old(registry.View()), call.digest, now)
      ensures call.digest !in old(registry.clients) && built.None? ==>
                r == None && registry.View() == old(registry.View())
      ensures call.digest !in old(registry.clients) && built.Some? ==>
                && r == Some(Client(origin.id, origin.resolved, origin.began, call, built.value))
                && Admitted(old(registry.View()), registry.maxEntries, call.digest,
                            ClientEntry(r.value, call.credKeys, later), registry.View())
    {
      ghost var before := registry.View();
      var client := None;
      if built.Some? {
        client := Some(Client(origin.id, origin.resolved, origin.began, call, built.value));
      }
      r := registry.GetOrBuild(call.digest, call.credKeys, client, now, later);
      ServedKeepsOwned(profile, hash, before, registry.maxEntries, call, client, now, later, registry.View(), r);
    }
  }
}
