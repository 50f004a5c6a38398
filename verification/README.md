# The HTTP backend's client registry, cache key, scanner and body handling

A model, in Dafny, of the stateful core of an HTTP backend plugin: the bounded cache of per-credential
clients and the concurrent calls that share it, the byte stream its keys are hashed from, the
`cred://` scanner that routes revocations, the two readers of a response body, the query printer and
the two header builders.

`dafny verify dfyconfig.toml` checks everything.

| file | what it holds |
|---|---|
| `Registry.dfy` | the registry as a class over a map, each section proved against a function on values |
| `Connect.dfy` | the address a build pins |
| `Protocol.dfy` | calls, evictions and sweeps as interleaved steps; the invariant every step keeps |
| `Runs.dfy` | bound, conservation, one winner, idle age and the event log over whole runs |
| `Pinned.dfy` | what a build does, and the address every client is pinned to |
| `Herd.dfy` | when builds for one digest overlap, and when they do not |
| `Freshness.dfy` | what an eviction guarantees, and exactly when |
| `Recency.dfy`, `Refinement.dfy` | the atomic recency-list cache, and the refinement of it by every run |
| `Winner.dfy` | exactly when two calls for one digest get the same client |
| `Inclusion.dfy`, `RecentSuffix.dfy` | a larger cache never loses a hit; what the smaller one holds of it |
| `CacheKey.dfy` | what the hashed stream says about the pairs |
| `CredScanner.dfy` | soundness, completeness and print/scan round trip of the scanner |
| `Routing.dfy` | exactly when a written reference is reported, and so routes revocations |
| `Profile.dfy` | one binding profile: injective keys, coherence and revocation routing |
| `BodyReader.dfy` | the buffered loop, the polled stream, and their agreement |
| `Query.dfy`, `Headers.dfy` | the query printer with its reader, and the header maps |
| `Sorting.dfy`, `Text.dfy`, `Base.dfy` | stable sorts, Rust strings and UTF-8, options and results |

## How the code is modelled

- `get_or_build` is two locked sections with an unlocked build in between: the guard is dropped at
  `src/client_registry.rs:123`. The credentials a bundle holds are read before the first of them
  (`src/runtime.rs:274-307`). A call is therefore an actor with phases: credentials read, building,
  built or failed, returned. Reading the credentials, each locked section and the build are one
  atomic step each. The same value functions (`Touch`, `Admit`, `Evict`, `Sweep`) specify the class
  methods and the steps of the protocol.
- Everything the code leaves open is a choice an action carries: the time (never before the last
  reading), the lookup's answers, whether the build is accepted, and the victim among the entries of
  minimal stamp, since the scan runs over a hash map. A revocation or rotation step is the locked
  section of the task the subscription spawns. Results hold for every choice.
- A client is tagged with the call that built it, the steps at which that call read its credentials
  and missed, and the address it pins. A call of the static path reads none; its first step is where
  it starts.
- The 32-byte digest is a number and the hash a parameter. Where keys matter it is assumed free of
  collisions among the streams of the run in question; no hash is assumed injective outright.
- Header values are newline-free, which is what `validate_header_value` is for.
- A `str` is its sequence of Unicode scalar values. `Text.ByteOrder` and `Text.Utf8Injective` show
  that comparing and printing its bytes loses nothing.
- The library sorts stand as a stable insertion sort; `Sorting.SortCorrect` and
  `Sorting.SortedUnique` show that every stable sort gives the same list.
- An object's members are sorted with their values instead of sorting keys and looking each one up.
- Numbers carry their printed text, and the compact JSON printer is a parameter, as is what the
  `http` crate accepts as a header name or value.
- The loop shared by both header builders (`InsertTaken`) and one pass of the scanner loop
  (`Advance`) are members of their own. The texts of header errors are not told apart.

## Where the code and its documentation differ

The model follows the code in each case.

- The comment on `get_or_build` (`src/client_registry.rs:104-107`) says callers serialise on the
  registry while connecting, so that cold callers do not start parallel connects. They do not: any
  number of calls can be building for one digest at once (`Herd.ThunderingHerd`). On every run a call
  is building exactly from its lookup that missed until its build ends (`Herd.BuildingExactly`), and
  builds for a digest never overlap if and only if no lookup misses it while another call is building
  for it (`Herd.SerialExactly`). While the digest is held no build starts
  (`Herd.HeldSpanStartsNoBuild`), and a single client survives (`Runs.OneSurvivingWinner`,
  `Winner.SameClientExactly`).
- The digest is called order-independent (`src/client_registry.rs:41`). It is for distinct fields
  (`CacheKey.SameStreamDistinct`). With a repeated field the order of its values can matter
  (`CacheKey.RepeatedFieldOrderMatters`). For every bundle, the order does not matter if and only if
  the `field=value` lines of any two pairs of one field read the same in either order
  (`CacheKey.OrderIndependentExactly`); for fields free of `=` and newline and values free of newline
  that means that equal fields have equal values (`CacheKey.CleanOrderIndependent`).
- `truncated` is documented as the upstream over-running the cap (`src/exec.rs:251-253`). It is also
  set when a body of exactly `limit` bytes ends in an empty chunk: `BodyReader.FlagMeansOverrun` is the
  exact condition, `BodyReader.EmptyChunkFlags` an input.
- Evictions are described as dropping every matching client, so that the next call rebuilds with
  fresh credentials. A call that has read its credentials when one runs can still build with them and
  insert afterwards; `Freshness.FreshAfterEviction` says exactly when no client with credentials read
  before the eviction can come back.
- The comment on `static_digest` (`src/client_registry.rs:31-34`) says the static path is keyed by it.
  `resolve_static_client` digests the URL pair instead; no bundle's stream is the static seed
  (`CacheKey.NeverStatic`).
- The fresh entry can be its own insertion's victim, when the cache is full and every stamp equals the
  new one, or when `max_entries` is 0 (`Registry.FreshEntrySurvives`).
- Credential references are written `${cred://issuer/target}` (`src/runtime.rs:240-246`), and the
  routing keys are meant to be those references (`src/runtime.rs:319-321`). But `}` does not end a
  target in the scanner (`src/client_registry.rs:326-327`): a credential written only that way is no
  routing key, and revoking it drops nothing in any run (`Profile.BracedReferenceNotRouted`,
  `Profile.BracedRevocationDropsNothing`). Nor does the brace close the reference for what follows:
  the scan reads on to the next terminator, over any reference in between (`Routing.BraceLeavesOpen`).
  `Routing.ReportedExactly` says, for every text, exactly when a reference is routed by its own target,
  and `Routing.ClosedMeans` what the texts in front of it look like.

## Model

| member | source | states |
|---|---|---|
| `Registry.ClientRegistry.constructor` | src/client_registry.rs:90-98 | An empty registry; by default 256 entries and fifteen minutes |
| `Registry.ClientRegistry.Lookup` | src/client_registry.rs:118-123 | The first section: a hit exactly when the digest is held, with the held client and only its stamp moved; a miss leaves everything as it was |
| `Registry.ClientRegistry.Finish` | src/client_registry.rs:125-152 | The second section: the winner's client if somebody inserted first; otherwise the own client, inserted, at the cost of one entry of minimal stamp (possibly the new one) if over capacity. Bound, stamps and counts are kept |
| `Registry.ClientRegistry.GetOrBuild` | src/client_registry.rs:108-153 | An undisturbed call: hit, failed build without effect, or insertion |
| `Registry.ClientRegistry.DropOldest` | src/client_registry.rs:138-146 | Over capacity, exactly one entry goes, and no entry is older |
| `Registry.ClientRegistry.EvictFor` | src/client_registry.rs:157-181 | Exactly the entries whose keys hold the credential go, and the count returned is theirs |
| `Registry.ClientRegistry.EvictForSecret` | src/client_registry.rs:196-208 | Everything goes, and the count returned is the former size |
| `Registry.ClientRegistry.SweepIdle` | src/client_registry.rs:212-237 | Exactly the entries older than the idle time in milliseconds go (for one of 2^64 or more, its remainder), and the count returned is theirs |
| `Registry.FreshEntrySurvives` | src/client_registry.rs:130-151 | The new entry survives every choice of victim if and only if there is room or an older stamp is held |
| `Connect.FirstPublic` | src/client.rs:58-61 | The first answer that is not private, and none exactly when all are |
| `Connect.ChooseAddress` | src/client.rs:52-73 | The address chosen is the first answer the rebinding guard allows (the first answer of all without the guard); an error exactly when there is no answer or no allowed one |
| `Protocol.StepKeeps` | src/client_registry.rs:108-237 | Every step of every interleaving keeps the invariant: capacity, conservation, stamps within the clock and the sweep's age, entries under their own digest and keys, one winner |
| `Protocol.ReachableInv` | src/client_registry.rs:108-237 | The invariant holds in every reachable state |
| `Runs.BoundAndConservation` | src/client_registry.rs:130-151 | In every reachable state at most `max_entries` entries, and inserts equal the entries held plus all four eviction counters |
| `Runs.EventsAlternate` | src/client_registry.rs:130-236 | In the log of every run, inserts and removals of one digest strictly alternate, and inserts less removals are the entries held |
| `Runs.PinnedAddresses` | src/client.rs:55-73 | Under the rebinding guard no held or handed-out client is pinned to a private address |
| `Pinned.BuildExactly` | src/client.rs:52-87 | A build that is accepted pins the first answer the guard allows and tags the client with its call; it fails exactly when it is rejected or no answer is allowed, and changes nothing else |
| `Pinned.PinnedToFirstAllowed` | src/client.rs:55-73 | On every run, a held or handed-out client is pinned to the first allowed answer of its builder's one build |
| `Pinned.AnyOldestMayGo` | src/client_registry.rs:138-146 | Any entry of minimal stamp may be the one an insertion over capacity drops |
| `Runs.AnswersMatchDigest` | src/client_registry.rs:118-137 | Every answer was built by a call with the same digest, and carries that call's routing keys |
| `Runs.OneSurvivingWinner` | src/client_registry.rs:126-151 | All calls for a digest that return while one entry stays get that entry's client, however many built |
| `Winner.SameClientExactly` | src/client_registry.rs:118-152 | On every run, two calls for one digest get the same client if and only if no removal of the digest is logged between their returns |
| `Herd.ThunderingHerd` | src/client_registry.rs:104-124 | For every n there is a run with n calls building for one digest at once, contrary to the comment |
| `Herd.BuildStarts` | src/client_registry.rs:118-124 | A step starts a build for a digest if and only if it is a lookup that finds the digest not held, whoever else is building; only the build step ends it |
| `Herd.BuildersBeforeEntry` | src/client_registry.rs:118-137 | In every reachable state, a call building or built for a held digest missed before the held entry was inserted |
| `Herd.BuildingExactly` | src/client_registry.rs:118-124 | On every run, a call is building for a digest if and only if it looked it up while not held and its build has not ended since |
| `Herd.ParallelBuilds` | src/client_registry.rs:104-124 | Two calls build for a digest at once if and only if both missed it and neither build has ended; between their lookups it was not held, unless it was inserted and removed again |
| `Herd.HeldSpanStartsNoBuild` | src/client_registry.rs:118-122 | While a digest stays held, no build for it starts |
| `Herd.SerialExactly` | src/client_registry.rs:104-124 | Builds for a digest never overlap on a run if and only if no lookup misses it while another call is building for it |
| `Runs.ImmediateRepeatHits` | src/client_registry.rs:118-151 | After an insertion with room or with an older stamp held, an immediate repeat is a hit on the same client, whichever victim was picked |
| `Runs.SweptRunsStayYoung` | src/client_registry.rs:278-304 | With sweeps at most a gap apart, no entry is ever older than the idle threshold plus the gap |
| `Runs.DefaultIdleAge` | src/runtime.rs:168-172 | With the default idle time and the sixty-second sweeper, sixteen minutes plus the sweeper's delay |
| `Runs.DefaultSweepKeeps` | src/client_registry.rs:212-237 | With the default idle time, a sweep keeps exactly the entries used in the last fifteen minutes |
| `Freshness.FreshAfterEviction` | src/client_registry.rs:157-208 | After an eviction, no client it selects whose credentials were read before is held or handed out on any continuation, if and only if no selected call had read its credentials and not yet returned; and the same counted from the lookup that missed |
| `Freshness.Overtakes` | src/runtime.rs:274-349 | From any state in which a selected call has read its credentials (or missed) before the eviction and not returned, a run in which it hands out a client from before |
| `Freshness.HeldMeansInsertedLater` | src/client_registry.rs:157-181 | Unconditionally, a selected entry held after an eviction was inserted after it |
| `Refinement.Linearizable` | src/client_registry.rs:108-237 | Every interleaving answers and holds exactly what the atomic recency-list cache does when each call takes effect at its last locked section; every victim ties with the list's head |
| `Refinement.LinearizableLru` | src/client_registry.rs:138-146 | The same when every section that stamps finds the clock past the stamps held; the victim is then the head of the recency list |
| `Refinement.SimStep` | src/client_registry.rs:108-237 | One effective step is one operation of the atomic cache, with the same answer |
| `Recency.OldestIsFirst` | src/client_registry.rs:138-143 | An entry of minimal stamp sits in the block of the recency list that ties with its head |
| `Inclusion.LruInclusion` | src/client_registry.rs:118-237 | Fed the same calls at strictly increasing times (their builds failing or not), evictions and sweeps, the smaller registry's entries are always among the larger one's, with equal stamps and keys |
| `Inclusion.StepKeepsPair` | src/client_registry.rs:118-237 | Every operation keeps the smaller map within the larger one, and full whenever the larger one is |
| `Inclusion.TiesLoseHits` | src/client_registry.rs:138-143 | Three calls in one millisecond after which the smaller registry holds an entry the larger one has lost |
| `RecentSuffix.StepKeepsSuffix` | src/client_registry.rs:118-152 | On recency lists, every operation whose build succeeds keeps the smaller list a suffix of the larger one |
| `RecentSuffix.TracesRelated` | src/client_registry.rs:118-237 | When every build succeeds, the smaller registry holds exactly the most recent part of the larger one's recency list |
| `CacheKey.FeedHasher` | src/client_registry.rs:43-54 | The bytes fed to the hasher are the framing of the field-sorted pairs |
| `CacheKey.ParseFrame` | src/client_registry.rs:47-52 | Framed pairs can be read back, for fields free of `=` and newline and values free of newline |
| `CacheKey.SameStream` | src/client_registry.rs:43-54 | For fields free of `=` and newline and values free of newline, two bundles share a stream if and only if they give every field the same values in the same order |
| `CacheKey.SameStreamDistinct` | src/client_registry.rs:40-54 | With distinct fields, permutations share a stream whatever the values are, and where the framing can be read back only permutations do |
| `CacheKey.OrderIndependentExactly` | src/client_registry.rs:41-52 | For every bundle, every order gives the same stream if and only if the lines of any two pairs of one field read the same in either order |
| `CacheKey.CleanOrderIndependent` | src/client_registry.rs:41-52 | For fields free of `=` and newline and values free of newline: if and only if equal fields have equal values |
| `CacheKey.UncleanValuesCommute` | src/client_registry.rs:47-52 | A bundle with a newline in a value: equal fields, different values, and the lines still commute |
| `CacheKey.RepeatedFieldOrderMatters` | src/client_registry.rs:41-45 | A permuted bundle with a repeated field has another stream |
| `CacheKey.NeverStatic` | src/client_registry.rs:36-38 | No bundle's stream is the static seed |
| `CacheKey.FrameFixedFields` | src/client_registry.rs:47-52 | For fixed fields the framing determines all values, the last one without any restriction |
| `CacheKey.SortSameFields` | src/client_registry.rs:44-45 | For fixed fields the stable sort can be undone, repeated fields included |
| `Profile.CollectDigestPairs` | src/runtime.rs:311-316 | The pairs are the URL and one lower-cased `hdr:` field per header |
| `Profile.SameNamesInjective` | src/runtime.rs:309-317 | For fixed header names, equal streams mean equal URL and equal header values, whatever the URL text |
| `Profile.BundleInjective` | src/runtime.rs:214-226 | Within a profile, the header-less static bundle included, bundles share a stream if and only if they are equal |
| `Profile.GatherRefs` | src/runtime.rs:322-330 | The references of the URL, then of each header value, in order |
| `Profile.CollectCredKeys` | src/runtime.rs:322-332 | The keys are the sorted, deduplicated references, and hold exactly what the scan reports for the URL or a header value |
| `Profile.CredKeysListing` | src/runtime.rs:319-332 | They are the only strictly increasing listing of exactly the references scanned, the same for every call |
| `Profile.Coherent` | src/runtime.rs:309-349 | In every run of a profile, every successful call gets a client built from exactly its own URL and headers, whether it hit, built or lost the race |
| `Profile.RevocationRouting` | src/runtime.rs:319-332 | A revocation drops every entry of `resolve_client` if the operator's texts name the credential, none otherwise, and never an entry of the static path |
| `Profile.ScannedExactly` | src/runtime.rs:319-332 | A credential is a routing key if and only if the URL or a header value has its reference with the target ended and none left open in front |
| `Profile.BracedReferenceNotRouted` | src/runtime.rs:319-332 | For every profile, a credential whose every written reference is followed by a brace is no routing key |
| `Profile.BracedRevocationDropsNothing` | src/runtime.rs:319-332 | In every run of such a profile, revoking that credential drops nothing |
| `Profile.NetworkProfileRuntime.constructor` | src/runtime.rs:117 | A profile starts with an empty registry of 256 entries and fifteen minutes |
| `Profile.NetworkProfileRuntime.ResolveClient` | src/runtime.rs:309-349 | A held digest answers with a client built from the same bundle and moves its stamp; otherwise a failed build answers nothing and changes nothing, and a successful one answers with a client of this URL, these headers and this address, and inserts it under the profile's keys |
| `Profile.NetworkProfileRuntime.ResolveStaticClient` | src/runtime.rs:214-226 | The same for the digest of the line `url=` with the base URL, with no headers and no routing keys |
| `CredScanner.CollectCredRefs` | src/client_registry.rs:311-345 | The loop terminates and returns the scan's references, or nothing when there are none |
| `CredScanner.Advance` | src/client_registry.rs:317-337 | One pass finds the first candidate, or stops where no slash follows |
| `CredScanner.FirstCandidate` | src/client_registry.rs:317-341 | Each pass consumes at least eight characters and stays within the text |
| `CredScanner.ScanSound` | src/client_registry.rs:317-344 | On every string the pairs returned stand at disjoint places from left to right, each as `cred://p/t` with well-formed maximal parts |
| `CredScanner.ScanComplete` | src/client_registry.rs:317-344 | Every `cred://` with a slash after it is visited or lies inside an earlier candidate, so stopping loses nothing |
| `CredScanner.VisitedReported` | src/client_registry.rs:321-336 | A well-formed reference that is visited is returned |
| `CredScanner.FillerThenCred` | src/client_registry.rs:317 | The pattern has no border: filler without it puts the next occurrence exactly at its end |
| `CredScanner.PrintScan` | src/client_registry.rs:311-345 | Scanning any printed list of references, with fragments, terminators and filler, gives back exactly the list |
| `CredScanner.FirstReported` | src/client_registry.rs:323-336 | Whatever stands before and after it, the first reference of a text is returned under its own target if and only if the target ends the text or is followed by a listed terminator or a `#` |
| `CredScanner.BraceIsTaken` | src/client_registry.rs:323-328 | A text ending in `cred://p/t}` yields the target `t}` |
| `Routing.ReportedIff` | src/client_registry.rs:317-344 | For every text and pair, the pair is returned if and only if the scan visits a place where exactly that reference is written |
| `Routing.VisitedExactly` | src/client_registry.rs:317-341 | A written reference is visited, rather than swallowed, if and only if the text in front leaves no reference open |
| `Routing.ClosedMeans` | src/client_registry.rs:317-341 | The texts that leave none open are exactly filler and references with a terminator after each |
| `Routing.ReportedExactly` | src/client_registry.rs:311-345 | For every text and pair, the pair is returned if and only if the reference is written somewhere with its target ended there and no reference left open in front |
| `Routing.NeverEnded` | src/client_registry.rs:323-336 | A reference nowhere followed by the end, a terminator or a `#` is never returned |
| `Routing.FirstTargetEnds` | src/client_registry.rs:323-336 | Character by character: the first target ends at the White_Space code points, `?`, `&`, `@`, `:`, quotes, `>`, `,`, `;` and `#`, and runs on past every other character |
| `Routing.BraceLeavesOpen` | src/client_registry.rs:323-328 | A brace after a target closes nothing |
| `BodyReader.ReadResponseWithLimit` | src/exec.rs:256-279 | Fails exactly when the stream does, with its first error; otherwise the first `limit` bytes of the whole body, and the flag |
| `BodyReader.BodyStream.Next` | src/exec.rs:379-439 | One poll absorbs a chunk and yields the bytes kept, passes an error on and ends, or yields the body once at the end of the stream; afterwards nothing |
| `BodyReader.AbsorbReads` | src/exec.rs:266-276 | Absorbing one more chunk keeps the buffer the first `limit` bytes received and the flag what it should be |
| `BodyReader.StreamingEqualsBuffered` | src/exec.rs:354-441 | The drained stream is one Progress with the bytes kept for each good chunk, then one last item: the first error when the buffered read fails, and otherwise the same body and flag |
| `BodyReader.PollsAreDrain` | src/exec.rs:379-391 | Polls yield the drained items one by one and nothing ever after |
| `BodyReader.ProgressMonotone` | src/exec.rs:406-408 | Progress counts never decrease and never pass the limit |
| `BodyReader.FlagMeansOverrun` | src/exec.rs:251-277 | The flag means an over-run if and only if the body is not exactly `limit` bytes ending in an empty chunk |
| `BodyReader.EmptyChunkFlags` | src/exec.rs:266-268 | An input that is flagged although nothing was cut |
| `BodyReader.ChunkingIndependent` | src/exec.rs:264-278 | Any two cuttings of a body into nonempty chunks give the same result |
| `Query.PercentEncode` | src/exec.rs:83-93 | The loop encodes each byte of the UTF-8 text |
| `Query.DecodeEncode` | src/exec.rs:83-93 | Decoding the output gives back the bytes |
| `Query.EncodeWellFormed` | src/exec.rs:86-90 | The output has only unreserved characters and uppercase triplets, as sections 2.1 and 2.3 of RFC 3986 ask |
| `Query.EncodeOne` | src/exec.rs:86-90 | Byte by byte: letters, digits, `-`, `_`, `.` and `~` stand for themselves, and every other byte is `%` and two uppercase hexadecimal digits |
| `Query.EncodeUntouched` | src/exec.rs:83-93 | A text is left as it is if and only if it has letters, digits, `-`, `_`, `.` and `~` only |
| `Query.BuildQueryString` | src/exec.rs:40-69 | The object's pairs encoded and joined, the first value error, or the error for a non-object |
| `Query.PairsMeaning` | src/exec.rs:44-66 | The pairs are in key order with exactly each member's items, in their order, under its key; it fails exactly when some value's text does |
| `Query.PairsValues` | src/exec.rs:71-81 | The text of each value: `null`, `true` or `false`, a number as printed, a string as it is, and the JSON printer's text for a nested value |
| `Query.PairsSucceed` | src/exec.rs:71-81 | The pairs exist if and only if the JSON printer accepts every nested value |
| `Query.KeyOrderIrrelevant` | src/exec.rs:38-45 | The order of the object's keys does not matter |
| `Query.ReadPrinted` | src/exec.rs:44-68 | Splitting on `&` and the first `=` and decoding gives back exactly the pairs |
| `Query.SameQuery` | src/exec.rs:44-68 | Two lists of pairs print the same query if and only if they are equal |
| `Query.JoinEmpty` | src/exec.rs:68 | The query is empty exactly when there is no pair |
| `Query.WithQueryString` | src/exec.rs:95-105 | The URL's query becomes the merged one, and is untouched by an empty query |
| `Query.MergedReads` | src/exec.rs:99-103 | A merged query reads as the old pairs followed by the new ones |
| `Headers.InsertTaken` | src/exec.rs:564-573 | A header loop fails exactly on a taken header that is invalid, and otherwise keeps the last value of each folded name |
| `Headers.BuildDefaultHeaders` | src/exec.rs:559-575 | The last unprotected header of each folded name and nothing else, or an error exactly when one is invalid |
| `Headers.BuildPerCallHeaders` | src/exec.rs:127-160 | The trace headers, and the idempotency key when there is one and the operator has none |
| `Headers.LastWinsUnique` | src/exec.rs:559-575 | Last-writer-wins determines the map |
| `Headers.DefaultNames` | src/exec.rs:27-36 | A name is in the default headers if and only if some header folds to it and it is none of the protected names, written out |
| `Headers.PerCallNames` | src/exec.rs:127-160 | A name is in the per-call headers if and only if it is `traceparent` or `tracestate` and some request header folds to it, or it is `idempotency-key` and the key is injected |
| `Headers.PaddedNames` | src/exec.rs:28 | Blanks around a name do not get it past the filters |
| `Headers.OperatorHeadersAreSent` | src/runtime.rs:202-206 | For every unprotected name, the operator is found to have the header if and only if the default headers send it |
| `Headers.IdempotencyKeyOnce` | src/exec.rs:143-158 | The idempotency key is in at most one of the two maps: the operator's value exactly when the operator configured one, the gateway's exactly when there is one and the operator has none |
| `Text.ByteOrder` | src/client_registry.rs:45 | Comparing strings byte by byte is comparing scalar values |
| `Text.Utf8Injective` | src/client_registry.rs:48-50 | Equal bytes come from equal strings |
| `Sorting.SortCorrect` | src/client_registry.rs:44-45 | The sort is sorted, keeps the elements and is stable |
| `Sorting.SortedUnique` | src/client_registry.rs:44-45 | Any two stable sorts of one list are equal |
| `Sorting.DedupCorrect` | src/runtime.rs:331-332 | Deduplicating a sorted list leaves the strictly increasing listing of its elements |

## Left out

- Registry.ClientRegistry.GetOrBuild: only for a call nobody gets in between of, because a method runs alone; the interleavings are in `Protocol`.
- Registry.ClientRegistry.SweepIdle: the clock is an unbounded number; its wrap past 2^64 milliseconds is not modelled.
- Profile.NetworkProfileRuntime.ResolveClient: starts from the resolved URL and headers and ends with the client; expression evaluation and credential resolution are not part of this model.
- Inclusion.LruInclusion: for stamps that differ, since in one millisecond the two caches may drop different entries (`Inclusion.TiesLoseHits`).
- RecentSuffix.StepKeepsSuffix: for operations whose build succeeds; a failed build in the smaller cache can restamp an entry only the larger one holds, which keeps the inclusion but not the order.
- Query.WithQueryString: the query is stored as given; the re-encoding the `url` crate applies when it is set is not part of this model.
- Sockets, name lookup, TLS, timeouts and the building of the HTTP client: foreign calls; a build yields an error or a client with its bundle and address.
- The inside of BLAKE3: a parameter.
- Which addresses are private: a parameter.
- Task scheduling, cancellation and the timer of the sweeper: the time between sweeps is a parameter.
- Secrets the gateway substitutes into the operator's texts before registration: staleness counts from the reading of a call's credentials, and a text that holds an old secret stays as it is.
- Subscriptions: a revocation or rotation is a step that may come at any moment.
- Metrics and log lines, other than the four eviction counters.
- `execute_http_call`, `start_http_call_streaming`, `finalize_http_summary` and `build_expr_context`: plumbing and field copying.
- Lossy UTF-8 decoding of a body: both readers apply the same function to the same bytes.
- `src/retry.rs`, `parse_retry_after_ms`, `src/safe_dns.rs`, `src/types.rs`, `response_is_streaming`: finite case splits over fixed strings and enumerations.
