/** The scanner for `cred://plugin/target` references, which feeds the revocation routing keys. */
module CredScanner {
  import opened Base
  import opened Text

  const CRED := "cred://"

  /** The characters that end a target. `}` is not among them. */
  predicate IsTerminator(c: char) {
    || IsWhitespace(c) || c == '?' || c == '&' || c == '@' || c == ':' || c == '"' || c == '\''
    || c == '>' || c == ',' || c == ';'
  }

  predicate IsSlash(c: char) { c == '/' }

  predicate IsHash(c: char) { c == '#' }

  /** What follows a `cred://`: the parts it names, and how much of it the scan consumes. */
  datatype Parts = Parts(plugin: string, target: string, used: nat)

  function SplitRef(after: string): (r: Option<Parts>)
    ensures r.Some? ==> 1 <= r.value.used <= |after|
  {
    var slash := Until(after, IsSlash);
    if slash == |after| then None
    else
      var afterSlash := after[slash + 1..];
      Some(Parts(after[..slash], TargetOf(afterSlash), slash + 1 + Until(afterSlash, IsTerminator)))
  }

  /** The target is what comes before the terminator, without its fragment. */
  function TargetOf(afterSlash: string): string {
    var raw := afterSlash[..Until(afterSlash, IsTerminator)];
    raw[..Until(raw, IsHash)]
  }

  /** The first candidate in a text: where it starts, what it names, and where the scan resumes. */
  datatype Candidate = Candidate(at: nat, plugin: string, target: string, resume: nat)

  function FirstCandidate(rest: string): (r: Option<Candidate>)
    ensures r.Some? ==> r.value.at + 8 <= r.value.resume <= |rest|
  {
    match Find(rest, CRED)
    case None => None
    case Some(idx) =>
      (match SplitRef(rest[idx + |CRED|..])
       case None => None
       case Some(parts) => Some(Candidate(idx, parts.plugin, parts.target, idx + |CRED| + parts.used)))
  }

  function Reported(plugin: string, target: string): seq<(string, string)> {
    if plugin != "" && target != "" then [(plugin, target)] else []
  }

  /** The references the loop collects. */
  function Scan(rest: string): seq<(string, string)>
    decreases |rest|
  {
    match FirstCandidate(rest)
    case None => []
    case Some(c) =>
      Reported(c.plugin, c.target) + if c.resume >= |rest| then [] else Scan(rest[c.resume..])
  }

  lemma ScanStep(s: string, at: nat, parts: Parts, after: string)
    requires Find(s, CRED) == Some(at) && SplitRef(s[at + |CRED|..]) == Some(parts)
    requires after == s[at + |CRED|..][parts.used..]
    ensures Scan(s) == Reported(parts.plugin, parts.target) + if after == "" then [] else Scan(after)
  {
    DropDrop(s, at + |CRED|, parts.used);
    CandidateIs(s, at, parts);
    ScanCandidate(s, Candidate(at, parts.plugin, parts.target, at + |CRED| + parts.used), after);
  }

  lemma CandidateIs(s: string, at: nat, parts: Parts)
    requires Find(s, CRED) == Some(at) && SplitRef(s[at + |CRED|..]) == Some(parts)
    ensures FirstCandidate(s) == Some(Candidate(at, parts.plugin, parts.target, at + |CRED| + parts.used))
  {
  }

  lemma ScanCandidate(s: string, c: Candidate, after: string)
    requires FirstCandidate(s) == Some(c) && after == s[c.resume..]
    ensures Scan(s) == Reported(c.plugin, c.target) + if after == "" then [] else Scan(after)
  {
  }

  lemma ScanStops(s: string)
    requires FirstCandidate(s).None?
    ensures Scan(s) == []
  {
  }

  /** What one pass of the loop adds, and what it leaves to scan. */
  lemma LoopStep(out: seq<(string, string)>, rest: string, c: Candidate)
    requires FirstCandidate(rest) == Some(c)
    ensures 8 <= c.resume <= |rest|
    ensures out + Scan(rest)
         == out + Reported(c.plugin, c.target) + if c.resume >= |rest| then [] else Scan(rest[c.resume..])
  {
    Regroup(out, Reported(c.plugin, c.target), if c.resume >= |rest| then [] else Scan(rest[c.resume..]));
  }

  /** The index arithmetic of one pass of the loop, up to where it would resume. */
  method Advance(rest: string) returns (r: Option<Candidate>)
    ensures r == FirstCandidate(rest)
  {
    var found := Find(rest, CRED);
    if found.None? {
      return None;
    }
    var idx := found.value;
    var after := rest[idx + |CRED|..];
    var slash := Until(after, IsSlash);
    if slash == |after| {
      return None;
    }
    var afterSlash := after[slash + 1..];
    var end := Until(afterSlash, IsTerminator);
    var target := afterSlash[..end];
    target := target[..Until(target, IsHash)];
    r := Some(Candidate(idx, after[..slash], target, idx + |CRED| + slash + 1 + end));
  }

  /** `collect_cred_refs`. */
  method CollectCredRefs(s: string) returns (r: Option<seq<(string, string)>>)
    ensures r == if Scan(s) == [] then None else Some(Scan(s))
  {
    if Find(s, CRED).None? {
      ScanStops(s);
      return None;
    }
    var out: seq<(string, string)> := [];
    var rest := s;
    while true
      invariant Scan(s) == out + Scan(rest)
      decreases |rest|
    {
      var found := Advance(rest);
      if found.None? {
        ScanStops(rest);
        break;
      }
      var c := found.value;
      LoopStep(out, rest, c);
      ghost var pushed := out + Reported(c.plugin, c.target);
      if c.plugin != "" && c.target != "" {
        out := out + [(c.plugin, c.target)];
      }
      assert out == pushed;
      if c.resume >= |rest| {
        break;
      }
      rest := rest[c.resume..];
    }
    assert Scan(s) == out;
    r := if out == [] then None else Some(out);
  }

  // ----- soundness -----

  /**
   A reference `cred://p/t` starting at `at`: nonempty parts, no slash in `p`, nothing in `t` that
   ends a target, and `t` reaches up to such a character, a `#`, or the end.
   */
  predicate RefAt(s: string, at: nat, p: string, t: string) {
    var text := CRED + p + "/" + t;
    && at + |text| <= |s| && s[at..at + |text|] == text
    && p != "" && '/' !in p && t != ""
    && (forall c :: c in t ==> !IsTerminator(c) && c != '#')
    && (at + |text| < |s| ==> IsTerminator(s[at + |text|]) || s[at + |text|] == '#')
  }

  lemma TargetText(afterSlash: string)
    ensures var t := TargetOf(afterSlash);
      && |t| <= Until(afterSlash, IsTerminator) && afterSlash[..|t|] == t
      && (|t| < |afterSlash| ==> IsTerminator(afterSlash[|t|]) || afterSlash[|t|] == '#')
      && (forall x :: x in t ==> !IsTerminator(x) && x != '#')
  {
    var end := Until(afterSlash, IsTerminator);
    UntilFirst(afterSlash, IsTerminator);
    UntilFirst(afterSlash[..end], IsHash);
  }

  lemma SplitRefText(after: string, parts: Parts)
    requires SplitRef(after) == Some(parts)
    ensures var from := |parts.plugin| + 1;
      && from + |parts.target| <= parts.used
      && after[..from - 1] == parts.plugin && after[from - 1] == '/'
      && after[from..from + |parts.target|] == parts.target
      && (from + |parts.target| < |after| ==>
            IsTerminator(after[from + |parts.target|]) || after[from + |parts.target|] == '#')
    ensures '/' !in parts.plugin && forall x :: x in parts.target ==> !IsTerminator(x) && x != '#'
  {
    UntilFirst(after, IsSlash);
    var from := |parts.plugin| + 1;
    TargetText(after[from..]);
    TakeOfDrop(after, from, 0, |parts.target|);
  }

  lemma FoundOccurs(s: string, at: nat)
    requires Find(s, CRED) == Some(at)
    ensures Occurs(CRED, s, at)
  {
    FindFirst(s, CRED);
  }

  /** A candidate is the first `cred://` and the split of what follows it. */
  lemma CandidateParts(rest: string, c: Candidate)
    requires FirstCandidate(rest) == Some(c)
    ensures Find(rest, CRED) == Some(c.at) && Occurs(CRED, rest, c.at)
    ensures SplitRef(rest[c.at + |CRED|..]) == Some(Parts(c.plugin, c.target, c.resume - c.at - |CRED|))
  {
    FoundOccurs(rest, Find(rest, CRED).value);
  }

  lemma CandidateIsRef(rest: string, c: Candidate)
    requires FirstCandidate(rest) == Some(c) && Reported(c.plugin, c.target) != []
    ensures RefAt(rest, c.at, c.plugin, c.target)
    ensures c.at + |CRED| + |c.plugin| + 1 + |c.target| <= c.resume
  {
    CandidateParts(rest, c);
    var m := c.at + |CRED|;
    SplitRefText(rest[m..], Parts(c.plugin, c.target, c.resume - m));
    RefFromParts(rest, c.at, c.plugin, c.target);
  }

  lemma RefFromParts(s: string, at: nat, p: string, t: string)
    requires at + |CRED| <= |s| && Occurs(CRED, s, at) && p != "" && '/' !in p && t != ""
    requires forall x :: x in t ==> !IsTerminator(x) && x != '#'
    requires var after := s[at + |CRED|..];
      && |p| + 1 + |t| <= |after|
      && after[..|p|] == p && after[|p|] == '/' && after[|p| + 1..|p| + 1 + |t|] == t
      && (|p| + 1 + |t| < |after| ==>
            IsTerminator(after[|p| + 1 + |t|]) || after[|p| + 1 + |t|] == '#')
    ensures RefAt(s, at, p, t)
  {
    TakeOfDrop(s, at + |CRED|, 0, |p|);
    TakeOfDrop(s, at + |CRED|, |p| + 1, |t|);
    JoinRef(s, at, p, t);
  }

  lemma JoinRef(s: string, at: nat, p: string, t: string)
    requires var from := at + |CRED| + |p| + 1;
      && from + |t| <= |s| && Occurs(CRED, s, at)
      && s[at + |CRED|..from - 1] == p && s[from - 1] == '/' && s[from..from + |t|] == t
    ensures s[at..at + |CRED + p + "/" + t|] == CRED + p + "/" + t
  {
    var m, from := at + |CRED|, at + |CRED| + |p| + 1;
    OccursIs(CRED, s, at);
    assert s[at..from + |t|] == s[at..m] + s[m..from - 1] + s[from - 1..from] + s[from..from + |t|];
  }

  lemma RefShift(s: string, k: nat, at: nat, p: string, t: string)
    requires k <= |s| && RefAt(s[k..], at, p, t)
    ensures RefAt(s, k + at, p, t)
  {
    var text := CRED + p + "/" + t;
    assert s[k..][at..at + |text|] == s[k + at..k + at + |text|];
  }

  /** Where each reported reference is: left to right and disjoint. */
  ghost predicate Located(s: string, refs: seq<(string, string)>, at: seq<nat>) {
    && |at| == |refs|
    && (forall i :: 0 <= i < |refs| ==> RefAt(s, at[i], refs[i].0, refs[i].1))
    && (forall i, j :: 0 <= i < j < |refs| ==>
          at[i] + |CRED| + |refs[i].0| + 1 + |refs[i].1| <= at[j])
  }

  lemma LocatedAfter(s: string, k: nat, refs: seq<(string, string)>, at: seq<nat>)
    returns (moved: seq<nat>)
    requires k <= |s| && Located(s[k..], refs, at)
    ensures Located(s, refs, moved) && forall i :: 0 <= i < |moved| ==> moved[i] >= k
  {
    moved := seq(|at|, i requires 0 <= i < |at| => at[i] + k);
    forall i | 0 <= i < |refs| ensures RefAt(s, moved[i], refs[i].0, refs[i].1) {
      RefShift(s, k, at[i], refs[i].0, refs[i].1);
    }
  }

  lemma LocatedFirst(s: string, p: string, t: string, at: nat, tail: seq<(string, string)>, rest: seq<nat>)
    requires RefAt(s, at, p, t) && Located(s, tail, rest)
    requires forall i :: 0 <= i < |rest| ==> at + |CRED| + |p| + 1 + |t| <= rest[i]
    ensures Located(s, [(p, t)] + tail, [at] + rest)
  {
    var refs, all := [(p, t)] + tail, [at] + rest;
    forall i | 0 <= i < |refs| ensures RefAt(s, all[i], refs[i].0, refs[i].1) {
      if i > 0 { assert refs[i] == tail[i - 1] && all[i] == rest[i - 1]; }
    }
    forall i, j | 0 <= i < j < |refs|
      ensures all[i] + |CRED| + |refs[i].0| + 1 + |refs[i].1| <= all[j]
    {
      assert all[j] == rest[j - 1];
      if i > 0 { assert refs[i] == tail[i - 1] && all[i] == rest[i - 1]; }
    }
  }

  lemma SoundStep(s: string, c: Candidate, tail: seq<(string, string)>, inner: seq<nat>)
    returns (at: seq<nat>)
    requires FirstCandidate(s) == Some(c) && Located(s[c.resume..], tail, inner)
    ensures Located(s, Reported(c.plugin, c.target) + tail, at)
  {
    at := LocatedAfter(s, c.resume, tail, inner);
    if Reported(c.plugin, c.target) != [] {
      CandidateIsRef(s, c);
      LocatedFirst(s, c.plugin, c.target, c.at, tail, at);
      at := [c.at] + at;
    } else {
      assert Reported(c.plugin, c.target) + tail == tail;
    }
  }

  /** On every string, what is reported is there, in order, without overlaps. */
  lemma {:induction false} ScanSound(s: string) returns (at: seq<nat>)
    ensures Located(s, Scan(s), at)
    decreases |s|
  {
    at := [];
    if FirstCandidate(s).Some? {
      var c := FirstCandidate(s).value;
      var tail := if c.resume >= |s| then [] else Scan(s[c.resume..]);
      var inner := [];
      if c.resume < |s| {
        inner := ScanSound(s[c.resume..]);
      }
      at := SoundStep(s, c, tail, inner);
    }
  }

  // ----- what is not reported -----

  /** `at` starts a candidate the scan visits. */
  predicate Visited(rest: string, at: nat)
    decreases |rest|
  {
    match FirstCandidate(rest)
    case None => false
    case Some(c) =>
      || at == c.at
      || (c.resume < |rest| && at >= c.resume && Visited(rest[c.resume..], at - c.resume))
  }

  /** `at` is strictly inside the text some visited candidate consumes. */
  predicate Swallowed(rest: string, at: nat)
    decreases |rest|
  {
    match FirstCandidate(rest)
    case None => false
    case Some(c) =>
      || c.at < at < c.resume
      || (c.resume < |rest| && at >= c.resume && Swallowed(rest[c.resume..], at - c.resume))
  }

  lemma CandidateFound(s: string, at: nat, slash: nat)
    requires at + |CRED| <= slash < |s| && Occurs(CRED, s, at) && s[slash] == '/'
    ensures FirstCandidate(s).Some? && FirstCandidate(s).value.at <= at
  {
    FindFirst(s, CRED);
    var idx := Find(s, CRED).value;
    var after := s[idx + |CRED|..];
    assert after[slash - idx - |CRED|] == '/';
    UntilFirst(after, IsSlash);
  }

  /**
   Nothing else is lost: every `cred://` with a slash somewhere after it is visited, or sits inside
   an earlier candidate. In particular, stopping where no slash follows loses no reference.
   */
  lemma {:induction false} ScanComplete(s: string, at: nat, slash: nat)
    requires at + |CRED| <= slash < |s| && Occurs(CRED, s, at) && s[slash] == '/'
    ensures Visited(s, at) || Swallowed(s, at)
    decreases |s|
  {
    CandidateFound(s, at, slash);
    var c := FirstCandidate(s).value;
    if at >= c.resume {
      OccursShift(CRED, s, c.resume, at - c.resume);
      assert s[c.resume..][slash - c.resume] == '/';
      ScanComplete(s[c.resume..], at - c.resume, slash - c.resume);
    }
  }

  lemma RefTextParts(p: string, t: string)
    ensures var text := CRED + p + "/" + t;
      && text[..|CRED|] == CRED && text[|CRED|..|CRED| + |p|] == p
      && text[|CRED| + |p|] == '/' && text[|CRED| + |p| + 1..|text|] == t
  {
  }

  lemma RefPlaces(s: string, at: nat, p: string, t: string)
    requires RefAt(s, at, p, t)
    ensures Occurs(CRED, s, at)
    ensures var m := at + |CRED|;
      s[m..m + |p|] == p && s[m + |p|] == '/' && s[m + |p| + 1..m + |p| + 1 + |t|] == t
  {
    var text := CRED + p + "/" + t;
    RefTextParts(p, t);
    TakeOfTake(s, at, |text|, 0, |CRED|);
    TakeOfTake(s, at, |text|, |CRED|, |CRED| + |p|);
    TakeOfTake(s, at, |text|, |CRED| + |p| + 1, |text|);
    OccursIs(CRED, s, at);
    assert s[at..at + |text|][|CRED| + |p|] == s[at + |CRED| + |p|];
  }

  lemma RefSplit(s: string, at: nat, p: string, t: string)
    requires RefAt(s, at, p, t)
    ensures var after := s[at + |CRED|..];
      && |p| < |after| && after[..|p|] == p && after[|p|] == '/'
      && var afterSlash := after[|p| + 1..];
         t <= afterSlash && (|t| < |afterSlash| ==> IsTerminator(afterSlash[|t|]) || afterSlash[|t|] == '#')
  {
    var m := at + |CRED|;
    RefPlaces(s, at, p, t);
    TakeOfDrop(s, m, 0, |p|);
    DropDrop(s, m, |p| + 1);
    TakeOfDrop(s, m + |p| + 1, 0, |t|);
  }

  lemma TargetIs(afterSlash: string, t: string)
    requires t <= afterSlash && forall c :: c in t ==> !IsTerminator(c) && c != '#'
    requires |t| < |afterSlash| ==> IsTerminator(afterSlash[|t|]) || afterSlash[|t|] == '#'
    ensures TargetOf(afterSlash) == t
  {
    UntilFirst(afterSlash, IsTerminator);
    var end := Until(afterSlash, IsTerminator);
    forall i | 0 <= i < |t| ensures !IsTerminator(afterSlash[i]) && afterSlash[i] != '#' {
      assert afterSlash[i] == t[i] && t[i] in t;
    }
    var raw := afterSlash[..end];
    UntilIs(raw, IsHash, |t|);
    assert raw[..|t|] == afterSlash[..|t|];
  }

  lemma FirstSlash(after: string, p: string)
    requires |p| < |after| && after[..|p|] == p && after[|p|] == '/' && '/' !in p
    ensures Until(after, IsSlash) == |p|
  {
    forall i | 0 <= i < |p| ensures !IsSlash(after[i]) {
      assert after[i] == p[i] && p[i] in p;
    }
    UntilIs(after, IsSlash, |p|);
  }

  /** What the scan makes of the text after `cred://`. */
  lemma SplitRefIs(after: string, p: string, afterSlash: string, t: string)
    requires |p| < |after| && after[..|p|] == p && after[|p|] == '/' && '/' !in p && afterSlash == after[|p| + 1..]
    requires TargetOf(afterSlash) == t
    ensures SplitRef(after) == Some(Parts(p, t, |p| + 1 + Until(afterSlash, IsTerminator)))
  {
    FirstSlash(after, p);
  }

  lemma RefCandidate(s: string, at: nat, p: string, t: string)
    requires RefAt(s, at, p, t) && Find(s, CRED) == Some(at)
    ensures FirstCandidate(s).Some?
    ensures FirstCandidate(s).value.plugin == p && FirstCandidate(s).value.target == t
  {
    RefSplit(s, at, p, t);
    var afterSlash := s[at + |CRED|..][|p| + 1..];
    TargetIs(afterSlash, t);
    SplitRefIs(s[at + |CRED|..], p, afterSlash, t);
  }

  lemma RefUnshift(s: string, k: nat, at: nat, p: string, t: string)
    requires k <= at && RefAt(s, at, p, t)
    ensures RefAt(s[k..], at - k, p, t)
  {
    var text := CRED + p + "/" + t;
    assert s[k..][at - k..at - k + |text|] == s[at..at + |text|];
  }

  /** A visited reference is reported. */
  lemma {:induction false} VisitedReported(s: string, at: nat, p: string, t: string)
    requires Visited(s, at) && RefAt(s, at, p, t)
    ensures (p, t) in Scan(s)
    decreases |s|
  {
    var c := FirstCandidate(s).value;
    if at == c.at {
      RefCandidate(s, at, p, t);
    } else {
      RefUnshift(s, c.resume, at, p, t);
      VisitedReported(s[c.resume..], at - c.resume, p, t);
    }
  }

  // ----- print and scan -----

  /** Filler, a reference, an optional `#fragment`, and the terminator after it. */
  datatype Piece = Piece(filler: string, plugin: string, target: string, fragment: Option<string>, terminator: char)

  predicate PieceOk(x: Piece) {
    && Find(x.filler, CRED).None?
    && x.plugin != "" && '/' !in x.plugin
    && x.target != "" && (forall c :: c in x.target ==> !IsTerminator(c) && c != '#')
    && (x.fragment.Some? ==> forall c :: c in x.fragment.value ==> !IsTerminator(c))
    && IsTerminator(x.terminator)
  }

  function PrintRef(x: Piece): string {
    CRED + x.plugin + "/" + x.target + Tail(x)
  }

  /** The pieces, then trailing filler; without a tail the last reference ends the string. */
  function Print(pieces: seq<Piece>, tail: Option<string>): string {
    if pieces == [] then (if tail.Some? then tail.value else "")
    else pieces[0].filler + PrintRef(pieces[0])
         + (if |pieces| == 1 && tail.None? then "" else [pieces[0].terminator] + Print(pieces[1..], tail))
  }

  function RefsOf(pieces: seq<Piece>): seq<(string, string)> {
    seq(|pieces|, i requires 0 <= i < |pieces| => (pieces[i].plugin, pieces[i].target))
  }

  /** No occurrence lies within the lead and the filler. */
  lemma NoCredInside(lead: string, filler: string, i: nat)
    requires Find(filler, CRED).None? && |lead| <= 1 && (lead != "" ==> lead[0] != 'c')
    requires i + |CRED| <= |lead + filler|
    ensures (lead + filler)[i..i + |CRED|] != CRED
  {
    var front := lead + filler;
    if i >= |lead| {
      FindFirst(filler, CRED);
      OccursIs(CRED, filler, i - |lead|);
      TakeOfBack(lead, filler, i, |CRED|);
    } else {
      assert front[i..i + |CRED|][0] == lead[i];
    }
  }

  /** No occurrence straddles the start of the next reference: the pattern has no second `c`. */
  lemma NoCredAcross(front: string, more: string, i: nat)
    requires i < |front| < i + |CRED| <= |front + more| && more[0] == 'c'
    ensures (front + more)[i..i + |CRED|] != CRED
  {
    var k := |front| - i;
    assert (front + more)[i..i + |CRED|][k] == (front + more)[|front|] == 'c';
    assert CRED[k] != 'c';
  }

  lemma NoCredInFront(lead: string, filler: string, more: string, i: nat)
    requires Find(filler, CRED).None? && |lead| <= 1 && (lead != "" ==> lead[0] != 'c')
    requires more == "" || CRED <= more
    requires i < |lead + filler|
    ensures !Occurs(CRED, lead + filler + more, i)
  {
    var front := lead + filler;
    OccursIs(CRED, front + more, i);
    if i + |CRED| <= |front| {
      NoCredInside(lead, filler, i);
      TakeOfFront(front, more, i, |CRED|);
    } else if i + |CRED| <= |front + more| {
      NoCredAcross(front, more, i);
    }
  }

  /**
   The pattern has no border, so filler without an occurrence puts the next one exactly at its end.
   `lead` is the terminator before the filler, or nothing.
   */
  lemma FillerThenCred(lead: string, filler: string, more: string)
    requires Find(filler, CRED).None? && |lead| <= 1 && (lead != "" ==> lead[0] != 'c')
    requires CRED <= more
    ensures Find(lead + filler + more, CRED) == Some(|lead + filler|)
  {
    forall i: nat | i < |lead + filler| ensures !Occurs(CRED, lead + filler + more, i) {
      NoCredInFront(lead, filler, more, i);
    }
    var s, n := lead + filler + more, |lead + filler|;
    assert s[n..n + |CRED|] == more[..|CRED|] == CRED;
    OccursIs(CRED, s, n);
    FindIs(s, CRED, n);
  }

  lemma NoCredNoScan(lead: string, filler: string)
    requires Find(filler, CRED).None? && |lead| <= 1 && (lead != "" ==> lead[0] != 'c')
    ensures Scan(lead + filler) == []
  {
    var s := lead + filler;
    FindFirst(s, CRED);
    assert s + "" == s;
    if Find(s, CRED).Some? {
      NoCredInFront(lead, filler, "", Find(s, CRED).value);
    }
  }

  function Tail(x: Piece): string {
    match x.fragment case None => "" case Some(f) => "#" + f
  }

  lemma TailEnd(x: Piece, after: string)
    requires PieceOk(x) && (after != "" ==> IsTerminator(after[0]))
    ensures Until(x.target + Tail(x) + after, IsTerminator) == |x.target + Tail(x)|
  {
    var raw := x.target + Tail(x);
    forall i | 0 <= i < |raw| ensures !IsTerminator((raw + after)[i]) {
      assert (raw + after)[i] == raw[i];
      if i < |x.target| { assert raw[i] in x.target; }
      else if i > |x.target| { assert raw[i] == x.fragment.value[i - |x.target| - 1]; }
    }
    UntilIs(raw + after, IsTerminator, |raw|);
  }

  lemma AfterTarget(x: Piece, after: string)
    requires PieceOk(x) && (after != "" ==> IsTerminator(after[0]))
    ensures var rest := x.target + Tail(x) + after;
      && x.target <= rest
      && (|x.target| < |rest| ==> IsTerminator(rest[|x.target|]) || rest[|x.target|] == '#')
  {
    var rest := x.target + Tail(x) + after;
    if |x.target| < |rest| {
      assert rest[|x.target|] == (Tail(x) + after)[0];
    }
  }

  lemma JoinedParts(p: string, rest: string)
    ensures var text := p + "/" + rest;
      text[..|p|] == p && text[|p|] == '/' && text[|p| + 1..] == rest
  {
    DropTwo(p, "/", rest);
    Regroup(p, "/", rest);
  }

  lemma SplitRefJoined(p: string, rest: string, t: string)
    requires '/' !in p && t <= rest && forall c :: c in t ==> !IsTerminator(c) && c != '#'
    requires |t| < |rest| ==> IsTerminator(rest[|t|]) || rest[|t|] == '#'
    ensures SplitRef(p + "/" + rest) == Some(Parts(p, t, |p| + 1 + Until(rest, IsTerminator)))
  {
    var text := p + "/" + rest;
    JoinedParts(p, rest);
    TargetIs(rest, t);
    SplitRefIs(text, p, rest, t);
  }

  /** What is left of a printed piece after `cred://` splits back into its parts. */
  lemma SplitPiece(x: Piece, after: string)
    requires PieceOk(x) && (after != "" ==> IsTerminator(after[0]))
    ensures SplitRef(x.plugin + "/" + (x.target + Tail(x) + after))
         == Some(Parts(x.plugin, x.target, |x.plugin| + 1 + |x.target + Tail(x)|))
  {
    AfterTarget(x, after);
    SplitRefJoined(x.plugin, x.target + Tail(x) + after, x.target);
    TailEnd(x, after);
  }

  /** Text after filler that starts a reference scans to its parts and the scan of the rest. */
  lemma ScanText(lead: string, filler: string, text: string, parts: Parts, after: string)
    requires Find(filler, CRED).None? && |lead| <= 1 && (lead != "" ==> lead[0] != 'c')
    requires SplitRef(text) == Some(parts) && after == text[parts.used..]
    ensures Scan(lead + filler + (CRED + text))
         == Reported(parts.plugin, parts.target) + if after == "" then [] else Scan(after)
  {
    var front := lead + filler;
    FillerThenCred(lead, filler, CRED + text);
    DropTwo(front, CRED, text);
    ScanStep(front + (CRED + text), |front|, parts, after);
  }

  lemma PrintRefText(x: Piece, after: string)
    ensures PrintRef(x) + after == CRED + (x.plugin + "/" + (x.target + Tail(x) + after))
  {
    var p, t, f := x.plugin, x.target, Tail(x);
    assert CRED + p + "/" + t + f + after == CRED + (p + "/" + (t + f + after));
  }

  /** One printed piece, with what follows it, scans to its reference and the scan of the rest. */
  lemma ScanPiece(lead: string, x: Piece, after: string, printed: string)
    requires PieceOk(x) && |lead| <= 1 && (lead != "" ==> lead[0] != 'c')
    requires after != "" ==> IsTerminator(after[0])
    requires printed == CRED + (x.plugin + "/" + (x.target + Tail(x) + after))
    ensures Scan(lead + x.filler + printed)
         == Reported(x.plugin, x.target) + if after == "" then [] else Scan(after)
  {
    var raw := x.target + Tail(x);
    SplitPiece(x, after);
    DropTwo(x.plugin + "/", raw, after);
    ScanText(lead, x.filler, x.plugin + "/" + (raw + after),
             Parts(x.plugin, x.target, |x.plugin| + 1 + |raw|), after);
  }

  lemma RefsCons(pieces: seq<Piece>)
    requires pieces != []
    ensures RefsOf(pieces) == [(pieces[0].plugin, pieces[0].target)] + RefsOf(pieces[1..])
  {
  }

  /** The text after the first piece of a printed list. */
  function AfterFirst(pieces: seq<Piece>, tail: Option<string>): string
    requires pieces != []
  {
    if |pieces| == 1 && tail.None? then "" else [pieces[0].terminator] + Print(pieces[1..], tail)
  }

  lemma ScanFirst(lead: string, pieces: seq<Piece>, tail: Option<string>)
    requires pieces != [] && PieceOk(pieces[0])
    requires |lead| <= 1 && (lead != "" ==> lead[0] != 'c')
    ensures var after := AfterFirst(pieces, tail);
      Scan(lead + Print(pieces, tail))
        == [(pieces[0].plugin, pieces[0].target)] + if after == "" then [] else Scan(after)
  {
    var x, after := pieces[0], AfterFirst(pieces, tail);
    Regroup(x.filler, PrintRef(x), after);
    Regroup(lead, x.filler, PrintRef(x) + after);
    PrintRefText(x, after);
    ScanPiece(lead, x, after, PrintRef(x) + after);
    assert Reported(x.plugin, x.target) == [(x.plugin, x.target)];
  }

  predicate PiecesOk(pieces: seq<Piece>) {
    forall i :: 0 <= i < |pieces| ==> PieceOk(pieces[i])
  }

  predicate TailOk(tail: Option<string>) {
    tail.Some? ==> Find(tail.value, CRED).None?
  }

  lemma ScanTail(lead: string, tail: Option<string>)
    requires TailOk(tail) && |lead| <= 1 && (lead != "" ==> lead[0] != 'c')
    ensures Scan(lead + Print([], tail)) == []
  {
    NoCredNoScan(lead, Print([], tail));
  }

  lemma {:induction false} PrintScanFrom(lead: string, pieces: seq<Piece>, tail: Option<string>)
    requires PiecesOk(pieces) && TailOk(tail)
    requires |lead| <= 1 && (lead != "" ==> lead[0] != 'c')
    ensures Scan(lead + Print(pieces, tail)) == RefsOf(pieces)
    decreases |pieces|
  {
    if pieces == [] {
      ScanTail(lead, tail);
    } else {
      assert PieceOk(pieces[0]);
      ScanFirst(lead, pieces, tail);
      RefsCons(pieces);
      if AfterFirst(pieces, tail) != "" {
        TerminatorNotC(pieces[0]);
        PrintScanFrom([pieces[0].terminator], pieces[1..], tail);
      }
    }
  }

  lemma TerminatorNotC(x: Piece)
    requires PieceOk(x)
    ensures x.terminator != 'c'
  {
  }

  /** Scanning a printed list of references gives exactly the list, in order. */
  lemma PrintScan(pieces: seq<Piece>, tail: Option<string>)
    requires PiecesOk(pieces) && TailOk(tail)
    ensures Scan(Print(pieces, tail)) == RefsOf(pieces)
  {
    PrintScanFrom("", pieces, tail);
    assert "" + Print(pieces, tail) == Print(pieces, tail);
  }

  // ----- when a reference is reported under its own target -----

  /** The target read is the one written exactly when what follows ends it; else it runs on. */
  lemma TargetExact(afterSlash: string, t: string)
    requires t <= afterSlash && forall c :: c in t ==> !IsTerminator(c) && c != '#'
    ensures t <= TargetOf(afterSlash)
    ensures TargetOf(afterSlash) == t
       <==> |t| == |afterSlash| || IsTerminator(afterSlash[|t|]) || afterSlash[|t|] == '#'
  {
    if |t| == |afterSlash| || IsTerminator(afterSlash[|t|]) || afterSlash[|t|] == '#' {
      TargetIs(afterSlash, t);
    } else {
      TargetLonger(afterSlash, t);
    }
  }

  lemma TargetLonger(afterSlash: string, t: string)
    requires t < afterSlash && forall c :: c in t ==> !IsTerminator(c) && c != '#'
    requires !IsTerminator(afterSlash[|t|]) && afterSlash[|t|] != '#'
    ensures t < TargetOf(afterSlash)
  {
    TargetText(afterSlash);
    var u := TargetOf(afterSlash);
    forall i | 0 <= i < |t| ensures !IsTerminator(afterSlash[i]) && afterSlash[i] != '#' {
      assert afterSlash[i] == t[i] && t[i] in t;
    }
    assert |u| > |t|;
    assert u[..|t|] == afterSlash[..|t|];
  }

  /**
   Whatever comes before and after, the first reference of a text is reported under its own target
   if and only if its target ends the text or is followed by a terminator or a `#`.
   */
  lemma FirstReported(filler: string, p: string, t: string, after: string)
    requires Find(filler, CRED).None? && p != "" && '/' !in p
    requires t != "" && forall c :: c in t ==> !IsTerminator(c) && c != '#'
    ensures var refs := Scan(filler + (CRED + (p + "/" + (t + after))));
      && refs != [] && refs[0].0 == p && t <= refs[0].1
      && (refs[0].1 == t <==> after == "" || IsTerminator(after[0]) || after[0] == '#')
  {
    var rest := t + after;
    var text := p + "/" + rest;
    var parts := Parts(p, TargetOf(rest), |p| + 1 + Until(rest, IsTerminator));
    assert t <= rest;
    assert |t| < |rest| ==> rest[|t|] == after[0];
    TargetExact(rest, t);
    JoinedParts(p, rest);
    SplitRefIs(text, p, rest, TargetOf(rest));
    ScanText("", filler, text, parts, text[parts.used..]);
    assert "" + filler == filler;
  }

  /** A brace does not end a target: a text that ends in `cred://p/t}` yields the target `t}`. */
  lemma BraceIsTaken(filler: string, p: string, t: string)
    requires Find(filler, CRED).None? && p != "" && '/' !in p
    requires t != "" && forall c :: c in t ==> !IsTerminator(c) && c != '#'
    ensures Scan(filler + (CRED + (p + "/" + (t + "}")))) == [(p, t + "}")]
  {
    var rest := t + "}";
    var text := p + "/" + rest;
    UntilIs(rest, IsTerminator, |rest|);
    SplitRefJoined(p, rest, rest);
    ScanText("", filler, text, Parts(p, rest, |text|), "");
    assert "" + filler == filler;
    assert Reported(p, rest) + [] == [(p, rest)];
  }
}
