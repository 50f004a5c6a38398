/**
 When a reference written in a text is reported, and so routes revocations: exactly when the text
 in front of it leaves no reference open, and what follows it ends its target.
 */
module Routing {
  import opened Base
  import opened Text
  import opened CredScanner

  function RefText(p: string, t: string): string {
    CRED + p + "/" + t
  }

  // ----- reported means visited and written there -----

  /** A target may end at `i`. */
  predicate Ends(s: string, i: nat) {
    i >= |s| || IsTerminator(s[i]) || s[i] == '#'
  }

  lemma ReportedFrom(s: string, c: Candidate, ref: (string, string))
    requires FirstCandidate(s) == Some(c) && ref in Scan(s)
    ensures ref in Reported(c.plugin, c.target) || (c.resume < |s| && ref in Scan(s[c.resume..]))
  {
  }

  lemma ScanHasCandidate(s: string)
    requires Scan(s) != []
    ensures FirstCandidate(s).Some?
  {
  }

  lemma VisitedLater(s: string, c: Candidate, inner: nat, at: nat)
    requires FirstCandidate(s) == Some(c) && c.resume < |s| && at == c.resume + inner
    ensures Visited(s, at) <==> Visited(s[c.resume..], inner)
  {
  }

  lemma ShiftRef(s: string, k: nat, inner: nat, at: nat, ref: (string, string))
    requires k <= |s| && at == k + inner && RefAt(s[k..], inner, ref.0, ref.1)
    ensures RefAt(s, at, ref.0, ref.1)
  {
    RefShift(s, k, inner, ref.0, ref.1);
  }

  lemma ReportedHere(s: string, c: Candidate, ref: (string, string))
    requires FirstCandidate(s) == Some(c) && ref in Reported(c.plugin, c.target)
    ensures Visited(s, c.at) && RefAt(s, c.at, ref.0, ref.1)
  {
    CandidateIsRef(s, c);
  }

  lemma {:induction false} ReportedVisited(s: string, ref: (string, string)) returns (at: nat)
    requires ref in Scan(s)
    ensures Visited(s, at) && RefAt(s, at, ref.0, ref.1)
    decreases |s|
  {
    ScanHasCandidate(s);
    var c := FirstCandidate(s).value;
    ReportedFrom(s, c, ref);
    if ref in Reported(c.plugin, c.target) {
      ReportedHere(s, c, ref);
      at := c.at;
    } else {
      var inner := ReportedVisited(s[c.resume..], ref);
      at := c.resume + inner;
      ShiftRef(s, c.resume, inner, at, ref);
      VisitedLater(s, c, inner, at);
    }
  }

  /** A pair is reported if and only if the scan visits a place where exactly that reference is written. */
  lemma ReportedIff(s: string, ref: (string, string))
    ensures ref in Scan(s) <==> exists at: nat :: Visited(s, at) && RefAt(s, at, ref.0, ref.1)
  {
    if ref in Scan(s) {
      var at := ReportedVisited(s, ref);
    }
    if at: nat :| Visited(s, at) && RefAt(s, at, ref.0, ref.1) {
      VisitedReported(s, at, ref.0, ref.1);
    }
  }

  lemma RefAtEnds(s: string, at: nat, p: string, t: string, text: string)
    requires RefAt(s, at, p, t) && text == RefText(p, t)
    ensures Occurs(text, s, at) && Ends(s, at + |text|)
  {
    OccursIs(text, s, at);
  }

  /** A reference nowhere followed by the end of the text, a terminator or a `#` is not reported. */
  lemma NeverEnded(s: string, ref: (string, string), text: string)
    requires text == RefText(ref.0, ref.1)
    requires forall at: nat :: Occurs(text, s, at) ==> !Ends(s, at + |text|)
    ensures ref !in Scan(s)
  {
    if ref in Scan(s) {
      var at := ReportedVisited(s, ref);
      RefAtEnds(s, at, ref.0, ref.1, text);
      assert false;
    }
  }

  // ----- visited, by the text in front -----

  /** Each reference the scan opens in the text is closed in it: a slash, and later a terminator. */
  predicate Closed(front: string)
    decreases |front|
  {
    || Find(front, CRED).None?
    || (&& FirstCandidate(front).Some?
        && FirstCandidate(front).value.resume < |front|
        && Closed(front[FirstCandidate(front).value.resume..]))
  }

  lemma {:induction false} UntilFront(a: string, b: string, stop: char -> bool)
    ensures Until(a + b, stop) == if Until(a, stop) < |a| then Until(a, stop) else |a| + Until(b, stop)
  {
    if a == "" {
      assert a + b == b;
    } else {
      assert (a + b)[0] == a[0] && (a + b)[1..] == a[1..] + b;
      UntilFront(a[1..], b, stop);
    }
  }

  lemma DropFront(a: string, b: string, n: nat)
    requires n <= |a|
    ensures (a + b)[n..] == a[n..] + b
  {
  }

  lemma FindFront(front: string, more: string, idx: nat)
    requires Find(front, CRED) == Some(idx)
    ensures Find(front + more, CRED) == Some(idx)
  {
    FindFirst(front, CRED);
    forall i: nat | i <= idx ensures Occurs(CRED, front + more, i) <==> Occurs(CRED, front, i) {
      OccursIs(CRED, front, i);
      OccursIs(CRED, front + more, i);
      TakeOfFront(front, more, i, |CRED|);
    }
    FindIs(front + more, CRED, idx);
  }

  lemma TargetStays(a: string, more: string)
    requires Until(a, IsTerminator) < |a|
    ensures Until(a + more, IsTerminator) == Until(a, IsTerminator) && TargetOf(a + more) == TargetOf(a)
  {
    UntilFront(a, more, IsTerminator);
    var n := Until(a, IsTerminator);
    assert (a + more)[..n] == a[..n];
  }

  lemma SplitStays(after: string, more: string, parts: Parts)
    requires SplitRef(after) == Some(parts) && parts.used < |after|
    ensures SplitRef(after + more) == Some(parts)
  {
    var slash := Until(after, IsSlash);
    UntilFront(after, more, IsSlash);
    DropFront(after, more, slash + 1);
    TargetStays(after[slash + 1..], more);
    assert (after + more)[..slash] == after[..slash];
  }

  /** What is left open in `after` runs on past a character that is no slash and no terminator. */
  lemma SplitRunsOn(after: string, more: string)
    requires more != "" && !IsSlash(more[0]) && !IsTerminator(more[0])
    requires SplitRef(after).None? || SplitRef(after).value.used == |after|
    ensures SplitRef(after + more).Some? ==> SplitRef(after + more).value.used > |after|
  {
    var slash := Until(after, IsSlash);
    UntilFront(after, more, IsSlash);
    assert Until(more, IsSlash) > 0 && Until(more, IsTerminator) > 0;
    if slash < |after| {
      DropFront(after, more, slash + 1);
      UntilFront(after[slash + 1..], more, IsTerminator);
    }
  }

  lemma CandidateSplit(s: string, c: Candidate) returns (after: string, parts: Parts)
    requires FirstCandidate(s) == Some(c)
    ensures Find(s, CRED) == Some(c.at) && c.at + |CRED| <= |s| && after == s[c.at + |CRED|..]
    ensures SplitRef(after) == Some(parts) && parts.plugin == c.plugin && parts.target == c.target
    ensures c.resume == c.at + |CRED| + parts.used
  {
    CandidateParts(s, c);
    after := s[c.at + |CRED|..];
    parts := SplitRef(after).value;
  }

  lemma CandidateOf(s: string, at: nat, after: string, parts: Parts) returns (c: Candidate)
    requires Find(s, CRED) == Some(at) && after == s[at + |CRED|..] && SplitRef(after) == Some(parts)
    ensures FirstCandidate(s) == Some(c)
    ensures c.at == at && c.plugin == parts.plugin && c.target == parts.target
    ensures c.resume == at + |CRED| + parts.used
  {
    c := Candidate(at, parts.plugin, parts.target, at + |CRED| + parts.used);
    CandidateIs(s, at, parts);
  }

  lemma CandidateStays(s: string, front: string, more: string, c: Candidate)
    requires s == front + more && FirstCandidate(front) == Some(c) && c.resume < |front|
    ensures FirstCandidate(s) == Some(c)
  {
    var after, parts := CandidateSplit(front, c);
    FindFront(front, more, c.at);
    DropFront(front, more, c.at + |CRED|);
    SplitStays(after, more, parts);
    var d := CandidateOf(s, c.at, after + more, parts);
  }

  lemma OpenSplit(front: string, idx: nat)
    requires Find(front, CRED) == Some(idx)
    requires FirstCandidate(front).Some? ==> FirstCandidate(front).value.resume >= |front|
    ensures var after := front[idx + |CRED|..];
      SplitRef(after).None? || SplitRef(after).value.used == |after|
  {
  }

  lemma OpenRunsOn(after: string, more: string, whole: string, parts: Parts)
    requires CRED <= more && whole == after + more && SplitRef(whole) == Some(parts)
    requires SplitRef(after).None? || SplitRef(after).value.used == |after|
    ensures parts.used > |after|
  {
    assert more[0] == CRED[0] == 'c';
    SplitRunsOn(after, more);
    assert SplitRef(after + more) == SplitRef(whole);
  }

  lemma CandidateRunsOn(s: string, front: string, more: string, idx: nat, c: Candidate)
    requires s == front + more && CRED <= more && Find(front, CRED) == Some(idx)
    requires FirstCandidate(front).Some? ==> FirstCandidate(front).value.resume >= |front|
    requires FirstCandidate(s) == Some(c)
    ensures c.at < |front| < c.resume
  {
    FindFront(front, more, idx);
    var rest, parts := CandidateSplit(s, c);
    DropFront(front, more, idx + |CRED|);
    OpenSplit(front, idx);
    OpenRunsOn(front[idx + |CRED|..], more, rest, parts);
  }

  lemma FillerThen(filler: string, more: string)
    requires Find(filler, CRED).None? && CRED <= more
    ensures Find(filler + more, CRED) == Some(|filler|)
  {
    assert "" + filler == filler;
    FillerThenCred("", filler, more);
  }

  lemma VisitedNow(s: string, c: Candidate, at: nat)
    requires FirstCandidate(s) == Some(c) && at < c.resume
    ensures Visited(s, at) <==> at == c.at
  {
  }

  lemma ClosedLater(front: string, c: Candidate)
    requires FirstCandidate(front) == Some(c)
    ensures Closed(front) <==> c.resume < |front| && Closed(front[c.resume..])
  {
  }

  lemma CutPlace(s: string, at: nat, front: string) returns (more: string)
    requires at + |CRED| <= |s| && Occurs(CRED, s, at) && front == s[..at]
    ensures s == front + more && CRED <= more
  {
    more := s[at..];
    OccursIs(CRED, s, at);
    assert more[..|CRED|] == CRED;
  }

  /** A place where `cred://` and later a slash stand is visited if and only if nothing is open in front. */
  lemma {:induction false} VisitedExactly(s: string, at: nat, slash: nat, front: string)
    requires at + |CRED| <= slash < |s| && Occurs(CRED, s, at) && s[slash] == '/' && front == s[..at]
    ensures Visited(s, at) <==> Closed(front)
    decreases |s|
  {
    var more := CutPlace(s, at, front);
    CandidateFound(s, at, slash);
    var c := FirstCandidate(s).value;
    if Find(front, CRED).None? {
      FillerThen(front, more);
      CandidateParts(s, c);
      VisitedNow(s, c, at);
    } else if FirstCandidate(front).Some? && FirstCandidate(front).value.resume < |front| {
      CandidateStays(s, front, more, FirstCandidate(front).value);
      var rest, inner, front' := ShiftPlace(s, c.resume, at, slash, front);
      VisitedExactly(rest, inner, slash - c.resume, front');
      VisitedLater(s, c, inner, at);
      ClosedLater(front, c);
    } else {
      CandidateRunsOn(s, front, more, Find(front, CRED).value, c);
      VisitedNow(s, c, at);
      assert !Closed(front);
    }
  }

  lemma ShiftPlace(s: string, k: nat, at: nat, slash: nat, front: string)
    returns (rest: string, inner: nat, front': string)
    requires k <= at && at + |CRED| <= slash < |s| && Occurs(CRED, s, at) && s[slash] == '/' && front == s[..at]
    ensures rest == s[k..] && at == k + inner && front' == rest[..inner] == front[k..]
    ensures inner + |CRED| <= slash - k < |rest| && Occurs(CRED, rest, inner) && rest[slash - k] == '/'
  {
    rest, inner := s[k..], at - k;
    front' := rest[..inner];
    OccursShift(CRED, s, k, inner);
  }

  lemma WrittenVisited(s: string, at: nat, ref: (string, string), front: string)
    requires RefAt(s, at, ref.0, ref.1) && front == s[..at]
    ensures Visited(s, at) <==> Closed(front)
  {
    RefPlaces(s, at, ref.0, ref.1);
    VisitedExactly(s, at, at + |CRED| + |ref.0|, front);
  }

  /**
   When a pair is reported, for every text and pair: exactly when the reference is written somewhere
   with its target ended there, and with no reference left open in front of it.
   */
  lemma ReportedExactly(s: string, ref: (string, string))
    ensures ref in Scan(s) <==> exists at: nat :: RefAt(s, at, ref.0, ref.1) && Closed(s[..at])
  {
    forall at: nat | RefAt(s, at, ref.0, ref.1) ensures Visited(s, at) <==> Closed(s[..at]) {
      WrittenVisited(s, at, ref, s[..at]);
    }
    ReportedIff(s, ref);
  }

  // ----- what closed texts look like -----

  /** Filler and a reference; the text after it starts with a terminator. */
  datatype Block = Block(filler: string, name: string, target: string)

  function Written(blocks: seq<Block>, tail: string): string {
    if blocks == [] then tail
    else blocks[0].filler + (CRED + (blocks[0].name + "/" + (blocks[0].target + Written(blocks[1..], tail))))
  }

  predicate BlockOk(b: Block, after: string) {
    && Find(b.filler, CRED).None? && '/' !in b.name
    && (forall c :: c in b.target ==> !IsTerminator(c))
    && after != "" && IsTerminator(after[0])
  }

  predicate WellClosed(blocks: seq<Block>, tail: string) {
    if blocks == [] then Find(tail, CRED).None?
    else BlockOk(blocks[0], Written(blocks[1..], tail)) && WellClosed(blocks[1..], tail)
  }

  lemma TextPlaces(s: string, filler: string, text: string)
    requires s == filler + (CRED + text) && Find(filler, CRED).None?
    ensures Find(s, CRED) == Some(|filler|)
    ensures |filler| + |CRED| + |text| == |s| && s[|filler| + |CRED|..] == text
  {
    FillerThen(filler, CRED + text);
    DropTwo(filler, CRED, text);
  }

  lemma JoinedSplit(text: string, p: string, rest: string) returns (parts: Parts)
    requires '/' !in p && text == p + "/" + rest
    ensures SplitRef(text) == Some(parts)
    ensures parts.plugin == p && parts.target == TargetOf(rest)
    ensures parts.used == |p| + 1 + Until(rest, IsTerminator)
  {
    JoinedParts(p, rest);
    parts := Parts(p, TargetOf(rest), |p| + 1 + Until(rest, IsTerminator));
    SplitRefIs(text, p, rest, TargetOf(rest));
  }

  /** The candidate of filler and a reference, and where the scan goes on. */
  lemma JoinedCandidate(s: string, filler: string, text: string, p: string, rest: string) returns (c: Candidate)
    requires s == filler + (CRED + text) && text == p + "/" + rest
    requires Find(filler, CRED).None? && '/' !in p
    ensures FirstCandidate(s) == Some(c)
    ensures c.at == |filler| && c.plugin == p && c.target == TargetOf(rest)
    ensures c.resume == |filler| + |CRED| + (|p| + 1 + Until(rest, IsTerminator))
  {
    var parts := JoinedSplit(text, p, rest);
    TextPlaces(s, filler, text);
    c := CandidateOf(s, |filler|, text, parts);
  }

  lemma JoinedRest(s: string, filler: string, text: string, p: string, target: string, after: string)
    requires s == filler + (CRED + text) && text == p + "/" + (target + after)
    ensures |s| == |filler| + |CRED| + (|p| + 1 + |target|) + |after|
    ensures s[|filler| + |CRED| + (|p| + 1 + |target|)..] == after
  {
    DropTwo(filler, CRED, text);
    DropTwo(p + "/", target, after);
    DropDrop(s, |filler| + |CRED|, |p| + 1 + |target|);
  }

  lemma TargetEnds(target: string, after: string)
    requires forall c :: c in target ==> !IsTerminator(c)
    requires after != "" ==> IsTerminator(after[0])
    ensures Until(target + after, IsTerminator) == |target|
  {
    var rest := target + after;
    forall i | 0 <= i < |target| ensures !IsTerminator(rest[i]) {
      assert rest[i] == target[i] && target[i] in target;
    }
    UntilIs(rest, IsTerminator, |target|);
  }

  lemma BlockCandidate(s: string, b: Block, after: string)
    requires BlockOk(b, after) && s == b.filler + (CRED + (b.name + "/" + (b.target + after)))
    ensures FirstCandidate(s).Some? && FirstCandidate(s).value.resume < |s|
    ensures s[FirstCandidate(s).value.resume..] == after
  {
    var text := b.name + "/" + (b.target + after);
    TargetEnds(b.target, after);
    var c := JoinedCandidate(s, b.filler, text, b.name, b.target + after);
    JoinedRest(s, b.filler, text, b.name, b.target, after);
  }

  lemma {:induction false} WrittenIsClosed(blocks: seq<Block>, tail: string)
    requires WellClosed(blocks, tail)
    ensures Closed(Written(blocks, tail))
  {
    if blocks != [] {
      WrittenIsClosed(blocks[1..], tail);
      var s := Written(blocks, tail);
      BlockCandidate(s, blocks[0], Written(blocks[1..], tail));
      ClosedLater(s, FirstCandidate(s).value);
    }
  }

  lemma NoCredBefore(s: string, at: nat)
    requires Find(s, CRED) == Some(at)
    ensures Find(s[..at], CRED).None?
  {
    assert s[..at] + s[at..] == s;
    if Find(s[..at], CRED).Some? {
      FindFront(s[..at], s[at..], Find(s[..at], CRED).value);
      assert false;
    }
  }

  lemma CutAt(s: string, i: nat, c: char)
    requires i < |s| && s[i] == c
    ensures s == s[..i] + [c] + s[i + 1..]
  {
  }

  lemma CutParts(s: string, stop: char -> bool, c: char, n: nat)
    requires n == Until(s, stop) && stop(c)
    ensures forall x :: x in s[..n] ==> !stop(x)
    ensures s == s[..n] + s[n..]
  {
    UntilFirst(s, stop);
  }

  lemma SlashSplit(after: string, parts: Parts) returns (name: string, rest: string)
    requires SplitRef(after) == Some(parts)
    ensures |name| < |after| && rest == after[|name| + 1..] && after == name + "/" + rest && '/' !in name
    ensures parts.used == |name| + 1 + Until(rest, IsTerminator)
  {
    var slash := Until(after, IsSlash);
    UntilFirst(after, IsSlash);
    CutParts(after, IsSlash, '/', slash);
    CutAt(after, slash, '/');
    name, rest := after[..slash], after[slash + 1..];
  }

  lemma SplitText(after: string, parts: Parts) returns (name: string, target: string, tail: string)
    requires SplitRef(after) == Some(parts) && parts.used < |after|
    ensures after == name + "/" + (target + tail) && tail == after[parts.used..] && tail != ""
    ensures '/' !in name && (forall c :: c in target ==> !IsTerminator(c)) && IsTerminator(tail[0])
  {
    var rest;
    name, rest := SlashSplit(after, parts);
    var end := Until(rest, IsTerminator);
    UntilFirst(rest, IsTerminator);
    CutParts(rest, IsTerminator, ' ', end);
    target, tail := rest[..end], rest[end..];
    DropDrop(after, |name| + 1, end);
  }

  lemma CutAtCred(s: string, at: nat)
    requires at + |CRED| <= |s| && Occurs(CRED, s, at)
    ensures s == s[..at] + (CRED + s[at + |CRED|..])
  {
    OccursIs(CRED, s, at);
    assert s == s[..at] + (s[at..at + |CRED|] + s[at + |CRED|..]);
  }

  lemma FirstParts(front: string, c: Candidate) returns (after: string, parts: Parts)
    requires FirstCandidate(front) == Some(c) && c.resume < |front|
    ensures Find(front, CRED) == Some(c.at) && Occurs(CRED, front, c.at)
    ensures after == front[c.at + |CRED|..] && SplitRef(after) == Some(parts)
    ensures parts.used < |after| && after[parts.used..] == front[c.resume..]
  {
    after, parts := CandidateSplit(front, c);
    FoundOccurs(front, c.at);
    DropDrop(front, c.at + |CRED|, parts.used);
  }

  lemma FirstBlock(front: string, c: Candidate) returns (b: Block, rest: string)
    requires FirstCandidate(front) == Some(c) && c.resume < |front|
    ensures rest == front[c.resume..] && BlockOk(b, rest)
    ensures front == b.filler + (CRED + (b.name + "/" + (b.target + rest)))
  {
    var after, parts := FirstParts(front, c);
    NoCredBefore(front, c.at);
    var name, target, tail := SplitText(after, parts);
    rest := tail;
    CutAtCred(front, c.at);
    b := Block(front[..c.at], name, target);
  }

  lemma {:induction false} ClosedIsWritten(front: string) returns (blocks: seq<Block>, tail: string)
    requires Closed(front)
    ensures WellClosed(blocks, tail) && Written(blocks, tail) == front
    decreases |front|
  {
    if Find(front, CRED).None? {
      blocks, tail := [], front;
    } else {
      var c := FirstCandidate(front).value;
      var b, rest := FirstBlock(front, c);
      blocks, tail := ClosedIsWritten(rest);
      blocks := [b] + blocks;
    }
  }

  /**
   The closed texts, without the scanner: filler free of `cred://` between references, and a
   terminator after each of them.
   */
  lemma ClosedMeans(front: string)
    ensures Closed(front) <==> exists blocks, tail :: WellClosed(blocks, tail) && Written(blocks, tail) == front
  {
    if Closed(front) {
      var blocks, tail := ClosedIsWritten(front);
    }
    if blocks, tail :| WellClosed(blocks, tail) && Written(blocks, tail) == front {
      WrittenIsClosed(blocks, tail);
    }
  }

  /** A brace closes nothing: after `cred://p/t}` no reference is visited until a terminator comes. */
  lemma BraceLeavesOpen(filler: string, p: string, t: string)
    requires Find(filler, CRED).None? && p != "" && '/' !in p
    requires t != "" && forall c :: c in t ==> !IsTerminator(c) && c != '#'
    ensures !Closed(filler + (CRED + (p + "/" + (t + "}"))))
  {
    var rest := t + "}";
    TargetEnds(rest, "");
    assert rest + "" == rest;
    var text := p + "/" + rest;
    var s := filler + (CRED + text);
    var c := JoinedCandidate(s, filler, text, p, rest);
    JoinedRest(s, filler, text, p, rest, "");
    ClosedLater(s, c);
  }

  // ----- the terminators, written out -----

  lemma ListedCharacters(c: char)
    ensures IsTerminator(c) || c == '#' <==> c in {
      '\t', '\n', '\U{000B}', '\U{000C}', '\r', ' ', '\U{0085}', '\U{00A0}', '\U{1680}',
      '\U{2000}', '\U{2001}', '\U{2002}', '\U{2003}', '\U{2004}', '\U{2005}', '\U{2006}',
      '\U{2007}', '\U{2008}', '\U{2009}', '\U{200A}', '\U{2028}', '\U{2029}', '\U{202F}',
      '\U{205F}', '\U{3000}', '?', '&', '@', ':', '\"', '\'', '>', ',', ';', '#'}
  {
  }

  /** Letters and digits: neither a slash nor the end of a target. */
  lemma AlphanumericIsPlain(s: string)
    requires forall x :: x in s ==> 'a' <= x <= 'z' || 'A' <= x <= 'Z' || '0' <= x <= '9'
    ensures '/' !in s && forall x :: x in s ==> !IsTerminator(x) && x != '#'
  {
  }

  lemma Ungroup(s: string, filler: string, p: string, t: string, c: string, rest: string)
    requires s == filler + "cred://" + p + "/" + t + c + rest
    ensures s == filler + (CRED + (p + "/" + (t + (c + rest))))
  {
  }

  lemma FirstReportedIn(s: string, filler: string, p: string, t: string, after: string)
    requires s == filler + (CRED + (p + "/" + (t + after)))
    requires Find(filler, CRED).None? && p != "" && '/' !in p
    requires t != "" && forall c :: c in t ==> !IsTerminator(c) && c != '#'
    ensures Scan(s) != [] && Scan(s)[0].0 == p && t <= Scan(s)[0].1
    ensures Scan(s)[0].1 == t <==> after == "" || IsTerminator(after[0]) || after[0] == '#'
  {
    FirstReported(filler, p, t, after);
  }

  /**
   The characters that end a target, one by one: the White_Space code points, `?`, `&`, `@`, `:`, the
   quotes, `>`, `,`, `;`, and `#` for its fragment. After any other character the target runs on.
   */
  lemma FirstTargetEnds(s: string, filler: string, p: string, t: string, c: char, rest: string)
    requires Find(filler, "cred://").None? && p != "" && t != ""
    requires forall x :: x in p + t ==> 'a' <= x <= 'z' || 'A' <= x <= 'Z' || '0' <= x <= '9'
    requires s == filler + "cred://" + p + "/" + t + [c] + rest
    ensures var refs := Scan(s);
      && refs != [] && refs[0].0 == p && t <= refs[0].1
      && (refs[0].1 == t <==> c in {
            '\t', '\n', '\U{000B}', '\U{000C}', '\r', ' ', '\U{0085}', '\U{00A0}', '\U{1680}',
            '\U{2000}', '\U{2001}', '\U{2002}', '\U{2003}', '\U{2004}', '\U{2005}', '\U{2006}',
            '\U{2007}', '\U{2008}', '\U{2009}', '\U{200A}', '\U{2028}', '\U{2029}', '\U{202F}',
            '\U{205F}', '\U{3000}', '?', '&', '@', ':', '\"', '\'', '>', ',', ';', '#'})
  {
    assert forall x :: x in p || x in t ==> x in p + t;
    AlphanumericIsPlain(p);
    AlphanumericIsPlain(t);
    Ungroup(s, filler, p, t, [c], rest);
    FirstReportedIn(s, filler, p, t, [c] + rest);
    ListedCharacters(c);
  }
}
