/**
 The two header builders. A header map has one value per case-folded name, and inserting replaces.
 Which names and values the `http` crate accepts is a parameter.
 */
module Headers {
  import opened Base
  import opened Text

  type HeaderMap = map<string, string>
  type HeaderList = seq<(string, string)>

  const TRACE_PARENT := "traceparent"
  const TRACE_STATE := "tracestate"
  const IDEMPOTENCY_KEY := "Idempotency-Key"
  const IDEMPOTENCY_FOLDED := "idempotency-key"

  predicate IsProtected(name: string, isJson: bool) {
    var lower := AsciiLower(Trim(name));
    || lower == "host" || lower == "connection" || lower == "content-length"
    || (isJson && (lower == "accept" || lower == "content-type"))
    || "x-forwarded-" <= lower
    || lower == "forwarded" || lower == "via" || lower == "x-real-ip" || lower == "x-request-id"
  }

  predicate IsTrace(name: string) {
    var lower := AsciiLower(Trim(name));
    lower == TRACE_PARENT || lower == TRACE_STATE
  }

  /** `operator_has_header`. */
  predicate OperatorHasHeader(rawHeaders: HeaderList, name: string) {
    exists i :: 0 <= i < |rawHeaders| && AsciiLower(rawHeaders[i].0) == AsciiLower(name)
  }

  /** Header `i` is taken, and no later header that is taken folds to the same name. */
  predicate Wins(headers: HeaderList, taken: string -> bool, i: nat)
    requires i < |headers|
  {
    taken(headers[i].0) && forall j :: i < j < |headers| && taken(headers[j].0) ==>
      AsciiLower(headers[j].0) != AsciiLower(headers[i].0)
  }

  /** The last taken header of each folded name, and nothing else. */
  ghost predicate LastWins(headers: HeaderList, taken: string -> bool, m: HeaderMap) {
    && (forall i :: 0 <= i < |headers| && Wins(headers, taken, i) ==>
          AsciiLower(headers[i].0) in m && m[AsciiLower(headers[i].0)] == headers[i].1)
    && (forall n :: n in m ==>
          exists i :: 0 <= i < |headers| && Wins(headers, taken, i) && AsciiLower(headers[i].0) == n)
  }

  /** A taken header the `http` crate rejects. */
  predicate Rejected(
    headers: HeaderList, taken: string -> bool, validName: string -> bool, validValue: string -> bool)
  {
    exists i :: 0 <= i < |headers| && taken(headers[i].0) && !(validName(headers[i].0) && validValue(headers[i].1))
  }

  lemma WinsExtend(headers: HeaderList, taken: string -> bool, n: nat, i: nat)
    requires i < n < |headers|
    ensures Wins(headers[..n + 1], taken, i)
       <==> Wins(headers[..n], taken, i)
            && !(taken(headers[n].0) && AsciiLower(headers[n].0) == AsciiLower(headers[i].0))
  {
    var a, b := headers[..n], headers[..n + 1];
    assert forall j :: i < j < n ==> a[j] == b[j];
    assert b[n] == headers[n];
  }

  lemma SkipKeeps(headers: HeaderList, taken: string -> bool, n: nat, m: HeaderMap)
    requires n < |headers| && LastWins(headers[..n], taken, m) && !taken(headers[n].0)
    ensures LastWins(headers[..n + 1], taken, m)
  {
    var a, b := headers[..n], headers[..n + 1];
    forall i | 0 <= i < n ensures Wins(b, taken, i) <==> Wins(a, taken, i) {
      WinsExtend(headers, taken, n, i);
    }
    forall k | k in m ensures exists i :: 0 <= i < |b| && Wins(b, taken, i) && AsciiLower(b[i].0) == k {
      var i :| 0 <= i < |a| && Wins(a, taken, i) && AsciiLower(a[i].0) == k;
      assert b[i] == a[i] && Wins(b, taken, i);
    }
  }

  lemma InsertWins(headers: HeaderList, taken: string -> bool, n: nat, m: HeaderMap)
    requires n < |headers| && LastWins(headers[..n], taken, m) && taken(headers[n].0)
    ensures LastWins(headers[..n + 1], taken, m[AsciiLower(headers[n].0) := headers[n].1])
  {
    var a, b := headers[..n], headers[..n + 1];
    var name := AsciiLower(headers[n].0);
    var m' := m[name := headers[n].1];
    assert b[n] == headers[n] && Wins(b, taken, n);
    forall i | 0 <= i < |b| && Wins(b, taken, i)
      ensures AsciiLower(b[i].0) in m' && m'[AsciiLower(b[i].0)] == b[i].1
    {
      if i < n {
        WinsExtend(headers, taken, n, i);
        assert a[i] == b[i];
      }
    }
    forall k | k in m' ensures exists i :: 0 <= i < |b| && Wins(b, taken, i) && AsciiLower(b[i].0) == k {
      if k != name {
        var i :| 0 <= i < |a| && Wins(a, taken, i) && AsciiLower(a[i].0) == k;
        WinsExtend(headers, taken, n, i);
        assert b[i] == a[i];
      }
    }
  }

  lemma RejectedExtend(
    headers: HeaderList, taken: string -> bool, validName: string -> bool, validValue: string -> bool, n: nat)
    requires n < |headers|
    ensures Rejected(headers[..n + 1], taken, validName, validValue)
       <==> Rejected(headers[..n], taken, validName, validValue)
            || (taken(headers[n].0) && !(validName(headers[n].0) && validValue(headers[n].1)))
  {
    var a, b := headers[..n], headers[..n + 1];
    assert b[n] == headers[n];
    assert forall i :: 0 <= i < n ==> a[i] == b[i];
  }

  /** The loop both builders run over a header list. */
  method InsertTaken(headers: HeaderList, taken: string -> bool, validName: string -> bool, validValue: string -> bool)
    returns (r: Result<HeaderMap, string>)
    ensures r.Err? <==> Rejected(headers, taken, validName, validValue)
    ensures r.Ok? ==> LastWins(headers, taken, r.value)
  {
    var m: HeaderMap := map[];
    for i := 0 to |headers|
      invariant LastWins(headers[..i], taken, m)
      invariant !Rejected(headers[..i], taken, validName, validValue)
    {
      RejectedExtend(headers, taken, validName, validValue, i);
      var (name, value) := headers[i];
      if !taken(name) {
        SkipKeeps(headers, taken, i, m);
        continue;
      }
      if !validName(name) {
        return Err("invalid header name '" + name + "'");
      }
      if !validValue(value) {
        return Err("invalid header value for '" + name + "'");
      }
      InsertWins(headers, taken, i, m);
      m := m[AsciiLower(name) := value];
    }
    assert headers[..|headers|] == headers;
    r := Ok(m);
  }

  /** The map the last-writer-wins rule describes is the only one. */
  lemma LastWinsUnique(headers: HeaderList, taken: string -> bool, a: HeaderMap, b: HeaderMap)
    requires LastWins(headers, taken, a) && LastWins(headers, taken, b)
    ensures a == b
  {
    assert forall n :: n in a <==> n in b;
  }

  function Unprotected(isJson: bool): string -> bool {
    name => !IsProtected(name, isJson)
  }

  /** `build_default_headers`; the list is the profile's ordered map. */
  method BuildDefaultHeaders(
    profileHeaders: HeaderList, isJson: bool, validName: string -> bool, validValue: string -> bool)
    returns (r: Result<HeaderMap, string>)
    ensures r.Err? <==> Rejected(profileHeaders, Unprotected(isJson), validName, validValue)
    ensures r.Ok? ==> LastWins(profileHeaders, Unprotected(isJson), r.value)
  {
    r := InsertTaken(profileHeaders, Unprotected(isJson), validName, validValue);
  }

  /** The trace headers of the request, and the idempotency key when it is injected. */
  ghost predicate PerCall(requestHeaders: HeaderList, key: Option<string>, operatorHas: bool, m: HeaderMap) {
    exists trace ::
      && LastWins(requestHeaders, IsTrace, trace)
      && m == if key.Some? && !operatorHas then trace[IDEMPOTENCY_FOLDED := key.value] else trace
  }

  /** `build_per_call_headers`. */
  method BuildPerCallHeaders(
    requestHeaders: HeaderList, key: Option<string>, operatorHas: bool,
    validName: string -> bool, validValue: string -> bool)
    returns (r: Result<HeaderMap, string>)
    ensures r.Err? <==> Rejected(requestHeaders, IsTrace, validName, validValue)
                        || (key.Some? && !operatorHas && !validValue(key.value))
    ensures r.Ok? ==> PerCall(requestHeaders, key, operatorHas, r.value)
  {
    r := InsertTaken(requestHeaders, IsTrace, validName, validValue);
    if r.Ok? && key.Some? && !operatorHas {
      if !validValue(key.value) {
        return Err("invalid Idempotency-Key value");
      }
      r := Ok(r.value[IDEMPOTENCY_FOLDED := key.value]);
    }
  }

  lemma TrimKeeps(s: string)
    requires s != "" && !IsWhitespace(s[0]) && !IsWhitespace(s[|s| - 1])
    ensures Trim(s) == s
  {
  }

  lemma IdempotencyIsPlain(name: string, isJson: bool)
    requires AsciiLower(name) == IDEMPOTENCY_FOLDED
    ensures !IsProtected(name, isJson) && !IsTrace(name)
  {
    var last := |name| - 1;
    AsciiLowerAt(name);
    assert AsciiLower(name)[0] == 'i' && AsciiLower(name)[last] == 'y';
    assert AsciiLowerChar(name[0]) == 'i' && AsciiLowerChar(name[last]) == 'y';
    TrimKeeps(name);
  }

  /** Characters a header name can have. */
  predicate Printable(name: string) {
    forall c :: c in name ==> '!' <= c <= '~'
  }

  lemma PrintableKeeps(name: string, n: string)
    requires AsciiLower(name) == n && Printable(n)
    ensures Trim(name) == name
  {
    if name != "" {
      AsciiLowerAt(name);
      assert n[0] in n && n[|n| - 1] in n;
      TrimKeeps(name);
    }
  }

  /** Which names the default headers have, written out. */
  lemma DefaultNames(headers: HeaderList, isJson: bool, m: HeaderMap, n: string)
    requires LastWins(headers, Unprotected(isJson), m) && Printable(n)
    ensures n in m <==>
      && (exists i :: 0 <= i < |headers| && AsciiLower(headers[i].0) == n)
      && n !in {"host", "connection", "content-length", "forwarded", "via", "x-real-ip", "x-request-id"}
      && !("x-forwarded-" <= n) && !(isJson && n in {"accept", "content-type"})
  {
    forall i | 0 <= i < |headers| && AsciiLower(headers[i].0) == n
      ensures IsProtected(headers[i].0, isJson) <==>
        || n in {"host", "connection", "content-length", "forwarded", "via", "x-real-ip", "x-request-id"}
        || "x-forwarded-" <= n || (isJson && n in {"accept", "content-type"})
    {
      PrintableKeeps(headers[i].0, n);
    }
    if i :| 0 <= i < |headers| && AsciiLower(headers[i].0) == n && !IsProtected(headers[i].0, isJson) {
      var w := LastTaken(headers, Unprotected(isJson), n, i);
    }
  }

  /** Which names the per-call headers have, written out. */
  lemma PerCallNames(requestHeaders: HeaderList, key: Option<string>, operatorHas: bool, m: HeaderMap, n: string)
    requires PerCall(requestHeaders, key, operatorHas, m) && Printable(n)
    ensures n in m <==>
      || (n in {"traceparent", "tracestate"}
          && exists i :: 0 <= i < |requestHeaders| && AsciiLower(requestHeaders[i].0) == n)
      || (n == "idempotency-key" && key.Some? && !operatorHas)
  {
    var trace :| LastWins(requestHeaders, IsTrace, trace)
      && m == if key.Some? && !operatorHas then trace[IDEMPOTENCY_FOLDED := key.value] else trace;
    forall i | 0 <= i < |requestHeaders| && AsciiLower(requestHeaders[i].0) == n
      ensures IsTrace(requestHeaders[i].0) <==> n in {"traceparent", "tracestate"}
    {
      PrintableKeeps(requestHeaders[i].0, n);
    }
    if i :| 0 <= i < |requestHeaders| && AsciiLower(requestHeaders[i].0) == n && IsTrace(requestHeaders[i].0) {
      var w := LastTaken(requestHeaders, IsTrace, n, i);
    }
  }

  lemma {:induction false} TrimFront(pad: string, name: string)
    requires name != "" && '!' <= name[0] <= '~'
    requires forall i :: 0 <= i < |pad| ==> pad[i] == ' ' || pad[i] == '\t'
    ensures TrimStart(pad + name) == name
  {
    if pad == "" {
      assert pad + name == name;
    } else {
      assert (pad + name)[1..] == pad[1..] + name;
      TrimFront(pad[1..], name);
    }
  }

  lemma {:induction false} TrimBack(name: string, pad: string)
    requires name != "" && '!' <= name[|name| - 1] <= '~'
    requires forall i :: 0 <= i < |pad| ==> pad[i] == ' ' || pad[i] == '\t'
    ensures TrimEnd(name + pad) == name
  {
    if pad == "" {
      assert name + pad == name;
    } else {
      assert (name + pad)[..|name + pad| - 1] == name + pad[..|pad| - 1];
      TrimBack(name, pad[..|pad| - 1]);
    }
  }

  /** Blanks around a name do not get it past the filters. */
  lemma PaddedNames(front: string, name: string, back: string, isJson: bool)
    requires name != "" && Printable(name)
    requires forall i :: 0 <= i < |front| ==> front[i] == ' ' || front[i] == '\t'
    requires forall i :: 0 <= i < |back| ==> back[i] == ' ' || back[i] == '\t'
    ensures IsProtected(front + (name + back), isJson) <==> IsProtected(name, isJson)
    ensures IsTrace(front + (name + back)) <==> IsTrace(name)
  {
    assert name[0] in name && name[|name| - 1] in name;
    TrimFront(front, name + back);
    TrimBack(name, back);
    TrimKeeps(name);
  }

  /** What `operator_has_header` finds is what the default headers send, for every unprotected name. */
  lemma OperatorHeadersAreSent(
    rawHeaders: HeaderList, resolved: HeaderList, isJson: bool, defaults: HeaderMap, name: string)
    requires |resolved| == |rawHeaders| && forall i :: 0 <= i < |resolved| ==> resolved[i].0 == rawHeaders[i].0
    requires LastWins(resolved, Unprotected(isJson), defaults) && Printable(name) && !IsProtected(name, isJson)
    ensures AsciiLower(name) in defaults <==> OperatorHasHeader(rawHeaders, name)
  {
    AsciiLowerAt(name);
    var n := AsciiLower(name);
    forall i | 0 <= i < |n| ensures '!' <= n[i] <= '~' { assert name[i] in name; }
    forall c | c in n ensures '!' <= c <= '~' { var i :| 0 <= i < |n| && n[i] == c; }
    PrintableKeeps(name, n);
    DefaultNames(resolved, isJson, defaults, n);
    if i :| 0 <= i < |rawHeaders| && AsciiLower(rawHeaders[i].0) == n {
      assert AsciiLower(resolved[i].0) == n;
    }
  }

  lemma {:induction false} LastTaken(headers: HeaderList, taken: string -> bool, n: string, i: nat) returns (w: nat)
    requires i < |headers| && taken(headers[i].0) && AsciiLower(headers[i].0) == n
    ensures i <= w < |headers| && Wins(headers, taken, w) && AsciiLower(headers[w].0) == n
    decreases |headers| - i
  {
    w := i;
    if !Wins(headers, taken, i) {
      var j :| i < j < |headers| && taken(headers[j].0) && AsciiLower(headers[j].0) == n;
      w := LastTaken(headers, taken, n, j);
    }
  }

  lemma DefaultsHaveKey(resolved: HeaderList, isJson: bool, defaults: HeaderMap)
    requires LastWins(resolved, Unprotected(isJson), defaults)
    ensures IDEMPOTENCY_FOLDED in defaults
       <==> exists i :: 0 <= i < |resolved| && AsciiLower(resolved[i].0) == IDEMPOTENCY_FOLDED
    ensures IDEMPOTENCY_FOLDED in defaults ==>
              exists i :: 0 <= i < |resolved| && AsciiLower(resolved[i].0) == IDEMPOTENCY_FOLDED
                          && defaults[IDEMPOTENCY_FOLDED] == resolved[i].1
  {
    if i :| 0 <= i < |resolved| && AsciiLower(resolved[i].0) == IDEMPOTENCY_FOLDED {
      IdempotencyIsPlain(resolved[i].0, isJson);
      var w := LastTaken(resolved, Unprotected(isJson), IDEMPOTENCY_FOLDED, i);
      assert defaults[IDEMPOTENCY_FOLDED] == resolved[w].1;
    }
  }

  lemma TraceHasNoKey(requestHeaders: HeaderList, trace: HeaderMap)
    requires LastWins(requestHeaders, IsTrace, trace)
    ensures IDEMPOTENCY_FOLDED !in trace
  {
    if IDEMPOTENCY_FOLDED in trace {
      var i :| 0 <= i < |requestHeaders| && Wins(requestHeaders, IsTrace, i)
               && AsciiLower(requestHeaders[i].0) == IDEMPOTENCY_FOLDED;
      IdempotencyIsPlain(requestHeaders[i].0, false);
    }
  }

  lemma PerCallKey(requestHeaders: HeaderList, key: Option<string>, operatorHas: bool, perCall: HeaderMap)
    requires PerCall(requestHeaders, key, operatorHas, perCall)
    ensures IDEMPOTENCY_FOLDED in perCall <==> key.Some? && !operatorHas
    ensures IDEMPOTENCY_FOLDED in perCall ==> perCall[IDEMPOTENCY_FOLDED] == key.value
  {
    var trace :| LastWins(requestHeaders, IsTrace, trace)
      && perCall == if key.Some? && !operatorHas then trace[IDEMPOTENCY_FOLDED := key.value] else trace;
    TraceHasNoKey(requestHeaders, trace);
  }

  lemma FoldsTo(s: string, t: string)
    requires |s| == |t| && forall i :: 0 <= i < |s| ==> AsciiLowerChar(s[i]) == t[i]
    ensures AsciiLower(s) == t
  {
    AsciiLowerAt(s);
  }

  lemma FoldedConstant()
    ensures AsciiLower(IDEMPOTENCY_KEY) == IDEMPOTENCY_FOLDED
  {
    FoldsTo(IDEMPOTENCY_KEY, IDEMPOTENCY_FOLDED);
  }

  /**
   The idempotency key goes out at most once: in the default headers exactly when the operator
   configured one, with the operator's value, and otherwise per call when the gateway sent one.
   `resolved` are the profile's headers after resolution, under the same names.
   */
  lemma IdempotencyKeyOnce(
    rawHeaders: HeaderList, resolved: HeaderList, requestHeaders: HeaderList, key: Option<string>, isJson: bool,
    defaults: HeaderMap, perCall: HeaderMap)
    requires |resolved| == |rawHeaders| && forall i :: 0 <= i < |resolved| ==> resolved[i].0 == rawHeaders[i].0
    requires LastWins(resolved, Unprotected(isJson), defaults)
    requires PerCall(requestHeaders, key, OperatorHasHeader(rawHeaders, IDEMPOTENCY_KEY), perCall)
    ensures IDEMPOTENCY_FOLDED in defaults <==> OperatorHasHeader(rawHeaders, IDEMPOTENCY_KEY)
    ensures IDEMPOTENCY_FOLDED in perCall <==> key.Some? && !OperatorHasHeader(rawHeaders, IDEMPOTENCY_KEY)
    ensures IDEMPOTENCY_FOLDED in perCall ==> perCall[IDEMPOTENCY_FOLDED] == key.value
    ensures IDEMPOTENCY_FOLDED in defaults ==>
              exists i :: 0 <= i < |resolved| && AsciiLower(resolved[i].0) == IDEMPOTENCY_FOLDED
                          && defaults[IDEMPOTENCY_FOLDED] == resolved[i].1
  {
    FoldedConstant();
    DefaultsHaveKey(resolved, isJson, defaults);
    PerCallKey(requestHeaders, key, OperatorHasHeader(rawHeaders, IDEMPOTENCY_KEY), perCall);
  }
}
