/**
 Rust strings. A `str` is the sequence of its scalar values; `Utf8` prints its bytes. Rust
 compares strings byte by byte; `Le` compares scalar values, which is the same order.
 */
module Text {
  import opened Base
  import opened Sorting

  predicate Le(a: string, b: string) {
    a == "" || (b != "" && (a[0] < b[0] || (a[0] == b[0] && Le(a[1..], b[1..]))))
  }

  lemma {:induction false} LeTotal(a: string, b: string)
    ensures Le(a, b) || Le(b, a)
    ensures Le(a, b) && Le(b, a) ==> a == b
  {
    if a != "" && b != "" {
      LeTotal(a[1..], b[1..]);
      assert a == [a[0]] + a[1..] && b == [b[0]] + b[1..];
    }
  }

  lemma {:induction false} LeTransitive(a: string, b: string, c: string)
    requires Le(a, b) && Le(b, c)
    ensures Le(a, c)
  {
    if a != "" {
      if a[0] == b[0] == c[0] {
        LeTransitive(a[1..], b[1..], c[1..]);
      }
    }
  }

  /** The order of Rust tuples of two strings. */
  predicate PairLe(a: (string, string), b: (string, string)) {
    if a.0 == b.0 then Le(a.1, b.1) else Le(a.0, b.0)
  }

  lemma PairLeOrder()
    ensures TotalPreorder(PairLe) && Antisymmetric(PairLe)
  {
    forall a, b ensures PairLe(a, b) || PairLe(b, a) {
      LeTotal(a.0, b.0);
      LeTotal(a.1, b.1);
    }
    forall a, b | PairLe(a, b) && PairLe(b, a) ensures a == b {
      LeTotal(a.0, b.0);
      LeTotal(a.1, b.1);
    }
    forall a, b, c | PairLe(a, b) && PairLe(b, c) ensures PairLe(a, c) {
      if a.0 == b.0 && b.0 == c.0 {
        LeTransitive(a.1, b.1, c.1);
      } else {
        LeTotal(a.0, b.0);
        LeTotal(a.0, a.0);
        LeTotal(b.0, c.0);
        LeTransitive(a.0, b.0, c.0);
      }
    }
  }

  /** Comparison by the first component only, as in `sort_by(|a, b| a.0.cmp(&b.0))`. */
  predicate ByField<V>(a: (string, V), b: (string, V)) {
    Le(a.0, b.0)
  }

  lemma ByFieldOrder<V(!new)>()
    ensures TotalPreorder<(string, V)>(ByField)
    ensures forall a: (string, V), b: (string, V) :: Tied<(string, V)>(ByField, a, b) <==> a.0 == b.0
  {
    forall a: (string, V), b: (string, V) ensures ByField(a, b) || ByField(b, a) {
      LeTotal(a.0, b.0);
    }
    forall a: (string, V), b: (string, V), c: (string, V) | ByField(a, b) && ByField(b, c)
      ensures ByField(a, c)
    {
      LeTransitive(a.0, b.0, c.0);
    }
    forall a: (string, V), b: (string, V)
      ensures Tied<(string, V)>(ByField, a, b) <==> a.0 == b.0
    {
      LeTotal(a.0, b.0);
    }
  }

  // ----- UTF-8 -----

  function Utf8Char(c: char): seq<byte> {
    var n := c as int;
    if n < 0x80 then [n]
    else if n < 0x800 then [0xC0 + n / 0x40, 0x80 + n % 0x40]
    else if n < 0x10000 then [0xE0 + n / 0x1000, 0x80 + n / 0x40 % 0x40, 0x80 + n % 0x40]
    else [0xF0 + n / 0x40000, 0x80 + n / 0x1000 % 0x40, 0x80 + n / 0x40 % 0x40, 0x80 + n % 0x40]
  }

  function Utf8(s: string): seq<byte> {
    if s == "" then [] else Utf8Char(s[0]) + Utf8(s[1..])
  }

  lemma {:induction false} Utf8Concat(a: string, b: string)
    ensures Utf8(a + b) == Utf8(a) + Utf8(b)
  {
    if a == "" {
      assert a + b == b;
    } else {
      assert (a + b)[0] == a[0] && (a + b)[1..] == a[1..] + b;
      Utf8Concat(a[1..], b);
    }
  }

  /** How many bytes the sequence starting with `first` has, and the scalar value it encodes. */
  function SequenceLength(first: byte): nat {
    if first < 0x80 then 1 else if first < 0xE0 then 2 else if first < 0xF0 then 3 else 4
  }

  function ScalarValue(u: seq<byte>): int
    requires 1 <= |u| <= 4
  {
    var b: seq<int> := u;
    if |b| == 1 then b[0]
    else if |b| == 2 then (b[0] - 0xC0) * 0x40 + b[1] - 0x80
    else if |b| == 3 then (b[0] - 0xE0) * 0x1000 + (b[1] - 0x80) * 0x40 + b[2] - 0x80
    else (b[0] - 0xF0) * 0x40000 + (b[1] - 0x80) * 0x1000 + (b[2] - 0x80) * 0x40 + b[3] - 0x80
  }

  lemma Utf8CharDecodes(c: char)
    ensures |Utf8Char(c)| == SequenceLength(Utf8Char(c)[0])
    ensures ScalarValue(Utf8Char(c)) == c as int
  {
    var n := c as int;
    assert n / 0x1000 == n / 0x40 / 0x40;
    assert n / 0x40000 == n / 0x1000 / 0x40;
  }

  lemma Utf8CharPrefixFree(c: char, d: char, x: seq<byte>, y: seq<byte>)
    requires Utf8Char(c) + x == Utf8Char(d) + y
    ensures c == d && x == y
  {
    Utf8CharDecodes(c);
    Utf8CharDecodes(d);
    CancelPrefix(Utf8Char(c), Utf8Char(d), x, y);
  }

  lemma CancelPrefix(u: seq<byte>, v: seq<byte>, x: seq<byte>, y: seq<byte>)
    requires u + x == v + y && u != [] && v != []
    requires |u| == SequenceLength(u[0]) && |v| == SequenceLength(v[0])
    ensures u == v && x == y
  {
    assert (u + x)[0] == u[0] && (v + y)[0] == v[0];
    assert u == (u + x)[..|u|] && v == (v + y)[..|u|];
    assert x == (u + x)[|u|..] && y == (v + y)[|u|..];
  }

  // ----- the order of the bytes -----

  /** How Rust compares strings: byte by byte. */
  predicate ByteLe(u: seq<byte>, v: seq<byte>) {
    u == [] || (v != [] && (u[0] < v[0] || (u[0] == v[0] && ByteLe(u[1..], v[1..]))))
  }

  /** `u` and `v` first differ at `k`, where `u` is less. */
  predicate LessAt(u: seq<byte>, v: seq<byte>, k: nat) {
    k < |u| && k < |v| && u[..k] == v[..k] && u[k] < v[k]
  }

  lemma {:induction false} LessAtIsLess(u: seq<byte>, v: seq<byte>, k: nat)
    requires LessAt(u, v, k)
    ensures ByteLe(u, v) && !ByteLe(v, u)
  {
    if k > 0 {
      assert u[0] == u[..k][0] && v[0] == v[..k][0];
      assert u[1..][..k - 1] == u[..k][1..] && v[1..][..k - 1] == v[..k][1..];
      LessAtIsLess(u[1..], v[1..], k - 1);
    }
  }

  predicate Continues(u: seq<byte>) {
    forall i :: 1 <= i < |u| ==> 0x80 <= u[i] < 0xC0
  }

  lemma Utf8CharContinues(c: char)
    ensures 1 <= |Utf8Char(c)| <= 4 && Continues(Utf8Char(c))
  {
  }

  lemma LongerSequence(c: char, d: char)
    requires c < d
    ensures |Utf8Char(c)| <= |Utf8Char(d)|
  {
  }

  /** Of two sequences of one length, the one with the smaller value differs first downwards. */
  lemma SameLengthLess(u: seq<byte>, v: seq<byte>) returns (k: nat)
    requires 1 <= |u| == |v| <= 4 && Continues(u) && Continues(v) && ScalarValue(u) < ScalarValue(v)
    ensures LessAt(u, v, k)
  {
    k := if u[0] != v[0] then 0 else if u[1] != v[1] then 1 else if u[2] != v[2] then 2 else 3;
    assert forall i :: 0 <= i < k ==> u[i] == v[i];
  }

  lemma CharLess(c: char, d: char) returns (k: nat)
    requires c < d
    ensures LessAt(Utf8Char(c), Utf8Char(d), k)
  {
    Utf8CharDecodes(c);
    Utf8CharDecodes(d);
    LongerSequence(c, d);
    Utf8CharContinues(c);
    Utf8CharContinues(d);
    if |Utf8Char(c)| < |Utf8Char(d)| {
      k := 0;
    } else {
      k := SameLengthLess(Utf8Char(c), Utf8Char(d));
    }
  }

  lemma LessAtConcat(u: seq<byte>, v: seq<byte>, x: seq<byte>, y: seq<byte>, k: nat)
    requires LessAt(u, v, k)
    ensures LessAt(u + x, v + y, k)
  {
    assert (u + x)[..k] == u[..k] && (v + y)[..k] == v[..k];
  }

  lemma {:induction false} ByteLeCancel(u: seq<byte>, x: seq<byte>, y: seq<byte>)
    ensures ByteLe(u + x, u + y) <==> ByteLe(x, y)
  {
    if u == [] {
      assert u + x == x && u + y == y;
    } else {
      assert (u + x)[1..] == u[1..] + x && (u + y)[1..] == u[1..] + y;
      ByteLeCancel(u[1..], x, y);
    }
  }

  /** UTF-8 keeps the order: comparing bytes is comparing scalar values. */
  lemma {:induction false} ByteOrder(a: string, b: string)
    ensures ByteLe(Utf8(a), Utf8(b)) <==> Le(a, b)
  {
    if a != "" && b != "" {
      var x, y := Utf8(a[1..]), Utf8(b[1..]);
      if a[0] == b[0] {
        ByteLeCancel(Utf8Char(a[0]), x, y);
        ByteOrder(a[1..], b[1..]);
      } else if a[0] < b[0] {
        var k := CharLess(a[0], b[0]);
        LessAtConcat(Utf8Char(a[0]), Utf8Char(b[0]), x, y, k);
        LessAtIsLess(Utf8(a), Utf8(b), k);
      } else {
        var k := CharLess(b[0], a[0]);
        LessAtConcat(Utf8Char(b[0]), Utf8Char(a[0]), y, x, k);
        LessAtIsLess(Utf8(b), Utf8(a), k);
      }
    }
  }

  /** Equal bytes come from equal strings. */
  lemma {:induction false} Utf8Injective(a: string, b: string)
    requires Utf8(a) == Utf8(b)
    ensures a == b
  {
    if a != "" && b != "" {
      Utf8CharPrefixFree(a[0], b[0], Utf8(a[1..]), Utf8(b[1..]));
      Utf8Injective(a[1..], b[1..]);
      assert a == [a[0]] + a[1..] && b == [b[0]] + b[1..];
    }
  }

  // ----- searching -----

  /** `pattern` stands in `s` at `at`. */
  predicate Occurs(pattern: string, s: string, at: nat)
    decreases |pattern|, s, at
  {
    pattern == "" ||
    (at < |s| && s[at] == pattern[0] && Occurs(pattern[1..], s, at + 1))
  }

  lemma {:induction false} OccursIs(pattern: string, s: string, at: nat)
    requires at <= |s|
    ensures Occurs(pattern, s, at) <==> at + |pattern| <= |s| && s[at..at + |pattern|] == pattern
    decreases |pattern|
  {
    if pattern != "" && at < |s| {
      OccursIs(pattern[1..], s, at + 1);
      if at + |pattern| <= |s| {
        assert s[at..at + |pattern|] == [s[at]] + s[at + 1..at + |pattern|];
        assert pattern == [pattern[0]] + pattern[1..];
      }
    }
  }

  /** `str::find`: where `pattern` occurs first. */
  function Find(s: string, pattern: string): (r: Option<nat>)
    requires pattern != ""
    ensures r.Some? ==> r.value + |pattern| <= |s|
  {
    if |s| < |pattern| then None
    else if Occurs(pattern, s, 0) then Some(0)
    else match Find(s[1..], pattern) case None => None case Some(i) => Some(i + 1)
  }

  lemma OccursShift(pattern: string, s: string, k: nat, at: nat)
    requires k <= |s|
    ensures Occurs(pattern, s[k..], at) <==> Occurs(pattern, s, k + at)
  {
    if k + at <= |s| {
      OccursIs(pattern, s[k..], at);
      OccursIs(pattern, s, k + at);
      if k + at + |pattern| <= |s| {
        assert s[k..][at..at + |pattern|] == s[k + at..k + at + |pattern|];
      }
    } else {
      OccursInside(pattern, s[k..], at);
      OccursInside(pattern, s, k + at);
    }
  }

  lemma OccursInside(pattern: string, s: string, at: nat)
    ensures Occurs(pattern, s, at) && pattern != "" ==> at < |s|
  {
  }

  lemma {:induction false} FindFirst(s: string, pattern: string)
    requires pattern != ""
    ensures var r := Find(s, pattern);
      && (r.Some? ==> Occurs(pattern, s, r.value))
      && forall i: nat :: (r.Some? ==> i < r.value) ==> !Occurs(pattern, s, i)
  {
    if |s| < |pattern| {
      forall i: nat ensures !Occurs(pattern, s, i) {
        OccursInside(pattern, s, i);
        if i <= |s| { OccursIs(pattern, s, i); }
      }
    } else if !Occurs(pattern, s, 0) {
      FindFirst(s[1..], pattern);
      var r := Find(s[1..], pattern);
      if r.Some? { OccursShift(pattern, s, 1, r.value); }
      forall i: nat | r.Some? ==> i < r.value + 1 ensures !Occurs(pattern, s, i) {
        if i > 0 { OccursShift(pattern, s, 1, i - 1); }
      }
    }
  }

  lemma FindIs(s: string, pattern: string, at: nat)
    requires pattern != "" && Occurs(pattern, s, at)
    requires forall i: nat :: i < at ==> !Occurs(pattern, s, i)
    ensures Find(s, pattern) == Some(at)
  {
    FindFirst(s, pattern);
  }

  /** The length of the longest prefix of `s` without a character that `stop` accepts. */
  function Until(s: string, stop: char -> bool): (n: nat)
    ensures n <= |s|
  {
    if s == "" || stop(s[0]) then 0 else 1 + Until(s[1..], stop)
  }

  lemma {:induction false} UntilFirst(s: string, stop: char -> bool)
    ensures forall i :: 0 <= i < Until(s, stop) ==> !stop(s[i])
    ensures Until(s, stop) < |s| ==> stop(s[Until(s, stop)])
  {
    if s != "" && !stop(s[0]) {
      UntilFirst(s[1..], stop);
    }
  }

  lemma {:induction false} UntilIs(s: string, stop: char -> bool, n: nat)
    requires n <= |s| && (forall i :: 0 <= i < n ==> !stop(s[i])) && (n < |s| ==> stop(s[n]))
    ensures Until(s, stop) == n
  {
    if n > 0 {
      UntilIs(s[1..], stop, n - 1);
    }
  }

  lemma DropTwo(front: string, mid: string, rest: string)
    ensures (front + (mid + rest))[|front| + |mid|..] == rest
  {
  }

  lemma Regroup<T>(a: seq<T>, b: seq<T>, c: seq<T>)
    ensures a + (b + c) == a + b + c
  {
  }

  lemma DropDrop(s: string, i: nat, j: nat)
    requires i + j <= |s|
    ensures s[i..][j..] == s[i + j..]
  {
  }

  lemma TakeOfDrop(s: string, i: nat, j: nat, n: nat)
    requires i + j + n <= |s|
    ensures s[i..][j..j + n] == s[i + j..i + j + n]
  {
  }

  lemma TakeOfTake(s: string, at: nat, n: nat, i: nat, j: nat)
    requires i <= j <= n && at + n <= |s|
    ensures s[at..at + n][i..j] == s[at + i..at + j]
  {
    var a, b := s[at..at + n][i..j], s[at + i..at + j];
    forall k | 0 <= k < j - i ensures a[k] == b[k] {
      assert a[k] == s[at..at + n][i + k] == s[at + i + k];
    }
  }

  lemma TakeOfBack(front: string, back: string, i: nat, n: nat)
    requires |front| <= i && i + n <= |front + back|
    ensures (front + back)[i..i + n] == back[i - |front|..i - |front| + n]
  {
    var a, b := (front + back)[i..i + n], back[i - |front|..i - |front| + n];
    forall k | 0 <= k < n ensures a[k] == b[k] {
      assert a[k] == (front + back)[i + k];
    }
  }

  lemma TakeOfFront(front: string, more: string, i: nat, n: nat)
    requires i + n <= |front|
    ensures (front + more)[i..i + n] == front[i..i + n]
  {
  }

  // ----- case folding and trimming -----

  /** `char::is_whitespace`: the Unicode White_Space property. */
  predicate IsWhitespace(c: char) {
    var n := c as int;
    || 0x09 <= n <= 0x0D || n == 0x20 || n == 0x85 || n == 0xA0 || n == 0x1680
    || 0x2000 <= n <= 0x200A || n == 0x2028 || n == 0x2029 || n == 0x202F || n == 0x205F
    || n == 0x3000
  }

  function AsciiLowerChar(c: char): char {
    if 'A' <= c <= 'Z' then (c as int + 32) as char else c
  }

  function AsciiLower(s: string): string {
    if s == "" then "" else [AsciiLowerChar(s[0])] + AsciiLower(s[1..])
  }

  lemma {:induction false} AsciiLowerAt(s: string)
    ensures |AsciiLower(s)| == |s|
    ensures forall i :: 0 <= i < |s| ==> AsciiLower(s)[i] == AsciiLowerChar(s[i])
    ensures forall i :: 0 <= i < |s| ==>
              AsciiLower(s)[i] as int == s[i] as int + if 'A' <= s[i] <= 'Z' then 32 else 0
  {
    if s != "" {
      AsciiLowerAt(s[1..]);
    }
  }

  function TrimStart(s: string): string {
    if s != "" && IsWhitespace(s[0]) then TrimStart(s[1..]) else s
  }

  function TrimEnd(s: string): string {
    if s != "" && IsWhitespace(s[|s| - 1]) then TrimEnd(s[..|s| - 1]) else s
  }

  /** `str::trim`. */
  function Trim(s: string): string {
    TrimEnd(TrimStart(s))
  }
}
