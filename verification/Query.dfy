/**
 The query string printer, and the reader that undoes it. Numbers carry their printed text, and
 `compact` is the JSON printer for nested values. A key or value is read back as its UTF-8 bytes,
 which determine it.
 */
module Query {
  import opened Base
  import opened Sorting
  import opened Text

  datatype Json =
    | Null
    | Bool(b: bool)
    | Number(text: string)
    | String(s: string)
    | Array(items: seq<Json>)
    | Object(members: seq<(string, Json)>)

  type Compact = Json -> Result<string, string>

  function QueryValueString(value: Json, compact: Compact): Result<string, string> {
    match value
    case Null => Ok("null")
    case Bool(b) => Ok(if b then "true" else "false")
    case Number(text) => Ok(text)
    case String(s) => Ok(s)
    case Array(_) => compact(value)
    case Object(_) => compact(value)
  }

  // ----- percent encoding -----

  /** The unreserved characters of section 2.3 of RFC 3986. */
  predicate Unreserved(b: byte) {
    || 'A' as int <= b <= 'Z' as int || 'a' as int <= b <= 'z' as int || '0' as int <= b <= '9' as int
    || b == '-' as int || b == '_' as int || b == '.' as int || b == '~' as int
  }

  function HexDigit(n: nat): char
    requires n < 16
  {
    if n < 10 then (n + '0' as int) as char else (n - 10 + 'A' as int) as char
  }

  function HexValue(c: char): Option<nat> {
    if '0' <= c <= '9' then Some(c as int - '0' as int)
    else if 'A' <= c <= 'F' then Some(c as int - 'A' as int + 10)
    else if 'a' <= c <= 'f' then Some(c as int - 'a' as int + 10)
    else None
  }

  function EncodeByte(b: byte): string {
    if Unreserved(b) then [b as char] else ['%', HexDigit(b / 16), HexDigit(b % 16)]
  }

  function Encode(bytes: seq<byte>): string {
    if bytes == [] then "" else Encode(bytes[..|bytes| - 1]) + EncodeByte(bytes[|bytes| - 1])
  }

  /** `percent_encode`. */
  method PercentEncode(value: string) returns (encoded: string)
    ensures encoded == Encode(Utf8(value))
  {
    encoded := "";
    var bytes := Utf8(value);
    for i := 0 to |bytes|
      invariant encoded == Encode(bytes[..i])
    {
      assert bytes[..i + 1][..i] == bytes[..i];
      var b := bytes[i];
      if Unreserved(b) {
        encoded := encoded + [b as char];
      } else {
        encoded := encoded + ['%', HexDigit(b / 16), HexDigit(b % 16)];
      }
    }
    assert bytes[..|bytes|] == bytes;
  }

  predicate IsTriplet(s: string) {
    |s| >= 3 && s[0] == '%' && HexValue(s[1]).Some? && HexValue(s[2]).Some?
  }

  /** Percent decoding of any text; what is not a triplet stands for itself. */
  function Decode(s: string): seq<byte>
    decreases |s|
  {
    if s == "" then []
    else if IsTriplet(s) then [HexValue(s[1]).value * 16 + HexValue(s[2]).value] + Decode(s[3..])
    else Utf8Char(s[0]) + Decode(s[1..])
  }

  lemma DecodeByte(b: byte, rest: string)
    ensures Decode(EncodeByte(b) + rest) == [b] + Decode(rest)
  {
    var s := EncodeByte(b) + rest;
    if Unreserved(b) {
      assert s[0] == b as char && s[1..] == rest;
    } else {
      assert s[0] == '%' && s[1] == HexDigit(b / 16) && s[2] == HexDigit(b % 16) && s[3..] == rest;
      assert b / 16 * 16 + b % 16 == b;
    }
  }

  lemma EncodeCons(b: byte, rest: seq<byte>)
    ensures Encode([b] + rest) == EncodeByte(b) + Encode(rest)
    decreases |rest|
  {
    var all := [b] + rest;
    if rest == [] {
      assert all[..0] == [];
    } else {
      var front, last := rest[..|rest| - 1], EncodeByte(rest[|rest| - 1]);
      EncodeCons(b, front);
      assert all[..|all| - 1] == [b] + front && all[|all| - 1] == rest[|rest| - 1];
      Regroup(EncodeByte(b), Encode(front), last);
    }
  }

  /** Decoding undoes encoding, byte for byte. */
  lemma {:induction false} DecodeEncode(bytes: seq<byte>)
    ensures Decode(Encode(bytes)) == bytes
  {
    if bytes != [] {
      assert bytes == [bytes[0]] + bytes[1..];
      EncodeCons(bytes[0], bytes[1..]);
      DecodeByte(bytes[0], Encode(bytes[1..]));
      DecodeEncode(bytes[1..]);
    }
  }

  predicate UpperHex(c: char) {
    '0' <= c <= '9' || 'A' <= c <= 'F'
  }

  /** Unreserved characters and uppercase triplets, as sections 2.1 and 2.3 of RFC 3986 ask. */
  predicate WellEncoded(s: string)
    decreases |s|
  {
    s == ""
    || ((s[0] as int) < 256 && Unreserved(s[0] as int) && WellEncoded(s[1..]))
    || (|s| >= 3 && s[0] == '%' && UpperHex(s[1]) && UpperHex(s[2]) && WellEncoded(s[3..]))
  }

  lemma {:induction false} EncodeWellFormed(bytes: seq<byte>)
    ensures WellEncoded(Encode(bytes))
  {
    if bytes != [] {
      var rest := Encode(bytes[1..]);
      assert bytes == [bytes[0]] + bytes[1..];
      EncodeCons(bytes[0], bytes[1..]);
      EncodeWellFormed(bytes[1..]);
      var s := EncodeByte(bytes[0]) + rest;
      if Unreserved(bytes[0]) { assert s[1..] == rest; } else { assert s[3..] == rest; }
    }
  }

  /** Well-encoded text has neither of the separators in it. */
  lemma {:induction false} NoSeparators(s: string)
    requires WellEncoded(s)
    ensures '&' !in s && '=' !in s
    decreases |s|
  {
    if s != "" {
      var n := if s[0] == '%' then 3 else 1;
      NoSeparators(s[n..]);
      assert s == s[..n] + s[n..];
    }
  }

  lemma {:induction false} EncodeConcat(a: seq<byte>, b: seq<byte>)
    ensures Encode(a + b) == Encode(a) + Encode(b)
    decreases |b|
  {
    if b == [] {
      assert a + b == a;
    } else {
      assert (a + b)[..|a + b| - 1] == a + b[..|b| - 1];
      EncodeConcat(a, b[..|b| - 1]);
      Regroup(Encode(a), Encode(b[..|b| - 1]), EncodeByte(b[|b| - 1]));
    }
  }

  /** A byte that is not left as it is becomes an uppercase triplet. */
  lemma EncodeOne(b: byte)
    ensures Encode([b]) == (
      if 'A' as int <= b <= 'Z' as int || 'a' as int <= b <= 'z' as int || '0' as int <= b <= '9' as int
         || b == '-' as int || b == '_' as int || b == '.' as int || b == '~' as int
      then [b as char]
      else ['%', "0123456789ABCDEF"[b / 16], "0123456789ABCDEF"[b % 16]])
  {
    assert [b][..0] == [] && Encode([]) == "";
    assert Encode([b]) == "" + EncodeByte(b);
  }

  lemma {:induction false} HighBytes(bytes: seq<byte>)
    requires forall i :: 0 <= i < |bytes| ==> bytes[i] >= 0x80
    ensures |Encode(bytes)| == 3 * |bytes|
  {
    if bytes != [] {
      HighBytes(bytes[..|bytes| - 1]);
    }
  }

  predicate Plain(c: char) {
    'A' <= c <= 'Z' || 'a' <= c <= 'z' || '0' <= c <= '9' || c == '-' || c == '_' || c == '.' || c == '~'
  }

  lemma EncodeChar(c: char)
    ensures if Plain(c) then Encode(Utf8Char(c)) == [c] else |Encode(Utf8Char(c))| >= 3
  {
    if c as int < 0x80 { EncodeOne(c as int); } else { HighBytes(Utf8Char(c)); }
  }

  predicate AllPlain(s: string) {
    forall i :: 0 <= i < |s| ==> Plain(s[i])
  }

  lemma AllPlainCons(s: string)
    requires s != ""
    ensures AllPlain(s) <==> Plain(s[0]) && AllPlain(s[1..])
  {
    if i :| 0 <= i < |s| && !Plain(s[i]) {
      assert i > 0 ==> s[1..][i - 1] == s[i];
    }
  }

  lemma {:induction false} EncodePlain(s: string)
    ensures |Encode(Utf8(s))| >= |s|
    ensures if AllPlain(s) then Encode(Utf8(s)) == s else |Encode(Utf8(s))| > |s|
  {
    if s != "" {
      AllPlainCons(s);
      EncodePlain(s[1..]);
      EncodeChar(s[0]);
      EncodeConcat(Utf8Char(s[0]), Utf8(s[1..]));
      assert s == [s[0]] + s[1..];
    }
  }

  /** Encoding leaves a text as it is exactly when it has letters, digits, `-`, `_`, `.` and `~` only. */
  lemma EncodeUntouched(s: string)
    ensures Encode(Utf8(s)) == s <==> forall i :: 0 <= i < |s| ==>
              || 'A' <= s[i] <= 'Z' || 'a' <= s[i] <= 'z' || '0' <= s[i] <= '9'
              || s[i] == '-' || s[i] == '_' || s[i] == '.' || s[i] == '~'
  {
    EncodePlain(s);
    assert forall i :: 0 <= i < |s| ==> (Plain(s[i]) <==>
              || 'A' <= s[i] <= 'Z' || 'a' <= s[i] <= 'z' || '0' <= s[i] <= '9'
              || s[i] == '-' || s[i] == '_' || s[i] == '.' || s[i] == '~');
  }

  // ----- the pairs -----

  type Entry = (string, Json)

  /** Arrays repeat the key. */
  function Expand(m: Entry): seq<Entry> {
    match m.1
    case Array(items) => seq(|items|, i requires 0 <= i < |items| => (m.0, items[i]))
    case _ => [m]
  }

  function ExpandAll(members: seq<Entry>): seq<Entry> {
    if members == [] then []
    else ExpandAll(members[..|members| - 1]) + Expand(members[|members| - 1])
  }

  /** The pairs with their values as text, or the first error. */
  function Stringify(entries: seq<Entry>, compact: Compact): Result<seq<(string, string)>, string> {
    if entries == [] then Ok([])
    else
      match Stringify(entries[..|entries| - 1], compact)
      case Err(e) => Err(e)
      case Ok(pairs) =>
        (match QueryValueString(entries[|entries| - 1].1, compact)
         case Err(e) => Err(e)
         case Ok(text) => Ok(pairs + [(entries[|entries| - 1].0, text)]))
  }

  /** The (key, text) list of an object: sorted by key, arrays expanded in order. */
  function PairsOf(members: seq<Entry>, compact: Compact): Result<seq<(string, string)>, string> {
    Stringify(ExpandAll(Sort<Entry>(ByField, members)), compact)
  }

  function PairText(p: (string, string)): string {
    Encode(Utf8(p.0)) + "=" + Encode(Utf8(p.1))
  }

  function PairTexts(pairs: seq<(string, string)>): seq<string> {
    seq(|pairs|, i requires 0 <= i < |pairs| => PairText(pairs[i]))
  }

  /** `join("&")`. */
  function Join(parts: seq<string>): string {
    if parts == [] then "" else if |parts| == 1 then parts[0] else parts[0] + "&" + Join(parts[1..])
  }

  lemma StringifySnoc(entries: seq<Entry>, e: Entry, compact: Compact)
    ensures Stringify(entries, compact).Ok? && QueryValueString(e.1, compact).Ok? ==>
              Stringify(entries + [e], compact)
                == Ok(Stringify(entries, compact).value + [(e.0, QueryValueString(e.1, compact).value)])
    ensures Stringify(entries, compact).Ok? && QueryValueString(e.1, compact).Err? ==>
              Stringify(entries + [e], compact) == Err(QueryValueString(e.1, compact).error)
  {
    assert (entries + [e])[..|entries|] == entries;
  }

  lemma {:induction false} StringifyErr(entries: seq<Entry>, more: seq<Entry>, compact: Compact)
    requires Stringify(entries, compact).Err?
    ensures Stringify(entries + more, compact) == Stringify(entries, compact)
    decreases |more|
  {
    if more == [] {
      assert entries + more == entries;
    } else {
      var all := entries + more;
      assert all[..|all| - 1] == entries + more[..|more| - 1];
      StringifyErr(entries, more[..|more| - 1], compact);
    }
  }

  lemma {:induction false} ExpandAllPrefix(members: seq<Entry>, n: nat) returns (rest: seq<Entry>)
    requires n <= |members|
    ensures ExpandAll(members) == ExpandAll(members[..n]) + rest
    decreases |members|
  {
    if n == |members| {
      assert members[..n] == members;
      rest := [];
    } else {
      var front := members[..|members| - 1];
      var inner := ExpandAllPrefix(front, n);
      assert front[..n] == members[..n];
      var last := Expand(members[|members| - 1]);
      rest := inner + last;
      assert ExpandAll(members) == ExpandAll(front) + last;
      Regroup(ExpandAll(members[..n]), inner, last);
    }
  }

  lemma ErrorHere(entries: seq<Entry>, e: Entry, more: seq<Entry>, compact: Compact)
    requires Stringify(entries, compact).Ok? && QueryValueString(e.1, compact).Err?
    ensures Stringify(entries + [e] + more, compact) == Err(QueryValueString(e.1, compact).error)
  {
    StringifySnoc(entries, e, compact);
    StringifyErr(entries + [e], more, compact);
  }

  lemma AroundItem(done: seq<Entry>, item: seq<Entry>, j: nat, rest: seq<Entry>)
    requires j < |item|
    ensures done + item + rest == done + item[..j] + [item[j]] + (item[j + 1..] + rest)
  {
  }

  lemma ExpandAround(sorted: seq<Entry>, i: nat, j: nat) returns (more: seq<Entry>)
    requires i < |sorted| && j < |Expand(sorted[i])|
    ensures ExpandAll(sorted)
         == ExpandAll(sorted[..i]) + Expand(sorted[i])[..j] + [Expand(sorted[i])[j]] + more
  {
    var item := Expand(sorted[i]);
    var rest := ExpandAllPrefix(sorted, i + 1);
    assert sorted[..i + 1][..i] == sorted[..i];
    more := item[j + 1..] + rest;
    AroundItem(ExpandAll(sorted[..i]), item, j, rest);
  }

  /** An error at one item is the error of the whole object. */
  lemma ErrorStops(sorted: seq<Entry>, i: nat, j: nat, compact: Compact)
    requires i < |sorted| && j < |Expand(sorted[i])|
    requires Stringify(ExpandAll(sorted[..i]) + Expand(sorted[i])[..j], compact).Ok?
    requires QueryValueString(Expand(sorted[i])[j].1, compact).Err?
    ensures Stringify(ExpandAll(sorted), compact) == Err(QueryValueString(Expand(sorted[i])[j].1, compact).error)
  {
    var more := ExpandAround(sorted, i, j);
    ErrorHere(ExpandAll(sorted[..i]) + Expand(sorted[i])[..j], Expand(sorted[i])[j], more, compact);
  }

  /** One more pair is pushed. */
  lemma PushPair(pairs: seq<(string, string)>, p: (string, string))
    ensures PairTexts(pairs + [p]) == PairTexts(pairs) + [PairText(p)]
  {
  }

  lemma PushItem(done: seq<Entry>, item: seq<Entry>, j: nat, compact: Compact)
    requires j < |item| && Stringify(done + item[..j], compact).Ok?
    requires QueryValueString(item[j].1, compact).Ok?
    ensures Stringify(done + item[..j + 1], compact)
         == Ok(Stringify(done + item[..j], compact).value + [(item[j].0, QueryValueString(item[j].1, compact).value)])
  {
    StringifySnoc(done + item[..j], item[j], compact);
    assert done + item[..j + 1] == done + item[..j] + [item[j]];
  }

  lemma NextItem(sorted: seq<Entry>, i: nat, j: nat, compact: Compact)
    requires i < |sorted| && j < |Expand(sorted[i])|
    requires Stringify(ExpandAll(sorted[..i]) + Expand(sorted[i])[..j], compact).Ok?
    requires QueryValueString(Expand(sorted[i])[j].1, compact).Ok?
    ensures Stringify(ExpandAll(sorted[..i]) + Expand(sorted[i])[..j + 1], compact)
         == Ok(Stringify(ExpandAll(sorted[..i]) + Expand(sorted[i])[..j], compact).value
               + [(Expand(sorted[i])[j].0, QueryValueString(Expand(sorted[i])[j].1, compact).value)])
  {
    PushItem(ExpandAll(sorted[..i]), Expand(sorted[i]), j, compact);
  }

  lemma NextMember(sorted: seq<Entry>, i: nat)
    requires i < |sorted|
    ensures ExpandAll(sorted[..i]) + Expand(sorted[i])[..0] == ExpandAll(sorted[..i])
    ensures ExpandAll(sorted[..i]) + Expand(sorted[i])[..|Expand(sorted[i])|] == ExpandAll(sorted[..i + 1])
  {
    assert sorted[..i + 1][..i] == sorted[..i];
    assert Expand(sorted[i])[..|Expand(sorted[i])|] == Expand(sorted[i]);
  }

  /** `build_query_string`. */
  method BuildQueryString(arguments: Json, compact: Compact) returns (r: Result<string, string>)
    ensures !arguments.Object? ==> r == Err("HTTP query call arguments must be a JSON object")
    ensures arguments.Object? ==>
              match PairsOf(arguments.members, compact)
              case Err(e) => r == Err(e)
              case Ok(pairs) => r == Ok(Join(PairTexts(pairs)))
  {
    if !arguments.Object? {
      return Err("HTTP query call arguments must be a JSON object");
    }
    var sorted := Sort<Entry>(ByField, arguments.members);
    var parts: seq<string> := [];
    for i := 0 to |sorted|
      invariant Stringify(ExpandAll(sorted[..i]), compact).Ok?
      invariant parts == PairTexts(Stringify(ExpandAll(sorted[..i]), compact).value)
    {
      var items := Expand(sorted[i]);
      NextMember(sorted, i);
      for j := 0 to |items|
        invariant Stringify(ExpandAll(sorted[..i]) + items[..j], compact).Ok?
        invariant parts == PairTexts(Stringify(ExpandAll(sorted[..i]) + items[..j], compact).value)
      {
        var text := QueryValueString(items[j].1, compact);
        if text.Err? {
          ErrorStops(sorted, i, j, compact);
          return Err(text.error);
        }
        NextItem(sorted, i, j, compact);
        PushPair(Stringify(ExpandAll(sorted[..i]) + items[..j], compact).value, (items[j].0, text.value));
        var key := PercentEncode(items[j].0);
        var value := PercentEncode(text.value);
        parts := parts + [key + "=" + value];
      }
    }
    assert sorted[..|sorted|] == sorted;
    r := Ok(Join(parts));
  }

  // ----- reading a query -----

  predicate IsAmp(c: char) { c == '&' }

  predicate IsEq(c: char) { c == '=' }

  function Split(s: string): seq<string>
    decreases |s|
  {
    var n := Until(s, IsAmp);
    if n == |s| then [s] else [s[..n]] + Split(s[n + 1..])
  }

  function ReadPair(piece: string): (seq<byte>, seq<byte>) {
    var n := Until(piece, IsEq);
    (Decode(piece[..n]), Decode(if n < |piece| then piece[n + 1..] else ""))
  }

  function ReadPairs(pieces: seq<string>): seq<(seq<byte>, seq<byte>)> {
    seq(|pieces|, i requires 0 <= i < |pieces| => ReadPair(pieces[i]))
  }

  function ReadQuery(query: string): seq<(seq<byte>, seq<byte>)> {
    if query == "" then [] else ReadPairs(Split(query))
  }

  function PairBytes(pairs: seq<(string, string)>): seq<(seq<byte>, seq<byte>)> {
    seq(|pairs|, i requires 0 <= i < |pairs| => (Utf8(pairs[i].0), Utf8(pairs[i].1)))
  }

  lemma SplitAt(a: string, b: string)
    requires '&' !in a
    ensures Split(a) == [a] && Split(a + "&" + b) == [a] + Split(b)
  {
    var s := a + "&" + b;
    UntilIs(a, IsAmp, |a|);
    UntilIs(s, IsAmp, |a|);
    assert s[..|a|] == a && s[|a| + 1..] == b;
  }

  lemma {:induction false} SplitConcat(a: string, b: string)
    ensures Split(a + "&" + b) == Split(a) + Split(b)
    decreases |a|
  {
    var n := Until(a, IsAmp);
    UntilFirst(a, IsAmp);
    if n == |a| {
      SplitAt(a, b);
    } else {
      var rest := a[n + 1..];
      assert a == a[..n] + "&" + rest;
      assert a + "&" + b == a[..n] + "&" + (rest + "&" + b);
      SplitAt(a[..n], rest + "&" + b);
      SplitConcat(rest, b);
    }
  }

  lemma {:induction false} SplitJoin(parts: seq<string>)
    requires parts != [] && forall i :: 0 <= i < |parts| ==> '&' !in parts[i]
    ensures Split(Join(parts)) == parts
  {
    if |parts| == 1 {
      SplitAt(parts[0], "");
    } else {
      SplitAt(parts[0], Join(parts[1..]));
      SplitJoin(parts[1..]);
    }
  }

  lemma ReadJoined(k: string, v: string)
    requires '=' !in k
    ensures ReadPair(k + "=" + v) == (Decode(k), Decode(v))
  {
    var s := k + "=" + v;
    forall i | 0 <= i < |k| ensures !IsEq(s[i]) {
      assert s[i] == k[i] && k[i] in k;
    }
    UntilIs(s, IsEq, |k|);
    assert s[..|k|] == k && s[|k| + 1..] == v;
  }

  lemma PairTextReads(p: (string, string))
    ensures '&' !in PairText(p) && PairText(p) != ""
    ensures ReadPair(PairText(p)) == (Utf8(p.0), Utf8(p.1))
  {
    var k, v := Encode(Utf8(p.0)), Encode(Utf8(p.1));
    EncodeWellFormed(Utf8(p.0));
    EncodeWellFormed(Utf8(p.1));
    NoSeparators(k);
    NoSeparators(v);
    DecodeEncode(Utf8(p.0));
    DecodeEncode(Utf8(p.1));
    ReadJoined(k, v);
  }

  /** The string is empty exactly when there is no pair. */
  lemma JoinEmpty(pairs: seq<(string, string)>)
    ensures Join(PairTexts(pairs)) == "" <==> pairs == []
  {
    if pairs != [] {
      PairTextReads(pairs[0]);
      assert PairTexts(pairs)[0] == PairText(pairs[0]);
    }
  }

  /** Reading a printed query gives back exactly its pairs, in order. */
  lemma ReadPrinted(pairs: seq<(string, string)>)
    ensures ReadQuery(Join(PairTexts(pairs))) == PairBytes(pairs)
  {
    JoinEmpty(pairs);
    if pairs != [] {
      forall i | 0 <= i < |pairs|
        ensures '&' !in PairTexts(pairs)[i] && ReadPair(PairTexts(pairs)[i]) == PairBytes(pairs)[i]
      {
        PairTextReads(pairs[i]);
      }
      SplitJoin(PairTexts(pairs));
    }
  }

  /** Bytes determine the strings, so the round trip loses nothing. */
  lemma PairBytesInjective(a: seq<(string, string)>, b: seq<(string, string)>)
    requires PairBytes(a) == PairBytes(b)
    ensures a == b
  {
    assert |a| == |PairBytes(a)| == |b|;
    forall i | 0 <= i < |a| ensures a[i] == b[i] {
      assert PairBytes(a)[i] == PairBytes(b)[i];
      Utf8Injective(a[i].0, b[i].0);
      Utf8Injective(a[i].1, b[i].1);
    }
  }

  /** Two argument objects print the same query exactly when they have the same pairs. */
  lemma SameQuery(a: seq<(string, string)>, b: seq<(string, string)>)
    ensures Join(PairTexts(a)) == Join(PairTexts(b)) <==> a == b
  {
    if Join(PairTexts(a)) == Join(PairTexts(b)) {
      ReadPrinted(a);
      ReadPrinted(b);
      PairBytesInjective(a, b);
    }
  }

  // ----- which pairs an object has -----

  lemma {:induction false} StringifyPointwise(entries: seq<Entry>, compact: Compact)
    ensures var r := Stringify(entries, compact);
      && (r.Ok? <==> forall i :: 0 <= i < |entries| ==> QueryValueString(entries[i].1, compact).Ok?)
      && (r.Ok? ==> |r.value| == |entries| && forall i :: 0 <= i < |entries| ==>
            r.value[i].0 == entries[i].0 && QueryValueString(entries[i].1, compact) == Ok(r.value[i].1))
  {
    if entries != [] {
      var front := entries[..|entries| - 1];
      StringifyPointwise(front, compact);
      assert forall i :: 0 <= i < |front| ==> entries[i] == front[i];
    }
  }

  /** The values listed under one key, in order. */
  function Under(entries: seq<Entry>, key: string): seq<Json> {
    if entries == [] then []
    else Under(entries[..|entries| - 1], key)
         + if entries[|entries| - 1].0 == key then [entries[|entries| - 1].1] else []
  }

  /** What a member stands for: an array's items, or the value itself. */
  function ItemsOf(v: Json): seq<Json> {
    match v case Array(items) => items case _ => [v]
  }

  lemma {:induction false} UnderConcat(a: seq<Entry>, b: seq<Entry>, key: string)
    ensures Under(a + b, key) == Under(a, key) + Under(b, key)
    decreases |b|
  {
    if b == [] {
      assert a + b == a;
    } else {
      assert (a + b)[..|a + b| - 1] == a + b[..|b| - 1];
      UnderConcat(a, b[..|b| - 1], key);
    }
  }

  lemma {:induction false} UnderItems(k: string, items: seq<Json>, key: string)
    ensures var entries := seq(|items|, i requires 0 <= i < |items| => (k, items[i]));
      Under(entries, key) == if k == key then items else []
  {
    if items != [] {
      var entries := seq(|items|, i requires 0 <= i < |items| => (k, items[i]));
      var front := items[..|items| - 1];
      UnderItems(k, front, key);
      assert entries[..|entries| - 1] == seq(|front|, i requires 0 <= i < |front| => (k, front[i]));
      assert items == front + [items[|items| - 1]];
    }
  }

  lemma UnderExpand(m: Entry, key: string)
    ensures Under(Expand(m), key) == if m.0 == key then ItemsOf(m.1) else []
  {
    if m.1.Array? {
      UnderItems(m.0, m.1.items, key);
    } else {
      assert Expand(m)[..0] == [];
    }
  }

  lemma {:induction false} UnderAbsent(members: seq<Entry>, key: string)
    requires forall m :: m in members ==> m.0 != key
    ensures Under(ExpandAll(members), key) == []
  {
    if members != [] {
      var front, last := members[..|members| - 1], members[|members| - 1];
      UnderAbsent(front, key);
      UnderConcat(ExpandAll(front), Expand(last), key);
      UnderExpand(last, key);
    }
  }

  lemma {:induction false} UnderMember(members: seq<Entry>, m: Entry)
    requires m in members && forall i, j :: 0 <= i < j < |members| ==> members[i].0 != members[j].0
    ensures Under(ExpandAll(members), m.0) == ItemsOf(m.1)
  {
    var front, last := members[..|members| - 1], members[|members| - 1];
    UnderConcat(ExpandAll(front), Expand(last), m.0);
    UnderExpand(last, m.0);
    if last == m {
      UnderAbsent(front, m.0);
    } else {
      assert m in front;
      UnderMember(front, m);
    }
  }

  lemma {:induction false} ExpandKeysSorted(members: seq<Entry>)
    requires Sorted<Entry>(ByField, members)
    ensures forall e :: e in ExpandAll(members) ==> exists m :: m in members && m.0 == e.0
    ensures Sorted<Entry>(ByField, ExpandAll(members))
  {
    if members != [] {
      var front, last := members[..|members| - 1], members[|members| - 1];
      ExpandKeysSorted(front);
      var all, n := ExpandAll(members), |ExpandAll(front)|;
      LeTotal(last.0, last.0);
      forall i | n <= i < |all| ensures all[i].0 == last.0 {
        assert all[i] == Expand(last)[i - n];
      }
      forall i | 0 <= i < n ensures all[i] == ExpandAll(front)[i] && ByField(all[i], last) {
        assert ExpandAll(front)[i] in ExpandAll(front);
      }
    }
  }

  /**
   The pairs of an object with distinct keys: in the order of the keys, and under each key exactly
   its member's items, in their order; no other pair. It fails exactly when some item's text does.
   */
  lemma PairsMeaning(members: seq<Entry>, compact: Compact)
    requires forall i, j :: 0 <= i < j < |members| ==> members[i].0 != members[j].0
    ensures var entries := ExpandAll(Sort<Entry>(ByField, members));
      var r := PairsOf(members, compact);
      && Sorted<Entry>(ByField, entries)
      && (forall m :: m in members ==> Under(entries, m.0) == ItemsOf(m.1))
      && (forall e :: e in entries ==> exists m :: m in members && m.0 == e.0)
      && (r.Ok? <==> forall i :: 0 <= i < |entries| ==> QueryValueString(entries[i].1, compact).Ok?)
      && (r.Ok? ==> |r.value| == |entries| && forall i :: 0 <= i < |entries| ==>
            r.value[i].0 == entries[i].0 && QueryValueString(entries[i].1, compact) == Ok(r.value[i].1))
  {
    ByFieldOrder<Json>();
    SortCorrect<Entry>(ByField, members);
    var sorted := Sort<Entry>(ByField, members);
    SortKeepsDistinct(members);
    ExpandKeysSorted(sorted);
    StringifyPointwise(ExpandAll(sorted), compact);
    forall m | m in members ensures Under(ExpandAll(sorted), m.0) == ItemsOf(m.1) {
      assert m in sorted;
      UnderMember(sorted, m);
    }
  }

  lemma ValueText(v: Json, compact: Compact)
    ensures QueryValueString(v, compact).Ok? <==> (v.Array? || v.Object? ==> compact(v).Ok?)
    ensures forall text :: QueryValueString(v, compact) == Ok(text) ==>
      match v
      case Null => text == "null"
      case Bool(b) => text == if b then "true" else "false"
      case Number(n) => text == n
      case String(s) => text == s
      case Array(_) => compact(v) == Ok(text)
      case Object(_) => compact(v) == Ok(text)
  {
  }

  /**
   The texts of the values, written out. Only a nested array or object can fail, when the JSON
   printer does.
   */
  lemma PairsValues(members: seq<Entry>, compact: Compact, i: nat)
    requires i < |ExpandAll(Sort<Entry>(ByField, members))|
    ensures PairsOf(members, compact).Ok? ==> i < |PairsOf(members, compact).value|
    ensures PairsOf(members, compact).Ok? ==>
      var text, v := PairsOf(members, compact).value[i].1, ExpandAll(Sort<Entry>(ByField, members))[i].1;
      match v
      case Null => text == "null"
      case Bool(b) => text == if b then "true" else "false"
      case Number(n) => text == n
      case String(s) => text == s
      case Array(_) => compact(v) == Ok(text)
      case Object(_) => compact(v) == Ok(text)
  {
    var entries := ExpandAll(Sort<Entry>(ByField, members));
    StringifyPointwise(entries, compact);
    ValueText(entries[i].1, compact);
  }

  /** An object with no nested value that the JSON printer rejects always prints. */
  lemma PairsSucceed(members: seq<Entry>, compact: Compact)
    ensures PairsOf(members, compact).Ok? <==>
      forall e :: e in ExpandAll(Sort<Entry>(ByField, members)) && (e.1.Array? || e.1.Object?) ==> compact(e.1).Ok?
  {
    var entries := ExpandAll(Sort<Entry>(ByField, members));
    StringifyPointwise(entries, compact);
    forall i | 0 <= i < |entries|
      ensures QueryValueString(entries[i].1, compact).Ok? <==>
                (entries[i].1.Array? || entries[i].1.Object? ==> compact(entries[i].1).Ok?)
    {
      ValueText(entries[i].1, compact);
    }
  }

  lemma {:induction false} RunAtMostOne(s: seq<Entry>, i: nat, j: nat)
    requires i < j < |s| && s[i].0 == s[j].0
    ensures |TiedRun<Entry>(ByField, s[i], s)| >= 2
  {
    ByFieldOrder<Json>();
    var k := s[i];
    if i == 0 {
      TiedRunMember<Entry>(ByField, k, s[1..]);
      assert s[1..][j - 1] == s[j] && s[j] in s[1..];
      assert s[j] in TiedRun<Entry>(ByField, k, s[1..]);
    } else {
      assert s[1..][i - 1] == k && s[1..][j - 1] == s[j];
      RunAtMostOne(s[1..], i - 1, j - 1);
    }
  }

  lemma SortKeepsDistinct(members: seq<Entry>)
    requires forall i, j :: 0 <= i < j < |members| ==> members[i].0 != members[j].0
    ensures var s := Sort<Entry>(ByField, members);
      forall i, j :: 0 <= i < j < |s| ==> s[i].0 != s[j].0
  {
    ByFieldOrder<Json>();
    SortCorrect<Entry>(ByField, members);
    var s := Sort<Entry>(ByField, members);
    forall i, j | 0 <= i < j < |s| ensures s[i].0 != s[j].0 {
      if s[i].0 == s[j].0 {
        RunAtMostOne(s, i, j);
        assert s[i] in members;
        SingleRun<Entry>(ByField, s[i], s[i], members);
      }
    }
  }

  /** The order of an object's keys does not matter. */
  lemma KeyOrderIrrelevant(a: seq<Entry>, b: seq<Entry>, compact: Compact)
    requires forall i, j :: 0 <= i < j < |a| ==> a[i].0 != a[j].0
    requires forall i, j :: 0 <= i < j < |b| ==> b[i].0 != b[j].0
    requires forall m :: m in a <==> m in b
    ensures PairsOf(a, compact) == PairsOf(b, compact)
  {
    ByFieldOrder<Json>();
    SortOrderIndependent<Entry>(ByField, a, b);
  }

  // ----- merging onto a URL -----

  class Url {
    var query: Option<string>

    constructor (query: Option<string>)
      ensures this.query == query
    {
      this.query := query;
    }
  }

  function Merged(existing: Option<string>, query: string): Option<string> {
    if query == "" then existing
    else match existing
      case Some(present) => if present != "" then Some(present + "&" + query) else Some(query)
      case None => Some(query)
  }

  /** `with_query_string`. */
  method WithQueryString(url: Url, query: string)
    modifies url
    ensures url.query == Merged(old(url.query), query)
  {
    if query == "" {
      return;
    }
    var merged := query;
    if url.query.Some? && url.query.value != "" {
      merged := url.query.value + "&" + query;
    }
    url.query := Some(merged);
  }

  function ReadUrlQuery(query: Option<string>): seq<(seq<byte>, seq<byte>)> {
    if query.None? then [] else ReadQuery(query.value)
  }

  lemma ReadPairsConcat(a: seq<string>, b: seq<string>)
    ensures ReadPairs(a + b) == ReadPairs(a) + ReadPairs(b)
  {
  }

  /** A merged query reads as the old pairs followed by the new ones. */
  lemma MergedReads(existing: Option<string>, query: string)
    ensures ReadUrlQuery(Merged(existing, query)) == ReadUrlQuery(existing) + ReadQuery(query)
  {
    if query != "" && existing.Some? && existing.value != "" {
      SplitConcat(existing.value, query);
      ReadPairsConcat(Split(existing.value), Split(query));
    }
  }
}
