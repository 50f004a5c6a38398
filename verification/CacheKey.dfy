/**
 The byte stream a credential bundle is hashed from: a stable sort by field, then one
 `field=value` line per pair. The digest is a hash of the stream; what is proved here is what the
 stream says about the pairs.
 */
module CacheKey {
  import opened Base
  import opened Sorting
  import opened Text

  type Pair = (string, string)

  const STATIC_SEED := "static"

  function Line(p: Pair): string {
    p.0 + "=" + p.1 + "\n"
  }

  function Frame(pairs: seq<Pair>): string {
    if pairs == [] then "" else Line(pairs[0]) + Frame(pairs[1..])
  }

  /** What the hasher is fed. */
  function Stream(pairs: seq<Pair>): seq<byte> {
    Utf8(Frame(Sort<Pair>(ByField, pairs)))
  }

  lemma FrameSnoc(pairs: seq<Pair>, p: Pair)
    ensures Frame(pairs + [p]) == Frame(pairs) + Line(p)
  {
    if pairs == [] {
      assert [] + [p] == [p] && [p][1..] == [];
    } else {
      assert (pairs + [p])[0] == pairs[0] && (pairs + [p])[1..] == pairs[1..] + [p];
      FrameSnoc(pairs[1..], p);
    }
  }

  lemma Utf8Line(p: Pair)
    ensures Utf8(Line(p)) == Utf8(p.0) + [61] + Utf8(p.1) + [10]
  {
    assert Utf8("=") == [61] && Utf8("\n") == [10];
    Utf8Concat(p.0, "=");
    Utf8Concat(p.0 + "=", p.1);
    Utf8Concat(p.0 + "=" + p.1, "\n");
  }

  lemma FeedLine(sorted: seq<Pair>, n: nat)
    requires n < |sorted|
    ensures Utf8(Frame(sorted[..n + 1]))
         == Utf8(Frame(sorted[..n])) + Utf8(sorted[n].0) + [61] + Utf8(sorted[n].1) + [10]
  {
    assert sorted[..n + 1] == sorted[..n] + [sorted[n]];
    FrameSnoc(sorted[..n], sorted[n]);
    Utf8Concat(Frame(sorted[..n]), Line(sorted[n]));
    Utf8Line(sorted[n]);
  }

  /** `digest_credential_bundle` up to the hash: the bytes the updates feed it, in order. */
  method FeedHasher(pairs: seq<Pair>) returns (fed: seq<byte>)
    ensures fed == Stream(pairs)
  {
    var sorted := Sort<Pair>(ByField, pairs);
    fed := [];
    for i := 0 to |sorted|
      invariant fed == Utf8(Frame(sorted[..i]))
    {
      var (k, v) := sorted[i];
      FeedLine(sorted, i);
      fed := fed + Utf8(k);
      fed := fed + [61];
      fed := fed + Utf8(v);
      fed := fed + [10];
    }
    assert sorted[..|sorted|] == sorted;
  }

  // ----- reading the stream back -----

  predicate CleanPair(p: Pair) {
    '=' !in p.0 && '\n' !in p.0 && '\n' !in p.1
  }

  predicate Clean(pairs: seq<Pair>) {
    forall p :: p in pairs ==> CleanPair(p)
  }

  predicate IsEquals(c: char) { c == '=' }

  predicate IsNewline(c: char) { c == '\n' }

  /** Split lines, and each line at its first `=`. */
  function Parse(text: string): seq<Pair>
    decreases |text|
  {
    if text == "" then []
    else
      var n := Until(text, IsNewline);
      var line, rest := text[..n], if n < |text| then text[n + 1..] else "";
      var k := Until(line, IsEquals);
      var value := if k < |line| then line[k + 1..] else "";
      [(line[..k], value)] + if |rest| < |text| then Parse(rest) else []
  }

  lemma {:induction false} ParseFrame(pairs: seq<Pair>)
    requires Clean(pairs)
    ensures Parse(Frame(pairs)) == pairs
  {
    if pairs != [] {
      var p, rest := pairs[0], Frame(pairs[1..]);
      var body := p.0 + "=" + p.1;
      var text := Frame(pairs);
      assert CleanPair(p);
      assert text == body + "\n" + rest;
      assert forall i :: 0 <= i < |body| ==> text[i] == body[i];
      assert text[|body|] == '\n';
      UntilIs(text, IsNewline, |body|);
      assert text[..|body|] == body && text[|body| + 1..] == rest;
      UntilIs(body, IsEquals, |p.0|);
      assert body[..|p.0|] == p.0 && body[|p.0| + 1..] == p.1;
      ParseFrame(pairs[1..]);
    }
  }

  /** The values of one field, in order. */
  function ValuesOf(pairs: seq<Pair>, field: string): seq<string> {
    if pairs == [] then []
    else (if pairs[0].0 == field then [pairs[0].1] else []) + ValuesOf(pairs[1..], field)
  }

  lemma {:induction false} RunIsValues(pairs: seq<Pair>, k: Pair)
    ensures |TiedRun<Pair>(ByField, k, pairs)| == |ValuesOf(pairs, k.0)|
    ensures forall i :: 0 <= i < |ValuesOf(pairs, k.0)| ==>
              TiedRun<Pair>(ByField, k, pairs)[i] == (k.0, ValuesOf(pairs, k.0)[i])
  {
    ByFieldOrder<string>();
    if pairs != [] {
      RunIsValues(pairs[1..], k);
    }
  }

  lemma SameStreamSameSort(a: seq<Pair>, b: seq<Pair>)
    requires Clean(a) && Clean(b) && Stream(a) == Stream(b)
    ensures Sort<Pair>(ByField, a) == Sort<Pair>(ByField, b)
  {
    ByFieldOrder<string>();
    SortCorrect<Pair>(ByField, a);
    SortCorrect<Pair>(ByField, b);
    Utf8Injective(Frame(Sort<Pair>(ByField, a)), Frame(Sort<Pair>(ByField, b)));
    ParseFrame(Sort<Pair>(ByField, a));
    ParseFrame(Sort<Pair>(ByField, b));
  }

  lemma SameSortSameValues(a: seq<Pair>, b: seq<Pair>, field: string)
    requires Sort<Pair>(ByField, a) == Sort<Pair>(ByField, b)
    ensures ValuesOf(a, field) == ValuesOf(b, field)
  {
    var k := (field, "");
    ByFieldOrder<string>();
    SortCorrect<Pair>(ByField, a);
    SortCorrect<Pair>(ByField, b);
    assert TiedRun<Pair>(ByField, k, a) == TiedRun<Pair>(ByField, k, b);
    RunIsValues(a, k);
    RunIsValues(b, k);
    forall i | 0 <= i < |ValuesOf(a, field)| ensures ValuesOf(a, field)[i] == ValuesOf(b, field)[i] {
      assert (field, ValuesOf(a, field)[i]) == (field, ValuesOf(b, field)[i]);
    }
  }

  lemma SameValuesSameRun(a: seq<Pair>, b: seq<Pair>, k: Pair)
    requires ValuesOf(a, k.0) == ValuesOf(b, k.0)
    ensures TiedRun<Pair>(ByField, k, a) == TiedRun<Pair>(ByField, k, b)
  {
    RunIsValues(a, k);
    RunIsValues(b, k);
  }

  /** Both give every field the same values in the same order. */
  ghost predicate SameValues(a: seq<Pair>, b: seq<Pair>) {
    forall field :: ValuesOf(a, field) == ValuesOf(b, field)
  }

  lemma SameValuesSameSort(a: seq<Pair>, b: seq<Pair>)
    requires SameValues(a, b)
    ensures Sort<Pair>(ByField, a) == Sort<Pair>(ByField, b)
  {
    var sa, sb := Sort<Pair>(ByField, a), Sort<Pair>(ByField, b);
    ByFieldOrder<string>();
    SortCorrect<Pair>(ByField, a);
    SortCorrect<Pair>(ByField, b);
    forall k ensures TiedRun<Pair>(ByField, k, sa) == TiedRun<Pair>(ByField, k, sb) {
      assert ValuesOf(a, k.0) == ValuesOf(b, k.0);
      SameValuesSameRun(a, b, k);
    }
    SortedUnique<Pair>(ByField, sa, sb);
  }

  /**
   When two bundles share a stream, and so a cache entry: exactly when they give every field the
   same values in the same order. The order of different fields does not matter.
   */
  lemma SameStream(a: seq<Pair>, b: seq<Pair>)
    requires Clean(a) && Clean(b)
    ensures Stream(a) == Stream(b) <==> SameValues(a, b)
  {
    if Stream(a) == Stream(b) {
      SameStreamSameSort(a, b);
      forall field ensures ValuesOf(a, field) == ValuesOf(b, field) {
        SameSortSameValues(a, b, field);
      }
    } else if SameValues(a, b) {
      SameValuesSameSort(a, b);
    }
  }

  ghost predicate DistinctFields(pairs: seq<Pair>) {
    forall i, j :: 0 <= i < j < |pairs| ==> pairs[i].0 != pairs[j].0
  }

  lemma SameSortPermutation(a: seq<Pair>, b: seq<Pair>)
    requires Sort<Pair>(ByField, a) == Sort<Pair>(ByField, b)
    ensures multiset(a) == multiset(b)
  {
    ByFieldOrder<string>();
    SortCorrect<Pair>(ByField, a);
    SortCorrect<Pair>(ByField, b);
  }

  lemma PermutationSameSort(a: seq<Pair>, b: seq<Pair>)
    requires DistinctFields(a) && DistinctFields(b) && multiset(a) == multiset(b)
    ensures Sort<Pair>(ByField, a) == Sort<Pair>(ByField, b)
  {
    ByFieldOrder<string>();
    forall x ensures x in a <==> x in b {
      assert x in multiset(a) <==> x in multiset(b);
    }
    SortOrderIndependent<Pair>(ByField, a, b);
  }

  /**
   With distinct fields, permutations share a stream, whatever the values are; where the framing
   can be read back, only permutations do.
   */
  lemma SameStreamDistinct(a: seq<Pair>, b: seq<Pair>)
    requires DistinctFields(a) && DistinctFields(b)
    ensures multiset(a) == multiset(b) ==> Stream(a) == Stream(b)
    ensures Clean(a) && Clean(b) && Stream(a) == Stream(b) ==> multiset(a) == multiset(b)
  {
    if multiset(a) == multiset(b) {
      PermutationSameSort(a, b);
    }
    if Clean(a) && Clean(b) && Stream(a) == Stream(b) {
      SameStreamSameSort(a, b);
      SameSortPermutation(a, b);
    }
  }

  // ----- when the order of the pairs does not matter -----

  /** The framed lines of any two pairs of one field read the same in either order. */
  ghost predicate LinesCommute(pairs: seq<Pair>) {
    forall x, y :: x in pairs && y in pairs && x.0 == y.0 ==> Line(x) + Line(y) == Line(y) + Line(x)
  }

  lemma {:induction false} FrameConcat(a: seq<Pair>, b: seq<Pair>)
    ensures Frame(a + b) == Frame(a) + Frame(b)
  {
    if a == [] {
      assert a + b == b;
    } else {
      assert (a + b)[0] == a[0] && (a + b)[1..] == a[1..] + b;
      FrameConcat(a[1..], b);
      Regroup(Line(a[0]), Frame(a[1..]), Frame(b));
    }
  }

  /** A line moves to the front through lines it commutes with. */
  lemma {:induction false} MoveToFront(front: seq<Pair>, x: Pair)
    requires forall y :: y in front ==> Line(x) + Line(y) == Line(y) + Line(x)
    ensures Frame(front) + Line(x) == Line(x) + Frame(front)
  {
    if front != [] {
      var y, rest := Line(front[0]), Frame(front[1..]);
      MoveToFront(front[1..], x);
      Regroup(y, rest, Line(x));
      Regroup(y, Line(x), rest);
      Regroup(Line(x), y, rest);
    }
  }

  lemma TakeOut(front: seq<Pair>, x: Pair, back: seq<Pair>)
    requires forall y :: y in front ==> Line(x) + Line(y) == Line(y) + Line(x)
    ensures Frame(front + ([x] + back)) == Line(x) + Frame(front + back)
  {
    FrameConcat(front, [x] + back);
    FrameConcat(front, back);
    assert ([x] + back)[1..] == back;
    MoveToFront(front, x);
    Regroup(Frame(front), Line(x), Frame(back));
    Regroup(Line(x), Frame(front), Frame(back));
  }

  lemma {:induction false} SortedFramesAgree(a: seq<Pair>, b: seq<Pair>)
    requires Sorted<Pair>(ByField, a) && Sorted<Pair>(ByField, b) && multiset(a) == multiset(b)
    requires LinesCommute(a)
    ensures Frame(a) == Frame(b)
  {
    if a == [] {
      assert |multiset(b)| == |b|;
    } else {
      var x := a[0];
      assert x in multiset(b);
      var j :| 0 <= j < |b| && b[j] == x;
      var front, back := b[..j], b[j + 1..];
      assert b == front + ([x] + back);
      forall y | y in front ensures Line(x) + Line(y) == Line(y) + Line(x) {
        TiesInFront(a, b, j, y);
      }
      TakeOut(front, x, back);
      WithoutOne(a, front, x, back);
      SortedFramesAgree(a[1..], front + back);
    }
  }

  lemma TiesInFront(a: seq<Pair>, b: seq<Pair>, j: nat, y: Pair)
    requires Sorted<Pair>(ByField, a) && Sorted<Pair>(ByField, b) && multiset(a) == multiset(b)
    requires a != [] && j < |b| && b[j] == a[0] && y in b[..j]
    ensures y in a && y.0 == a[0].0
  {
    var i :| 0 <= i < j && b[i] == y;
    assert y in multiset(a);
    var k :| 0 <= k < |a| && a[k] == y;
    LeTotal(a[0].0, a[0].0);
    LeTotal(a[0].0, y.0);
  }

  lemma SortedWithout(front: seq<Pair>, x: Pair, back: seq<Pair>)
    requires Sorted<Pair>(ByField, front + ([x] + back))
    ensures Sorted<Pair>(ByField, front + back)
  {
    var b, c := front + ([x] + back), front + back;
    forall i, j | 0 <= i < j < |c| ensures ByField(c[i], c[j]) {
      var p, q := if i < |front| then i else i + 1, if j < |front| then j else j + 1;
      assert c[i] == b[p] && c[j] == b[q];
    }
  }

  lemma WithoutOne(a: seq<Pair>, front: seq<Pair>, x: Pair, back: seq<Pair>)
    requires a != [] && a[0] == x && multiset(a) == multiset(front + ([x] + back))
    requires Sorted<Pair>(ByField, front + ([x] + back))
    ensures multiset(a[1..]) == multiset(front + back) && Sorted<Pair>(ByField, front + back)
  {
    var b, c := front + ([x] + back), front + back;
    assert a == [x] + a[1..];
    assert multiset(a) == multiset{x} + multiset(a[1..]);
    assert multiset(b) == multiset{x} + multiset(c);
    assert multiset(a[1..]) == multiset(a) - multiset{x} && multiset(c) == multiset(b) - multiset{x};
    SortedWithout(front, x, back);
  }

  lemma CommutingAnyOrder(a: seq<Pair>, b: seq<Pair>)
    requires LinesCommute(a) && multiset(a) == multiset(b)
    ensures Stream(a) == Stream(b)
  {
    ByFieldOrder<string>();
    SortCorrect<Pair>(ByField, a);
    SortCorrect<Pair>(ByField, b);
    SortedFramesAgree(Sort<Pair>(ByField, a), Sort<Pair>(ByField, b));
  }

  lemma CancelEnd(u: string, v: string, w: string)
    requires u + w == v + w
    ensures u == v
  {
    assert |u + w| == |v + w|;
    assert u == (u + w)[..|u|] && v == (v + w)[..|v|];
  }

  lemma CancelStart(u: string, v: string, w: string)
    requires w + u == w + v
    ensures u == v
  {
    assert u == (w + u)[|w|..] && v == (w + v)[|w|..];
  }

  /** Two pairs of one field are sorted next to each other, the first given first. */
  lemma {:induction false} InsertedTwiceCommute(x: Pair, y: Pair, s: seq<Pair>)
    requires x.0 == y.0
    requires Frame(Insert<Pair>(ByField, x, Insert<Pair>(ByField, y, s)))
          == Frame(Insert<Pair>(ByField, y, Insert<Pair>(ByField, x, s)))
    ensures Line(x) + Line(y) == Line(y) + Line(x)
  {
    LeTotal(x.0, y.0);
    if s == [] || ByField(x, s[0]) {
      FrameTwo(x, y, s);
      FrameTwo(y, x, s);
      CancelEnd(Line(x) + Line(y), Line(y) + Line(x), Frame(s));
    } else {
      var p := Insert<Pair>(ByField, x, Insert<Pair>(ByField, y, s[1..]));
      var q := Insert<Pair>(ByField, y, Insert<Pair>(ByField, x, s[1..]));
      InsertPast(x, y, s);
      InsertPast(y, x, s);
      assert ([s[0]] + p)[1..] == p && ([s[0]] + q)[1..] == q;
      CancelStart(Frame(p), Frame(q), Line(s[0]));
      InsertedTwiceCommute(x, y, s[1..]);
    }
  }

  lemma FrameTwo(x: Pair, y: Pair, s: seq<Pair>)
    requires x.0 == y.0 && (s == [] || ByField(x, s[0]))
    ensures Frame(Insert<Pair>(ByField, x, Insert<Pair>(ByField, y, s))) == Line(x) + Line(y) + Frame(s)
  {
    LeTotal(x.0, y.0);
    assert Insert<Pair>(ByField, y, s) == [y] + s;
    assert Insert<Pair>(ByField, x, [y] + s) == [x] + ([y] + s);
    assert ([x] + ([y] + s))[1..] == [y] + s && ([y] + s)[1..] == s;
    Regroup(Line(x), Line(y), Frame(s));
  }

  lemma InsertPast(x: Pair, y: Pair, s: seq<Pair>)
    requires x.0 == y.0 && s != [] && !ByField(x, s[0])
    ensures Insert<Pair>(ByField, x, Insert<Pair>(ByField, y, s))
         == [s[0]] + Insert<Pair>(ByField, x, Insert<Pair>(ByField, y, s[1..]))
  {
    var t := Insert<Pair>(ByField, y, s[1..]);
    assert Insert<Pair>(ByField, y, s) == [s[0]] + t;
    assert ([s[0]] + t)[1..] == t;
  }

  lemma SortTwo(x: Pair, y: Pair, rest: seq<Pair>)
    ensures Sort<Pair>(ByField, [x] + ([y] + rest))
         == Insert<Pair>(ByField, x, Insert<Pair>(ByField, y, Sort<Pair>(ByField, rest)))
  {
    assert ([x] + ([y] + rest))[1..] == [y] + rest && ([y] + rest)[1..] == rest;
    assert Sort<Pair>(ByField, [y] + rest) == Insert<Pair>(ByField, y, Sort<Pair>(ByField, rest));
  }

  lemma BothOrders(x: Pair, y: Pair, rest: seq<Pair>)
    requires x.0 == y.0 && Stream([x] + ([y] + rest)) == Stream([y] + ([x] + rest))
    ensures Line(x) + Line(y) == Line(y) + Line(x)
  {
    var a, b := [x] + ([y] + rest), [y] + ([x] + rest);
    SortTwo(x, y, rest);
    SortTwo(y, x, rest);
    Utf8Injective(Frame(Sort<Pair>(ByField, a)), Frame(Sort<Pair>(ByField, b)));
    InsertedTwiceCommute(x, y, Sort<Pair>(ByField, rest));
  }

  /** A list with `x` and another `y` in it is a permutation of one that starts with them. */
  lemma BringToFront(a: seq<Pair>, i: nat, j: nat) returns (rest: seq<Pair>)
    requires i < j < |a|
    ensures multiset([a[i]] + ([a[j]] + rest)) == multiset(a)
    ensures multiset([a[j]] + ([a[i]] + rest)) == multiset(a)
  {
    rest := a[..i] + (a[i + 1..j] + a[j + 1..]);
    assert a == a[..i] + ([a[i]] + (a[i + 1..j] + ([a[j]] + a[j + 1..])));
  }

  lemma OrderMatters(a: seq<Pair>, x: Pair, y: Pair) returns (b: seq<Pair>, c: seq<Pair>)
    requires x in a && y in a && x.0 == y.0 && Line(x) + Line(y) != Line(y) + Line(x)
    ensures multiset(b) == multiset(a) == multiset(c) && Stream(b) != Stream(c)
  {
    var i :| 0 <= i < |a| && a[i] == x;
    var j :| 0 <= j < |a| && a[j] == y;
    var rest := BringToFront(a, if i < j then i else j, if i < j then j else i);
    b, c := [x] + ([y] + rest), [y] + ([x] + rest);
    if Stream(b) == Stream(c) {
      BothOrders(x, y, rest);
      assert false;
    }
  }

  /**
   When the order of the pairs does not matter, for every bundle: exactly when the lines of any two
   pairs of one field read the same in either order.
   */
  lemma OrderIndependentExactly(a: seq<Pair>)
    ensures (forall b :: multiset(b) == multiset(a) ==> Stream(b) == Stream(a)) <==> LinesCommute(a)
  {
    if LinesCommute(a) {
      forall b | multiset(b) == multiset(a) ensures Stream(b) == Stream(a) {
        CommutingAnyOrder(a, b);
      }
    } else {
      var x, y :| x in a && y in a && x.0 == y.0 && Line(x) + Line(y) != Line(y) + Line(x);
      var b, c := OrderMatters(a, x, y);
    }
  }

  /** Pairs with equal fields have equal values. */
  ghost predicate OneValuePerField(pairs: seq<Pair>) {
    forall x, y :: x in pairs && y in pairs && x.0 == y.0 ==> x == y
  }

  lemma FramePair(x: Pair, y: Pair)
    ensures Frame([x, y]) == Line(x) + Line(y)
  {
    assert [x, y] == [x] + [y] && [x][1..] == [] && [y][1..] == [];
    FrameConcat([x], [y]);
    assert Frame([x]) == Line(x) + "" && Frame([y]) == Line(y) + "";
  }

  lemma CleanLinesCommute(x: Pair, y: Pair)
    requires CleanPair(x) && CleanPair(y)
    ensures Line(x) + Line(y) == Line(y) + Line(x) <==> x == y
  {
    if Line(x) + Line(y) == Line(y) + Line(x) {
      FramePair(x, y);
      FramePair(y, x);
      ParseFrame([x, y]);
      ParseFrame([y, x]);
      assert [x, y][0] == [y, x][0];
    }
  }

  /** For a clean bundle: exactly when equal fields have equal values. */
  lemma CleanOrderIndependent(a: seq<Pair>)
    requires Clean(a)
    ensures (forall b :: multiset(b) == multiset(a) ==> Stream(b) == Stream(a)) <==> OneValuePerField(a)
  {
    OrderIndependentExactly(a);
    forall x, y | x in a && y in a ensures Line(x) + Line(y) == Line(y) + Line(x) <==> x == y {
      CleanLinesCommute(x, y);
    }
  }

  /** Unclean values can make up for the order: equal fields, different values, one stream. */
  lemma UncleanValuesCommute()
    ensures var a := [("f", "a\nf=a"), ("f", "a")]; LinesCommute(a) && !OneValuePerField(a)
  {
    var x, y := ("f", "a\nf=a"), ("f", "a");
    var l := "f=a\n";
    assert Line(y) == l && Line(x) == l + l;
    Regroup(l, l, l);
    assert x in [x, y] && y in [x, y] && |x.1| != |y.1|;
  }

  /** With a repeated field the order matters, contrary to the comment on the digest. */
  lemma RepeatedFieldOrderMatters()
    ensures var a, b := [("f", "1"), ("f", "2")], [("f", "2"), ("f", "1")];
      multiset(a) == multiset(b) && Stream(a) != Stream(b)
  {
    var a, b := [("f", "1"), ("f", "2")], [("f", "2"), ("f", "1")];
    assert ValuesOf(a, "f")[0] == "1" && ValuesOf(b, "f")[0] == "2";
    assert ValuesOf(a, "f") != ValuesOf(b, "f");
    SameStream(a, b);
  }

  lemma FrameEnds(pairs: seq<Pair>)
    ensures pairs != [] ==> Frame(pairs) != "" && Frame(pairs)[|Frame(pairs)| - 1] == '\n'
  {
    if pairs != [] {
      FrameEnds(pairs[1..]);
    }
  }

  /** No bundle's stream is the seed of the static digest. */
  lemma NeverStatic(pairs: seq<Pair>)
    ensures Stream(pairs) != Utf8("static")
  {
    FrameEnds(Sort<Pair>(ByField, pairs));
    if Stream(pairs) == Utf8(STATIC_SEED) {
      Utf8Injective(Frame(Sort<Pair>(ByField, pairs)), STATIC_SEED);
    }
  }

  // ----- equal fields: only the values vary -----

  predicate SameFields(a: seq<Pair>, b: seq<Pair>) {
    |a| == |b| && forall i :: 0 <= i < |a| ==> a[i].0 == b[i].0
  }

  /** Every value but the last is free of newlines. */
  predicate LinesEnd(a: seq<Pair>) {
    forall i :: 0 <= i < |a| - 1 ==> '\n' !in a[i].1
  }

  lemma CancelLine(v: string, w: string, x: string, y: string)
    requires '\n' !in v && '\n' !in w && v + "\n" + x == w + "\n" + y
    ensures v == w && x == y
  {
    var s, t := v + "\n" + x, w + "\n" + y;
    UntilIs(s, IsNewline, |v|);
    UntilIs(t, IsNewline, |w|);
    assert v == s[..|v|] && w == t[..|w|];
    assert x == s[|v| + 1..] && y == t[|w| + 1..];
  }

  lemma {:induction false} FrameFixedFields(a: seq<Pair>, b: seq<Pair>)
    requires SameFields(a, b) && LinesEnd(a) && LinesEnd(b) && Frame(a) == Frame(b)
    ensures a == b
  {
    if a != [] {
      var head := a[0].0 + "=";
      var x, y := Frame(a[1..]), Frame(b[1..]);
      assert Frame(a) == head + (a[0].1 + "\n" + x);
      assert Frame(b) == head + (b[0].1 + "\n" + y);
      assert Frame(a)[|head|..] == a[0].1 + "\n" + x;
      assert Frame(b)[|head|..] == b[0].1 + "\n" + y;
      if |a| == 1 {
        assert x == "" && y == "";
        assert a[0].1 == (a[0].1 + "\n" + x)[..|Frame(a)| - |head| - 1];
        assert b[0].1 == (b[0].1 + "\n" + y)[..|Frame(a)| - |head| - 1];
      } else {
        CancelLine(a[0].1, b[0].1, x, y);
        FrameFixedFields(a[1..], b[1..]);
      }
      assert a == [a[0]] + a[1..] && b == [b[0]] + b[1..];
    }
  }

  lemma {:induction false} InsertSameFields(p: Pair, q: Pair, a: seq<Pair>, b: seq<Pair>)
    requires p.0 == q.0 && SameFields(a, b)
    ensures SameFields(Insert<Pair>(ByField, p, a), Insert<Pair>(ByField, q, b))
    ensures Insert<Pair>(ByField, p, a) == Insert<Pair>(ByField, q, b) ==> p == q && a == b
  {
    if a == [] || ByField(p, a[0]) {
      assert Insert<Pair>(ByField, p, a) == [p] + a && Insert<Pair>(ByField, q, b) == [q] + b;
      assert ([p] + a)[1..] == a && ([q] + b)[1..] == b;
    } else {
      InsertSameFields(p, q, a[1..], b[1..]);
      var x, y := Insert<Pair>(ByField, p, a[1..]), Insert<Pair>(ByField, q, b[1..]);
      assert ([a[0]] + x)[1..] == x && ([b[0]] + y)[1..] == y;
      assert a == [a[0]] + a[1..] && b == [b[0]] + b[1..];
    }
  }

  /** For lists over the same fields, the sort is one fixed rearrangement and can be undone. */
  lemma {:induction false} SortSameFields(a: seq<Pair>, b: seq<Pair>)
    requires SameFields(a, b)
    ensures SameFields(Sort<Pair>(ByField, a), Sort<Pair>(ByField, b))
    ensures Sort<Pair>(ByField, a) == Sort<Pair>(ByField, b) ==> a == b
  {
    if a != [] {
      SortSameFields(a[1..], b[1..]);
      InsertSameFields(a[0], b[0], Sort<Pair>(ByField, a[1..]), Sort<Pair>(ByField, b[1..]));
      assert a == [a[0]] + a[1..] && b == [b[0]] + b[1..];
    }
  }

  /** A pair whose field comes after every other is sorted last. */
  lemma {:induction false} InsertLast(p: Pair, s: seq<Pair>)
    requires forall x :: x in s ==> !ByField(p, x)
    ensures Insert<Pair>(ByField, p, s) == s + [p]
  {
    if s != [] {
      InsertLast(p, s[1..]);
      assert s == [s[0]] + s[1..];
    }
  }
}
