/**
 Stable sorting by a total preorder. `Sort` stands for the library sorts the crate calls
 (`sort`, `sort_by`). The lemmas say it is sorted, stable and the only such list, so nothing
 proved with it depends on how the library sorts.
 */
module Sorting {

  ghost predicate TotalPreorder<T(!new)>(le: (T, T) -> bool) {
    && (forall x, y :: le(x, y) || le(y, x))
    && (forall x, y, z :: le(x, y) && le(y, z) ==> le(x, z))
  }

  ghost predicate Antisymmetric<T(!new)>(le: (T, T) -> bool) {
    forall x, y :: le(x, y) && le(y, x) ==> x == y
  }

  ghost predicate Sorted<T>(le: (T, T) -> bool, s: seq<T>) {
    forall i, j :: 0 <= i < j < |s| ==> le(s[i], s[j])
  }

  ghost predicate StrictlySorted<T>(le: (T, T) -> bool, s: seq<T>) {
    forall i, j :: 0 <= i < j < |s| ==> le(s[i], s[j]) && s[i] != s[j]
  }

  ghost predicate Tied<T>(le: (T, T) -> bool, x: T, y: T) {
    le(x, y) && le(y, x)
  }

  /** The elements of `s` tied with `x`, in the order of `s`. */
  ghost function TiedRun<T>(le: (T, T) -> bool, x: T, s: seq<T>): seq<T> {
    if s == [] then []
    else (if Tied(le, x, s[0]) then [s[0]] else []) + TiedRun(le, x, s[1..])
  }

  function Insert<T>(le: (T, T) -> bool, x: T, s: seq<T>): seq<T> {
    if s == [] || le(x, s[0]) then [x] + s else [s[0]] + Insert(le, x, s[1..])
  }

  function Sort<T>(le: (T, T) -> bool, s: seq<T>): seq<T> {
    if s == [] then [] else Insert(le, s[0], Sort(le, s[1..]))
  }

  lemma {:induction false} InsertElements<T>(le: (T, T) -> bool, x: T, s: seq<T>)
    ensures multiset(Insert(le, x, s)) == multiset([x] + s)
    ensures forall y :: y in Insert(le, x, s) <==> y == x || y in s
  {
    if s == [] || le(x, s[0]) {
    } else {
      InsertElements(le, x, s[1..]);
      assert s == [s[0]] + s[1..];
    }
  }

  lemma {:induction false} InsertSorted<T(!new)>(le: (T, T) -> bool, x: T, s: seq<T>)
    requires TotalPreorder(le) && Sorted(le, s)
    ensures Sorted(le, Insert(le, x, s))
  {
    if s == [] || le(x, s[0]) {
    } else {
      InsertSorted(le, x, s[1..]);
      InsertElements(le, x, s[1..]);
      var r := Insert(le, x, s[1..]);
      forall i | 0 <= i < |r| ensures le(s[0], r[i]) {
        assert r[i] in r;
      }
    }
  }

  lemma {:induction false} InsertStable<T(!new)>(le: (T, T) -> bool, k: T, x: T, s: seq<T>)
    requires TotalPreorder(le)
    ensures TiedRun(le, k, Insert(le, x, s)) == TiedRun(le, k, [x] + s)
  {
    if s == [] || le(x, s[0]) {
    } else {
      InsertStable(le, k, x, s[1..]);
      var r := Insert(le, x, s[1..]);
      assert ([s[0]] + r)[1..] == r;
      assert ([x] + s[1..])[1..] == s[1..];
      assert ([x] + s)[1..] == s;
      assert !(Tied(le, k, x) && Tied(le, k, s[0]));
    }
  }

  /** `Sort` is sorted, keeps the elements, and is stable. */
  lemma {:induction false} SortCorrect<T(!new)>(le: (T, T) -> bool, s: seq<T>)
    requires TotalPreorder(le)
    ensures Sorted(le, Sort(le, s))
    ensures multiset(Sort(le, s)) == multiset(s)
    ensures forall x :: x in Sort(le, s) <==> x in s
    ensures forall k :: TiedRun(le, k, Sort(le, s)) == TiedRun(le, k, s)
  {
    if s != [] {
      var r := Sort(le, s[1..]);
      SortCorrect(le, s[1..]);
      InsertSorted(le, s[0], r);
      InsertElements(le, s[0], r);
      assert s == [s[0]] + s[1..];
      forall k ensures TiedRun(le, k, Sort(le, s)) == TiedRun(le, k, s) {
        InsertStable(le, k, s[0], r);
        assert ([s[0]] + r)[1..] == r;
      }
    }
  }

  lemma {:induction false} TiedRunMember<T>(le: (T, T) -> bool, k: T, s: seq<T>)
    ensures forall x :: x in TiedRun(le, k, s) <==> x in s && Tied(le, k, x)
    ensures TiedRun(le, k, s) == [] <==> forall x :: x in s ==> !Tied(le, k, x)
  {
    if s != [] {
      TiedRunMember(le, k, s[1..]);
      assert s == [s[0]] + s[1..];
    }
  }

  /** Two sorted lists with the same tied runs are the same list. */
  lemma {:induction false} SortedUnique<T(!new)>(le: (T, T) -> bool, a: seq<T>, b: seq<T>)
    requires TotalPreorder(le) && Sorted(le, a) && Sorted(le, b)
    requires forall k :: TiedRun(le, k, a) == TiedRun(le, k, b)
    ensures a == b
  {
    forall k ensures k in a <==> k in b {
      TiedRunMember(le, k, a);
      TiedRunMember(le, k, b);
      assert TiedRun(le, k, a) == TiedRun(le, k, b);
    }
    assert a != [] ==> a[0] in b;
    assert b != [] ==> b[0] in a;
    if a != [] && b != [] {
      var x, y := a[0], b[0];
      TiedRunMember(le, x, a); TiedRunMember(le, x, b);
      TiedRunMember(le, y, a); TiedRunMember(le, y, b);
      assert x in TiedRun(le, x, a) && y in TiedRun(le, y, b);
      assert x in b && y in a;
      assert le(y, x) && le(x, y);
      assert TiedRun(le, x, a)[0] == x && TiedRun(le, x, b)[0] == y;
      forall k ensures TiedRun(le, k, a[1..]) == TiedRun(le, k, b[1..]) {
        assert TiedRun(le, k, a) == TiedRun(le, k, b);
        var p := if Tied(le, k, x) then [x] else [];
        assert TiedRun(le, k, a) == p + TiedRun(le, k, a[1..]);
        assert TiedRun(le, k, b) == p + TiedRun(le, k, b[1..]);
        assert (p + TiedRun(le, k, a[1..]))[|p|..] == TiedRun(le, k, a[1..]);
        assert (p + TiedRun(le, k, b[1..]))[|p|..] == TiedRun(le, k, b[1..]);
      }
      SortedUnique(le, a[1..], b[1..]);
      assert a == [x] + a[1..] && b == [y] + b[1..];
    }
  }

  ghost predicate NoTies<T>(le: (T, T) -> bool, s: seq<T>) {
    forall i, j :: 0 <= i < j < |s| ==> !Tied(le, s[i], s[j])
  }

  lemma {:induction false} SingleRun<T>(le: (T, T) -> bool, k: T, y: T, s: seq<T>)
    requires NoTies(le, s) && y in s && Tied(le, k, y)
    requires forall u, v :: u in s && v in s && Tied(le, k, u) && Tied(le, k, v) ==> Tied(le, u, v)
    ensures TiedRun(le, k, s) == [y]
  {
    assert s == [s[0]] + s[1..];
    if s[0] == y {
      TiedRunMember(le, k, s[1..]);
      forall z | z in s[1..] ensures !Tied(le, k, z) {
        var j :| 0 <= j < |s[1..]| && s[1..][j] == z;
        assert s[j + 1] == z;
      }
    } else {
      assert y in s[1..];
      var j :| 0 <= j < |s[1..]| && s[1..][j] == y;
      assert s[j + 1] == y;
      SingleRun(le, k, y, s[1..]);
    }
  }

  /** Without ties a sort depends only on the elements, not on the order they come in. */
  lemma SortOrderIndependent<T(!new)>(le: (T, T) -> bool, a: seq<T>, b: seq<T>)
    requires TotalPreorder(le) && NoTies(le, a) && NoTies(le, b)
    requires forall x :: x in a <==> x in b
    ensures Sort(le, a) == Sort(le, b)
    ensures forall k :: TiedRun(le, k, a) == TiedRun(le, k, b)
  {
    forall k ensures TiedRun(le, k, a) == TiedRun(le, k, b) {
      TiedRunMember(le, k, a); TiedRunMember(le, k, b);
      if y :| y in a && Tied(le, k, y) {
        SingleRun(le, k, y, a);
        SingleRun(le, k, y, b);
      }
    }
    SortCorrect(le, a);
    SortCorrect(le, b);
    SortedUnique(le, Sort(le, a), Sort(le, b));
  }

  /** `Vec::dedup`: keeps the first of every block of equal neighbours. */
  function Dedup<T(==)>(s: seq<T>): seq<T> {
    if |s| < 2 then s
    else if s[0] == s[1] then Dedup(s[1..])
    else [s[0]] + Dedup(s[1..])
  }

  /** After a sort, `Dedup` leaves the strictly increasing listing of the elements. */
  lemma {:induction false} DedupCorrect<T(!new)>(le: (T, T) -> bool, s: seq<T>)
    requires TotalPreorder(le) && Antisymmetric(le) && Sorted(le, s)
    ensures StrictlySorted(le, Dedup(s))
    ensures forall x :: x in Dedup(s) <==> x in s
    ensures s != [] ==> Dedup(s) != [] && Dedup(s)[0] == s[0]
  {
    if |s| >= 2 {
      assert s == [s[0]] + s[1..];
      DedupCorrect(le, s[1..]);
      if s[0] != s[1] {
        var r := Dedup(s[1..]);
        forall i | 0 <= i < |r| ensures le(s[0], r[i]) && s[0] != r[i] {
          assert r[i] in s[1..];
          var j :| 0 <= j < |s[1..]| && s[1..][j] == r[i];
          assert s[j + 1] == r[i];
          assert le(s[1], r[i]);
        }
      }
    }
  }

  /** A set has one strictly increasing listing. */
  lemma StrictListingUnique<T(!new)>(le: (T, T) -> bool, a: seq<T>, b: seq<T>)
    requires TotalPreorder(le) && Antisymmetric(le)
    requires StrictlySorted(le, a) && StrictlySorted(le, b)
    requires forall x :: x in a <==> x in b
    ensures a == b
  {
    SortOrderIndependent(le, a, b);
    SortedUnique(le, a, b);
  }
}
