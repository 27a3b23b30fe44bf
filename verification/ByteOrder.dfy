/** Lexicographic order on byte strings and sorting by it. */
module ByteOrder {
  import opened Base

  predicate LexLe(a: Bytes, b: Bytes) {
    a == [] || (b != [] && (a[0] < b[0] || (a[0] == b[0] && LexLe(a[1..], b[1..]))))
  }

  lemma {:induction false} LexTotal(a: Bytes, b: Bytes)
    ensures LexLe(a, b) || LexLe(b, a)
    ensures LexLe(a, b) && LexLe(b, a) ==> a == b
  {
    if a != [] && b != [] && a[0] == b[0] {
      LexTotal(a[1..], b[1..]);
      assert a == [a[0]] + a[1..] && b == [b[0]] + b[1..];
    }
  }

  lemma {:induction false} LexTransitive(a: Bytes, b: Bytes, c: Bytes)
    requires LexLe(a, b) && LexLe(b, c)
    ensures LexLe(a, c)
  {
    if a != [] && a[0] == b[0] == c[0] {
      LexTransitive(a[1..], b[1..], c[1..]);
    }
  }

  ghost predicate Sorted(s: seq<Bytes>) {
    forall i, j :: 0 <= i < j < |s| ==> LexLe(s[i], s[j])
  }

  function Insert(x: Bytes, s: seq<Bytes>): (r: seq<Bytes>)
    ensures multiset(r) == multiset(s) + multiset{x}
  {
    if s == [] then [x]
    else if LexLe(x, s[0]) then [x] + s
    else
      assert s == [s[0]] + s[1..];
      [s[0]] + Insert(x, s[1..])
  }

  function Sort(s: seq<Bytes>): (r: seq<Bytes>)
    ensures multiset(r) == multiset(s)
  {
    if s == [] then []
    else
      assert s == [s[0]] + s[1..];
      Insert(s[0], Sort(s[1..]))
  }

  lemma {:induction false} InsertSorted(x: Bytes, s: seq<Bytes>)
    requires Sorted(s)
    ensures Sorted(Insert(x, s))
  {
    if s != [] {
      LexTotal(x, s[0]);
      if LexLe(x, s[0]) {
        forall j | 0 <= j < |s| ensures LexLe(x, s[j]) {
          if j > 0 { LexTransitive(x, s[0], s[j]); }
        }
      } else {
        InsertSorted(x, s[1..]);
        var r := Insert(x, s[1..]);
        forall j | 0 <= j < |r| ensures LexLe(s[0], r[j]) {
          assert r[j] in multiset(r);
          assert r[j] == x || r[j] in s[1..];
        }
      }
    }
  }

  lemma {:induction false} SortSorted(s: seq<Bytes>)
    ensures Sorted(Sort(s))
  {
    if s != [] {
      SortSorted(s[1..]);
      InsertSorted(s[0], Sort(s[1..]));
    }
  }

  lemma HeadIsLeast(s: seq<Bytes>, x: Bytes)
    requires Sorted(s) && x in s
    ensures LexLe(s[0], x)
  {
    var j :| 0 <= j < |s| && s[j] == x;
    LexTotal(x, x);
  }

  lemma TailBag(s: seq<Bytes>)
    requires s != []
    ensures multiset(s[1..]) == multiset(s) - multiset{s[0]}
  {
    assert s == [s[0]] + s[1..];
  }

  /** A sorted sequence is determined by its multiset. */
  lemma {:induction false} SortedUnique(s: seq<Bytes>, t: seq<Bytes>)
    requires Sorted(s) && Sorted(t) && multiset(s) == multiset(t)
    ensures s == t
  {
    assert |s| == |multiset(s)| == |t|;
    if s != [] {
      assert s[0] in multiset(t) && t[0] in multiset(s);
      HeadIsLeast(s, t[0]);
      HeadIsLeast(t, s[0]);
      LexTotal(s[0], t[0]);
      TailBag(s);
      TailBag(t);
      SortedUnique(s[1..], t[1..]);
      assert s == [s[0]] + s[1..] && t == [t[0]] + t[1..];
    }
  }

  /** Sorting forgets the order of its input, and nothing else. */
  lemma SortOrderIndependent(s: seq<Bytes>, t: seq<Bytes>)
    ensures Sort(s) == Sort(t) <==> multiset(s) == multiset(t)
  {
    SortSorted(s);
    SortSorted(t);
    if multiset(s) == multiset(t) {
      SortedUnique(Sort(s), Sort(t));
    }
  }
}
