/**
 * First-encounter numbering, shared by the vertex renumbering and the road-information index
 * tables of both writers: every distinct element gets the position of its first occurrence
 * among the distinct elements.
 */
module Sequences {

  predicate Distinct<T(==)>(s: seq<T>) {
    forall i, j :: 0 <= i < j < |s| ==> s[i] != s[j]
  }

  /** The elements of `s`, each once, in the order in which they first occur. */
  function Dedup<T(==)>(s: seq<T>): (r: seq<T>)
    ensures forall i :: 0 <= i < |r| ==> r[i] in s
    ensures forall i :: 0 <= i < |s| ==> s[i] in r
    ensures Distinct(r)
    ensures |r| <= |s|
    decreases |s|
  {
    if s == [] then []
    else
      var p := Dedup(s[..|s| - 1]);
      var x := s[|s| - 1];
      if x in p then p else p + [x]
  }

  /** The position of the first occurrence of `x` in `s`. */
  function IndexOf<T(==)>(s: seq<T>, x: T): (i: nat)
    requires x in s
    ensures i < |s| && s[i] == x && x !in s[..i]
  {
    if s[0] == x then 0
    else
      assert x in s[1..];
      var j := IndexOf(s[1..], x);
      assert s[..j + 1] == [s[0]] + s[1..][..j];
      j + 1
  }

  /** In a sequence without repetitions, the index of an element is its position. */
  lemma IndexOfDistinct<T>(s: seq<T>, i: nat)
    requires Distinct(s) && i < |s|
    ensures IndexOf(s, s[i]) == i
  {

  }

  /** Extending `s` only ever appends to its deduplication: earlier numbers never change. */
  lemma {:induction false} DedupPrefix<T>(s: seq<T>, t: seq<T>)
    ensures Dedup(s) <= Dedup(s + t)
    decreases |t|
  {
    if t != [] {
      var u := s + t[..|t| - 1];
      assert (s + t)[..|s + t| - 1] == u;
      DedupPrefix(s, t[..|t| - 1]);
    } else {
      assert s + t == s;
    }
  }

  /** Dedup of one more element: the element is appended when it is new and ignored otherwise. */
  lemma DedupSnoc<T>(s: seq<T>, x: T)
    ensures Dedup(s + [x]) == if x in s then Dedup(s) else Dedup(s) + [x]
  {
    assert (s + [x])[..|s|] == s;
  }

  /** Dedup of a prefix one element longer: the element is appended when new and ignored otherwise. */
  lemma DedupSliceStep<T>(e: seq<T>, s: nat)
    requires s < |e|
    ensures Dedup(e[..s + 1]) == if e[s] in e[..s] then Dedup(e[..s]) else Dedup(e[..s]) + [e[s]]
  {
    assert e[..s + 1] == e[..s] + [e[s]];
    DedupSnoc(e[..s], e[s]);
  }

  /** Every element of `s` survives deduplication. */
  lemma InDedup<T>(s: seq<T>, x: T)
    requires x in s
    ensures x in Dedup(s)
  {
    var j :| 0 <= j < |s| && s[j] == x;
  }

  /** A value listed twice is kept once. */
  lemma DedupPair<T>(x: T)
    ensures Dedup([x, x]) == [x]
  {
    DedupSnoc([], x);
    assert [x, x] == [x] + [x] && [x] == [] + [x];
    DedupSnoc([x], x);
  }

  /** Deduplication adds no element. */
  lemma NotInDedup<T>(s: seq<T>, x: T)
    requires x !in s
    ensures x !in Dedup(s)
  {
  }

  /** Dedup lists the distinct elements in the order of their first occurrences in `s`. */
  lemma {:induction false} DedupFirstEncounter<T>(s: seq<T>, i: nat, j: nat)
    requires i < j < |Dedup(s)|
    ensures Dedup(s)[i] in s && Dedup(s)[j] in s
    ensures IndexOf(s, Dedup(s)[i]) < IndexOf(s, Dedup(s)[j])
    decreases |s|
  {
    var d := Dedup(s);
    var init := s[..|s| - 1];
    var x := s[|s| - 1];
    var p := Dedup(init);
    assert s == init + [x];
    DedupSnoc(init, x);
    if j < |p| {
      DedupFirstEncounter(init, i, j);
      FirstIndexInPrefix(init, x, p[i]);
      FirstIndexInPrefix(init, x, p[j]);
    } else {
      // d[j] is the new last element x, whose first occurrence is the last position.
      assert d[j] == x && x !in init;
      FirstIndexInPrefix(init, x, p[i]);
      assert s[..|init|] == init;
      IndexOfUnique(s, x, |init|);
    }
  }

  /** The first occurrence of an element already in `s` does not move when `s` grows. */
  lemma FirstIndexInPrefix<T>(s: seq<T>, x: T, y: T)
    requires y in s
    ensures y in s + [x] && IndexOf(s + [x], y) == IndexOf(s, y)
  {
    var k := IndexOf(s, y);
    assert (s + [x])[k] == y && (s + [x])[..k] == s[..k];
    IndexOfUnique(s + [x], y, k);
  }

  /** An element of a prefix has its first occurrence within that prefix. */
  lemma IndexOfPrefix<T>(p: seq<T>, s: seq<T>, x: T)
    requires p <= s && x in p
    ensures x in s && IndexOf(s, x) == IndexOf(p, x)
  {
    var k := IndexOf(p, x);
    assert s[..k] == p[..k];
    IndexOfUnique(s, x, k);
  }

  /** The first occurrence is the only position holding `x` with no `x` before it. */
  lemma IndexOfUnique<T>(s: seq<T>, x: T, k: nat)
    requires k < |s| && s[k] == x && x !in s[..k]
    ensures IndexOf(s, x) == k
  {
  }

  /** The position of `x` in the deduplication: its first-encounter number. */
  function Number<T(==)>(s: seq<T>, x: T): (n: nat)
    requires x in s
    ensures n < |Dedup(s)| && Dedup(s)[n] == x
  {
    IndexOf(Dedup(s), x)
  }

  /**
   * The element at position p is numbered within the distinct elements met up to it: a new one
   * gets the next number, one met before a smaller number.
   */
  lemma NumberFirstEncounter<T>(s: seq<T>, p: nat)
    requires p < |s|
    ensures Number(s, s[p]) <= |Dedup(s[..p])|
    ensures s[p] !in s[..p] <==> Number(s, s[p]) == |Dedup(s[..p])|
  {
    var x := s[p];
    var q := Dedup(s[..p + 1]);
    assert s == s[..p + 1] + s[p + 1..];
    DedupPrefix(s[..p + 1], s[p + 1..]);
    assert x in s[..p + 1];
    InDedup(s[..p + 1], x);
    IndexOfPrefix(q, Dedup(s), x);
    DedupSliceStep(s, p);
    if x !in s[..p] {
      var d := Dedup(s[..p]);
      assert q == d + [x] && q[|d|] == x;
      assert x !in d;
      assert q[..|d|] == d;
      IndexOfUnique(q, x, |d|);
    }
  }

  /**
   * The map a HashMap ends up holding when each element of `s`, in order, is put with the map's
   * current size unless it is already a key.
   */
  function FirstEncounterIndex<T(==)>(s: seq<T>): (m: map<T, nat>)
    decreases |s|
  {
    if s == [] then map[]
    else
      var m := FirstEncounterIndex(s[..|s| - 1]);
      var x := s[|s| - 1];
      if x in m then m else m[x := |m|]
  }

  /**
   * The keys are the elements of `s`, as many as there are distinct ones, and each maps to its
   * first-encounter number: its position in the deduplication.
   */
  lemma FirstEncounterIndexNumbers<T>(s: seq<T>)
    ensures forall x :: x in FirstEncounterIndex(s) <==> x in s
    ensures |FirstEncounterIndex(s)| == |Dedup(s)|
    ensures forall x :: x in FirstEncounterIndex(s) ==> FirstEncounterIndex(s)[x] == Number(s, x)
  {
    forall x
      ensures x in FirstEncounterIndex(s) <==> x in s
      ensures x in s ==> FirstEncounterIndex(s)[x] == Number(s, x)
    {
      IndexAt(s, x);
    }
    IndexCount(s);
  }

  lemma {:induction false} IndexAt<T>(s: seq<T>, y: T)
    ensures y in FirstEncounterIndex(s) <==> y in s
    ensures y in s ==> FirstEncounterIndex(s)[y] == Number(s, y)
    decreases |s|, 1
  {
    if s != [] {
      var p, x := s[..|s| - 1], s[|s| - 1];
      assert s == p + [x];
      IndexAt(p, y);
      DedupSnoc(p, x);
      var d := Dedup(p);
      if y in p {
        InDedup(p, y);
        IndexOfPrefix(d, Dedup(s), y);
      } else if y == x {
        IndexCount(p);
        NotInDedup(p, x);
        assert Dedup(s) == d + [x] && (d + [x])[..|d|] == d;
        IndexOfUnique(d + [x], x, |d|);
      }
    }
  }

  lemma {:induction false} IndexCount<T>(s: seq<T>)
    ensures |FirstEncounterIndex(s)| == |Dedup(s)|
    decreases |s|, 0
  {
    if s != [] {
      var p, x := s[..|s| - 1], s[|s| - 1];
      assert s == p + [x];
      IndexCount(p);
      IndexAt(p, x);
      DedupSnoc(p, x);
    }
  }

  /** One more element: a new one is put with the next number, a known one changes nothing. */
  lemma FirstEncounterIndexSnoc<T>(s: seq<T>, x: T)
    ensures FirstEncounterIndex(s + [x])
         == if x in FirstEncounterIndex(s) then FirstEncounterIndex(s)
            else FirstEncounterIndex(s)[x := |FirstEncounterIndex(s)|]
  {
    assert (s + [x])[..|s|] == s;
  }

  /** The numbers are dense: position i of the deduplication is the key numbered i. */
  lemma FirstEncounterIndexDense<T>(s: seq<T>, i: nat)
    requires i < |Dedup(s)|
    ensures Dedup(s)[i] in FirstEncounterIndex(s) && FirstEncounterIndex(s)[Dedup(s)[i]] == i
  {
    FirstEncounterIndexNumbers(s);
    IndexOfDistinct(Dedup(s), i);
  }

  /** A slice lying inside the left operand of a concatenation. */
  lemma SliceLeft<T>(x: seq<T>, y: seq<T>, i: nat, j: nat)
    requires i <= j <= |x|
    ensures (x + y)[i..j] == x[i..j]
  {
    assert forall k :: 0 <= k < j - i ==> (x + y)[i..j][k] == x[i..j][k];
  }

  /** A slice lying inside the right operand of a concatenation. */
  lemma SliceRight<T>(x: seq<T>, y: seq<T>, i: nat, j: nat)
    requires |x| <= i <= j <= |x| + |y|
    ensures (x + y)[i..j] == y[i - |x|..j - |x|]
  {
    assert forall k :: 0 <= k < j - i ==> (x + y)[i..j][k] == y[i - |x|..j - |x|][k];
  }

  /** Concatenation is associative. */
  lemma AppendAssoc<T>(a: seq<T>, b: seq<T>, c: seq<T>)
    ensures (a + b) + c == a + (b + c)
  {
  }

  /** Dropping the last element of a concatenation with a non-empty right operand. */
  lemma InitOfAppend<T>(a: seq<T>, b: seq<T>)
    requires b != []
    ensures (a + b)[..|a + b| - 1] == a + b[..|b| - 1]
    ensures (a + b)[|a + b| - 1] == b[|b| - 1]
  {
  }

  /** Every element of `s` has a number. */
  lemma ElementNumbered<T>(s: seq<T>, i: nat)
    requires i < |s|
    ensures s[i] in FirstEncounterIndex(s)
  {
    FirstEncounterIndexNumbers(s);
  }
}
