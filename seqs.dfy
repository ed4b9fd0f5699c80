/** Sequence helpers shared by the enumeration model. */
module Seqs {

  /** Sum of a sequence of integers. */
  function Sum(s: seq<int>): int
  {
    if s == [] then 0 else s[0] + Sum(s[1..])
  }

  /** Every sequence of `ss`, each preceded by `prefix`. */
  function Extend<T>(prefix: seq<T>, ss: seq<seq<T>>): seq<seq<T>>
  {
    seq(|ss|, i requires 0 <= i < |ss| => prefix + ss[i])
  }

  /** No element occurs twice. */
  predicate NoDup<T(==)>(s: seq<T>)
  {
    forall i, j :: 0 <= i < j < |s| ==> s[i] != s[j]
  }

  /** Strictly ascending. */
  predicate Ascending(s: seq<int>)
  {
    forall i, j :: 0 <= i < j < |s| ==> s[i] < s[j]
  }

  lemma ExtendAppend<T>(prefix: seq<T>, a: seq<seq<T>>, b: seq<seq<T>>)
    ensures Extend(prefix, a + b) == Extend(prefix, a) + Extend(prefix, b)
  {
  }

  lemma ExtendExtend<T>(p: seq<T>, q: seq<T>, ss: seq<seq<T>>)
    ensures Extend(p, Extend(q, ss)) == Extend(p + q, ss)
  {
    forall i | 0 <= i < |ss| ensures Extend(p, Extend(q, ss))[i] == Extend(p + q, ss)[i] {
      assert p + (q + ss[i]) == (p + q) + ss[i];
    }
  }

  lemma ExtendEmpty<T>(ss: seq<seq<T>>)
    ensures Extend([], ss) == ss
  {
    forall i | 0 <= i < |ss| ensures Extend([], ss)[i] == ss[i] {
      assert [] + ss[i] == ss[i];
    }
  }

  /** Extending the single empty sequence gives the prefix alone. */
  lemma ExtendSingleton<T>(prefix: seq<T>)
    ensures Extend(prefix, [[]]) == [prefix]
  {
    assert prefix + [] == prefix;
  }

  lemma SumNonNegative(s: seq<int>)
    requires forall i :: 0 <= i < |s| ==> s[i] >= 0
    ensures Sum(s) >= 0
  {
    if s != [] {
      SumNonNegative(s[1..]);
    }
  }

  lemma NoDupAppend<T>(a: seq<T>, b: seq<T>)
    requires NoDup(a) && NoDup(b)
    requires forall i, j :: 0 <= i < |a| && 0 <= j < |b| ==> a[i] != b[j]
    ensures NoDup(a + b)
  {
  }

  /** Prefixing one element keeps the sequences pairwise distinct. */
  lemma ExtendNoDup<T>(c: T, ss: seq<seq<T>>)
    requires NoDup(ss)
    ensures NoDup(Extend([c], ss))
  {
    forall i, j | 0 <= i < j < |ss| ensures Extend([c], ss)[i] != Extend([c], ss)[j] {
      assert Extend([c], ss)[i][1..] == ss[i];
      assert Extend([c], ss)[j][1..] == ss[j];
    }
  }
}
