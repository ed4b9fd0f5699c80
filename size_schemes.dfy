/**
 * `getAllSizeScheme` / `_getAllSizeScheme`: the backtracking search that lists every
 * way to split a size budget across the parameters of a rule, where parameter `i`
 * may only take a size from its pool `pool[i]`.
 */
module SizeSchemes {
  import opened Seqs

  /** The schemes the search appends, in order, when `pools` are the pools of the
      parameters still to be sized and `rem` is the budget still to distribute. */
  function Schemes(pools: seq<seq<int>>, rem: int): seq<seq<int>>
    decreases |pools|, 1, 0
  {
    if pools == [] then (if rem == 0 then [[]] else [])
    else Choices(pools, rem, |pools[0]|)
  }

  /** The schemes whose first entry is one of the first `n` candidates of `pools[0]`,
      in the order of those candidates. */
  function Choices(pools: seq<seq<int>>, rem: int, n: nat): seq<seq<int>>
    requires pools != [] && n <= |pools[0]|
    decreases |pools|, 0, n
  {
    if n == 0 then []
    else Choices(pools, rem, n - 1) + Branch(pools, rem, pools[0][n - 1])
  }

  /** The schemes that start with candidate `c` for the first parameter: none when `c`
      exceeds the remaining budget. */
  function Branch(pools: seq<seq<int>>, rem: int, c: int): seq<seq<int>>
    requires pools != []
    decreases |pools|, 0, 0
  {
    if c > rem then [] else Extend([c], Schemes(pools[1..], rem - c))
  }

  /** `s` splits `rem` across the parameters: one entry per pool, each from its pool,
      summing to `rem`. */
  predicate IsScheme(pools: seq<seq<int>>, rem: int, s: seq<int>)
  {
    |s| == |pools| && Sum(s) == rem && forall i :: 0 <= i < |s| ==> s[i] in pools[i]
  }

  /** Lexicographic order on integer sequences. */
  predicate LexLess(a: seq<int>, b: seq<int>)
  {
    a != [] && b != [] && (a[0] < b[0] || (a[0] == b[0] && LexLess(a[1..], b[1..])))
  }

  predicate LexSorted(ss: seq<seq<int>>)
  {
    forall i, j :: 0 <= i < j < |ss| ==> LexLess(ss[i], ss[j])
  }

  /** The two vectors `_getAllSizeScheme` takes by reference: the partial scheme `tmp`
      and the result list `res`. */
  class SchemeSearch {
    var tmp: seq<int>
    var res: seq<seq<int>>

    constructor ()
      ensures tmp == [] && res == []
    {
      tmp := [];
      res := [];
    }

    /** `_getAllSizeScheme(pos, rem, pool, tmp, res)`: appends to `res`, in order, `tmp`
        extended by every scheme for the parameters from `pos` on, and leaves `tmp` as it
        found it. */
    method Search(pos: nat, rem: int, pool: seq<seq<int>>)
      requires pos <= |pool|
      modifies this
      ensures tmp == old(tmp)
      ensures res == old(res) + Extend(old(tmp), Schemes(pool[pos..], rem))
      decreases |pool| - pos
    {
      ghost var pools := pool[pos..];
      ghost var prefix := tmp;
      if pos == |pool| {
        assert pools == [];
        if rem == 0 {
          assert Schemes(pools, rem) == [[]];
          ExtendSingleton(prefix);
          res := res + [tmp];
        }
        return;
      }
      assert pools[0] == pool[pos] && pools[1..] == pool[pos + 1..];
      for j := 0 to |pool[pos]|
        invariant tmp == prefix
        invariant res == old(res) + Extend(prefix, Choices(pools, rem, j))
      {
        var size := pool[pos][j];
        ChoicesStep(prefix, pools, rem, j);
        if size <= rem {
          ghost var done := Extend(prefix, Choices(pools, rem, j));
          tmp := tmp + [size];
          Search(pos + 1, rem - size, pool);
          ghost var more := Extend(prefix + [size], Schemes(pool[pos + 1..], rem - size));
          assert res == (old(res) + done) + more == old(res) + (done + more);
          tmp := tmp[..|tmp| - 1];
          assert tmp == prefix;
        }
      }
      assert Schemes(pools, rem) == Choices(pools, rem, |pools[0]|);
    }
  }

  /** One more candidate for the first parameter appends its branch, prefixed. */
  lemma ChoicesStep(prefix: seq<int>, pools: seq<seq<int>>, rem: int, j: nat)
    requires pools != [] && j < |pools[0]|
    ensures Extend(prefix, Choices(pools, rem, j + 1)) ==
      Extend(prefix, Choices(pools, rem, j)) +
      (if pools[0][j] > rem then [] else Extend(prefix + [pools[0][j]], Schemes(pools[1..], rem - pools[0][j])))
  {
    var c := pools[0][j];
    ExtendAppend(prefix, Choices(pools, rem, j), Branch(pools, rem, c));
    if c <= rem {
      ExtendExtend(prefix, [c], Schemes(pools[1..], rem - c));
    }
  }

  /** `getAllSizeScheme(size, pool)`: all schemes splitting `size` across `pool`, in search order. */
  method GetAllSizeScheme(size: int, pool: seq<seq<int>>) returns (res: seq<seq<int>>)
    ensures res == Schemes(pool, size)
  {
    var search := new SchemeSearch();
    search.Search(0, size, pool);
    res := search.res;
    assert pool[0..] == pool;
    ExtendEmpty(Schemes(pool, size));
  }

  /** What a scheme produced from the first `n` candidates looks like. */
  lemma {:induction false} ChoicesSound(pools: seq<seq<int>>, rem: int, n: nat, s: seq<int>)
    requires pools != [] && n <= |pools[0]|
    requires s in Choices(pools, rem, n)
    ensures s != [] && s[0] in pools[0][..n] && s[0] <= rem
    ensures s[1..] in Schemes(pools[1..], rem - s[0])
  {
    var c := pools[0][n - 1];
    if s in Choices(pools, rem, n - 1) {
      ChoicesSound(pools, rem, n - 1, s);
      assert pools[0][..n - 1] <= pools[0][..n];
    } else {
      assert s in Branch(pools, rem, c);
      var t :| t in Schemes(pools[1..], rem - c) && s == [c] + t;
      assert s[1..] == t;
      assert pools[0][..n][n - 1] == c;
    }
  }

  /** Every scheme has exactly one entry per parameter, entry `i` is drawn from `pools[i]`,
      and the entries sum to exactly the budget. */
  lemma {:induction false} SchemesSound(pools: seq<seq<int>>, rem: int, s: seq<int>)
    requires s in Schemes(pools, rem)
    ensures IsScheme(pools, rem, s)
    decreases |pools|
  {
    if pools != [] {
      ChoicesSound(pools, rem, |pools[0]|, s);
      assert pools[0][..|pools[0]|] == pools[0];
      SchemesSound(pools[1..], rem - s[0], s[1..]);
      assert s == [s[0]] + s[1..];
      assert forall i :: 1 <= i < |s| ==> s[i] == s[1..][i - 1];
    }
  }

  /** A scheme whose first entry is the `k`-th candidate is produced once `k` is among the
      candidates tried. */
  lemma {:induction false} ChoicesComplete(pools: seq<seq<int>>, rem: int, n: nat, k: nat, t: seq<int>)
    requires pools != [] && k < n <= |pools[0]|
    requires pools[0][k] <= rem && t in Schemes(pools[1..], rem - pools[0][k])
    ensures [pools[0][k]] + t in Choices(pools, rem, n)
  {
    if k < n - 1 {
      ChoicesComplete(pools, rem, n - 1, k, t);
    } else {
      var i :| 0 <= i < |Schemes(pools[1..], rem - pools[0][k])| && Schemes(pools[1..], rem - pools[0][k])[i] == t;
      assert Branch(pools, rem, pools[0][k])[i] == [pools[0][k]] + t;
    }
  }

  /** With non-negative pool entries (the search only prunes candidates above the remaining
      budget) every split of the budget is produced. */
  lemma {:induction false} SchemesComplete(pools: seq<seq<int>>, rem: int, s: seq<int>)
    requires forall i, j :: 0 <= i < |pools| && 0 <= j < |pools[i]| ==> pools[i][j] >= 0
    requires IsScheme(pools, rem, s)
    ensures s in Schemes(pools, rem)
    decreases |pools|
  {
    if pools != [] {
      var k :| 0 <= k < |pools[0]| && pools[0][k] == s[0];
      assert forall i :: 0 <= i < |s[1..]| ==> s[1..][i] == s[i + 1] && s[i + 1] in pools[i + 1];
      SumNonNegative(s[1..]);
      SchemesComplete(pools[1..], rem - s[0], s[1..]);
      ChoicesComplete(pools, rem, |pools[0]|, k, s[1..]);
      assert s == [s[0]] + s[1..];
    } else {
      assert s == [];
    }
  }

  lemma {:induction false} ChoicesNoDup(pools: seq<seq<int>>, rem: int, n: nat)
    requires pools != [] && n <= |pools[0]|
    requires forall i :: 0 <= i < |pools| ==> NoDup(pools[i])
    ensures NoDup(Choices(pools, rem, n))
    decreases |pools|, 0, n
  {
    if n > 0 {
      var c := pools[0][n - 1];
      ChoicesNoDup(pools, rem, n - 1);
      if c <= rem {
        SchemesNoDup(pools[1..], rem - c);
        ExtendNoDup(c, Schemes(pools[1..], rem - c));
      }
      var a, b := Choices(pools, rem, n - 1), Branch(pools, rem, c);
      forall i, j | 0 <= i < |a| && 0 <= j < |b| ensures a[i] != b[j] {
        ChoicesSound(pools, rem, n - 1, a[i]);
        assert b[j][0] == c;
      }
      NoDupAppend(a, b);
    }
  }

  /** When no pool lists a size twice, no scheme is produced twice. */
  lemma {:induction false} SchemesNoDup(pools: seq<seq<int>>, rem: int)
    requires forall i :: 0 <= i < |pools| ==> NoDup(pools[i])
    ensures NoDup(Schemes(pools, rem))
    decreases |pools|, 1, 0
  {
    if pools != [] {
      ChoicesNoDup(pools, rem, |pools[0]|);
    }
  }

  lemma ExtendLexSorted(c: int, ss: seq<seq<int>>)
    requires LexSorted(ss)
    ensures LexSorted(Extend([c], ss))
  {
    forall i, j | 0 <= i < j < |ss| ensures LexLess(Extend([c], ss)[i], Extend([c], ss)[j]) {
      assert Extend([c], ss)[i][1..] == ss[i];
      assert Extend([c], ss)[j][1..] == ss[j];
    }
  }

  lemma {:induction false} ChoicesLexSorted(pools: seq<seq<int>>, rem: int, n: nat)
    requires pools != [] && n <= |pools[0]|
    requires forall i :: 0 <= i < |pools| ==> Ascending(pools[i])
    ensures LexSorted(Choices(pools, rem, n))
    decreases |pools|, 0, n
  {
    if n > 0 {
      var c := pools[0][n - 1];
      ChoicesLexSorted(pools, rem, n - 1);
      if c <= rem {
        SchemesLexSorted(pools[1..], rem - c);
        ExtendLexSorted(c, Schemes(pools[1..], rem - c));
      }
      var a, b := Choices(pools, rem, n - 1), Branch(pools, rem, c);
      forall i, j | 0 <= i < |a| && 0 <= j < |b| ensures LexLess(a[i], b[j]) {
        ChoicesSound(pools, rem, n - 1, a[i]);
        assert b[j][0] == c;
      }
      assert LexSorted(a + b) by {
        forall i, j | 0 <= i < j < |a + b| ensures LexLess((a + b)[i], (a + b)[j]) {
          if j < |a| {
          } else if i >= |a| {
            assert (a + b)[i] == b[i - |a|] && (a + b)[j] == b[j - |a|];
          } else {
            assert (a + b)[i] == a[i] && (a + b)[j] == b[j - |a|];
          }
        }
      }
    }
  }

  /** When every pool is strictly ascending (as the pools built from the storage are),
      the schemes come out in strictly increasing lexicographic order, that is in the
      order of the chosen positions within the pools. */
  lemma {:induction false} SchemesLexSorted(pools: seq<seq<int>>, rem: int)
    requires forall i :: 0 <= i < |pools| ==> Ascending(pools[i])
    ensures LexSorted(Schemes(pools, rem))
    decreases |pools|, 1, 0
  {
    if pools != [] {
      ChoicesLexSorted(pools, rem, |pools[0]|);
    }
  }
}
