/**
 * `buildAllCombination`: the backtracking cartesian product that builds one program
 * per choice of sub-programs, one sub-program from each parameter's list.
 */
module Combinations {
  import opened Seqs
  import opened Grammars

  /** Every choice of one element from each list of `subs`, in the order the search
      makes them: the first position varies slowest. */
  function Product<T>(subs: seq<seq<T>>): seq<seq<T>>
    decreases |subs|, 1, 0
  {
    if subs == [] then [[]] else Picks(subs, |subs[0]|)
  }

  /** The choices whose first element is one of the first `n` elements of `subs[0]`. */
  function Picks<T>(subs: seq<seq<T>>, n: nat): seq<seq<T>>
    requires subs != [] && n <= |subs[0]|
    decreases |subs|, 0, n
  {
    if n == 0 then [] else Picks(subs, n - 1) + Extend([subs[0][n - 1]], Product(subs[1..]))
  }

  /** The product of the lengths of the lists. */
  function Count<T>(subs: seq<seq<T>>): nat
  {
    if subs == [] then 1 else |subs[0]| * Count(subs[1..])
  }

  /** One program built by `rule` per list of sub-programs, in order. */
  function BuildAll(rule: Rule, vs: seq<seq<Program>>): seq<Program>
  {
    seq(|vs|, i requires 0 <= i < |vs| => BuildProgram(rule, vs[i]))
  }

  lemma BuildAllAppend(rule: Rule, a: seq<seq<Program>>, b: seq<seq<Program>>)
    ensures BuildAll(rule, a + b) == BuildAll(rule, a) + BuildAll(rule, b)
  {
  }

  /** The two vectors `buildAllCombination` takes by reference: the sub-programs chosen so
      far, `sub_list`, and the output list `res`. */
  class CombinationBuilder {
    var subList: seq<Program>
    var res: seq<Program>

    constructor ()
      ensures subList == [] && res == []
    {
      subList := [];
      res := [];
    }

    /** `buildAllCombination(pos, sub_programs, rule, sub_list, res)`: appends to `res` one
        program per choice of sub-programs for the positions from `pos` on, each built over
        `subList` followed by that choice, in search order; earlier entries of `res` and
        `subList` itself are left as they were. */
    method Build(pos: nat, subs: seq<seq<Program>>, rule: Rule)
      requires pos <= |subs|
      modifies this
      ensures subList == old(subList)
      ensures res == old(res) + BuildAll(rule, Extend(old(subList), Product(subs[pos..])))
      ensures |res| == |old(res)| + Count(subs[pos..])
      decreases |subs| - pos
    {
      ghost var rest := subs[pos..];
      ghost var prefix := subList;
      ProductLength(rest);
      if pos == |subs| {
        assert rest == [];
        assert Product(rest) == [[]];
        ExtendSingleton(prefix);
        res := res + [BuildProgram(rule, subList)];
        return;
      }
      assert rest[0] == subs[pos] && rest[1..] == subs[pos + 1..];
      for j := 0 to |subs[pos]|
        invariant subList == prefix
        invariant res == old(res) + BuildAll(rule, Extend(prefix, Picks(rest, j)))
      {
        PicksStep(rule, prefix, rest, j);
        ghost var done := BuildAll(rule, Extend(prefix, Picks(rest, j)));
        subList := subList + [subs[pos][j]];
        Build(pos + 1, subs, rule);
        ghost var more := BuildAll(rule, Extend(prefix + [subs[pos][j]], Product(subs[pos + 1..])));
        assert res == (old(res) + done) + more == old(res) + (done + more);
        subList := subList[..|subList| - 1];
        assert subList == prefix;
      }
      assert Product(rest) == Picks(rest, |rest[0]|);
    }
  }

  /** One more element for the first position appends its block of choices, prefixed. */
  lemma PicksStep(rule: Rule, prefix: seq<Program>, subs: seq<seq<Program>>, j: nat)
    requires subs != [] && j < |subs[0]|
    ensures BuildAll(rule, Extend(prefix, Picks(subs, j + 1))) ==
      BuildAll(rule, Extend(prefix, Picks(subs, j))) +
      BuildAll(rule, Extend(prefix + [subs[0][j]], Product(subs[1..])))
  {
    var c := subs[0][j];
    ExtendAppend(prefix, Picks(subs, j), Extend([c], Product(subs[1..])));
    ExtendExtend(prefix, [c], Product(subs[1..]));
    BuildAllAppend(rule, Extend(prefix, Picks(subs, j)), Extend(prefix + [c], Product(subs[1..])));
  }

  lemma {:induction false} PicksLength<T>(subs: seq<seq<T>>, n: nat)
    requires subs != [] && n <= |subs[0]|
    ensures |Picks(subs, n)| == n * Count(subs[1..])
    decreases |subs|, 0, n
  {
    if n > 0 {
      var c := Count(subs[1..]);
      PicksLength(subs, n - 1);
      ProductLength(subs[1..]);
      assert |Picks(subs, n)| == |Picks(subs, n - 1)| + |Product(subs[1..])|;
      assert (n - 1) * c + c == n * c;
    }
  }

  /** The search builds exactly as many programs as the product of the list lengths. */
  lemma {:induction false} ProductLength<T>(subs: seq<seq<T>>)
    ensures |Product(subs)| == Count(subs)
    decreases |subs|, 1, 0
  {
    if subs != [] {
      PicksLength(subs, |subs[0]|);
    }
  }

  lemma {:induction false} PicksSound<T>(subs: seq<seq<T>>, n: nat, v: seq<T>)
    requires subs != [] && n <= |subs[0]|
    requires v in Picks(subs, n)
    ensures v != [] && v[0] in subs[0][..n] && v[1..] in Product(subs[1..])
  {
    var c := subs[0][n - 1];
    if v in Picks(subs, n - 1) {
      PicksSound(subs, n - 1, v);
      assert subs[0][..n - 1] <= subs[0][..n];
    } else {
      var t :| t in Product(subs[1..]) && v == [c] + t;
      assert v[1..] == t;
      assert subs[0][..n][n - 1] == c;
    }
  }

  /** Every choice has one element per list, element `j` taken from `subs[j]`. */
  lemma {:induction false} ProductSound<T>(subs: seq<seq<T>>, v: seq<T>)
    requires v in Product(subs)
    ensures |v| == |subs| && forall j :: 0 <= j < |v| ==> v[j] in subs[j]
    decreases |subs|
  {
    if subs != [] {
      PicksSound(subs, |subs[0]|, v);
      assert subs[0][..|subs[0]|] == subs[0];
      ProductSound(subs[1..], v[1..]);
      assert forall j :: 1 <= j < |v| ==> v[j] == v[1..][j - 1];
    }
  }

  lemma {:induction false} PicksComplete<T>(subs: seq<seq<T>>, n: nat, k: nat, t: seq<T>)
    requires subs != [] && k < n <= |subs[0]|
    requires t in Product(subs[1..])
    ensures [subs[0][k]] + t in Picks(subs, n)
  {
    if k < n - 1 {
      PicksComplete(subs, n - 1, k, t);
    } else {
      var i :| 0 <= i < |Product(subs[1..])| && Product(subs[1..])[i] == t;
      assert Extend([subs[0][k]], Product(subs[1..]))[i] == [subs[0][k]] + t;
    }
  }

  /** Every choice of one element per list is built. */
  lemma {:induction false} ProductComplete<T>(subs: seq<seq<T>>, v: seq<T>)
    requires |v| == |subs| && forall j :: 0 <= j < |v| ==> v[j] in subs[j]
    ensures v in Product(subs)
    decreases |subs|
  {
    if subs != [] {
      var k :| 0 <= k < |subs[0]| && subs[0][k] == v[0];
      assert forall j :: 0 <= j < |v[1..]| ==> v[1..][j] == v[j + 1] && v[j + 1] in subs[j + 1];
      ProductComplete(subs[1..], v[1..]);
      PicksComplete(subs, |subs[0]|, k, v[1..]);
      assert v == [v[0]] + v[1..];
    } else {
      assert v == [];
    }
  }

  lemma {:induction false} PicksNoDup<T>(subs: seq<seq<T>>, n: nat)
    requires subs != [] && n <= |subs[0]|
    requires forall j :: 0 <= j < |subs| ==> NoDup(subs[j])
    ensures NoDup(Picks(subs, n))
    decreases |subs|, 0, n
  {
    if n > 0 {
      var c := subs[0][n - 1];
      PicksNoDup(subs, n - 1);
      assert forall j :: 0 <= j < |subs[1..]| ==> subs[1..][j] == subs[j + 1];
      ProductNoDup(subs[1..]);
      ExtendNoDup(c, Product(subs[1..]));
      var a, b := Picks(subs, n - 1), Extend([c], Product(subs[1..]));
      forall i, j | 0 <= i < |a| && 0 <= j < |b| ensures a[i] != b[j] {
        PicksSound(subs, n - 1, a[i]);
        assert b[j][0] == c;
        assert c !in subs[0][..n - 1];
      }
      NoDupAppend(a, b);
    }
  }

  /** When no list repeats an element, no choice is made twice. */
  lemma {:induction false} ProductNoDup<T>(subs: seq<seq<T>>)
    requires forall j :: 0 <= j < |subs| ==> NoDup(subs[j])
    ensures NoDup(Product(subs))
    decreases |subs|, 1, 0
  {
    if subs != [] {
      PicksNoDup(subs, |subs[0]|);
    }
  }

  /** Distinct lists of sub-programs build distinct programs. */
  lemma BuildAllNoDup(rule: Rule, vs: seq<seq<Program>>)
    requires NoDup(vs)
    ensures NoDup(BuildAll(rule, vs))
  {
    forall i, j | 0 <= i < j < |vs| ensures BuildAll(rule, vs)[i] != BuildAll(rule, vs)[j] {
      assert BuildAll(rule, vs)[i].children == vs[i];
    }
  }
}
