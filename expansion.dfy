/**
 * `constructPrograms`: all programs of one target size obtainable by one application
 * of a rule to sub-programs already held in the program storage.
 */
module Expansion {
  import opened Seqs
  import opened Grammars
  import opened SizeSchemes
  import opened Combinations

  /** `program_storage[symbol][size]`: the programs found so far, by symbol index and size. */
  type Store = seq<seq<seq<Program>>>

  /** The sizes `i` in `[0, size)`, ascending, whose bucket is non-empty. */
  function SizePool(buckets: seq<seq<Program>>, size: int): seq<int>
    requires size <= |buckets|
    decreases size
  {
    if size <= 0 then []
    else SizePool(buckets, size - 1) + (if buckets[size - 1] != [] then [size - 1] else [])
  }

  /** The storage holds buckets `0 .. size - 1` of every parameter symbol of `rule`. */
  predicate Covers(rule: Rule, size: int, st: Store)
  {
    forall k :: 0 <= k < |rule.params| ==> rule.params[k] < |st| && size <= |st[rule.params[k]]|
  }

  /** `size_pool`: the available sizes of each parameter. */
  function Pools(rule: Rule, size: int, st: Store): (pools: seq<seq<int>>)
    requires Covers(rule, size, st)
    ensures |pools| == |rule.params|
  {
    seq(|rule.params|, k requires 0 <= k < |rule.params| && Covers(rule, size, st) =>
      SizePool(st[rule.params[k]], size))
  }

  /** The scheme names an existing bucket for each parameter. */
  predicate Fits(rule: Rule, st: Store, scheme: seq<int>)
  {
    |scheme| == |rule.params| &&
    forall i :: 0 <= i < |scheme| ==> rule.params[i] < |st| && 0 <= scheme[i] < |st[rule.params[i]]|
  }

  /** `sub_programs`: the bucket each parameter draws from under `scheme`. */
  function SubPrograms(rule: Rule, st: Store, scheme: seq<int>): (subs: seq<seq<Program>>)
    requires Fits(rule, st, scheme)
    ensures |subs| == |scheme|
  {
    seq(|scheme|, i requires 0 <= i < |scheme| && Fits(rule, st, scheme) => st[rule.params[i]][scheme[i]])
  }

  /** The programs built for `schemes`, scheme by scheme, each in cartesian-product order. */
  function BuildFor(rule: Rule, st: Store, schemes: seq<seq<int>>): seq<Program>
    requires forall sc :: sc in schemes ==> Fits(rule, st, sc)
  {
    if schemes == [] then []
    else
      var last := schemes[|schemes| - 1];
      BuildFor(rule, st, schemes[..|schemes| - 1]) + BuildAll(rule, Product(SubPrograms(rule, st, last)))
  }

  /** What `constructPrograms(rule, size, program_storage)` returns. */
  function Construct(rule: Rule, size: int, st: Store): seq<Program>
    requires Covers(rule, size, st)
  {
    SchemesFit(rule, size, st);
    BuildFor(rule, st, Schemes(Pools(rule, size, st), size - 1))
  }

  /** The pool of a parameter is exactly the ascending sizes below `size` with a non-empty bucket. */
  lemma {:induction false} SizePoolSpec(buckets: seq<seq<Program>>, size: int)
    requires size <= |buckets|
    ensures forall x :: x in SizePool(buckets, size) <==> 0 <= x < size && buckets[x] != []
    ensures Ascending(SizePool(buckets, size))
    decreases size
  {
    if size > 0 {
      SizePoolSpec(buckets, size - 1);
      var prev := SizePool(buckets, size - 1);
      var last: seq<int> := if buckets[size - 1] != [] then [size - 1] else [];
      assert SizePool(buckets, size) == prev + last;
      forall i | 0 <= i < |prev| ensures prev[i] < size - 1 {
        assert prev[i] in prev;
      }
      forall x ensures x in prev + last <==> 0 <= x < size && buckets[x] != [] {
        assert x in prev + last <==> x in prev || x in last;
      }
    }
  }

  lemma SchemesFit(rule: Rule, size: int, st: Store)
    requires Covers(rule, size, st)
    ensures forall sc :: sc in Schemes(Pools(rule, size, st), size - 1) ==> Fits(rule, st, sc)
  {
    var pools := Pools(rule, size, st);
    forall sc | sc in Schemes(pools, size - 1) ensures Fits(rule, st, sc) {
      SchemesSound(pools, size - 1, sc);
      forall i | 0 <= i < |sc| ensures rule.params[i] < |st| && 0 <= sc[i] < |st[rule.params[i]]| {
        SizePoolSpec(st[rule.params[i]], size);
      }
    }
  }

  /** `constructPrograms`: builds the size pools with nested loops, then builds every
      combination for every scheme into one result list. */
  /** The loop over one parameter in `constructPrograms`: the sizes below `size`, ascending,
      whose bucket is non-empty. */
  method SizeList(buckets: seq<seq<Program>>, size: int) returns (sizeList: seq<int>)
    requires size <= |buckets|
    ensures sizeList == SizePool(buckets, size)
  {
    sizeList := [];
    var i := 0;
    while i < size
      invariant 0 <= i && (i <= size || i == 0)
      invariant sizeList == SizePool(buckets, i)
    {
      if buckets[i] != [] {
        sizeList := sizeList + [i];
      }
      i := i + 1;
    }
    assert size <= 0 ==> SizePool(buckets, size) == [];
  }

  method ConstructPrograms(rule: Rule, size: int, storage: Store) returns (res: seq<Program>)
    requires Covers(rule, size, storage)
    ensures res == Construct(rule, size, storage)
  {
    var sizePool: seq<seq<int>> := [];
    for k := 0 to |rule.params|
      invariant sizePool == Pools(rule, size, storage)[..k]
    {
      var sizeList := SizeList(storage[rule.params[k]], size);
      sizePool := sizePool + [sizeList];
    }
    assert sizePool == Pools(rule, size, storage);
    var schemes := GetAllSizeScheme(size - 1, sizePool);
    SchemesFit(rule, size, storage);
    var builder := new CombinationBuilder();
    for s := 0 to |schemes|
      invariant builder.res == BuildFor(rule, storage, schemes[..s])
    {
      var scheme := schemes[s];
      assert scheme in schemes;
      var subPrograms: seq<seq<Program>> := [];
      for i := 0 to |scheme|
        invariant subPrograms == SubPrograms(rule, storage, scheme)[..i]
      {
        subPrograms := subPrograms + [storage[rule.params[i]][scheme[i]]];
      }
      assert subPrograms == SubPrograms(rule, storage, scheme);
      ghost var done := builder.res;
      builder.subList := [];
      builder.Build(0, subPrograms, rule);
      assert subPrograms[0..] == subPrograms;
      ExtendEmpty(Product(subPrograms));
      assert builder.res == done + BuildAll(rule, Product(subPrograms));
      BuildForSnoc(rule, storage, schemes, s);
    }
    assert schemes[..|schemes|] == schemes;
    res := builder.res;
  }

  lemma BuildForSnoc(rule: Rule, st: Store, schemes: seq<seq<int>>, s: nat)
    requires forall sc :: sc in schemes ==> Fits(rule, st, sc)
    requires s < |schemes|
    ensures BuildFor(rule, st, schemes[..s + 1]) ==
      BuildFor(rule, st, schemes[..s]) + BuildAll(rule, Product(SubPrograms(rule, st, schemes[s])))
  {
    assert schemes[..s + 1][..s] == schemes[..s];
  }

  /** `v` is a list of sub-programs for `rule` whose entry `j` comes from bucket `sc[j]` of
      parameter `j`, where the sizes `sc` lie below `size` and sum to `size - 1`. */
  predicate Drawn(rule: Rule, size: int, st: Store, sc: seq<int>, v: seq<Program>)
  {
    |sc| == |rule.params| && |v| == |sc| && Sum(sc) == size - 1 &&
    forall j :: 0 <= j < |sc| ==>
      0 <= sc[j] < size && rule.params[j] < |st| && sc[j] < |st[rule.params[j]]| &&
      v[j] in st[rule.params[j]][sc[j]]
  }

  /** Every program in bucket `s` of the storage has size `s`. */
  predicate BucketsSized(st: Store)
  {
    forall id, s, q :: 0 <= id < |st| && 0 <= s < |st[id]| && q in st[id][s] ==> Size(q) == s
  }

  /** No bucket of the storage holds a program twice. */
  predicate BucketsDistinct(st: Store)
  {
    forall id, s :: 0 <= id < |st| && 0 <= s < |st[id]| ==> NoDup(st[id][s])
  }

  lemma {:induction false} BuildForMember(rule: Rule, st: Store, schemes: seq<seq<int>>, p: Program)
    requires forall sc :: sc in schemes ==> Fits(rule, st, sc)
    requires p in BuildFor(rule, st, schemes)
    ensures exists sc, v :: sc in schemes && v in Product(SubPrograms(rule, st, sc)) && p == BuildProgram(rule, v)
  {
    var init, last := schemes[..|schemes| - 1], schemes[|schemes| - 1];
    assert forall sc :: sc in init ==> sc in schemes;
    if p in BuildFor(rule, st, init) {
      BuildForMember(rule, st, init, p);
    } else {
      var built := BuildAll(rule, Product(SubPrograms(rule, st, last)));
      var i :| 0 <= i < |built| && built[i] == p;
      assert Product(SubPrograms(rule, st, last))[i] in Product(SubPrograms(rule, st, last));
    }
  }

  lemma {:induction false} BuildForComplete(rule: Rule, st: Store, schemes: seq<seq<int>>, sc: seq<int>, v: seq<Program>)
    requires forall sc :: sc in schemes ==> Fits(rule, st, sc)
    requires sc in schemes && v in Product(SubPrograms(rule, st, sc))
    ensures BuildProgram(rule, v) in BuildFor(rule, st, schemes)
  {
    var init, last := schemes[..|schemes| - 1], schemes[|schemes| - 1];
    assert forall sc :: sc in init ==> sc in schemes;
    if sc in init {
      BuildForComplete(rule, st, init, sc, v);
    } else {
      assert schemes == init + [last];
      assert sc == last;
      var prod := Product(SubPrograms(rule, st, last));
      var i :| 0 <= i < |prod| && prod[i] == v;
      assert BuildAll(rule, prod)[i] == BuildProgram(rule, v);
    }
  }

  /** Every program built for `rule` at `size` has `rule` at its root and takes its
      sub-program `j` from a bucket of parameter `j`, the bucket sizes being below `size`
      and summing to `size - 1`. */
  lemma ConstructSound(rule: Rule, size: int, st: Store, p: Program)
    requires Covers(rule, size, st)
    requires p in Construct(rule, size, st)
    ensures p.rule == rule
    ensures exists sc :: Drawn(rule, size, st, sc, p.children)
  {
    var pools := Pools(rule, size, st);
    SchemesFit(rule, size, st);
    BuildForMember(rule, st, Schemes(pools, size - 1), p);
    var sc, v :| sc in Schemes(pools, size - 1) && v in Product(SubPrograms(rule, st, sc)) && p == BuildProgram(rule, v);
    SchemesSound(pools, size - 1, sc);
    ProductSound(SubPrograms(rule, st, sc), v);
    forall j | 0 <= j < |sc| ensures 0 <= sc[j] < size {
      SizePoolSpec(st[rule.params[j]], size);
    }
    assert Drawn(rule, size, st, sc, p.children);
  }

  /** Conversely, every such choice of sub-programs is built. */
  lemma ConstructComplete(rule: Rule, size: int, st: Store, sc: seq<int>, v: seq<Program>)
    requires Covers(rule, size, st)
    requires Drawn(rule, size, st, sc, v)
    ensures BuildProgram(rule, v) in Construct(rule, size, st)
  {
    var pools := Pools(rule, size, st);
    forall i, j | 0 <= i < |pools| && 0 <= j < |pools[i]| ensures pools[i][j] >= 0 {
      SizePoolSpec(st[rule.params[i]], size);
      assert pools[i][j] in pools[i];
    }
    forall j | 0 <= j < |sc| ensures sc[j] in pools[j] {
      SizePoolSpec(st[rule.params[j]], size);
      assert v[j] in st[rule.params[j]][sc[j]];
    }
    SchemesComplete(pools, size - 1, sc);
    SchemesFit(rule, size, st);
    ProductComplete(SubPrograms(rule, st, sc), v);
    BuildForComplete(rule, st, Schemes(pools, size - 1), sc, v);
  }

  lemma {:induction false} SizesSumOfBuckets(v: seq<Program>, sc: seq<int>)
    requires |v| == |sc| && forall j :: 0 <= j < |v| ==> Size(v[j]) == sc[j]
    ensures SizesSum(v) == Sum(sc)
  {
    if v != [] {
      SizesSumOfBuckets(v[1..], sc[1..]);
    }
  }

  /** If every bucket holds programs of its own size, every program built at `size` has
      size `size`: one node for the rule plus the sizes of the sub-programs, `size - 1`. */
  lemma ConstructSizes(rule: Rule, size: int, st: Store, p: Program)
    requires Covers(rule, size, st) && BucketsSized(st)
    requires p in Construct(rule, size, st)
    ensures Size(p) == size
  {
    ConstructSound(rule, size, st, p);
    var sc :| Drawn(rule, size, st, sc, p.children);
    SizesSumOfBuckets(p.children, sc);
  }

  /** A rule without parameters yields exactly one program at size 1 and none at any
      other size: the empty scheme is produced only when the budget `size - 1` is 0. */
  lemma ConstructNullary(rule: Rule, size: int, st: Store)
    requires |rule.params| == 0
    ensures Covers(rule, size, st)
    ensures Construct(rule, size, st) == if size == 1 then [BuildProgram(rule, [])] else []
  {
    var pools := Pools(rule, size, st);
    assert pools == [];
    if size == 1 {
      var schemes := Schemes(pools, 0);
      assert schemes == [[]];
      assert schemes[..0] == [];
      var subs := SubPrograms(rule, st, schemes[0]);
      assert subs == [];
      assert Product(subs) == [[]];
      assert BuildAll(rule, [[]]) == [BuildProgram(rule, [])];
      assert BuildFor(rule, st, schemes) == BuildFor(rule, st, []) + BuildAll(rule, Product(subs));
    }
  }

  lemma {:induction false} SizePoolFrame(b1: seq<seq<Program>>, b2: seq<seq<Program>>, size: int)
    requires size <= |b1| && size <= |b2|
    requires forall i :: 0 <= i < size ==> b1[i] == b2[i]
    ensures SizePool(b1, size) == SizePool(b2, size)
    decreases size
  {
    if size > 0 {
      SizePoolFrame(b1, b2, size - 1);
    }
  }

  lemma {:induction false} BuildForFrame(rule: Rule, st1: Store, st2: Store, schemes: seq<seq<int>>)
    requires forall sc :: sc in schemes ==> Fits(rule, st1, sc) && Fits(rule, st2, sc)
    requires forall sc :: sc in schemes ==> SubPrograms(rule, st1, sc) == SubPrograms(rule, st2, sc)
    ensures BuildFor(rule, st1, schemes) == BuildFor(rule, st2, schemes)
  {
    if schemes != [] {
      var init := schemes[..|schemes| - 1];
      assert forall sc :: sc in init ==> sc in schemes;
      BuildForFrame(rule, st1, st2, init);
    }
  }

  /** `constructPrograms(rule, size, …)` only reads buckets below `size`: two storages that
      agree there give the same programs. */
  lemma ConstructFrame(rule: Rule, size: int, st1: Store, st2: Store)
    requires Covers(rule, size, st1) && Covers(rule, size, st2)
    requires forall k, i :: 0 <= k < |rule.params| && 0 <= i < size ==>
      st1[rule.params[k]][i] == st2[rule.params[k]][i]
    ensures Construct(rule, size, st1) == Construct(rule, size, st2)
  {
    forall k | 0 <= k < |rule.params|
      ensures SizePool(st1[rule.params[k]], size) == SizePool(st2[rule.params[k]], size)
    {
      SizePoolFrame(st1[rule.params[k]], st2[rule.params[k]], size);
    }
    var pools := Pools(rule, size, st1);
    assert pools == Pools(rule, size, st2);
    SchemesFit(rule, size, st1);
    SchemesFit(rule, size, st2);
    forall sc | sc in Schemes(pools, size - 1)
      ensures SubPrograms(rule, st1, sc) == SubPrograms(rule, st2, sc)
    {
      SchemesSound(pools, size - 1, sc);
      forall i | 0 <= i < |sc| ensures sc[i] < size {
        SizePoolSpec(st1[rule.params[i]], size);
      }
    }
    BuildForFrame(rule, st1, st2, Schemes(pools, size - 1));
  }

  /** With sized buckets the sub-programs of a built program determine the scheme they were
      drawn under: child `j` has exactly `scheme[j]` nodes. */
  lemma ChildrenDetermineScheme(rule: Rule, st: Store, sc1: seq<int>, sc2: seq<int>, v1: seq<Program>, v2: seq<Program>)
    requires Fits(rule, st, sc1) && Fits(rule, st, sc2) && BucketsSized(st)
    requires v1 in Product(SubPrograms(rule, st, sc1)) && v2 in Product(SubPrograms(rule, st, sc2))
    ensures v1 == v2 ==> sc1 == sc2
  {
    ProductSound(SubPrograms(rule, st, sc1), v1);
    ProductSound(SubPrograms(rule, st, sc2), v2);
    forall j | 0 <= j < |sc1| ensures Size(v1[j]) == sc1[j] && Size(v2[j]) == sc2[j] {
    }
  }

  lemma {:induction false} BuildForNoDup(rule: Rule, st: Store, schemes: seq<seq<int>>)
    requires forall sc :: sc in schemes ==> Fits(rule, st, sc)
    requires NoDup(schemes) && BucketsSized(st) && BucketsDistinct(st)
    ensures NoDup(BuildFor(rule, st, schemes))
  {
    if schemes != [] {
      var init, last := schemes[..|schemes| - 1], schemes[|schemes| - 1];
      assert forall sc :: sc in init ==> sc in schemes;
      assert NoDup(init) by {
        forall i, j | 0 <= i < j < |init| ensures init[i] != init[j] {
          assert init[i] == schemes[i] && init[j] == schemes[j];
        }
      }
      BuildForNoDup(rule, st, init);
      var subs := SubPrograms(rule, st, last);
      ProductNoDup(subs);
      BuildAllNoDup(rule, Product(subs));
      var a, b := BuildFor(rule, st, init), BuildAll(rule, Product(subs));
      forall i, k | 0 <= i < |a| && 0 <= k < |b| ensures a[i] != b[k] {
        BuildForMember(rule, st, init, a[i]);
        var sc, v :| sc in init && v in Product(SubPrograms(rule, st, sc)) && a[i] == BuildProgram(rule, v);
        var m :| 0 <= m < |init| && init[m] == sc;
        assert schemes[m] == sc;
        var w := Product(subs)[k];
        assert b[k] == BuildProgram(rule, w);
        ChildrenDetermineScheme(rule, st, sc, last, v, w);
      }
      NoDupAppend(a, b);
    }
  }

  /** No program is built twice for one rule at one size, provided the buckets read are
      sized and free of repeats: different schemes give children of different sizes, and
      within one scheme different choices give different children. */
  lemma ConstructNoDup(rule: Rule, size: int, st: Store)
    requires Covers(rule, size, st) && BucketsSized(st) && BucketsDistinct(st)
    ensures NoDup(Construct(rule, size, st))
  {
    var pools := Pools(rule, size, st);
    forall i | 0 <= i < |pools| ensures NoDup(pools[i]) {
      SizePoolSpec(st[rule.params[i]], size);
    }
    SchemesNoDup(pools, size - 1);
    SchemesFit(rule, size, st);
    BuildForNoDup(rule, st, Schemes(pools, size - 1));
  }
}
