/**
 * `synthesisFromExample`: the size-stratified enumeration driver and its example
 * verifier. Sizes 1, 2, ... up to a bound are enumerated in turn; at each size every
 * symbol gets a new bucket that is filled rule by rule, and every start-symbol
 * candidate is checked against the examples as soon as it is stored.
 */
module Enumeration {
  import opened Seqs
  import opened Grammars
  import opened Expansion

  /** `p` reproduces the expected output of every example under the environment `run`. */
  predicate Satisfies<V(==)>(p: Program, examples: seq<Example<V>>, run: (Program, seq<V>) -> V)
  {
    forall i :: 0 <= i < |examples| ==> run(p, examples[i].input) == examples[i].output
  }

  /** The `verifier` lambda: runs the examples in order and stops at the first mismatch.
      `runs` counts the calls made to the environment. */
  method Verify<V(==)>(p: Program, examples: seq<Example<V>>, run: (Program, seq<V>) -> V)
    returns (ok: bool, ghost runs: nat)
    ensures ok <==> Satisfies(p, examples, run)
    ensures ok ==> runs == |examples|
    ensures !ok ==>
      && 1 <= runs <= |examples|
      && run(p, examples[runs - 1].input) != examples[runs - 1].output
      && forall i :: 0 <= i < runs - 1 ==> run(p, examples[i].input) == examples[i].output
  {
    runs := 0;
    for i := 0 to |examples|
      invariant runs == i
      invariant forall j :: 0 <= j < i ==> run(p, examples[j].input) == examples[j].output
    {
      runs := runs + 1;
      if run(p, examples[i].input) != examples[i].output {
        ok := false;
        return;
      }
    }
    ok := true;
  }

  /** Every parameter of `rule` names a symbol of `g`. */
  predicate RuleOf(g: Grammar, rule: Rule)
  {
    forall k :: 0 <= k < |rule.params| ==> rule.params[k] < |g.symbols|
  }

  // The enumeration by size. Bucket `s` of a symbol is built, rule after rule, by
  // `constructPrograms` from the buckets below `s`, which are themselves buckets of the
  // same enumeration; the four definitions below are therefore mutually recursive,
  // by size.

  /** `program_storage[id][s]` once size `s` is complete: bucket 0 is empty. */
  function Bucket(g: Grammar, id: nat, s: nat): seq<Program>
    requires WellFormed(g) && id < |g.symbols|
    decreases s, 3
  {
    if s == 0 then [] else RulePrograms(g, id, |g.symbols[id].rules|, s)
  }

  /** The programs the first `k` rules of symbol `id` contribute to bucket `s`. */
  function RulePrograms(g: Grammar, id: nat, k: nat, s: nat): seq<Program>
    requires WellFormed(g) && id < |g.symbols| && k <= |g.symbols[id].rules|
    decreases s, 2, k
  {
    if k == 0 then [] else RulePrograms(g, id, k - 1, s) + ConstructAt(g, g.symbols[id].rules[k - 1], s)
  }

  /** What `constructPrograms(rule, s, program_storage)` returns during the enumeration. */
  function ConstructAt(g: Grammar, rule: Rule, s: nat): seq<Program>
    requires WellFormed(g) && RuleOf(g, rule)
    decreases s, 1
  {
    Construct(rule, s, StoreBelow(g, s))
  }

  /** `program_storage` when size `s` begins: buckets `0 .. s - 1` of every symbol. */
  function StoreBelow(g: Grammar, s: nat): (st: Store)
    requires WellFormed(g)
    ensures |st| == |g.symbols| && forall id :: 0 <= id < |st| ==> |st[id]| == s
    decreases s, 0
  {
    seq(|g.symbols|, id requires 0 <= id < |g.symbols| => seq(s, i requires 0 <= i < s => Bucket(g, id, i)))
  }

  /** A stored candidate together with the index of the symbol it was stored for. */
  datatype Candidate = Candidate(symbol: nat, program: Program)

  /** The programs of a bucket, each tagged with the symbol they were stored for. */
  function Tag(id: nat, ps: seq<Program>): seq<Candidate>
  {
    seq(|ps|, i requires 0 <= i < |ps| => Candidate(id, ps[i]))
  }

  /** The candidates stored at size `s` for the first `m` symbols, in storing order. */
  function LevelTrace(g: Grammar, s: nat, m: nat): seq<Candidate>
    requires WellFormed(g) && m <= |g.symbols|
  {
    if m == 0 then [] else LevelTrace(g, s, m - 1) + Tag(m - 1, Bucket(g, m - 1, s))
  }

  /** Every candidate stored for sizes `1 .. s`, in storing order. */
  function Trace(g: Grammar, s: nat): seq<Candidate>
    requires WellFormed(g)
  {
    if s == 0 then [] else Trace(g, s - 1) + LevelTrace(g, s, |g.symbols|)
  }

  /** The first start-symbol candidate of `t` that satisfies the examples. */
  function FirstVerified<V(==)>(t: seq<Candidate>, start: nat, examples: seq<Example<V>>, run: (Program, seq<V>) -> V): Option<Program>
  {
    if t == [] then None
    else if t[0].symbol == start && Satisfies(t[0].program, examples, run) then Some(t[0].program)
    else FirstVerified(t[1..], start, examples, run)
  }

  /** The rule loop body of `synthesisFromExample`: the programs `constructPrograms` builds
      for `rule` at `size` are appended one by one to bucket `size` of symbol `id` and, when
      `id` is the start symbol, each is run through the verifier right after it is stored;
      the first that passes ends the search. */
  method ExpandRule<V(==)>(g: Grammar, examples: seq<Example<V>>, run: (Program, seq<V>) -> V,
                           storage: Store, size: nat, id: nat, rule: Rule)
    returns (storage': Store, found: Option<Program>)
    requires WellFormed(g) && RuleOf(g, rule)
    requires |storage| == |g.symbols| && id < |storage| && |storage[id]| == size + 1
    requires forall j :: 0 <= j < |storage| ==> StoreBelow(g, size)[j] <= storage[j]
    ensures found == FirstVerified(Tag(id, ConstructAt(g, rule, size)), g.start, examples, run)
    ensures found.None? ==>
      storage' == storage[id := storage[id][..size] + [storage[id][size] + ConstructAt(g, rule, size)]]
  {
    StorageFrame(rule, size, StoreBelow(g, size), storage);
    var ps := ConstructPrograms(rule, size, storage);
    assert ps == ConstructAt(g, rule, size);
    storage' := storage;
    found := None;
    ghost var lower, bucket := storage[id][..size], storage[id][size];
    assert bucket + ps[..0] == bucket;
    assert storage[id] == lower + [bucket];
    for c := 0 to |ps|
      invariant storage' == storage[id := lower + [bucket + ps[..c]]]
      invariant FirstVerified(Tag(id, ps[..c]), g.start, examples, run) == None
    {
      var p := ps[c];
      BucketPush(lower, bucket + ps[..c], [p]);
      storage' := storage'[id := storage'[id][..size] + [storage'[id][size] + [p]]];
      TakeOneMore(bucket, ps, c + 1);
      TagSnoc(id, ps, c + 1);
      FirstVerifiedAppend(Tag(id, ps[..c]), [Candidate(id, p)], g.start, examples, run);
      FirstVerifiedSingle(Candidate(id, p), g.start, examples, run);
      if id == g.start {
        var ok, _ := Verify(p, examples, run);
        if ok {
          FirstOfPrefix(Tag(id, ps[..c + 1]), Tag(id, ps), g.start, examples, run);
          found := Some(p);
          return;
        }
      }
    }
    assert ps[..|ps|] == ps;
  }

  /** The symbol loop body of `synthesisFromExample`: a new bucket for symbol `id` at `size`,
      filled rule by rule. `st0` is the storage as it was before this size began: the
      buckets below `size` that `constructPrograms` reads. */
  method ExpandSymbol<V(==)>(g: Grammar, examples: seq<Example<V>>, run: (Program, seq<V>) -> V,
                             storage: Store, size: nat, id: nat, ghost st0: Store)
    returns (storage': Store, found: Option<Program>)
    requires WellFormed(g) && id < |g.symbols| && 1 <= size && st0 == StoreBelow(g, size)
    requires |storage| == |st0| && forall j :: 0 <= j < |st0| ==> st0[j] <= storage[j]
    requires storage[id] == st0[id]
    ensures found == FirstVerified(Tag(id, Bucket(g, id, size)), g.start, examples, run)
    ensures found.None? ==> storage' == storage[id := st0[id] + [Bucket(g, id, size)]]
  {
    storage' := storage[id := storage[id] + [[]]];
    found := None;
    var rules := g.symbols[id].rules;
    var k := 0;
    assert RulePrograms(g, id, 0, size) == [];
    TagEmpty(id);
    while k < |rules|
      invariant 0 <= k <= |rules|
      invariant storage' == storage[id := st0[id] + [RulePrograms(g, id, k, size)]]
      invariant found == None
      invariant FirstVerified(Tag(id, RulePrograms(g, id, k, size)), g.start, examples, run) == None
    {
      ghost var before := storage';
      StoreExtends(st0, storage, id, RulePrograms(g, id, k, size));
      RuleProgramsStep(g, id, k, size);
      storage', found := ExpandRule(g, examples, run, storage', size, id, rules[k]);
      RuleStep(g, id, k, size, st0, storage, before, storage', ConstructAt(g, rules[k], size), found, examples, run);
      if found.Some? {
        return;
      }
      k := k + 1;
    }
    assert RulePrograms(g, id, k, size) == Bucket(g, id, size);
  }

  /** The symbol loop of `synthesisFromExample` at one `size`: every symbol in turn gets its
      bucket for `size`, and the first start-symbol candidate that passes the verifier ends
      the search. */
  method ExpandSize<V(==)>(g: Grammar, examples: seq<Example<V>>, run: (Program, seq<V>) -> V,
                           storage: Store, size: nat)
    returns (storage': Store, found: Option<Program>)
    requires WellFormed(g) && 1 <= size && storage == StoreBelow(g, size)
    ensures found == FirstVerified(LevelTrace(g, size, |g.symbols|), g.start, examples, run)
    ensures found.None? ==> storage' == StoreBelow(g, size + 1)
  {
    var n := |g.symbols|;
    storage' := storage;
    found := None;
    var id := 0;
    while id < n
      invariant 0 <= id <= n && |storage'| == n
      invariant forall j :: 0 <= j < n ==> storage[j] <= storage'[j]
      invariant forall j :: 0 <= j < id ==> storage'[j] == storage[j] + [Bucket(g, j, size)]
      invariant forall j :: id <= j < n ==> storage'[j] == storage[j]
      invariant found == None
      invariant FirstVerified(LevelTrace(g, size, id), g.start, examples, run) == None
    {
      ghost var before := storage';
      storage', found := ExpandSymbol(g, examples, run, storage', size, id, storage);
      SymbolStep(g, size, id, before, storage', found, examples, run);
      if found.Some? {
        return;
      }
      id := id + 1;
    }
    StoreBelowStep(g, size, storage');
  }

  /** `synthesisFromExample`, with the size bound (4 in the source) as a parameter and the
      fall-through path, where nothing verifies, returning `None`. The result is the first
      start-symbol candidate, in storing order, that satisfies the examples. */
  method SynthesisFromExample<V(==)>(g: Grammar, examples: seq<Example<V>>, run: (Program, seq<V>) -> V, bound: nat)
    returns (r: Option<Program>)
    requires WellFormed(g)
    ensures r == FirstVerified(Trace(g, bound), g.start, examples, run)
  {
    var storage: Store := seq(|g.symbols|, _ => [[]]);
    StoreBelowInit(g, storage);
    var size := 1;
    while size <= bound
      invariant 1 <= size <= bound + 1
      invariant storage == StoreBelow(g, size)
      invariant FirstVerified(Trace(g, size - 1), g.start, examples, run) == None
    {
      var found;
      storage, found := ExpandSize(g, examples, run, storage, size);
      SizeStep(g, size, bound, found, examples, run);
      if found.Some? {
        return found;
      }
      size := size + 1;
    }
    r := None;
  }

  /** The last rule's programs complete the bucket: one step of `RulePrograms`. */
  lemma {:induction false} RuleProgramsStep(g: Grammar, id: nat, k: nat, s: nat)
    requires WellFormed(g) && id < |g.symbols| && k < |g.symbols[id].rules|
    ensures RuleOf(g, g.symbols[id].rules[k])
    ensures RulePrograms(g, id, k + 1, s) == RulePrograms(g, id, k, s) + ConstructAt(g, g.symbols[id].rules[k], s)
  {
  }

  /** Appending a bucket to one symbol's list keeps every list an extension of `st0`'s. */
  lemma StoreExtends(st0: Store, storage: Store, id: nat, b: seq<Program>)
    requires |storage| == |st0| && id < |st0| && forall j :: 0 <= j < |st0| ==> st0[j] <= storage[j]
    ensures forall j :: 0 <= j < |st0| ==> st0[j] <= storage[id := st0[id] + [b]][j]
  {
  }

  /** One iteration of the rule loop of `ExpandSymbol` keeps its invariant, or ends the
      search with the first verified candidate of the whole bucket. */
  lemma {:induction false} RuleStep<V>(g: Grammar, id: nat, k: nat, size: nat, st0: Store, storage: Store,
                                       before: Store, after: Store, ps: seq<Program>, found: Option<Program>,
                                       examples: seq<Example<V>>, run: (Program, seq<V>) -> V)
    requires WellFormed(g) && id < |g.symbols| && k < |g.symbols[id].rules| && 1 <= size
    requires st0 == StoreBelow(g, size) && id < |storage|
    requires before == storage[id := st0[id] + [RulePrograms(g, id, k, size)]]
    requires FirstVerified(Tag(id, RulePrograms(g, id, k, size)), g.start, examples, run) == None
    requires RulePrograms(g, id, k + 1, size) == RulePrograms(g, id, k, size) + ps
    requires found == FirstVerified(Tag(id, ps), g.start, examples, run)
    requires found.None? ==> after == before[id := before[id][..size] + [before[id][size] + ps]]
    ensures found.None? ==>
      && after == storage[id := st0[id] + [RulePrograms(g, id, k + 1, size)]]
      && FirstVerified(Tag(id, RulePrograms(g, id, k + 1, size)), g.start, examples, run) == None
    ensures found.Some? ==>
      found == FirstVerified(Tag(id, Bucket(g, id, size)), g.start, examples, run)
  {
    var done := RulePrograms(g, id, k, size);
    TagAppend(id, done, ps);
    FirstVerifiedAppend(Tag(id, done), Tag(id, ps), g.start, examples, run);
    if found.Some? {
      var rules := g.symbols[id].rules;
      RuleProgramsPrefix(g, id, k + 1, |rules|, size);
      assert Bucket(g, id, size) == RulePrograms(g, id, |rules|, size);
      TagPrefix(id, done + ps, Bucket(g, id, size));
      FirstOfPrefix(Tag(id, done + ps), Tag(id, Bucket(g, id, size)), g.start, examples, run);
    } else {
      StoreRule(storage, id, st0[id], done, ps);
    }
  }

  /** One iteration of the symbol loop of `ExpandSize` keeps its invariant, or ends the search
      with the first verified candidate of the whole size. */
  lemma {:induction false} SymbolStep<V>(g: Grammar, size: nat, id: nat, before: Store, after: Store,
                                         found: Option<Program>,
                                         examples: seq<Example<V>>, run: (Program, seq<V>) -> V)
    requires WellFormed(g) && id < |g.symbols| && 1 <= size
    requires var st := StoreBelow(g, size);
      && |before| == |st|
      && (forall j :: 0 <= j < |st| ==> st[j] <= before[j])
      && (forall j :: 0 <= j < id ==> before[j] == st[j] + [Bucket(g, j, size)])
      && (forall j :: id <= j < |st| ==> before[j] == st[j])
    requires FirstVerified(LevelTrace(g, size, id), g.start, examples, run) == None
    requires found == FirstVerified(Tag(id, Bucket(g, id, size)), g.start, examples, run)
    requires found.None? ==> after == before[id := StoreBelow(g, size)[id] + [Bucket(g, id, size)]]
    ensures found.None? ==> var st := StoreBelow(g, size);
      && |after| == |st|
      && (forall j :: 0 <= j < |st| ==> st[j] <= after[j])
      && (forall j :: 0 <= j < id + 1 ==> after[j] == st[j] + [Bucket(g, j, size)])
      && (forall j :: id + 1 <= j < |st| ==> after[j] == st[j])
      && FirstVerified(LevelTrace(g, size, id + 1), g.start, examples, run) == None
    ensures found.Some? ==> found == FirstVerified(LevelTrace(g, size, |g.symbols|), g.start, examples, run)
  {
    assert LevelTrace(g, size, id + 1) == LevelTrace(g, size, id) + Tag(id, Bucket(g, id, size));
    FirstVerifiedAppend(LevelTrace(g, size, id), Tag(id, Bucket(g, id, size)), g.start, examples, run);
    if found.Some? {
      LevelTracePrefix(g, size, id + 1, |g.symbols|);
      FirstOfPrefix(LevelTrace(g, size, id + 1), LevelTrace(g, size, |g.symbols|), g.start, examples, run);
    }
  }

  /** One iteration of the size loop of `SynthesisFromExample` keeps its invariant, or ends
      the search with the first verified candidate up to the bound. */
  lemma {:induction false} SizeStep<V>(g: Grammar, size: nat, bound: nat, found: Option<Program>,
                                       examples: seq<Example<V>>, run: (Program, seq<V>) -> V)
    requires WellFormed(g) && 1 <= size <= bound
    requires FirstVerified(Trace(g, size - 1), g.start, examples, run) == None
    requires found == FirstVerified(LevelTrace(g, size, |g.symbols|), g.start, examples, run)
    ensures found.None? ==> FirstVerified(Trace(g, size), g.start, examples, run) == None
    ensures found.Some? ==> found == FirstVerified(Trace(g, bound), g.start, examples, run)
  {
    assert Trace(g, size) == Trace(g, size - 1) + LevelTrace(g, size, |g.symbols|);
    FirstVerifiedAppend(Trace(g, size - 1), LevelTrace(g, size, |g.symbols|), g.start, examples, run);
    if found.Some? {
      TracePrefix(g, size, bound);
      FirstOfPrefix(Trace(g, size), Trace(g, bound), g.start, examples, run);
    }
  }

  /** Bucket `i` of every symbol, as stored when size `s` begins. */
  lemma {:induction false} StoreBelowBucket(g: Grammar, s: nat, id: nat, i: nat)
    requires WellFormed(g) && id < |g.symbols| && i < s
    ensures StoreBelow(g, s)[id][i] == Bucket(g, id, i)
  {
  }

  /** The storage the source starts from: one empty bucket 0 per symbol. */
  lemma {:induction false} StoreBelowInit(g: Grammar, storage: Store)
    requires WellFormed(g) && storage == seq(|g.symbols|, _ => [[]])
    ensures storage == StoreBelow(g, 1)
  {
    forall id | 0 <= id < |g.symbols| ensures storage[id] == StoreBelow(g, 1)[id] {
      StoreBelowBucket(g, 1, id, 0);
    }
  }

  /** Once every symbol has its bucket for `size`, the storage is the one the next size
      begins with. */
  lemma {:induction false} StoreBelowStep(g: Grammar, size: nat, storage: Store)
    requires WellFormed(g) && |storage| == |g.symbols|
    requires forall j :: 0 <= j < |g.symbols| ==> storage[j] == StoreBelow(g, size)[j] + [Bucket(g, j, size)]
    ensures storage == StoreBelow(g, size + 1)
  {
    forall j | 0 <= j < |g.symbols| ensures storage[j] == StoreBelow(g, size + 1)[j] {
      forall i | 0 <= i < size + 1 ensures storage[j][i] == StoreBelow(g, size + 1)[j][i] {
        StoreBelowBucket(g, size + 1, j, i);
        if i < size {
          StoreBelowBucket(g, size, j, i);
        }
      }
    }
  }

  /** While size `size` is being filled, every bucket below `size` is as it was, so
      `constructPrograms` builds from the current storage what it builds from `st0`. */
  lemma {:induction false} StorageFrame(rule: Rule, size: nat, st0: Store, storage: Store)
    requires Covers(rule, size, st0) && |st0| == |storage|
    requires forall j :: 0 <= j < |st0| ==> |st0[j]| == size && st0[j] <= storage[j]
    ensures Covers(rule, size, storage)
    ensures Construct(rule, size, storage) == Construct(rule, size, st0)
  {
    ConstructFrame(rule, size, storage, st0);
  }

  lemma {:induction false} FirstVerifiedAppend<V>(a: seq<Candidate>, b: seq<Candidate>, start: nat, examples: seq<Example<V>>, run: (Program, seq<V>) -> V)
    ensures FirstVerified(a + b, start, examples, run) ==
      if FirstVerified(a, start, examples, run).Some? then FirstVerified(a, start, examples, run)
      else FirstVerified(b, start, examples, run)
  {
    if a == [] {
      assert a + b == b;
    } else {
      assert (a + b)[0] == a[0] && (a + b)[1..] == a[1..] + b;
      FirstVerifiedAppend(a[1..], b, start, examples, run);
    }
  }

  /** `program_storage[id][size].push_back(p)` on a bucket list whose last bucket is `size`. */
  lemma {:induction false} BucketPush(prefix: seq<seq<Program>>, bucket: seq<Program>, ps: seq<Program>)
    ensures (prefix + [bucket])[..|prefix|] + [(prefix + [bucket])[|prefix|] + ps] == prefix + [bucket + ps]
  {
    assert (prefix + [bucket])[..|prefix|] == prefix;
  }

  /** Appending `ps` to the last bucket of symbol `id` after its bucket list was extended. */
  lemma {:induction false} StoreRule(storage: Store, id: nat, prefix: seq<seq<Program>>, done: seq<Program>, ps: seq<Program>)
    requires id < |storage|
    ensures var s1 := storage[id := prefix + [done]];
      s1[id := s1[id][..|prefix|] + [s1[id][|prefix|] + ps]] == storage[id := prefix + [done + ps]]
  {
    BucketPush(prefix, done, ps);
  }

  lemma {:induction false} TagSnoc(id: nat, ps: seq<Program>, c: nat)
    requires 1 <= c <= |ps|
    ensures Tag(id, ps[..c]) == Tag(id, ps[..c - 1]) + [Candidate(id, ps[c - 1])]
    ensures Tag(id, ps[..c]) <= Tag(id, ps)
  {
    assert ps[..c] == ps[..c - 1] + [ps[c - 1]];
  }

  lemma {:induction false} FirstVerifiedSingle<V>(x: Candidate, start: nat, examples: seq<Example<V>>, run: (Program, seq<V>) -> V)
    ensures FirstVerified([x], start, examples, run) ==
      if x.symbol == start && Satisfies(x.program, examples, run) then Some(x.program) else None
  {
    assert [x][1..] == [];
  }

  lemma {:induction false} TakeOneMore<T>(a: seq<T>, b: seq<T>, c: nat)
    requires 1 <= c <= |b|
    ensures a + b[..c] == (a + b[..c - 1]) + [b[c - 1]]
  {
    assert b[..c] == b[..c - 1] + [b[c - 1]];
  }

  lemma TagEmpty(id: nat)
    ensures Tag(id, []) == []
  {
  }

  lemma {:induction false} TagAppend(id: nat, a: seq<Program>, b: seq<Program>)
    ensures Tag(id, a + b) == Tag(id, a) + Tag(id, b)
  {
  }

  lemma {:induction false} TagPrefix(id: nat, a: seq<Program>, b: seq<Program>)
    requires a <= b
    ensures Tag(id, a) <= Tag(id, b)
  {
  }

  lemma {:induction false} RuleProgramsPrefix(g: Grammar, id: nat, k: nat, m: nat, s: nat)
    requires WellFormed(g) && id < |g.symbols| && k <= m <= |g.symbols[id].rules|
    ensures RulePrograms(g, id, k, s) <= RulePrograms(g, id, m, s)
    decreases m
  {
    if k < m {
      RuleProgramsPrefix(g, id, k, m - 1, s);
      PrefixOfAppend(RulePrograms(g, id, k, s), RulePrograms(g, id, m - 1, s), ConstructAt(g, g.symbols[id].rules[m - 1], s));
    }
  }

  lemma {:induction false} PrefixOfAppend<T>(a: seq<T>, b: seq<T>, c: seq<T>)
    requires a <= b
    ensures a <= b + c
  {
    assert (b + c)[..|a|] == b[..|a|];
  }

  lemma {:induction false} LevelTracePrefix(g: Grammar, s: nat, n: nat, m: nat)
    requires WellFormed(g) && n <= m <= |g.symbols|
    ensures LevelTrace(g, s, n) <= LevelTrace(g, s, m)
    decreases m
  {
    if n < m {
      LevelTracePrefix(g, s, n, m - 1);
      PrefixOfAppend(LevelTrace(g, s, n), LevelTrace(g, s, m - 1), Tag(m - 1, Bucket(g, m - 1, s)));
    }
  }

  lemma {:induction false} TracePrefix(g: Grammar, s: nat, t: nat)
    requires WellFormed(g) && s <= t
    ensures Trace(g, s) <= Trace(g, t)
    decreases t
  {
    if s < t {
      TracePrefix(g, s, t - 1);
      PrefixOfAppend(Trace(g, s), Trace(g, t - 1), LevelTrace(g, t, |g.symbols|));
    }
  }

  lemma {:induction false} FirstOfPrefix<V>(a: seq<Candidate>, t: seq<Candidate>,
                         start: nat, examples: seq<Example<V>>, run: (Program, seq<V>) -> V)
    requires a <= t && FirstVerified(a, start, examples, run).Some?
    ensures FirstVerified(t, start, examples, run) == FirstVerified(a, start, examples, run)
  {
    assert t == a + t[|a|..];
    FirstVerifiedAppend(a, t[|a|..], start, examples, run);
  }
}
