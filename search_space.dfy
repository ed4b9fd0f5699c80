/**
 * What the size-stratified enumeration of `synthesisFromExample` finds: bucket `s` of a
 * symbol holds exactly the programs of that symbol with `s` nodes, the stored candidates
 * come in non-decreasing size, and so the returned program is a smallest program of the
 * start symbol that satisfies every example, and the failure result means that none of
 * size up to the bound does.
 */
module SearchSpace {
  import opened Seqs
  import opened Grammars
  import opened Expansion
  import opened Enumeration

  /** `p` is a program of symbol `id`: its root rule is one of the rules of `id` and each
      sub-program is a program of the corresponding parameter symbol. */
  predicate Derives(g: Grammar, id: nat, p: Program)
    decreases p
  {
    id < |g.symbols| && p.rule in g.symbols[id].rules && |p.children| == |p.rule.params| &&
    forall j :: 0 <= j < |p.children| ==> Derives(g, p.rule.params[j], p.children[j])
  }

  /** The check made on each stored candidate: it belongs to the start symbol and passes
      the verifier. */
  predicate Accepted<V(==)>(c: Candidate, start: nat, examples: seq<Example<V>>, run: (Program, seq<V>) -> V)
  {
    c.symbol == start && Satisfies(c.program, examples, run)
  }

  /** A result names an accepted candidate with no accepted candidate before it. */
  lemma {:induction false} FirstVerifiedSome<V>(t: seq<Candidate>, start: nat, examples: seq<Example<V>>, run: (Program, seq<V>) -> V)
    requires FirstVerified(t, start, examples, run).Some?
    ensures exists i ::
      (&& 0 <= i < |t| && Accepted(t[i], start, examples, run)
       && t[i].program == FirstVerified(t, start, examples, run).value
       && forall j :: 0 <= j < i ==> !Accepted(t[j], start, examples, run))
  {
    if !Accepted(t[0], start, examples, run) {
      FirstVerifiedSome(t[1..], start, examples, run);
      var i :| 0 <= i < |t[1..]| && Accepted(t[1..][i], start, examples, run) &&
        t[1..][i].program == FirstVerified(t[1..], start, examples, run).value &&
        (forall j :: 0 <= j < i ==> !Accepted(t[1..][j], start, examples, run));
      assert t[i + 1] == t[1..][i];
      forall j | 0 <= j < i + 1 ensures !Accepted(t[j], start, examples, run) {
        if j > 0 {
          assert t[j] == t[1..][j - 1];
        }
      }
    } else {
      assert Accepted(t[0], start, examples, run);
    }
  }

  /** No result means no candidate is accepted. */
  lemma {:induction false} FirstVerifiedNone<V>(t: seq<Candidate>, start: nat, examples: seq<Example<V>>, run: (Program, seq<V>) -> V)
    requires FirstVerified(t, start, examples, run).None?
    ensures forall i :: 0 <= i < |t| ==> !Accepted(t[i], start, examples, run)
  {
    if t != [] {
      FirstVerifiedNone(t[1..], start, examples, run);
      forall i | 1 <= i < |t| ensures !Accepted(t[i], start, examples, run) {
        assert t[i] == t[1..][i - 1];
      }
    }
  }

  /** The rule of `id` whose `constructPrograms` call produced a program of `RulePrograms`. */
  lemma {:induction false} RuleProgramsMember(g: Grammar, id: nat, k: nat, s: nat, p: Program) returns (r: nat)
    requires WellFormed(g) && id < |g.symbols| && k <= |g.symbols[id].rules|
    requires p in RulePrograms(g, id, k, s)
    ensures r < k && RuleOf(g, g.symbols[id].rules[r]) && p in ConstructAt(g, g.symbols[id].rules[r], s)
  {
    assert k != 0;
    RuleProgramsStep(g, id, k - 1, s);
    var done, ps := RulePrograms(g, id, k - 1, s), ConstructAt(g, g.symbols[id].rules[k - 1], s);
    assert p in done + ps;
    if p in done {
      r := RuleProgramsMember(g, id, k - 1, s, p);
    } else {
      r := k - 1;
    }
  }

  /** A program of a list is no larger than the whole list. */
  lemma {:induction false} ChildSmaller(ps: seq<Program>, j: nat)
    requires j < |ps|
    ensures Size(ps[j]) <= SizesSum(ps)
  {
    if j > 0 {
      ChildSmaller(ps[1..], j - 1);
    }
  }

  /** Soundness: bucket `s` of symbol `id` holds only programs of `id` with `s` nodes. */
  lemma {:induction false} BucketSound(g: Grammar, id: nat, s: nat, p: Program)
    requires WellFormed(g) && id < |g.symbols| && p in Bucket(g, id, s)
    ensures Derives(g, id, p) && Size(p) == s
    decreases s
  {
    var rules := g.symbols[id].rules;
    var r := RuleProgramsMember(g, id, |rules|, s, p);
    var rule := rules[r];
    var st := StoreBelow(g, s);
    ConstructSound(rule, s, st, p);
    var sc: seq<int> :| Drawn(rule, s, st, sc, p.children);
    forall j | 0 <= j < |p.children|
      ensures Derives(g, rule.params[j], p.children[j]) && Size(p.children[j]) == sc[j]
    {
      StoreBelowBucket(g, s, rule.params[j], sc[j]);
      BucketSound(g, rule.params[j], sc[j], p.children[j]);
    }
    SizesSumOfBuckets(p.children, sc);
  }

  /** Completeness: every program of symbol `id` is stored in the bucket of its own size. */
  lemma {:induction false} BucketComplete(g: Grammar, id: nat, p: Program)
    requires WellFormed(g) && Derives(g, id, p)
    ensures p in Bucket(g, id, Size(p))
    decreases p, 1
  {
    var rules := g.symbols[id].rules;
    var r :| 0 <= r < |rules| && rules[r] == p.rule;
    RuleProgramsStep(g, id, r, Size(p));
    ChildrenStored(g, p);
    RuleInBucket(g, id, r, Size(p), p);
  }

  /** No symbol lists the same rule twice. */
  predicate DistinctRules(g: Grammar)
  {
    forall id :: 0 <= id < |g.symbols| ==> NoDup(g.symbols[id].rules)
  }

  /** No bucket holds the same program twice, when no symbol repeats a rule: programs of
      different rules differ at the root, and `constructPrograms` builds no program twice. */
  lemma {:induction false} BucketNoDup(g: Grammar, id: nat, s: nat)
    requires WellFormed(g) && DistinctRules(g) && id < |g.symbols|
    ensures NoDup(Bucket(g, id, s))
    decreases s, 2
  {
    if s > 0 {
      RuleProgramsNoDup(g, id, |g.symbols[id].rules|, s);
    }
  }

  lemma {:induction false} RuleProgramsNoDup(g: Grammar, id: nat, k: nat, s: nat)
    requires WellFormed(g) && DistinctRules(g) && id < |g.symbols| && k <= |g.symbols[id].rules| && 1 <= s
    ensures NoDup(RulePrograms(g, id, k, s))
    decreases s, 1, k
  {
    if k > 0 {
      var rules := g.symbols[id].rules;
      RuleProgramsNoDup(g, id, k - 1, s);
      RuleProgramsStep(g, id, k - 1, s);
      var rule, st := rules[k - 1], StoreBelow(g, s);
      StoreBelowDistinct(g, s);
      ConstructNoDup(rule, s, st);
      var a, b := RulePrograms(g, id, k - 1, s), ConstructAt(g, rule, s);
      forall i, j | 0 <= i < |a| && 0 <= j < |b| ensures a[i] != b[j] {
        EarlierRuleDiffers(g, id, k, s, a[i], b[j]);
      }
      NoDupAppend(a, b);
    }
  }

  /** A program stored for one of the first `k - 1` rules is not one built by rule `k - 1`. */
  lemma EarlierRuleDiffers(g: Grammar, id: nat, k: nat, s: nat, p: Program, q: Program)
    requires WellFormed(g) && DistinctRules(g) && id < |g.symbols| && 1 <= k <= |g.symbols[id].rules|
    requires p in RulePrograms(g, id, k - 1, s) && q in ConstructAt(g, g.symbols[id].rules[k - 1], s)
    ensures p != q
  {
    var rules, st := g.symbols[id].rules, StoreBelow(g, s);
    var r := RuleProgramsMember(g, id, k - 1, s, p);
    ConstructSound(rules[r], s, st, p);
    ConstructSound(rules[k - 1], s, st, q);
    assert rules[r] != rules[k - 1];
  }

  /** The storage `constructPrograms` reads at size `s` is sized and free of repeats. */
  lemma {:induction false} StoreBelowDistinct(g: Grammar, s: nat)
    requires WellFormed(g) && DistinctRules(g)
    ensures BucketsSized(StoreBelow(g, s)) && BucketsDistinct(StoreBelow(g, s))
    decreases s, 0
  {
    var st := StoreBelow(g, s);
    forall id, i, q | 0 <= id < |st| && 0 <= i < |st[id]| && q in st[id][i] ensures Size(q) == i {
      StoreBelowBucket(g, s, id, i);
      BucketSound(g, id, i, q);
    }
    forall id, i | 0 <= id < |st| && 0 <= i < |st[id]| ensures NoDup(st[id][i]) {
      StoreBelowBucket(g, s, id, i);
      BucketNoDup(g, id, i);
    }
  }

  /** Without distinct rules the property fails: a symbol that lists a nullary rule twice
      stores the same program twice at size 1. */
  lemma DuplicateRules()
    ensures var r := Rule("c", []);
      var g := Grammar([Symbol("S", [r, r])], 0);
      WellFormed(g) && Bucket(g, 0, 1) == [Program(r, []), Program(r, [])] && !NoDup(Bucket(g, 0, 1))
  {
    var r := Rule("c", []);
    var g := Grammar([Symbol("S", [r, r])], 0);
    ConstructNullary(r, 1, StoreBelow(g, 1));
    RuleProgramsStep(g, 0, 0, 1);
    RuleProgramsStep(g, 0, 1, 1);
    assert Bucket(g, 0, 1)[0] == Bucket(g, 0, 1)[1];
  }

  /** A program built by `constructPrograms` from the sub-programs stored below its size:
      its sub-programs are stored, each in the bucket of its own size, by the time the
      size of the whole program begins. */
  lemma {:induction false} ChildrenStored(g: Grammar, p: Program)
    requires WellFormed(g) && RuleOf(g, p.rule) && |p.children| == |p.rule.params|
    requires forall j :: 0 <= j < |p.children| ==> Derives(g, p.rule.params[j], p.children[j])
    ensures p in ConstructAt(g, p.rule, Size(p))
    decreases p, 0
  {
    var s, rule := Size(p), p.rule;
    var st := StoreBelow(g, s);
    var sc := seq(|p.children|, j requires 0 <= j < |p.children| => Size(p.children[j]));
    forall j | 0 <= j < |sc| ensures 0 <= sc[j] < s && p.children[j] in st[rule.params[j]][sc[j]] {
      ChildSmaller(p.children, j);
      BucketComplete(g, rule.params[j], p.children[j]);
      StoreBelowBucket(g, s, rule.params[j], sc[j]);
    }
    SizesSumOfBuckets(p.children, sc);
    ConstructComplete(rule, s, st, sc, p.children);
    assert p == BuildProgram(rule, p.children);
  }

  /** What `constructPrograms` returns for one rule of `id` lands in the bucket of `id`. */
  lemma {:induction false} RuleInBucket(g: Grammar, id: nat, r: nat, s: nat, p: Program)
    requires WellFormed(g) && id < |g.symbols| && r < |g.symbols[id].rules| && 1 <= s
    requires RuleOf(g, g.symbols[id].rules[r]) && p in ConstructAt(g, g.symbols[id].rules[r], s)
    ensures p in Bucket(g, id, s)
  {
    var rules := g.symbols[id].rules;
    RuleProgramsStep(g, id, r, s);
    var done := RulePrograms(g, id, r + 1, s);
    assert p in done;
    RuleProgramsPrefix(g, id, r + 1, |rules|, s);
    InPrefix(p, done, RulePrograms(g, id, |rules|, s));
  }

  lemma {:induction false} InPrefix<T>(x: T, a: seq<T>, b: seq<T>)
    requires x in a && a <= b
    ensures x in b
  {
    var i :| 0 <= i < |a| && a[i] == x;
    assert b[i] == x;
  }

  /** The candidates a list of programs is stored as, tagged with symbol `id`. */
  lemma {:induction false} TagMember(id: nat, ps: seq<Program>, c: Candidate)
    ensures c in Tag(id, ps) <==> c.symbol == id && c.program in ps
  {
    if c in Tag(id, ps) {
      var i :| 0 <= i < |ps| && Tag(id, ps)[i] == c;
    }
    if c.symbol == id && c.program in ps {
      var i :| 0 <= i < |ps| && ps[i] == c.program;
      assert Tag(id, ps)[i] == c;
    }
  }

  lemma {:induction false} LevelTraceMember(g: Grammar, s: nat, m: nat, c: Candidate)
    requires WellFormed(g) && m <= |g.symbols|
    ensures c in LevelTrace(g, s, m) <==> c.symbol < m && c.program in Bucket(g, c.symbol, s)
  {
    if m > 0 {
      LevelTraceMember(g, s, m - 1, c);
      TagMember(m - 1, Bucket(g, m - 1, s), c);
    }
  }

  /** The candidates stored up to size `s` are exactly the programs of each symbol with at
      most `s` nodes. */
  lemma {:induction false} TraceMember(g: Grammar, s: nat, c: Candidate)
    requires WellFormed(g)
    ensures c in Trace(g, s) <==> Derives(g, c.symbol, c.program) && Size(c.program) <= s
  {
    if s > 0 {
      TraceMember(g, s - 1, c);
      LevelTraceMember(g, s, |g.symbols|, c);
      if c.symbol < |g.symbols| && c.program in Bucket(g, c.symbol, s) {
        BucketSound(g, c.symbol, s, c.program);
      }
      if Derives(g, c.symbol, c.program) && Size(c.program) == s {
        BucketComplete(g, c.symbol, c.program);
      }
    }
  }

  /** Candidates listed in non-decreasing program size. */
  predicate SizeSorted(t: seq<Candidate>)
  {
    forall i, j :: 0 <= i < j < |t| ==> Size(t[i].program) <= Size(t[j].program)
  }

  /** The enumeration goes from small to large: candidates are stored in non-decreasing size. */
  lemma {:induction false} TraceSorted(g: Grammar, s: nat)
    requires WellFormed(g)
    ensures SizeSorted(Trace(g, s))
  {
    if s > 0 {
      TraceSorted(g, s - 1);
      var a, b := Trace(g, s - 1), LevelTrace(g, s, |g.symbols|);
      assert Trace(g, s) == a + b;
      forall i | 0 <= i < |a| ensures Size(a[i].program) <= s - 1 {
        TraceMember(g, s - 1, a[i]);
      }
      forall i | 0 <= i < |b| ensures Size(b[i].program) == s {
        LevelTraceMember(g, s, |g.symbols|, b[i]);
        BucketSound(g, b[i].symbol, s, b[i].program);
      }
    }
  }

  /** In a size-sorted list the first accepted candidate is no larger than any accepted one. */
  lemma {:induction false} FirstIsSmallest<V>(t: seq<Candidate>, start: nat, examples: seq<Example<V>>, run: (Program, seq<V>) -> V, c: Candidate)
    requires SizeSorted(t) && FirstVerified(t, start, examples, run).Some? && c in t
    ensures Accepted(c, start, examples, run) ==> Size(FirstVerified(t, start, examples, run).value) <= Size(c.program)
  {
    FirstVerifiedSome(t, start, examples, run);
    var i :| && 0 <= i < |t| && Accepted(t[i], start, examples, run)
             && t[i].program == FirstVerified(t, start, examples, run).value
             && forall j :: 0 <= j < i ==> !Accepted(t[j], start, examples, run);
    var j :| 0 <= j < |t| && t[j] == c;
    assert Accepted(c, start, examples, run) ==> i <= j;
  }

  /** A returned program is a program of the start symbol with at most `bound` nodes that
      satisfies every example, and no program of the start symbol with fewer nodes does. */
  lemma SynthesisFound<V>(g: Grammar, examples: seq<Example<V>>, run: (Program, seq<V>) -> V, bound: nat)
    requires WellFormed(g)
    requires FirstVerified(Trace(g, bound), g.start, examples, run).Some?
    ensures var p := FirstVerified(Trace(g, bound), g.start, examples, run).value;
      && Derives(g, g.start, p) && Size(p) <= bound && Satisfies(p, examples, run)
      && forall q :: Derives(g, g.start, q) && Size(q) < Size(p) ==> !Satisfies(q, examples, run)
  {
    var t := Trace(g, bound);
    var p := FirstVerified(t, g.start, examples, run).value;
    FirstVerifiedSome(t, g.start, examples, run);
    var i :| 0 <= i < |t| && Accepted(t[i], g.start, examples, run) && t[i].program == p;
    TraceMember(g, bound, t[i]);
    TraceSorted(g, bound);
    forall q | Derives(g, g.start, q) && Size(q) < Size(p) ensures !Satisfies(q, examples, run) {
      var c := Candidate(g.start, q);
      TraceMember(g, bound, c);
      FirstIsSmallest(t, g.start, examples, run, c);
    }
  }

  /** Nothing is returned exactly when no program of the start symbol with at most `bound`
      nodes satisfies every example. */
  lemma SynthesisNone<V>(g: Grammar, examples: seq<Example<V>>, run: (Program, seq<V>) -> V, bound: nat)
    requires WellFormed(g)
    ensures FirstVerified(Trace(g, bound), g.start, examples, run).None? <==>
      forall q :: Derives(g, g.start, q) && Size(q) <= bound ==> !Satisfies(q, examples, run)
  {
    var t := Trace(g, bound);
    if FirstVerified(t, g.start, examples, run).None? {
      FirstVerifiedNone(t, g.start, examples, run);
      forall q | Derives(g, g.start, q) && Size(q) <= bound ensures !Satisfies(q, examples, run) {
        var c := Candidate(g.start, q);
        TraceMember(g, bound, c);
        var j :| 0 <= j < |t| && t[j] == c;
        assert !Accepted(t[j], g.start, examples, run);
      }
    } else {
      SynthesisFound(g, examples, run, bound);
    }
  }
}
