# Bottom-up enumerative synthesis, verified in Dafny

This project models the search engine of a bottom-up, size-stratified enumerative
program synthesizer for SyGuS problems. It also models the comment stripper of the
benchmark reader.

- **The synthesizer (`tasks/task_enumeration.cpp`).** `synthesisFromExample` fills a
  table `program_storage[symbol][size]` one size at a time. At each size it walks every
  grammar symbol and every rule of that symbol. For each rule it calls
  `constructPrograms`, appends each result to the bucket, and runs each start-symbol
  candidate through the example `verifier`. It returns the first candidate that passes.
- **`constructPrograms`.** It computes each parameter's pool of available sizes. It then
  lists every split of the remaining budget across the parameters with the
  backtracking `_getAllSizeScheme`. Each split is expanded into programs by the
  backtracking cartesian product `buildAllCombination`.
- **`stripComments` (`sygus/parser/python/main.py`).** It drops the `;` comment of each
  line of a benchmark and wraps the rest in parentheses.

## Layout

| file | module | models |
|---|---|---|
| `seqs.dfy` | `Seqs` | Sequence helpers: `Sum`, `Extend`, `NoDup` and `Ascending`. |
| `grammars.dfy` | `Grammars` | Rules, symbols, grammars and programs. `buildProgram` is a constructor and `Size` counts nodes. `WellFormed` states what `indexSymbol` establishes. |
| `size_schemes.dfy` | `SizeSchemes` | `getAllSizeScheme` / `_getAllSizeScheme`. The class `SchemeSearch` holds the by-reference vectors `tmp` and `res`. |
| `combinations.dfy` | `Combinations` | `buildAllCombination`. The class `CombinationBuilder` holds `sub_list` and `res`. |
| `expansion.dfy` | `Expansion` | `constructPrograms`: the size pools, the scheme loop and the per-scheme product. |
| `enumeration.dfy` | `Enumeration` | The `verifier` lambda and the driver `synthesisFromExample`. |
| `search_space.dfy` | `SearchSpace` | What the driver finds: the program space of a grammar, and soundness, completeness and smallest-first results. |
| `strip_comments.dfy` | `SexpReader` | `stripComments`. |

The search order is fixed by specification functions:

- `Schemes` / `Choices` / `Branch` give the order of size splits.
- `Product` / `Picks` give the order of combinations.
- `Construct` / `BuildFor` give the output order of `constructPrograms`.
- `Bucket` / `RulePrograms` / `ConstructAt` / `StoreBelow` give the content of the storage.
- `Trace` gives the candidates in the order they are stored.

Each imperative routine is proved equal to its specification function. Lemmas then
prove what those functions mean.

The driver's nested loops are split into one method per loop level. `ExpandSize` is the
symbol loop of one size. `ExpandSymbol` is the rule loop of one symbol. `ExpandRule` is
the candidate loop of one rule. `SynthesisFromExample` keeps the size loop. The early
`return` of the source becomes a `found` result that every level passes up. In the same way, the loop of
`constructPrograms` that collects one parameter's sizes is the method `SizeList`.

Behaviour of the code that a reader might not expect:

- **Size pools.** The pools are taken from sizes `0 .. size - 1`, not `1 .. size - 1`.
  Bucket 0 is always empty, so the results are the same.
- **No de-duplication step.** Nothing removes duplicate programs from a bucket. None is
  needed when no symbol lists a rule twice: `BucketNoDup` proves every bucket then free of
  repeats. A repeated rule does store repeats (`DuplicateRules`).
- **Faults from `run`.** A fault raised by `run` is not caught. `run` is a total function
  here.
- **Malformed grammars.** These are not checked by the code. They are the precondition
  `WellFormed`.

## Model

| member | source | states |
|---|---|---|
| SizeSchemes.SchemeSearch.Search | tasks/task_enumeration.cpp:156-171 | `_getAllSizeScheme(pos, …)` appends to `res`, in search order, `tmp` followed by each split of `rem` over the pools from `pos` on. Earlier `res` entries are kept and `tmp` is restored on return. |
| SizeSchemes.GetAllSizeScheme | tasks/task_enumeration.cpp:149-154 | The result is exactly the ordered list of splits `Schemes(pool, size)`. |
| SizeSchemes.SchemesSound | tasks/task_enumeration.cpp:156-170 | Every split returned has one entry per pool, entry `i` is a member of `pool[i]`, and the entries sum to exactly the budget. |
| SizeSchemes.SchemesComplete | tasks/task_enumeration.cpp:158-170 | Conversely, if no pool has a negative entry, every vector with one entry per pool drawn from that pool and summing to the budget is returned. |
| SizeSchemes.SchemesNoDup | tasks/task_enumeration.cpp:158-170 | If no pool repeats a size, no split is returned twice. |
| SizeSchemes.SchemesLexSorted | tasks/task_enumeration.cpp:158-170 | If every pool is strictly ascending, the splits come out in strictly increasing lexicographic order. That is the order of chosen positions within the pools. |
| Combinations.CombinationBuilder.Build | tasks/task_enumeration.cpp:181-195 | `buildAllCombination(pos, …)` appends to `res` one program per choice of sub-programs for positions `pos` on, each built over `sub_list` followed by the choice. It appends exactly the product of the list lengths, keeps earlier `res` entries, and restores `sub_list`. |
| Combinations.ProductLength | tasks/task_enumeration.cpp:186-193 | The number of choices is the product of the list lengths. |
| Combinations.ProductSound | tasks/task_enumeration.cpp:186-193 | Every choice has one element per list, and element `j` comes from `sub_programs[j]`. |
| Combinations.ProductComplete | tasks/task_enumeration.cpp:186-193 | Every vector with one element from each list is a choice. |
| Combinations.ProductNoDup | tasks/task_enumeration.cpp:186-193 | If no list repeats an element, no choice is produced twice. |
| Expansion.ConstructPrograms | tasks/task_enumeration.cpp:198-250 | The nested loops return exactly `Construct(rule, size, storage)`: for each split of `size - 1`, in order, the product of the chosen buckets. |
| Expansion.SizeList | tasks/task_enumeration.cpp:215-224 | The loop over sizes for one parameter returns `SizePool(buckets, size)`: by `SizePoolSpec`, exactly the sizes below `size` whose bucket is non-empty, ascending. |
| Expansion.SizePoolSpec | tasks/task_enumeration.cpp:207-226 | A parameter's pool holds exactly the indices `i` in `[0, size)` whose bucket is non-empty, in strictly ascending order. |
| Expansion.ConstructSound | tasks/task_enumeration.cpp:230-247 | Every program built has `rule` at its root. Its sub-program `j` comes from bucket `sc[j]` of parameter `j`, where each `sc[j]` is below `size` and the `sc[j]` sum to `size - 1`. |
| Expansion.ConstructComplete | tasks/task_enumeration.cpp:230-247 | Conversely, every such choice of sub-programs is built. |
| Expansion.ConstructNoDup | tasks/task_enumeration.cpp:230-247 | If no bucket repeats a program, `constructPrograms` returns no program twice: different splits give different children, because each bucket holds programs of its own size. |
| Expansion.ConstructSizes | tasks/task_enumeration.cpp:230-247 | If every bucket `s` holds only programs of size `s`, every program built at `size` has size `size`. |
| Expansion.ConstructNullary | tasks/task_enumeration.cpp:158-160 | A rule without parameters yields exactly one program at size 1 and none at any other size: the empty split is kept only when the remaining budget `size - 1` is 0 (the call is at line 230). |
| Expansion.ConstructFrame | tasks/task_enumeration.cpp:215-237 | `constructPrograms` reads only buckets below `size`, so two storages that agree there give the same programs. |
| Enumeration.Verify | tasks/task_enumeration.cpp:24-29 | The verifier accepts exactly when `run(p, inp) == oup` for every example. On rejection it stopped at the first mismatching example, having matched all earlier ones. |
| Enumeration.ExpandRule | tasks/task_enumeration.cpp:47-61 | The candidate loop appends the programs of one rule to bucket `size` of the symbol, one by one. It returns the first start-symbol program that passes the verifier, and it returns nothing only after storing them all. |
| Enumeration.ExpandSymbol | tasks/task_enumeration.cpp:42-62 | One symbol at one size appends a new bucket and fills it rule by rule. That bucket is exactly `Bucket(g, id, size)`. The result is the first accepted candidate of that bucket. |
| Enumeration.ExpandSize | tasks/task_enumeration.cpp:37-63 | One size appends exactly one bucket per symbol and leaves lower buckets unchanged. The new storage is `StoreBelow(g, size + 1)`. The result is the first accepted candidate of that size, in symbol order. |
| Enumeration.SynthesisFromExample | tasks/task_enumeration.cpp:19-65 | The result is the first start-symbol candidate, in storing order over sizes `1 ..` bound, that satisfies the examples. It is `None` when there is none. |
| Enumeration.StoreBelowInit | tasks/task_enumeration.cpp:33 | The storage starts with one empty bucket 0 per symbol. That is the storage size 1 begins with. |
| Enumeration.StoreBelowStep | tasks/task_enumeration.cpp:42-54 | Appending bucket `size` to every symbol's list turns the storage at the start of `size` into the storage at the start of `size + 1`. No existing bucket changes. |
| Enumeration.StorageFrame | tasks/task_enumeration.cpp:50-54 | While bucket `size` is being filled, `constructPrograms` builds from the growing storage exactly what it builds from the storage as it was when the size began. |
| SearchSpace.BucketSound | tasks/task_enumeration.cpp:50-54 | Every program stored in bucket `s` of symbol `id` is a program of `id` derivable from the grammar, with exactly `s` nodes. |
| SearchSpace.BucketComplete | tasks/task_enumeration.cpp:37-54 | Every program derivable from symbol `id` is stored in the bucket of its own size. |
| SearchSpace.BucketNoDup | tasks/task_enumeration.cpp:47-54 | If no symbol lists the same rule twice, no bucket holds the same program twice, although the driver never removes duplicates. |
| SearchSpace.DuplicateRules | tasks/task_enumeration.cpp:47-54 | A symbol that lists a nullary rule twice stores the same program twice at size 1, so distinct rules are needed for the previous row. |
| SearchSpace.TraceMember | tasks/task_enumeration.cpp:37-64 | The candidates stored up to size `s` are exactly the derivable programs of each symbol with at most `s` nodes. Nothing above the bound is explored. |
| SearchSpace.TraceSorted | tasks/task_enumeration.cpp:37-54 | Candidates are stored in non-decreasing size. |
| SearchSpace.FirstVerifiedSome | tasks/task_enumeration.cpp:57-59 | A result is an accepted start-symbol candidate, with no accepted candidate stored before it. |
| SearchSpace.FirstVerifiedNone | tasks/task_enumeration.cpp:57-65 | No result means no stored candidate is accepted. |
| SearchSpace.SynthesisFound | tasks/task_enumeration.cpp:19-65 | A returned program is derivable from the start symbol, has at most `bound` nodes and satisfies every example. No derivable start-symbol program with fewer nodes satisfies them all. |
| SearchSpace.SynthesisNone | tasks/task_enumeration.cpp:37-65 | The driver fails exactly when no derivable start-symbol program with at most `bound` nodes satisfies every example. |
| SexpReader.StripComments | sygus/parser/python/main.py:6-20 | The result is `(`, then each line's part before its first `;` in line order, then `)`. It starts with `(`, ends with `)` and contains no `;`. Empty input gives `()`. |
| SexpReader.BeforeSemi | sygus/parser/python/main.py:14 | `split(';', 1)[0]` is a `;`-free prefix that reaches the end of the line or stops at a `;`. A line without `;` is kept whole; a line with `;` is cut exactly at its first `;`. |
| SexpReader.BeforeSemiUnique | sygus/parser/python/main.py:14 | That prefix is unique, so the split is characterised independently of how it is computed. |
| SexpReader.StrippedNoSemicolon | sygus/parser/python/main.py:11-20 | The stripped text and the wrapped result contain no `;`. |
| SexpReader.StrippedLength | sygus/parser/python/main.py:11-17 | Stripping never lengthens the text. It shortens it when some line has a comment. |
| SexpReader.StrippedUnchanged | sygus/parser/python/main.py:11-17 | The text comes through unchanged exactly when no line has a comment. |
| SexpReader.LineTerminator | sygus/parser/python/main.py:11-17 | For a line read with its terminator, the newline is kept exactly when the line has no comment. A commented line therefore runs on into the next one. |

## Left out

- `main` (tasks/task_enumeration.cpp:71-139) is not modelled. It is specification-file parsing, example-space casting, printing and timing.
- `cegis` (tasks/task_enumeration.cpp:68-69) is not modelled. Its body is empty.
- Logging is not modelled. All `std::cout` and `LOG(INFO)` output in the driver and in `constructPrograms` has no effect on the result.
- Observational-equivalence pruning (tasks/task_enumeration.cpp:35) is not modelled. It is not implemented in the source.
- `indexSymbol` is not modelled as code. Its effect is assumed through the precondition `WellFormed`: symbol `i` has index `i`, and the start symbol and every parameter are in range.
- `env->run` is not modelled as code. It is the function parameter `run`, which is total and deterministic, so faults raised while running a program are not modelled.
- `buildProgram` is the datatype constructor `Program(rule, children)`. `Size` is the node count.
- `toString` is not modelled. It is only used for printing.
- Shared ownership of programs through `shared_ptr` is not modelled. Programs are values, so which stored programs share sub-trees is not captured.
- Enumeration.SynthesisFromExample: the size bound, hard-coded to 4 in the source, is the parameter `bound`.
- Enumeration.SynthesisFromExample: the fall-through at the end, where C++ reaches the end of a non-void function, is modelled as `None`.
- Machine integers are unbounded here, so overflow of `int` sizes is not modelled. Sizes never exceed the bound.
- Enumeration.Verify: the count of calls to `run` is a ghost output.
- SexpReader.StripComments: the benchmark file is the sequence of its lines, each with its line terminator. The Python file iterator and its encoding are not modelled.
- `sexpFromString` (sygus/parser/python/main.py:29-30) is not modelled. It wraps a parsing library that is not part of this model.
- `sexpFromFile` and the `__main__` block (sygus/parser/python/main.py:39-60) are not modelled. They are file I/O and JSON output.
