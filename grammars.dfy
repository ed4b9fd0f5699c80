/**
 * The grammar and program data model of the enumerative synthesizer: non-terminal
 * symbols indexed densely from 0, production rules over parameter symbols, and
 * program trees built by applying a rule to sub-programs.
 */
module Grammars {
  import opened Seqs

  /** A production rule; `params` holds the indices of its parameter symbols, in order. */
  datatype Rule = Rule(name: string, params: seq<nat>)

  /** A non-terminal symbol with its ordered list of rules. Its index is its position in the grammar. */
  datatype Symbol = Symbol(name: string, rules: seq<Rule>)

  /** A grammar after symbol indexing: symbol `i` has index `i`. */
  datatype Grammar = Grammar(symbols: seq<Symbol>, start: nat)

  /** A program node: the rule that built it and its sub-programs, in parameter order. */
  datatype Program = Program(rule: Rule, children: seq<Program>)

  /** One input/output example. */
  datatype Example<V> = Example(input: seq<V>, output: V)

  datatype Option<T> = None | Some(value: T)

  /** Indexing has been done and every reference resolves: the start symbol and every
      parameter symbol is an index in `[0, |symbols|)`. */
  predicate WellFormed(g: Grammar)
  {
    g.start < |g.symbols| &&
    forall i, j, k :: 0 <= i < |g.symbols| && 0 <= j < |g.symbols[i].rules| && 0 <= k < |g.symbols[i].rules[j].params| ==>
      g.symbols[i].rules[j].params[k] < |g.symbols|
  }

  /** `rule->buildProgram(sub_list)`: a new node for `rule` over `subs`. */
  function BuildProgram(rule: Rule, subs: seq<Program>): Program
  {
    Program(rule, subs)
  }

  /** The number of nodes of a program tree. */
  function Size(p: Program): nat
    decreases p, 1
  {
    1 + SizesSum(p.children)
  }

  /** The sum of the sizes of a list of programs. */
  function SizesSum(ps: seq<Program>): nat
    decreases ps, 0
  {
    if ps == [] then 0 else Size(ps[0]) + SizesSum(ps[1..])
  }
}
