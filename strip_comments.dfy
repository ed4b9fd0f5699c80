/**
 * `stripComments` of the benchmark reader: turns the lines of a SyGuS benchmark file into
 * one string holding a single S-expression, by dropping everything from the first `;`
 * of each line (a comment) and wrapping the concatenated remainders in parentheses.
 * A file is the sequence of its lines, each line with its own line terminator.
 */
module SexpReader {

  /** `line.split(';', 1)[0]`: the part of `line` before its first `;`, or the whole line
      when it has none. It is the longest prefix of `line` free of `;`. */
  function BeforeSemi(line: string): (r: string)
    ensures ';' !in r && r <= line
    ensures r == line || line[|r|] == ';'
    ensures ';' !in line ==> r == line
    ensures ';' in line ==> |r| < |line| && line[|r|] == ';'
  {
    if line == [] || line[0] == ';' then [] else [line[0]] + BeforeSemi(line[1..])
  }

  /** The remainders of `lines`, concatenated in order. */
  function Stripped(lines: seq<string>): string
  {
    if lines == [] then [] else Stripped(lines[..|lines| - 1]) + BeforeSemi(lines[|lines| - 1])
  }

  /** The lines concatenated in order, as the file's text. */
  function Concat(lines: seq<string>): string
  {
    if lines == [] then [] else Concat(lines[..|lines| - 1]) + lines[|lines| - 1]
  }

  /** `stripComments(bmFile)`: starts from `(`, appends the remainder of each line in file
      order, and closes with `)`. */
  method StripComments(lines: seq<string>) returns (r: string)
    ensures r == "(" + Stripped(lines) + ")"
    ensures |r| >= 2 && r[0] == '(' && r[|r| - 1] == ')' && ';' !in r
    ensures lines == [] ==> r == "()"
  {
    var noComments := "(";
    for i := 0 to |lines|
      invariant noComments == "(" + Stripped(lines[..i])
    {
      var line := BeforeSemi(lines[i]);
      assert lines[..i + 1][..i] == lines[..i];
      noComments := noComments + line;
    }
    assert lines[..|lines|] == lines;
    r := noComments + ")";
    StrippedNoSemicolon(lines);
  }

  /** Any `;`-free prefix that stops at the end of the line or at a `;` is the one the split
      keeps: the split is characterised independently of how it is computed. */
  lemma {:induction false} BeforeSemiUnique(line: string, p: string)
    requires p <= line && ';' !in p && (p == line || line[|p|] == ';')
    ensures BeforeSemi(line) == p
  {
    var r := BeforeSemi(line);
    assert forall k :: 0 <= k < |r| && k < |p| ==> r[k] == line[k] == p[k];
  }

  /** The stripped text holds no comment character. */
  lemma {:induction false} StrippedNoSemicolon(lines: seq<string>)
    ensures ';' !in Stripped(lines)
    ensures ';' !in "(" + Stripped(lines) + ")"
  {
    if lines != [] {
      StrippedNoSemicolon(lines[..|lines| - 1]);
    }
  }

  /** Stripping never lengthens the text, and it shortens it when some line has a comment. */
  lemma {:induction false} StrippedLength(lines: seq<string>)
    ensures |Stripped(lines)| <= |Concat(lines)|
    ensures (exists i :: 0 <= i < |lines| && ';' in lines[i]) ==> |Stripped(lines)| < |Concat(lines)|
  {
    if lines != [] {
      var init, last := lines[..|lines| - 1], lines[|lines| - 1];
      StrippedLength(init);
      if exists i :: 0 <= i < |lines| && ';' in lines[i] {
        var i :| 0 <= i < |lines| && ';' in lines[i];
        if i < |lines| - 1 {
          assert init[i] == lines[i];
        } else {
          assert BeforeSemi(last) != last;
        }
      }
    }
  }

  /** The text comes through unchanged exactly when no line has a comment. */
  lemma {:induction false} StrippedUnchanged(lines: seq<string>)
    ensures Stripped(lines) == Concat(lines) <==> forall i :: 0 <= i < |lines| ==> ';' !in lines[i]
  {
    StrippedLength(lines);
    if forall i :: 0 <= i < |lines| ==> ';' !in lines[i] {
      CommentFree(lines);
    }
  }

  lemma {:induction false} CommentFree(lines: seq<string>)
    requires forall i :: 0 <= i < |lines| ==> ';' !in lines[i]
    ensures Stripped(lines) == Concat(lines)
  {
    if lines != [] {
      var init, last := lines[..|lines| - 1], lines[|lines| - 1];
      assert forall i :: 0 <= i < |init| ==> init[i] == lines[i];
      CommentFree(init);
      assert ';' !in last;
    }
  }

  /** A line read from a file ends with its terminator: the terminator is kept exactly
      when the line has no comment, so a commented line runs on into the next one. */
  lemma {:induction false} LineTerminator(line: string)
    requires |line| >= 1 && line[|line| - 1] == '\n' && '\n' !in line[..|line| - 1]
    ensures '\n' in BeforeSemi(line) <==> ';' !in line
  {
    var r := BeforeSemi(line);
    if ';' in line {
      assert forall k :: 0 <= k < |r| ==> r[k] == line[..|line| - 1][k];
    } else {
      assert r[|line| - 1] == '\n';
    }
  }
}
