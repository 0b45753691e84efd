/**
 * The PTX sanitiser: the compiled PTX text is read line by line, and comment lines and
 * `.file` directive lines are dropped so that the embedded code does not change with build
 * paths. Each char stands for one byte of the file.
 */
module Ptx {
  const CommentPrefix := "//"
  const FilePrefix := "\t.file"

  predicate HasPrefix(line: string, prefix: string) {
    |prefix| <= |line| && line[..|prefix|] == prefix
  }

  /** The lines filterptx leaves out. */
  predicate Dropped(line: string) {
    HasPrefix(line, CommentPrefix) || HasPrefix(line, FilePrefix)
  }

  /** A complete line: it ends with its only newline. */
  predicate IsLine(line: string) {
    |line| > 0 && line[|line| - 1] == '\n' && forall j :: 0 <= j < |line| - 1 ==> line[j] != '\n'
  }

  /** Text that is a whole number of lines: empty, or ending in a newline. */
  predicate Complete(text: string) {
    text == [] || text[|text| - 1] == '\n'
  }

  /** Where ReadBytes('\n') started at `pos` stops: the next newline, or the end of the text. */
  function LineEnd(text: string, pos: nat): (k: nat)
    requires pos <= |text|
    ensures pos <= k <= |text|
    ensures k < |text| ==> text[k] == '\n'
    decreases |text| - pos
  {
    if pos == |text| || text[pos] == '\n' then pos else LineEnd(text, pos + 1)
  }

  /** No newline comes before the place where a line ends. */
  lemma {:induction false} LineEndClear(text: string, pos: nat)
    requires pos <= |text|
    ensures forall j :: pos <= j < LineEnd(text, pos) ==> text[j] != '\n'
    decreases |text| - pos
  {
    if pos < |text| && text[pos] != '\n' {
      LineEndClear(text, pos + 1);
    }
  }

  lemma {:induction false} LineEndShift(a: string, b: string, pos: nat)
    requires pos <= |b|
    ensures LineEnd(a + b, |a| + pos) == |a| + LineEnd(b, pos)
    decreases |b| - pos
  {
    if pos < |b| && b[pos] != '\n' {
      LineEndShift(a, b, pos + 1);
    }
  }

  // ---------------------------------------------------------------------------------------
  // The text as a sequence of lines
  // ---------------------------------------------------------------------------------------

  /**
   * The lines successive ReadBytes('\n') calls return from offset `pos` on before EOF, in
   * order. A last fragment without a newline comes back together with EOF, so it is not
   * among them.
   */
  function LinesFrom(text: string, pos: nat): seq<string>
    requires pos <= |text|
    decreases |text| - pos
  {
    var k := LineEnd(text, pos);
    if k == |text| then [] else [text[pos..k + 1]] + LinesFrom(text, k + 1)
  }

  /** The complete lines of the whole text. */
  function Lines(text: string): seq<string> {
    LinesFrom(text, 0)
  }

  /** The first line read from `pos` comes first in the lines from `pos`. */
  lemma LinesStep(text: string, pos: nat)
    requires pos <= |text| && LineEnd(text, pos) < |text|
    ensures LinesFrom(text, pos)
         == [text[pos..LineEnd(text, pos) + 1]] + LinesFrom(text, LineEnd(text, pos) + 1)
  {
  }

  /** Every line read ends with its only newline. */
  lemma {:induction false} LinesAreLines(text: string, pos: nat)
    requires pos <= |text|
    ensures forall i :: 0 <= i < |LinesFrom(text, pos)| ==> IsLine(LinesFrom(text, pos)[i])
    decreases |text| - pos
  {
    var k := LineEnd(text, pos);
    LineEndClear(text, pos);
    if k < |text| {
      LinesAreLines(text, k + 1);
      var ls := LinesFrom(text, pos);
      forall i | 0 <= i < |ls| ensures IsLine(ls[i]) {
        if i > 0 {
          assert ls[i] == LinesFrom(text, k + 1)[i - 1];
        }
      }
    }
  }

  /** The lines written one after another, as the output buffer collects them. */
  function Concat(ls: seq<string>): string {
    if ls == [] then "" else ls[0] + Concat(ls[1..])
  }

  lemma ConcatCons(l: string, ls: seq<string>)
    ensures Concat([l] + ls) == l + Concat(ls)
  {
    assert ([l] + ls)[1..] == ls;
  }

  /**
   * Equal heads and equal tails give equal sequences. A step of its own so that the solver
   * compares the two line lists without unfolding LinesFrom again.
   */
  lemma ConsEq<T>(x: seq<T>, h: T, t: seq<T>, y: seq<T>, h': T, t': seq<T>)
    requires x == [h] + t && y == [h'] + t'
    requires h == h' && t == t'
    ensures x == y
  {
  }

  /** The line from `pos` to `next` comes first in the lines from `pos`. */
  lemma LinesNext(text: string, pos: nat, next: nat)
    requires pos <= |text| && LineEnd(text, pos) < |text| && next == LineEnd(text, pos) + 1
    ensures LinesFrom(text, pos) == [text[pos..next]] + LinesFrom(text, next)
  {
    LinesStep(text, pos);
  }

  lemma LinesShiftStep(a: string, b: string, pos: nat, e: nat)
    requires pos <= |b| && LineEnd(b, pos) < |b| && e == LineEnd(b, pos) + 1
    requires LineEnd(a + b, |a| + pos) == |a| + LineEnd(b, pos)
    requires LinesFrom(a + b, |a| + e) == LinesFrom(b, e)
    ensures LinesFrom(a + b, |a| + pos) == LinesFrom(b, pos)
  {
    LinesNext(a + b, |a| + pos, |a| + e);
    LinesNext(b, pos, e);
    assert (a + b)[|a| + pos..|a| + e] == b[pos..e];
    ConsEq(LinesFrom(a + b, |a| + pos), (a + b)[|a| + pos..|a| + e], LinesFrom(a + b, |a| + e),
           LinesFrom(b, pos), b[pos..e], LinesFrom(b, e));
  }

  /** The lines of `b` read after a prefix `a` that ends a line are the lines of `b`. */
  lemma {:induction false} LinesShift(a: string, b: string, pos: nat)
    requires pos <= |b|
    ensures LinesFrom(a + b, |a| + pos) == LinesFrom(b, pos)
    decreases |b| - pos
  {
    LineEndShift(a, b, pos);
    if LineEnd(b, pos) < |b| {
      LinesShift(a, b, LineEnd(b, pos) + 1);
      LinesShiftStep(a, b, pos, LineEnd(b, pos) + 1);
    }
  }

  /** Splitting complete lines written out gives those same lines back. */
  lemma {:induction false} LinesOfConcat(ls: seq<string>)
    requires forall i :: 0 <= i < |ls| ==> IsLine(ls[i])
    ensures Lines(Concat(ls)) == ls
    decreases |ls|
  {
    if ls == [] {
      assert LineEnd("", 0) == 0;
    } else {
      var l, rest := ls[0], Concat(ls[1..]);
      var text := l + rest;
      assert text == Concat(ls);
      assert forall j :: 0 <= j < |l| ==> text[j] == l[j];
      LineEndClear(text, 0);
      assert LineEnd(text, 0) == |l| - 1;
      assert text[0..|l|] == l;
      LinesShift(l, rest, 0);
      LinesOfConcat(ls[1..]);
    }
  }

  /** Writing out the lines of a text that is a whole number of lines gives the text back. */
  lemma {:induction false} ConcatOfLines(text: string, pos: nat)
    requires Complete(text) && pos <= |text|
    ensures Concat(LinesFrom(text, pos)) == text[pos..]
    decreases |text| - pos
  {
    var k := LineEnd(text, pos);
    LineEndClear(text, pos);
    if k < |text| {
      ConcatOfLines(text, k + 1);
      assert text[pos..] == text[pos..k + 1] + text[k + 1..];
    }
  }

  lemma {:induction false} ConcatComplete(ls: seq<string>)
    requires forall i :: 0 <= i < |ls| ==> IsLine(ls[i])
    ensures Complete(Concat(ls))
    decreases |ls|
  {
    if ls != [] {
      ConcatComplete(ls[1..]);
      var rest := Concat(ls[1..]);
      assert Concat(ls) == ls[0] + rest;
    }
  }

  // ---------------------------------------------------------------------------------------
  // The lines filterptx keeps
  // ---------------------------------------------------------------------------------------

  /** The lines that are neither comments nor `.file` directives, in their order. */
  function Kept(ls: seq<string>): seq<string> {
    if ls == [] then [] else (if Dropped(ls[0]) then [] else [ls[0]]) + Kept(ls[1..])
  }

  /** A line is kept exactly when it is one of the lines and is not dropped. */
  lemma {:induction false} KeptMembers(ls: seq<string>, l: string)
    ensures l in Kept(ls) <==> l in ls && !Dropped(l)
  {
    if ls != [] {
      KeptMembers(ls[1..], l);
      assert ls == [ls[0]] + ls[1..];
    }
  }

  /** Lines none of which is dropped are all kept. */
  lemma {:induction false} KeptAll(ls: seq<string>)
    requires forall i :: 0 <= i < |ls| ==> !Dropped(ls[i])
    ensures Kept(ls) == ls
  {
    if ls != [] {
      KeptAll(ls[1..]);
      assert [ls[0]] + ls[1..] == ls;
    }
  }

  /** Keeping the kept lines again changes nothing. */
  lemma KeptIdempotent(ls: seq<string>)
    ensures Kept(Kept(ls)) == Kept(ls)
  {
    forall i | 0 <= i < |Kept(ls)| ensures !Dropped(Kept(ls)[i]) {
      KeptMembers(ls, Kept(ls)[i]);
    }
    KeptAll(Kept(ls));
  }

  // ---------------------------------------------------------------------------------------
  // What filterptx returns
  // ---------------------------------------------------------------------------------------

  /** What filterptx writes for one line it has read. */
  function Written(line: string): string {
    if Dropped(line) then "" else line
  }

  /**
   * What the read loop still writes from offset `pos` on, defined one line at a time in the
   * order the loop reads them.
   */
  function Pending(text: string, pos: nat): string
    requires pos <= |text|
    decreases |text| - pos
  {
    var k := LineEnd(text, pos);
    if k == |text| then "" else Written(text[pos..k + 1]) + Pending(text, k + 1)
  }

  /** What filterptx returns for a PTX file with contents `text`. */
  function Sanitize(text: string): string {
    Pending(text, 0)
  }

  /** The first line read from `pos` and what is written for it. */
  lemma PendingStep(text: string, pos: nat)
    requires pos <= |text| && LineEnd(text, pos) < |text|
    ensures Pending(text, pos)
         == Written(text[pos..LineEnd(text, pos) + 1]) + Pending(text, LineEnd(text, pos) + 1)
  {
  }

  /** The lines written one after another, each as filterptx writes it. */
  function WriteAll(ls: seq<string>): string {
    if ls == [] then "" else Written(ls[0]) + WriteAll(ls[1..])
  }

  /** Writing each line as filterptx does is writing out the kept lines. */
  lemma {:induction false} WriteAllKept(ls: seq<string>)
    ensures WriteAll(ls) == Concat(Kept(ls))
  {
    if ls != [] {
      WriteAllKept(ls[1..]);
      if Dropped(ls[0]) {
        assert [] + Kept(ls[1..]) == Kept(ls[1..]);
        assert "" + WriteAll(ls[1..]) == WriteAll(ls[1..]);
      } else {
        ConcatCons(ls[0], Kept(ls[1..]));
      }
    }
  }

  lemma WriteAllCons(all: seq<string>, line: string, ls: seq<string>)
    requires all == [line] + ls
    ensures WriteAll(all) == Written(line) + WriteAll(ls)
  {
    assert all[0] == line && all[1..] == ls;
  }

  /**
   * Rewriting the tail of a concatenation, kept apart from Pending and WriteAll so that the
   * solver does not unfold either while it rewrites.
   */
  lemma Chain(whole: string, first: string, rest: string, rest': string, whole': string)
    requires whole == first + rest && rest == rest'
    requires whole' == first + rest'
    ensures whole == whole'
  {
  }

  lemma PendingLinesStep(text: string, pos: nat)
    requires pos <= |text| && LineEnd(text, pos) < |text|
    requires Pending(text, LineEnd(text, pos) + 1)
          == WriteAll(LinesFrom(text, LineEnd(text, pos) + 1))
    ensures Pending(text, pos) == WriteAll(LinesFrom(text, pos))
  {
    PendingStep(text, pos);
    LinesStep(text, pos);
    WriteAllCons(LinesFrom(text, pos), text[pos..LineEnd(text, pos) + 1],
                 LinesFrom(text, LineEnd(text, pos) + 1));
    Chain(Pending(text, pos), Written(text[pos..LineEnd(text, pos) + 1]),
          Pending(text, LineEnd(text, pos) + 1),
          WriteAll(LinesFrom(text, LineEnd(text, pos) + 1)),
          WriteAll(LinesFrom(text, pos)));
  }

  lemma {:induction false} PendingLines(text: string, pos: nat)
    requires pos <= |text|
    ensures Pending(text, pos) == WriteAll(LinesFrom(text, pos))
    decreases |text| - pos
  {
    if LineEnd(text, pos) < |text| {
      PendingLines(text, LineEnd(text, pos) + 1);
      PendingLinesStep(text, pos);
    }
  }

  /** The output is the input's kept lines written one after another. */
  lemma SanitizeKept(text: string)
    ensures Sanitize(text) == Concat(Kept(Lines(text)))
  {
    PendingLines(text, 0);
    WriteAllKept(Lines(text));
  }

  /**
   * The output, read back line by line, is the input's lines in their order and byte for
   * byte, without the dropped ones: a kept line is exactly a line of the input that is
   * neither a comment nor a `.file` directive. The output is itself a whole number of lines.
   */
  lemma SanitizeLines(text: string)
    ensures Lines(Sanitize(text)) == Kept(Lines(text))
    ensures forall l :: l in Lines(Sanitize(text)) <==> l in Lines(text) && !Dropped(l)
    ensures Complete(Sanitize(text))
  {
    SanitizeKept(text);
    var kept := Kept(Lines(text));
    LinesAreLines(text, 0);
    forall i | 0 <= i < |kept| ensures IsLine(kept[i]) {
      KeptMembers(Lines(text), kept[i]);
    }
    LinesOfConcat(kept);
    forall l ensures l in kept <==> l in Lines(text) && !Dropped(l) {
      KeptMembers(Lines(text), l);
    }
    ConcatComplete(kept);
  }

  /** Sanitising sanitised PTX changes nothing. */
  lemma SanitizeIdempotent(text: string)
    ensures Sanitize(Sanitize(text)) == Sanitize(text)
  {
    var once := Sanitize(text);
    SanitizeLines(text);
    SanitizeKept(once);
    KeptIdempotent(Lines(text));
    calc {
      Sanitize(once);
      Concat(Kept(Lines(once)));
      Concat(Kept(Kept(Lines(text))));
      Concat(Kept(Lines(text)));
      { SanitizeKept(text); }
      once;
    }
  }

  /** PTX made of whole lines none of which is a comment or `.file` line comes back unchanged. */
  lemma SanitizeClean(text: string)
    requires Complete(text)
    requires forall i :: 0 <= i < |Lines(text)| ==> !Dropped(Lines(text)[i])
    ensures Sanitize(text) == text
  {
    SanitizeKept(text);
    KeptAll(Lines(text));
    ConcatOfLines(text, 0);
  }

  // ---------------------------------------------------------------------------------------
  // The read loop
  // ---------------------------------------------------------------------------------------

  /**
   * One ReadBytes('\n') at `pos`: the bytes through the next newline, or, with EOF, the
   * rest of the text when no newline is left; `next` is where the reader then stands.
   */
  method ReadBytes(text: string, pos: nat) returns (line: string, eof: bool, next: nat)
    requires pos <= |text|
    ensures eof <==> LineEnd(text, pos) == |text|
    ensures next == if eof then |text| else LineEnd(text, pos) + 1
    ensures line == text[pos..next]
  {
    var k := LineEnd(text, pos);
    if k == |text| {
      line, eof, next := text[pos..], true, |text|;
    } else {
      line, eof, next := text[pos..k + 1], false, k + 1;
    }
  }

  /**
   * Moving the written line from the pending text to the output, kept apart from Pending for
   * the same reason as Chain: the read loop's step stays cheap.
   */
  lemma Regroup(goal: string, out: string, pending: string, written: string, rest: string,
                out': string)
    requires goal == out + pending && pending == written + rest
    requires out' == out + written
    ensures goal == out' + rest
  {
    assert out + (written + rest) == out + written + rest;
  }

  /** The line from `pos` to `next` is written, or not, and the rest is pending after it. */
  lemma PendingAt(text: string, pos: nat, next: nat, line: string)
    requires pos <= |text| && LineEnd(text, pos) < |text|
    requires next == LineEnd(text, pos) + 1
    requires line == text[pos..next]
    ensures Pending(text, pos) == Written(line) + Pending(text, next)
  {
    PendingStep(text, pos);
  }

  /** One turn of the read loop keeps the output plus what is still to be written fixed. */
  lemma Advance(text: string, pos: nat, next: nat, line: string, out: string, keep: bool,
                out': string, goal: string)
    requires pos <= |text| && LineEnd(text, pos) < |text|
    requires next == LineEnd(text, pos) + 1
    requires line == text[pos..next]
    requires goal == out + Pending(text, pos)
    requires keep == (!HasPrefix(line, CommentPrefix) && !HasPrefix(line, FilePrefix))
    requires out' == if keep then out + line else out
    ensures goal == out' + Pending(text, next)
  {
    PendingAt(text, pos, next, line);
    assert out' == out + Written(line) by {
      if !keep {
        assert out + "" == out;
      }
    }
    Regroup(goal, out, Pending(text, pos), Written(line), Pending(text, next), out');
  }

  /** filterptx: read lines until EOF and write out the ones that are kept. */
  method FilterPtx(text: string) returns (out: string)
    ensures out == Sanitize(text)
  {
    out := "";
    ghost var start := 0;
    var line, eof, pos := ReadBytes(text, 0);
    while !eof
      invariant start <= |text|
      invariant eof <==> LineEnd(text, start) == |text|
      invariant pos == if eof then |text| else LineEnd(text, start) + 1
      invariant line == text[start..pos]
      invariant Sanitize(text) == out + Pending(text, start)
      decreases |text| - start
    {
      ghost var out0 := out;
      var keep := !HasPrefix(line, CommentPrefix) && !HasPrefix(line, FilePrefix);
      if keep {
        out := out + line;
      }
      Advance(text, start, pos, line, out0, keep, out, Sanitize(text));
      start := pos;
      line, eof, pos := ReadBytes(text, pos);
    }
    assert out + "" == out;
  }
}
