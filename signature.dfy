/**
 * The signature stage: locate the kernel marker in the token stream, take the kernel
 * name two tokens after it, and cut out the argument span that ends at the closing
 * parenthesis.
 */
module Signature {
  import opened Errors

  const Global := "__global__"

  /**
   * The first index at or after `from` holding `t`, or `|token|` when none does. This is
   * `Seqs.Find` for the predicate "equals t", written first-order over the token value: the
   * search lemmas below instantiate it far more cheaply than the higher-order search.
   */
  function Next(token: seq<string>, t: string, from: nat): (k: nat)
    requires from <= |token|
    ensures from <= k <= |token|
    ensures k < |token| ==> token[k] == t
    ensures forall j :: from <= j < k ==> token[j] != t
    decreases |token| - from
  {
    if from == |token| || token[from] == t then from else Next(token, t, from + 1)
  }

  /** The last index in [lo, hi) holding `t`, given that `token[lo]` does. */
  function Last(token: seq<string>, t: string, lo: nat, hi: nat): (k: nat)
    requires lo < hi <= |token| && token[lo] == t
    ensures lo <= k < hi && token[k] == t
    ensures forall j :: k < j < hi ==> token[j] != t
    decreases hi - lo
  {
    if token[hi - 1] == t then hi - 1 else Last(token, t, lo, hi - 1)
  }

  lemma NextIs(token: seq<string>, t: string, from: nat, k: nat)
    requires from <= k <= |token| && (k < |token| ==> token[k] == t)
    requires forall j :: from <= j < k ==> token[j] != t
    ensures Next(token, t, from) == k
  {
  }

  lemma LastIs(token: seq<string>, t: string, lo: nat, hi: nat, k: nat)
    requires lo <= k < hi <= |token| && token[lo] == t && token[k] == t
    requires forall j :: k < j < hi ==> token[j] != t
    ensures Last(token, t, lo, hi) == k
  {
  }

  /** The kernel name and the argument tokens from the first argument through the closing ")". */
  datatype Span = Span(name: string, argl: seq<string>)

  /**
   * What the search loop and the slice after it produce. The loop runs from the start up to
   * the first ")" after the first marker `f`, and every marker it passes on the way overwrites
   * the name and start, so the one that counts is the last marker `g` before that ")" at `k`.
   * The name is `token[g + 2]` and the span `token[g + 4 .. k + 1]`.
   */
  function KernelSpan(token: seq<string>): Result<Span> {
    var f := Next(token, Global, 0);
    if f == |token| then Err(NoKernel)
    else
      var k := Next(token, ")", f);
      var g := Last(token, Global, f, k);
      if g + 2 >= |token| then Err(NameOutOfRange)
      else if k == |token| then Err(Unterminated)
      else if g + 4 > k + 1 then Err(SpanInverted)
      else Ok(Span(token[g + 2], token[g + 4..k + 1]))
  }

  /**
   * The outcome of the search: no kernel exactly when there is no marker; no ")" after the
   * first marker when unterminated; otherwise a span whose only ")" is its last token, and a
   * name taken from the tokens.
   */
  lemma KernelSpanShape(token: seq<string>)
    ensures KernelSpan(token) == Err(NoKernel) <==> Global !in token
    ensures KernelSpan(token) == Err(Unterminated) ==>
      forall j :: Next(token, Global, 0) <= j < |token| ==> token[j] != ")"
    ensures KernelSpan(token).Ok? ==> var a := KernelSpan(token).value.argl;
      |a| > 0 ==> a[|a| - 1] == ")"
    ensures KernelSpan(token).Ok? ==> var a := KernelSpan(token).value.argl;
      forall j :: 0 <= j < |a| - 1 ==> a[j] != ")"
    ensures KernelSpan(token).Ok? ==> KernelSpan(token).value.name in token
    ensures Global in token && (forall j :: Next(token, Global, 0) <= j < |token| ==> token[j] != ")")
      ==> KernelSpan(token) == Err(Unterminated) || KernelSpan(token) == Err(NameOutOfRange)
    ensures KernelSpan(token) == Err(SpanInverted) ==>
      exists g :: 0 <= g < |token| - 2 && token[g] == Global && (token[g + 1] == ")" || token[g + 2] == ")")
    ensures KernelSpan(token).Ok? && KernelSpan(token).value.argl == [] ==>
      exists g :: 0 <= g < |token| - 3 && token[g] == Global && token[g + 3] == ")"
  {
    var f := Next(token, Global, 0);
    if f < |token| {
      var k := Next(token, ")", f);
      var g := Last(token, Global, f, k);
      if Global in token && forall j :: f <= j < |token| ==> token[j] != ")" {
        NextIs(token, ")", f, |token|);
      }
      if KernelSpan(token) == Err(SpanInverted) {
        assert token[g] == Global && (token[g + 1] == ")" || token[g + 2] == ")");
      }
      if KernelSpan(token).Ok? && KernelSpan(token).value.argl == [] {
        assert token[g] == Global && token[g + 3] == ")";
      }
    }
  }

  /**
   * When the first marker `f` is followed by "void", the name, "(" and the arguments, and no
   * other marker comes before the first ")" at `k`, the name is the token two after the
   * marker and the span runs to that ")" and includes it. What follows `k` does not matter.
   */
  lemma SingleKernel(token: seq<string>, f: nat, k: nat)
    requires f < |token| && token[f] == Global
    requires forall j :: 0 <= j < f ==> token[j] != Global
    requires f + 4 <= k < |token| && token[k] == ")"
    requires forall j :: f <= j < k ==> token[j] != ")"
    requires forall j :: f < j < k ==> token[j] != Global
    ensures KernelSpan(token) == Ok(Span(token[f + 2], token[f + 4..k + 1]))
  {
    NextIs(token, Global, 0, f);
    NextIs(token, ")", f, k);
    LastIs(token, Global, f, k, f);
  }

  /**
   * With a single marker `f` before the first ")" at `k`, a ")" one or two tokens after the
   * marker inverts the slice bounds, and a ")" three tokens after it, in the place of the
   * "(", leaves an empty span: the one way a kernel is found with no argument tokens.
   */
  lemma CloseSpan(token: seq<string>, f: nat, k: nat)
    requires f + 2 < |token| && token[f] == Global
    requires forall j :: 0 <= j < f ==> token[j] != Global
    requires f < k <= f + 3 && k < |token| && token[k] == ")"
    requires forall j :: f <= j < k ==> token[j] != ")"
    requires forall j :: f < j < k ==> token[j] != Global
    ensures k < f + 3 <==> KernelSpan(token) == Err(SpanInverted)
    ensures k == f + 3 <==> KernelSpan(token) == Ok(Span(token[f + 2], []))
  {
    NextIs(token, Global, 0, f);
    NextIs(token, ")", f, k);
    LastIs(token, Global, f, k, f);
    if k == f + 3 {
      assert token[f + 4..k + 1] == [];
    }
  }

  /**
   * A file that opens with a marker whose only ")" closes the opening tokens `d`: the search
   * stops there, whatever comes after.
   */
  lemma LeadingKernel(d: seq<string>, rest: seq<string>)
    requires |d| >= 5 && d[0] == Global && d[|d| - 1] == ")"
    requires forall j :: 0 <= j < |d| - 1 ==> d[j] != ")"
    requires forall j :: 0 < j < |d| ==> d[j] != Global
    ensures KernelSpan(d + rest) == Ok(Span(d[2], d[4..]))
  {
    var token := d + rest;
    assert forall j :: 0 <= j < |d| ==> token[j] == d[j];
    assert token[4..|d|] == d[4..];
    SingleKernel(token, 0, |d| - 1);
  }

  /**
   * A marker in the second-to-last place of a file without ")" fails on reading the name,
   * before the missing ")" is noticed: the name is read as soon as the marker is met.
   */
  lemma MarkerAtEnd(token: seq<string>)
    requires |token| >= 2 && token[|token| - 2] == Global && ")" !in token
    ensures KernelSpan(token) == Err(NameOutOfRange)
  {
    var f := Next(token, Global, 0);
    var k := Next(token, ")", f);
    assert k == |token|;
    assert Last(token, Global, f, k) >= |token| - 2;
  }

  /** The search loop and the slice of the argument list, with the Go slice faults made explicit. */
  method FindKernel(token: seq<string>) returns (r: Result<Span>)
    ensures r == KernelSpan(token)
  {
    ghost var f := Next(token, Global, 0);
    var funcname := "";
    var argstart, argstop := -1, -1;
    var i := 0;
    while i < |token|
      invariant 0 <= i <= |token|
      invariant argstop == -1
      invariant argstart == -1 <==> i <= f
      invariant argstart != -1 ==>
        && f <= argstart - 4 < i
        && token[argstart - 4] == Global
        && argstart - 2 < |token|
        && funcname == token[argstart - 2]
        && (forall j :: argstart - 4 < j < i ==> token[j] != Global)
        && (forall j :: f <= j < i ==> token[j] != ")")
    {
      if token[i] == Global {
        if i + 2 >= |token| {
          ghost var k := Next(token, ")", f);
          assert token[i] != ")";
          assert i < k;
          return Err(NameOutOfRange);
        }
        funcname := token[i + 2];
        argstart := i + 4;
      }
      if argstart > 0 && token[i] == ")" {
        argstop := i + 1;
        NextIs(token, ")", f, i);
        LastIs(token, Global, f, i, argstart - 4);
        break;
      }
      i := i + 1;
    }
    if argstart < 0 {
      return Err(NoKernel);
    }
    if argstop < 0 {
      NextIs(token, ")", f, |token|);
      LastIs(token, Global, f, |token|, argstart - 4);
      return Err(Unterminated);
    }
    if argstart > argstop {
      return Err(SpanInverted);
    }
    r := Ok(Span(funcname, token[argstart..argstop]));
  }
}
