/**
 * The argument stage: cut the argument span into one token group per parameter, turn
 * each group into a (type, name) pair, and map the type through the type table.
 */
module Params {
  import opened Seqs
  import opened Errors
  import opened Types

  /** A token that ends a parameter group. */
  predicate IsSep(t: string) {
    t == "," || t == ")"
  }

  predicate NoSep(g: seq<string>) {
    forall j :: 0 <= j < |g| ==> !IsSep(g[j])
  }

  /** The groups the split loop appends: the tokens before each separator, since the previous one. */
  function Groups(s: seq<string>): (gs: seq<seq<string>>)
    ensures forall i :: 0 <= i < |gs| ==> NoSep(gs[i])
    decreases |s|
  {
    var k := Find(s, IsSep, 0);
    if k == |s| then [] else [s[..k]] + Groups(s[k + 1..])
  }

  /** The separator that closes each group, in order. */
  function Seps(s: seq<string>): (seps: seq<string>)
    ensures |seps| == |Groups(s)|
    ensures forall i :: 0 <= i < |seps| ==> IsSep(seps[i])
    decreases |s|
  {
    var k := Find(s, IsSep, 0);
    if k == |s| then [] else [s[k]] + Seps(s[k + 1..])
  }

  /** The tokens after the last separator, which the split loop never puts in a group. */
  function Tail(s: seq<string>): (t: seq<string>)
    ensures NoSep(t)
    decreases |s|
  {
    var k := Find(s, IsSep, 0);
    if k == |s| then s else Tail(s[k + 1..])
  }

  /** The groups written back out, each followed by its separator. */
  function Join(gs: seq<seq<string>>, seps: seq<string>): seq<string>
    requires |gs| == |seps|
  {
    if gs == [] then [] else gs[0] + [seps[0]] + Join(gs[1..], seps[1..])
  }

  /** Unfolding the groups of `argl[start..]` at the first separator `i` after `start`. */
  lemma GroupsAt(argl: seq<string>, start: nat, i: nat)
    requires start <= i < |argl| && IsSep(argl[i])
    requires forall j :: start <= j < i ==> !IsSep(argl[j])
    ensures Groups(argl[start..]) == [argl[start..i]] + Groups(argl[i + 1..])
  {
    var s := argl[start..];
    assert s[i - start] == argl[i];
    assert forall j :: 0 <= j < i - start ==> s[j] == argl[start + j];
    assert Find(s, IsSep, 0) == i - start;
    assert s[..i - start] == argl[start..i];
    assert s[i - start + 1..] == argl[i + 1..];
  }

  /** There are exactly as many groups as separator tokens. */
  lemma {:induction false} GroupCount(s: seq<string>)
    ensures |Groups(s)| == Count(s, IsSep)
    decreases |s|
  {
    var k := Find(s, IsSep, 0);
    if k == |s| {
      CountNone(s, IsSep);
    } else {
      GroupCount(s[k + 1..]);
      assert s == s[..k] + [s[k]] + s[k + 1..];
      CountAppend(s[..k] + [s[k]], s[k + 1..], IsSep);
      CountAppend(s[..k], [s[k]], IsSep);
      CountNone(s[..k], IsSep);
      assert [s[k]][..0] == [];
    }
  }

  /** The groups, put back together with their separators and the tail, give the span back. */
  lemma {:induction false} Rebuild(s: seq<string>)
    ensures Join(Groups(s), Seps(s)) + Tail(s) == s
    decreases |s|
  {
    var k := Find(s, IsSep, 0);
    if k < |s| {
      var rest := s[k + 1..];
      Rebuild(rest);
      SplitAtFirst(s);
      JoinCons(s[..k], s[k], Groups(rest), Seps(rest));
      AppendAssoc(s[..k] + [s[k]], Join(Groups(rest), Seps(rest)), Tail(rest));
      Reassemble(s, k);
    }
  }

  /** Groups, separators and tail of a span at its first separator. */
  lemma SplitAtFirst(s: seq<string>)
    requires Find(s, IsSep, 0) < |s|
    ensures var k := Find(s, IsSep, 0);
      && Groups(s) == [s[..k]] + Groups(s[k + 1..])
      && Seps(s) == [s[k]] + Seps(s[k + 1..])
      && Tail(s) == Tail(s[k + 1..])
  {
  }

  /**
   * Regrouping a concatenation. A separate step so that the recursive proofs that need it
   * do not let the solver unfold Join and Groups while it searches for the regrouping.
   */
  lemma AppendAssoc<T>(a: seq<T>, b: seq<T>, c: seq<T>)
    ensures (a + b) + c == a + (b + c)
  {
  }

  lemma JoinCons(g: seq<string>, sep: string, gs: seq<seq<string>>, seps: seq<string>)
    requires |gs| == |seps|
    ensures Join([g] + gs, [sep] + seps) == g + [sep] + Join(gs, seps)
  {
    assert ([g] + gs)[1..] == gs;
    assert ([sep] + seps)[1..] == seps;
  }

  /** A sequence cut around index k, as a step of its own for the same reason as AppendAssoc. */
  lemma Reassemble<T>(s: seq<T>, k: nat)
    requires k < |s|
    ensures s[..k] + [s[k]] + s[k + 1..] == s
  {
  }

  /** A span ending in a separator has no tail, so its groups and separators rebuild all of it. */
  lemma {:induction false} TailOfClosed(s: seq<string>)
    requires |s| > 0 && IsSep(s[|s| - 1])
    ensures Tail(s) == []
    ensures Join(Groups(s), Seps(s)) == s
    decreases |s|
  {
    var k := Find(s, IsSep, 0);
    if k + 1 < |s| {
      TailOfClosed(s[k + 1..]);
    }
    Rebuild(s);
  }

  /** The first separator of a group followed by its separator is that separator. */
  lemma FirstSep(g: seq<string>, sep: string, rest: seq<string>)
    requires NoSep(g) && IsSep(sep)
    ensures Find(g + [sep] + rest, IsSep, 0) == |g|
    ensures (g + [sep] + rest)[..|g|] == g && (g + [sep] + rest)[|g| + 1..] == rest
  {
    var s := g + [sep] + rest;
    assert s[|g|] == sep;
    assert forall j :: 0 <= j < |g| ==> s[j] == g[j];
  }

  /** Splitting joined groups gives the groups back, so Join and Groups are inverse. */
  lemma {:induction false} GroupsJoin(gs: seq<seq<string>>, seps: seq<string>)
    requires |gs| == |seps|
    requires forall i :: 0 <= i < |gs| ==> NoSep(gs[i]) && IsSep(seps[i])
    ensures Groups(Join(gs, seps)) == gs
    decreases |gs|
  {
    if gs != [] {
      var rest := Join(gs[1..], seps[1..]);
      GroupsJoin(gs[1..], seps[1..]);
      FirstSep(gs[0], seps[0], rest);
    }
  }

  /** The split loop: each "," or ")" closes the group that began after the previous one. */
  method SplitArgs(argl: seq<string>) returns (args: seq<seq<string>>)
    ensures args == Groups(argl)
  {
    args := [];
    var start := 0;
    for i := 0 to |argl|
      invariant start <= i
      invariant Groups(argl) == args + Groups(argl[start..])
      invariant forall j :: start <= j < i ==> !IsSep(argl[j])
    {
      if argl[i] == "," || argl[i] == ")" {
        ghost var args0, start0 := args, start;
        args := args + [argl[start..i]];
        start := i + 1;
        SplitStep(argl, args0, start0, i, args, start);
      }
    }
    NoGroups(argl, start);
  }

  /** Closing the group at separator `i` moves it from the groups still ahead to `args`. */
  lemma SplitStep(argl: seq<string>, args: seq<seq<string>>, start: nat, i: nat,
                  args': seq<seq<string>>, start': nat)
    requires start <= i < |argl| && IsSep(argl[i])
    requires forall j :: start <= j < i ==> !IsSep(argl[j])
    requires Groups(argl) == args + Groups(argl[start..])
    requires args' == args + [argl[start..i]] && start' == i + 1
    ensures Groups(argl) == args' + Groups(argl[start'..])
  {
    GroupsAt(argl, start, i);
    AppendAssoc(args, [argl[start..i]], Groups(argl[i + 1..]));
  }

  /** A stretch without separators holds no group. */
  lemma NoGroups(argl: seq<string>, start: nat)
    requires start <= |argl|
    requires forall j :: start <= j < |argl| ==> !IsSep(argl[j])
    ensures Groups(argl[start..]) == []
  {
    assert forall j :: 0 <= j < |argl| - start ==> argl[start..][j] == argl[start + j];
    assert Find(argl[start..], IsSep, 0) == |argl[start..]|;
  }

  /** A parameter as declared in the kernel: its C type, pointer marker folded in, and its name. */
  datatype CArg = CArg(ctype: string, name: string)

  /**
   * The two group shapes: `T * n` becomes type `T*` and name `n`; anything else is read as
   * `T n`. A group too short for the index the shape reads is the out-of-range fault.
   * Tokens past the name are ignored.
   */
  function Normalise(group: seq<string>): (r: Result<CArg>)
    ensures r.Ok? <==> |group| >= 2 && (group[1] == "*" ==> |group| >= 3)
    ensures r.Err? ==> r.error == ShortArg(group)
    ensures r.Ok? ==> r.value.name == if group[1] == "*" then group[2] else group[1]
    ensures r.Ok? ==> r.value.ctype == if group[1] == "*" then group[0] + "*" else group[0]
  {
    if |group| < 2 then Err(ShortArg(group))
    else if group[1] == "*" then
      if |group| < 3 then Err(ShortArg(group)) else Ok(CArg(group[0] + "*", group[2]))
    else Ok(CArg(group[0], group[1]))
  }

  /** The tokens a declaration scans to: `T * n` for a pointer type `T*`, `T n` otherwise. */
  function Unparse(a: CArg): seq<string> {
    var t := a.ctype;
    if |t| > 0 && t[|t| - 1] == '*' then [t[..|t| - 1], "*", a.name] else [t, a.name]
  }

  /** Normalising the tokens of a declaration recovers it, in both shapes. */
  lemma NormaliseUnparse(a: CArg)
    requires a.name != "*"
    ensures Normalise(Unparse(a)) == Ok(a)
  {
    var t := a.ctype;
    if |t| > 0 && t[|t| - 1] == '*' {
      assert t[..|t| - 1] + "*" == t;
    } else {
      assert t != "*";
    }
  }

  /** A mapped parameter: its Go type and its name. */
  datatype Arg = Arg(gotype: string, name: string)

  /** One group through normalisation and the type table. */
  function ParseArg(group: seq<string>): Result<Arg> {
    match Normalise(group)
    case Err(e) => Err(e)
    case Ok(c) =>
      match TypeMap(c.ctype)
      case Err(e) => Err(e)
      case Ok(t) => Ok(Arg(t, c.name))
  }

  /** The parallel type and name lists, argT and argN. */
  datatype ArgLists = ArgLists(argT: seq<string>, argN: seq<string>)

  /** All groups mapped in declaration order; the first group that fails decides the error. */
  function ParseArgList(args: seq<seq<string>>): Result<ArgLists>
    decreases |args|
  {
    if args == [] then Ok(ArgLists([], []))
    else
      match ParseArg(args[0])
      case Err(e) => Err(e)
      case Ok(a) =>
        match ParseArgList(args[1..])
        case Err(e) => Err(e)
        case Ok(rest) => Ok(ArgLists([a.gotype] + rest.argT, [a.name] + rest.argN))
  }

  /** The list succeeds exactly when every group does. */
  lemma {:induction false} ParseArgListOk(args: seq<seq<string>>)
    ensures ParseArgList(args).Ok? <==> forall i :: 0 <= i < |args| ==> ParseArg(args[i]).Ok?
    decreases |args|
  {
    if args != [] {
      ParseArgListOk(args[1..]);
      assert forall j :: 0 < j < |args| ==> args[1..][j - 1] == args[j];
    }
  }

  /** A successful list has one entry per group, and entry i comes from group i alone. */
  lemma {:induction false} ParseArgListEntries(args: seq<seq<string>>)
    requires ParseArgList(args).Ok?
    ensures var v := ParseArgList(args).value;
      && |v.argT| == |args| && |v.argN| == |args|
      && forall i :: 0 <= i < |args| ==> ParseArg(args[i]) == Ok(Arg(v.argT[i], v.argN[i]))
    decreases |args|
  {
    if args != [] {
      ParseArgListEntries(args[1..]);
      assert forall j :: 0 < j < |args| ==> args[1..][j - 1] == args[j];
    }
  }

  /** The argument stage fails only on a group too short or on a type outside the table. */
  lemma {:induction false} ParseArgListFault(args: seq<seq<string>>)
    ensures ParseArgList(args).Err? ==>
      ParseArgList(args).error.ShortArg? || ParseArgList(args).error.UnsupportedType?
    decreases |args|
  {
    if args != [] {
      ParseArgListFault(args[1..]);
    }
  }

  /**
   * The loop that fills argt and argn in place, overwriting a pointer group with its
   * two-token form before the lookup.
   */
  method ParseArgs(args: seq<seq<string>>) returns (r: Result<ArgLists>)
    ensures r == ParseArgList(args)
  {
    var groups := args;
    var argn := new string[|args|];
    var argt := new string[|args|];
    for i := 0 to |groups|
      invariant |groups| == |args|
      invariant forall j :: i <= j < |args| ==> groups[j] == args[j]
      invariant forall j :: 0 <= j < i ==> ParseArg(args[j]) == Ok(Arg(argt[j], argn[j]))
    {
      if |groups[i]| < 2 {
        FirstFailure(args, i);
        return Err(ShortArg(groups[i]));
      }
      if groups[i][1] == "*" {
        if |groups[i]| < 3 {
          FirstFailure(args, i);
          return Err(ShortArg(groups[i]));
        }
        groups := groups[i := [groups[i][0] + "*", groups[i][2]]];
      }
      var t := TypeMap(groups[i][0]);
      if t.Err? {
        FirstFailure(args, i);
        return Err(t.error);
      }
      argt[i] := t.value;
      argn[i] := groups[i][1];
    }
    r := Ok(ArgLists(argt[..], argn[..]));
    ParseArgListOk(args);
    ParseArgListEntries(args);
    var v := ParseArgList(args).value;
    assert argt[..] == v.argT && argn[..] == v.argN by {
      forall j | 0 <= j < |args| ensures argt[j] == v.argT[j] && argn[j] == v.argN[j] {
        assert ParseArg(args[j]) == Ok(Arg(v.argT[j], v.argN[j]));
      }
    }
  }

  /** When group i is the first to fail, the whole list fails with its error. */
  lemma {:induction false} FirstFailure(args: seq<seq<string>>, i: nat)
    requires i < |args| && ParseArg(args[i]).Err?
    requires forall j :: 0 <= j < i ==> ParseArg(args[j]).Ok?
    ensures ParseArgList(args) == Err(ParseArg(args[i]).error)
    decreases i
  {
    if i > 0 {
      assert args[1..][i - 1] == args[i];
      assert forall j :: 0 <= j < i - 1 ==> args[1..][j] == args[j + 1];
      FirstFailure(args[1..], i - 1);
    }
  }
}
