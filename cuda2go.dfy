/**
 * cuda2go for one kernel file: the scanned tokens go through the token filter, the kernel
 * search, the argument split and the argument loop; the compiled PTX goes through the PTX
 * filter; and the template data they make is rendered into the wrapper.
 */
module Cuda2Go {
  import opened Errors
  import opened Seqs
  import opened Tokens
  import opened Signature
  import opened Params
  import opened Types
  import opened Ptx
  import opened Template

  /** The PTX as the raw string literal the template pastes in. */
  function Quote(ptx: string): string {
    "`" + ptx + "`"
  }

  /** wrapgen's template data: the name, the two lists and the filtered PTX, quoted. */
  function Wrapgen(name: string, argt: seq<string>, argn: seq<string>, ptx: string): Kernel {
    Kernel(name, argt, argn, Quote(ptx))
  }

  /** The wrapper for a kernel file that scans to `scanned` next to the PTX text `ptx`. */
  function Generate(scanned: seq<string>, ptx: string): Result<Wrapper> {
    match KernelSpan(KeptTokens(scanned))
    case Err(e) => Err(e)
    case Ok(span) =>
      match ParseArgList(Groups(span.argl))
      case Err(e) => Err(e)
      case Ok(lists) =>
        ParseArgListEntries(Groups(span.argl));
        Ok(Render(Wrapgen(span.name, lists.argT, lists.argN, Sanitize(ptx))))
  }

  /**
   * The run for one file: every stage in the order the generator runs them, the PTX read
   * only once the signature is known. Any fault ends the run with that fault.
   */
  method Cuda2Go(scanned: seq<string>, ptx: string) returns (r: Result<Wrapper>)
    ensures r == Generate(scanned, ptx)
  {
    var token := FilterTokens(scanned);
    var span := FindKernel(token);
    if span.Err? {
      return Err(span.error);
    }
    var args := SplitArgs(span.value.argl);
    var lists := ParseArgs(args);
    if lists.Err? {
      return Err(lists.error);
    }
    ParseArgListEntries(args);
    var text := FilterPtx(ptx);
    r := Ok(Render(Wrapgen(span.value.name, lists.value.argT, lists.value.argN, text)));
  }

  /** A file has no kernel exactly when it has no marker; the argument stage never says so. */
  lemma GenerateNoKernel(scanned: seq<string>, ptx: string)
    ensures Generate(scanned, ptx) == Err(NoKernel) <==> Global !in scanned
  {
    var token := KeptTokens(scanned);
    KeptTokensSpec(scanned);
    KernelSpanShape(token);
    assert Global in token <==> Global in scanned;
    if KernelSpan(token).Ok? {
      ParseArgListFault(Groups(KernelSpan(token).value.argl));
    }
  }

  /**
   * A generated wrapper has one parameter per separator of the span the search found, is
   * entered through `K_` and the kernel name, and carries the filtered PTX.
   */
  lemma GenerateShape(scanned: seq<string>, ptx: string)
    requires Generate(scanned, ptx).Ok?
    ensures KernelSpan(KeptTokens(scanned)).Ok?
    ensures var span := KernelSpan(KeptTokens(scanned)).value;
      && |Generate(scanned, ptx).value.params| == Count(span.argl, IsSep)
      && Generate(scanned, ptx).value.entry == "K_" + span.name
      && Generate(scanned, ptx).value.ptxValue == Quote(Sanitize(ptx))
  {
    var span := KernelSpan(KeptTokens(scanned)).value;
    GroupCount(span.argl);
    ParseArgListEntries(Groups(span.argl));
  }

  // ---------------------------------------------------------------------------------------
  // A declaration in the dialect, token by token
  // ---------------------------------------------------------------------------------------

  /** A token that neither ends a group nor is a marker nor is filtered out. */
  predicate Plain(t: string) {
    t != "," && t != ")" && t != Global && t != Restrict
  }

  /** A parameter the dialect supports: a type from the table and a plain name other than "*". */
  predicate Supported(c: CArg) {
    c.ctype in Table && Plain(c.name) && c.name != "*"
  }

  predicate AllSupported(cs: seq<CArg>) {
    forall i :: 0 <= i < |cs| ==> Supported(cs[i])
  }

  /** The token groups of the parameters, in order. */
  function Unparsed(cs: seq<CArg>): (gs: seq<seq<string>>)
    ensures |gs| == |cs|
    ensures forall i :: 0 <= i < |cs| ==> gs[i] == Unparse(cs[i])
  {
    if cs == [] then [] else [Unparse(cs[0])] + Unparsed(cs[1..])
  }

  /** The separators after n parameters: a "," after each one but the last, which gets ")". */
  function Closers(n: nat): (seps: seq<string>)
    ensures |seps| == n
    ensures forall i :: 0 <= i < n ==> seps[i] == if i == n - 1 then ")" else ","
  {
    if n == 0 then [] else if n == 1 then [")"] else [","] + Closers(n - 1)
  }

  /** `__global__ void name ( T1 n1 , ... , Tk nk )`, as the scanner returns it. */
  function Declaration(name: string, cs: seq<CArg>): seq<string> {
    [Global, "void", name, "("] + Join(Unparsed(cs), Closers(|cs|))
  }

  function GoTypes(cs: seq<CArg>): (ts: seq<string>)
    requires AllSupported(cs)
    ensures |ts| == |cs|
    ensures forall i :: 0 <= i < |cs| ==> ts[i] == Table[cs[i].ctype]
  {
    if cs == [] then [] else [Table[cs[0].ctype]] + GoTypes(cs[1..])
  }

  function Names(cs: seq<CArg>): (ns: seq<string>)
    ensures |ns| == |cs|
    ensures forall i :: 0 <= i < |cs| ==> ns[i] == cs[i].name
  {
    if cs == [] then [] else [cs[0].name] + Names(cs[1..])
  }

  /** The tokens of a supported parameter are plain, so its group holds no separator. */
  lemma UnparsePlain(c: CArg)
    requires Supported(c)
    ensures forall j :: 0 <= j < |Unparse(c)| ==> Plain(Unparse(c)[j])
  {
  }

  /**
   * Plain groups joined by "," with a closing ")" hold that ")" last and nowhere else, and
   * hold neither marker nor filtered token.
   */
  lemma {:induction false} JoinClosed(gs: seq<seq<string>>, seps: seq<string>)
    requires |gs| == |seps| > 0
    requires forall i :: 0 <= i < |gs| ==> forall j :: 0 <= j < |gs[i]| ==> Plain(gs[i][j])
    requires forall i :: 0 <= i < |seps| ==> seps[i] == if i == |seps| - 1 then ")" else ","
    ensures var s := Join(gs, seps);
      && |s| > 0 && s[|s| - 1] == ")"
      && (forall j :: 0 <= j < |s| - 1 ==> s[j] != ")")
      && (forall j :: 0 <= j < |s| ==> s[j] != Global && s[j] != Restrict)
    decreases |gs|
  {
    var g, rest := gs[0], Join(gs[1..], seps[1..]);
    assert Join(gs, seps) == g + [seps[0]] + rest;
    if |gs| > 1 {
      JoinClosed(gs[1..], seps[1..]);
    } else {
      assert rest == [];
    }
    var s := g + [seps[0]] + rest;
    assert forall j :: |g| < j < |s| ==> s[j] == rest[j - |g| - 1];
    assert forall j :: 0 <= j < |g| ==> s[j] == g[j];
  }

  /** The parameter list of a declaration is of that form. */
  lemma DeclaredClosed(cs: seq<CArg>)
    requires |cs| > 0 && AllSupported(cs)
    ensures var s := Join(Unparsed(cs), Closers(|cs|));
      && |s| > 0 && s[|s| - 1] == ")"
      && (forall j :: 0 <= j < |s| - 1 ==> s[j] != ")")
      && (forall j :: 0 <= j < |s| ==> s[j] != Global && s[j] != Restrict)
  {
    forall i | 0 <= i < |cs| ensures forall j :: 0 <= j < |Unparse(cs[i])| ==> Plain(Unparse(cs[i])[j]) {
      UnparsePlain(cs[i]);
    }
    JoinClosed(Unparsed(cs), Closers(|cs|));
  }

  /** The parameters of a declaration map one by one to their Go types and names. */
  lemma {:induction false} ParseDeclared(cs: seq<CArg>)
    requires AllSupported(cs)
    ensures ParseArgList(Unparsed(cs)) == Ok(ArgLists(GoTypes(cs), Names(cs)))
    decreases |cs|
  {
    if cs != [] {
      ParseDeclared(cs[1..]);
      NormaliseUnparse(cs[0]);
      assert Unparsed(cs)[1..] == Unparsed(cs[1..]);
    }
  }

  /** The fixed tokens of a declaration differ from ")", from the marker and from the filtered token. */
  lemma FixedTokens()
    ensures Plain("void") && Plain("(") && Global != ")" && Global != Restrict
  {
    assert |"void"| == 4 && |"("| == 1 && |Global| == 10 && |Restrict| == 12;
    assert "(" != ")" by {
      assert "("[0] != ")"[0];
    }
    assert "(" != "," by {
      assert "("[0] != ","[0];
    }
  }

  /** The header `__global__ void name (` in front of a closed parameter list. */
  lemma HeaderShape(name: string, s: seq<string>)
    requires Plain(name) && |s| > 0 && s[|s| - 1] == ")"
    requires forall j :: 0 <= j < |s| - 1 ==> s[j] != ")"
    requires forall j :: 0 <= j < |s| ==> s[j] != Global && s[j] != Restrict
    ensures var d := [Global, "void", name, "("] + s;
      && (forall j :: 0 <= j < |d| - 1 ==> d[j] != ")")
      && (forall j :: 0 < j < |d| ==> d[j] != Global)
      && (forall j :: 0 <= j < |d| ==> d[j] != Restrict)
  {
    var d := [Global, "void", name, "("] + s;
    FixedTokens();
    forall j | 0 <= j < |d|
      ensures j < |d| - 1 ==> d[j] != ")"
      ensures 0 < j ==> d[j] != Global
      ensures d[j] != Restrict
    {
      if j >= 4 {
        assert d[j] == s[j - 4];
      }
    }
  }

  /** Where the marker, the name and the only ")" of a declaration stand. */
  lemma DeclaredShape(name: string, cs: seq<CArg>)
    requires |cs| > 0 && Plain(name) && AllSupported(cs)
    ensures var d := Declaration(name, cs);
      && |d| >= 5 && d[0] == Global && d[2] == name && d[|d| - 1] == ")"
      && (forall j :: 0 <= j < |d| - 1 ==> d[j] != ")")
      && (forall j :: 0 < j < |d| ==> d[j] != Global)
      && (forall j :: 0 <= j < |d| ==> d[j] != Restrict)
      && d[4..] == Join(Unparsed(cs), Closers(|cs|))
  {
    var s := Join(Unparsed(cs), Closers(|cs|));
    DeclaredClosed(cs);
    HeaderShape(name, s);
    assert ([Global, "void", name, "("] + s)[4..] == s;
  }

  /** A declaration holds no filtered token, so filtering leaves it in front of the rest. */
  lemma DeclaredKept(name: string, cs: seq<CArg>, body: seq<string>)
    requires |cs| > 0 && Plain(name) && AllSupported(cs)
    ensures KeptTokens(Declaration(name, cs) + body) == Declaration(name, cs) + KeptTokens(body)
  {
    var d := Declaration(name, cs);
    DeclaredShape(name, cs);
    KeptTokensStable(d);
    KeptTokensAppend(d, body);
  }

  /** The search finds the declared name and the whole parameter list through its ")". */
  lemma DeclaredSpan(name: string, cs: seq<CArg>, rest: seq<string>)
    requires |cs| > 0 && Plain(name) && AllSupported(cs)
    ensures KernelSpan(Declaration(name, cs) + rest)
         == Ok(Span(name, Join(Unparsed(cs), Closers(|cs|))))
  {
    DeclaredShape(name, cs);
    LeadingKernel(Declaration(name, cs), rest);
  }

  /** The parameter list splits back into the declared groups, which map one by one. */
  lemma DeclaredArgs(cs: seq<CArg>)
    requires AllSupported(cs)
    ensures ParseArgList(Groups(Join(Unparsed(cs), Closers(|cs|))))
         == Ok(ArgLists(GoTypes(cs), Names(cs)))
  {
    forall i | 0 <= i < |cs| ensures NoSep(Unparsed(cs)[i]) && IsSep(Closers(|cs|)[i]) {
      UnparsePlain(cs[i]);
    }
    GroupsJoin(Unparsed(cs), Closers(|cs|));
    ParseDeclared(cs);
  }

  /**
   * A file starting with the declaration of a kernel with at least one supported parameter
   * yields the wrapper for exactly that name, those Go types and those names in order,
   * whatever follows the declaration.
   */
  lemma GenerateDeclaration(name: string, cs: seq<CArg>, body: seq<string>, ptx: string)
    requires |cs| > 0 && Plain(name)
    requires AllSupported(cs)
    ensures Generate(Declaration(name, cs) + body, ptx)
         == Ok(Render(Wrapgen(name, GoTypes(cs), Names(cs), Sanitize(ptx))))
  {
    DeclaredKept(name, cs, body);
    DeclaredSpan(name, cs, KeptTokens(body));
    DeclaredArgs(cs);
  }

  /**
   * `__global__ void name )` puts the ")" in the place of the "(". The span is then empty and
   * splits into no groups, so the wrapper has no parameters: the one way the generator makes
   * a wrapper without arguments.
   */
  lemma ZeroArguments(name: string, body: seq<string>, ptx: string)
    requires Plain(name)
    ensures Generate([Global, "void", name, ")"] + body, ptx)
         == Ok(Render(Wrapgen(name, [], [], Sanitize(ptx))))
  {
    var d := [Global, "void", name, ")"];
    FixedTokens();
    KeptTokensStable(d);
    KeptTokensAppend(d, body);
    var token := d + KeptTokens(body);
    assert forall j :: 0 <= j < 4 ==> token[j] == d[j];
    CloseSpan(token, 0, 3);
    assert Groups([]) == [];
  }

  /**
   * `()` is split into one empty group, and reading its name fails: a kernel without
   * parameters gets no wrapper.
   */
  lemma NoParameters(name: string, body: seq<string>, ptx: string)
    requires Plain(name)
    ensures Generate([Global, "void", name, "(", ")"] + body, ptx) == Err(ShortArg([]))
  {
    var d := [Global, "void", name, "(", ")"];
    FixedTokens();
    KeptTokensStable(d);
    KeptTokensAppend(d, body);
    var token := d + KeptTokens(body);
    assert forall j :: 0 <= j < 5 ==> token[j] == d[j];
    assert token[4..5] == [")"];
    SingleKernel(token, 0, 4);
    assert Groups([")"]) == [[]] by {
      FirstSep([], ")", []);
    }
  }
}
