/**
 * The generated wrapper, as the declarations the wrapper template lays out rather than as
 * text: the per-kernel globals, one storage cell per argument, the address array over those
 * cells, the `K_<name>` entry point and its parameters, the copies into the cells, and the
 * PTX constant.
 */
module Template {

  /** The template data: the kernel name, the Go types and names in order, the quoted PTX. */
  datatype Kernel = Kernel(name: string, argT: seq<string>, argN: seq<string>, ptx: string)

  /** A declaration `ident typ`: a package variable or a parameter of the entry point. */
  datatype Decl = Decl(ident: string, typ: string)

  /** A statement `cell = value` in the body of the entry point. */
  datatype Assign = Assign(cell: string, value: string)

  datatype Wrapper = Wrapper(
    globals: seq<Decl>,     // the lock, the loaded function and the stream
    storage: seq<Decl>,     // the cells that keep the arguments alive
    argPtr: seq<string>,    // the cells whose addresses fill the `_argptr` array
    entry: string,          // the name of the launch function
    params: seq<Decl>,      // its parameters, before gridDim and blockDim
    lookup: string,         // the function looked up in the loaded module
    assigns: seq<Assign>,   // the arguments copied into their cells
    ptxName: string,        // the constant holding the PTX
    ptxValue: string)

  const ArgInfix := "_arg_"

  /** The storage cell of argument `arg` of kernel `name`. */
  function Cell(name: string, arg: string): string {
    name + ArgInfix + arg
  }

  /** The three per-kernel globals declared first in the var block. */
  function Globals(name: string): seq<Decl> {
    [Decl(name + "_lock", "sync.Mutex"), Decl(name + "_code", "cu.Function"),
     Decl(name + "_stream", "cu.Stream")]
  }

  /** The range over ArgN in the var block: cell i is declared with type ArgT[i]. */
  function Storage(name: string, argT: seq<string>, argN: seq<string>): (ds: seq<Decl>)
    requires |argT| == |argN|
    ensures |ds| == |argN|
    ensures forall i :: 0 <= i < |argN| ==> ds[i] == Decl(Cell(name, argN[i]), argT[i])
    decreases |argN|
  {
    if argN == [] then [] else [Decl(Cell(name, argN[0]), argT[0])] + Storage(name, argT[1..], argN[1..])
  }

  /** The range over ArgN in the address array: element i points at cell i. */
  function Cells(name: string, argN: seq<string>): (cs: seq<string>)
    ensures |cs| == |argN|
    ensures forall i :: 0 <= i < |argN| ==> cs[i] == Cell(name, argN[i])
    decreases |argN|
  {
    if argN == [] then [] else [Cell(name, argN[0])] + Cells(name, argN[1..])
  }

  /** The range over ArgT in the parameter list: parameter i is ArgN[i] of type ArgT[i]. */
  function Params(argT: seq<string>, argN: seq<string>): (ps: seq<Decl>)
    requires |argT| == |argN|
    ensures |ps| == |argT|
    ensures forall i :: 0 <= i < |argT| ==> ps[i] == Decl(argN[i], argT[i])
    decreases |argT|
  {
    if argT == [] then [] else [Decl(argN[0], argT[0])] + Params(argT[1..], argN[1..])
  }

  /** The range over ArgN in the body: parameter i is copied into cell i. */
  function Assigns(name: string, argN: seq<string>): (ss: seq<Assign>)
    ensures |ss| == |argN|
    ensures forall i :: 0 <= i < |argN| ==> ss[i] == Assign(Cell(name, argN[i]), argN[i])
    decreases |argN|
  {
    if argN == [] then [] else [Assign(Cell(name, argN[0]), argN[0])] + Assigns(name, argN[1..])
  }

  /**
   * Executing the template. Both ranges index the other list, so the lists must have the
   * same length; the generator always builds them so.
   */
  function Render(k: Kernel): (w: Wrapper)
    requires |k.argT| == |k.argN|
    ensures |w.storage| == |w.argPtr| == |w.params| == |w.assigns| == |k.argN|
    ensures forall i :: 0 <= i < |k.argN| ==>
      && w.storage[i].ident == w.argPtr[i] == w.assigns[i].cell
      && w.storage[i].typ == w.params[i].typ == k.argT[i]
      && w.params[i].ident == w.assigns[i].value == k.argN[i]
    ensures w.entry == "K_" + k.name && w.lookup == k.name
    ensures w.ptxName == k.name + "_ptx" && w.ptxValue == k.ptx
  {
    Wrapper(Globals(k.name), Storage(k.name, k.argT, k.argN), Cells(k.name, k.argN),
            "K_" + k.name, Params(k.argT, k.argN), k.name, Assigns(k.name, k.argN),
            k.name + "_ptx", k.ptx)
  }

  /** The template data can be read back from the wrapper: the entry point names the kernel. */
  function Recover(w: Wrapper): Kernel {
    var name := if |w.entry| >= 2 then w.entry[2..] else "";
    Kernel(name, TypesOf(w.params), IdentsOf(w.params), w.ptxValue)
  }

  function TypesOf(ps: seq<Decl>): seq<string> {
    if ps == [] then [] else [ps[0].typ] + TypesOf(ps[1..])
  }

  function IdentsOf(ps: seq<Decl>): seq<string> {
    if ps == [] then [] else [ps[0].ident] + IdentsOf(ps[1..])
  }

  lemma {:induction false} ParamsRoundTrip(argT: seq<string>, argN: seq<string>)
    requires |argT| == |argN|
    ensures TypesOf(Params(argT, argN)) == argT && IdentsOf(Params(argT, argN)) == argN
    decreases |argT|
  {
    if argT != [] {
      ParamsRoundTrip(argT[1..], argN[1..]);
      assert Params(argT, argN)[1..] == Params(argT[1..], argN[1..]);
    }
  }

  /** Rendering loses nothing: the kernel is recovered from the wrapper it renders to. */
  lemma RenderRecover(k: Kernel)
    requires |k.argT| == |k.argN|
    ensures Recover(Render(k)) == k
  {
    ParamsRoundTrip(k.argT, k.argN);
    assert ("K_" + k.name)[2..] == k.name;
  }

  /** Different arguments of one kernel get different cells. */
  lemma CellInjective(name: string, a: string, b: string)
    requires Cell(name, a) == Cell(name, b)
    ensures a == b
  {
    assert Cell(name, a)[|name| + |ArgInfix|..] == a;
    assert Cell(name, b)[|name| + |ArgInfix|..] == b;
  }

  /** No argument cell has the name of one of the globals, the address array or the PTX. */
  lemma CellNotGlobal(name: string, a: string)
    ensures Cell(name, a) != name + "_lock" && Cell(name, a) != name + "_code"
    ensures Cell(name, a) != name + "_stream" && Cell(name, a) != name + "_argptr"
    ensures Cell(name, a) != name + "_ptx"
  {
    var n := |name|;
    assert Cell(name, a)[n + 1] == 'a' && Cell(name, a)[n + 4] == '_';
    assert (name + "_argptr")[n + 4] == 'p';
  }

  /**
   * With distinct argument names, the var block declares every identifier once: the globals,
   * the cells and the address array are pairwise different.
   */
  lemma VarBlockDistinct(k: Kernel)
    requires |k.argT| == |k.argN|
    requires forall i, j :: 0 <= i < j < |k.argN| ==> k.argN[i] != k.argN[j]
    ensures var w := Render(k);
      && (forall i, j :: 0 <= i < j < |w.storage| ==> w.storage[i].ident != w.storage[j].ident)
      && (forall i :: 0 <= i < |w.storage| ==>
            w.storage[i].ident != k.name + "_argptr" &&
            forall d :: d in w.globals ==> w.storage[i].ident != d.ident)
  {
    var w := Render(k);
    forall i, j | 0 <= i < j < |w.storage| ensures w.storage[i].ident != w.storage[j].ident {
      if w.storage[i].ident == w.storage[j].ident {
        CellInjective(k.name, k.argN[i], k.argN[j]);
      }
    }
    forall i | 0 <= i < |w.storage|
      ensures w.storage[i].ident != k.name + "_argptr"
      ensures forall d :: d in w.globals ==> w.storage[i].ident != d.ident
    {
      CellNotGlobal(k.name, k.argN[i]);
    }
  }
}
