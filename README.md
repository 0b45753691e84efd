# cuda2go, modelled in Dafny

cuda2go is the build-time generator in `gpu/ptx/cuda2go.go`. It turns a CUDA source file
with one `__global__ void` kernel into a Go wrapper that launches the compiled kernel.
This project models the generator's core, from the scanned token stream to the structured
wrapper:

- **Token filter** (`tokens.dfy`): every `__restrict__` token is dropped and the rest keep
  their order.
- **Kernel search** (`signature.dfy`): a loop looks for the marker `__global__`. It takes
  the kernel name two tokens after the marker. At the first `)` after a marker it cuts the
  argument span, which runs from four tokens after the marker through that `)`.
  - Each Go fault that ends the run is an explicit error: an index past the end, or a
    slice with a bound of -1 or with its bounds inverted.
- **Argument stage** (`params.dfy`, `types.dfy`):
  - the span is split into one group per `,` or `)`;
  - a group `T * n` is folded into `T* n`;
  - each C type goes through the three-entry table; a type outside the table is fatal.
- **PTX filter** (`ptx.dfy`): the compiled PTX is read line by line, the way repeated
  `ReadBytes('\n')` calls read it. Lines starting with `//` or with a tab followed by
  `.file` are dropped. Every other line is written out byte for byte, in order.
- **Template** (`template.dfy`): the wrapper is modelled as its declarations, not as text:
  - the per-kernel globals;
  - one storage cell per argument;
  - the `_argptr` address array;
  - the `K_<name>` entry point and its parameters;
  - the copies of the parameters into the cells;
  - the PTX constant.
- **Pipeline** (`cuda2go.dfy`): the stages are composed in the generator's order.

How each loop is modelled:

- Each loop of the Go code is a method with loop invariants (`FilterTokens`, `FindKernel`,
  `SplitArgs`, `ParseArgs`, `FilterPtx`).
- Each of these methods is proved equal to a function. The properties are then proved as
  lemmas about that function.
- `ParseArgs` fills `argt` and `argn` as arrays, in place. It overwrites a pointer group
  with its two-token form before the lookup.

Each `char` of a string stands for one byte of the file.

Edge cases of the code, as the model states them:

- **The last marker wins.** The search loop does not stop at a marker. Each `__global__`
  it passes before the first `)` replaces the name and the span start, so the last marker
  before that `)` counts (`Signature.KernelSpan`). The header comment of `cuda2go.go`
  (lines 4-5) asks for exactly one `__global__ void` per file; with one marker, its name and
  span are the ones `Signature.SingleKernel` gives.
- **`()` gives no wrapper.** The split turns the span `)` into one empty group, and reading
  that group's name is out of range (`Cuda2Go.NoParameters`).
- **`__global__ void f )` gives a wrapper with no parameters.** The `)` stands three tokens
  after the marker, where the `(` belongs. The slice from four tokens after the marker
  through that `)` is then empty, it splits into no groups, and generation succeeds with
  zero arguments (`Signature.CloseSpan`, `Cuda2Go.ZeroArguments`). This is the only way the
  code produces a wrapper without arguments.
- **A `)` one or two tokens after the marker** inverts the slice bounds (`SpanInverted`).
- **`float * * x`** is read as type `float*` with the name `*`.
- **A last PTX line without a newline is dropped.** The read loop stops at EOF before it
  writes what came with the EOF.

## Model

| member | source | states |
|---|---|---|
| Tokens.FilterTokens | gpu/ptx/cuda2go.go:38-44 | the scan loop appends exactly the kept tokens, in scan order |
| Tokens.KeptTokensSpec | gpu/ptx/cuda2go.go:171-177 | no `__restrict__` is left; a token survives iff it was scanned and is not `__restrict__`; the count drops by the number filtered |
| Tokens.KeptTokensAppend | gpu/ptx/cuda2go.go:38-44 | filtering distributes over any cut of the scan, so the kept tokens keep their order |
| Tokens.KeptTokensStable | gpu/ptx/cuda2go.go:38-44 | a scan without `__restrict__` is kept unchanged, and filtering twice is filtering once |
| Signature.FindKernel | gpu/ptx/cuda2go.go:48-61 | the search loop with its break, then the slice, gives exactly the outcome of the marker/close-paren search, including each slice or index fault |
| Signature.KernelSpanShape | gpu/ptx/cuda2go.go:48-61 | no kernel exactly when no marker; unterminated only with no `)` after the first marker, and a marker with no `)` after it always faults (unterminated, or the name read out of range); inverted bounds only with a marker one or two tokens before a `)`; an empty span only with a marker three tokens before a `)`; a found span ends with its only `)`; the name is one of the tokens |
| Signature.CloseSpan | gpu/ptx/cuda2go.go:50-61 | with one marker before the first `)`, that `)` one or two tokens after the marker iff the slice bounds are inverted, and three tokens after it iff the span is empty with the name two tokens after the marker |
| Signature.SingleKernel | gpu/ptx/cuda2go.go:50-61 | with no other marker before the first `)` at k, the name is `token[f+2]` and the span `token[f+4..k+1]`, whatever follows |
| Signature.LeadingKernel | gpu/ptx/cuda2go.go:50-61 | opening tokens that start with the marker and close with their only `)` are the name and span the search returns |
| Signature.MarkerAtEnd | gpu/ptx/cuda2go.go:51-52 | a marker second from the end with no `)` anywhere faults on reading the name |
| Params.Groups | gpu/ptx/cuda2go.go:64-71 | no group contains a separator |
| Params.GroupCount | gpu/ptx/cuda2go.go:64-71 | there are as many groups as `,`/`)` tokens in the span |
| Params.Rebuild | gpu/ptx/cuda2go.go:64-71 | the groups joined with their separators, plus the trailing tokens, rebuild the span |
| Params.TailOfClosed | gpu/ptx/cuda2go.go:64-71 | a span ending in a separator has no trailing tokens, so its groups and separators rebuild it |
| Params.GroupsJoin | gpu/ptx/cuda2go.go:64-71 | splitting separator-free groups joined by separators gives the groups back |
| Params.SplitArgs | gpu/ptx/cuda2go.go:64-71 | the split loop appends exactly the groups, in order |
| Params.Normalise | gpu/ptx/cuda2go.go:77-81 | `[T,"*",n,..]` gives type `T*` and name `n`; any other group gives `T` and `group[1]`; too short for the index read is the fault naming the group |
| Params.NormaliseUnparse | gpu/ptx/cuda2go.go:77-81 | the tokens of a declaration (name not `*`) normalise back to it, for both shapes |
| Params.ParseArgListOk | gpu/ptx/cuda2go.go:74-82 | the argument stage succeeds iff every group maps |
| Params.ParseArgListEntries | gpu/ptx/cuda2go.go:74-82 | on success both lists have one entry per group, and entry i comes from group i alone |
| Params.FirstFailure | gpu/ptx/cuda2go.go:76-82 | when group i is the first to fail, the stage fails with group i's fault |
| Params.ParseArgListFault | gpu/ptx/cuda2go.go:76-82 | the stage fails only with a short group or an unsupported type |
| Params.ParseArgs | gpu/ptx/cuda2go.go:74-82 | the in-place loop over `argt`/`argn` returns exactly the mapped lists or the first fault |
| Types.TypeMap | gpu/ptx/cuda2go.go:86-95 | `float*`, `float` and `int` map to `cu.DevicePtr`, `float32`, `int`; every other type is the fatal error naming it |
| Ptx.ReadBytes | gpu/ptx/cuda2go.go:186 | one read returns the bytes through the next newline, or the rest with EOF when none is left |
| Ptx.FilterPtx | gpu/ptx/cuda2go.go:181-195 | the read loop writes exactly the sanitised text |
| Ptx.SanitizeKept | gpu/ptx/cuda2go.go:187-193 | the output is the input's newline-terminated lines, minus the dropped ones, written in order |
| Ptx.SanitizeLines | gpu/ptx/cuda2go.go:187-193 | the lines of the output are the kept lines of the input; a line is in the output iff it is in the input and not dropped; the output ends in a newline or is empty |
| Ptx.SanitizeIdempotent | gpu/ptx/cuda2go.go:181-195 | filtering filtered PTX changes nothing |
| Ptx.SanitizeClean | gpu/ptx/cuda2go.go:181-195 | complete PTX without comment or `.file` lines comes back unchanged |
| Ptx.KeptMembers | gpu/ptx/cuda2go.go:189-191 | a line is kept iff it is one of the lines and starts with neither prefix |
| Ptx.LinesOfConcat | gpu/ptx/cuda2go.go:186-192 | reading complete lines back from their concatenation gives the same lines |
| Ptx.ConcatOfLines | gpu/ptx/cuda2go.go:186-192 | the lines read from complete text, written one after another, are the text |
| Template.Storage | gpu/ptx/cuda2go.go:136-137 | storage cell i is `<name>_arg_<ArgN[i]>` of type `ArgT[i]` |
| Template.Cells | gpu/ptx/cuda2go.go:138-140 | element i of the address array points at cell i |
| Template.Params | gpu/ptx/cuda2go.go:146 | parameter i of `K_<name>` is `ArgN[i]` of type `ArgT[i]` |
| Template.Assigns | gpu/ptx/cuda2go.go:155-156 | statement i copies parameter `ArgN[i]` into cell i |
| Template.Render | gpu/ptx/cuda2go.go:132-164 | the four argument places have one entry per argument in ArgN order; at each index the cell, its address and its assignment agree, the cell and parameter types are `ArgT[i]`, the parameter and copied value are `ArgN[i]` |
| Template.RenderRecover | gpu/ptx/cuda2go.go:98-103 | the template data is recovered from the rendered wrapper |
| Template.CellInjective | gpu/ptx/cuda2go.go:136 | different argument names give different cells |
| Template.CellNotGlobal | gpu/ptx/cuda2go.go:133-138 | no cell is named like the lock, code, stream, address array or PTX constant |
| Template.VarBlockDistinct | gpu/ptx/cuda2go.go:132-141 | with distinct argument names, every identifier of the var block is declared once |
| Cuda2Go.Cuda2Go | gpu/ptx/cuda2go.go:28-84 | the stages run in order and return exactly the generated wrapper or the first fault |
| Cuda2Go.GenerateNoKernel | gpu/ptx/cuda2go.go:48-61 | a file has no kernel iff it has no marker |
| Cuda2Go.GenerateShape | gpu/ptx/cuda2go.go:64-108 | a wrapper has one parameter per separator of the span, is entered at `K_<name>` and carries the filtered PTX as a raw string |
| Cuda2Go.GenerateDeclaration | gpu/ptx/cuda2go.go:35-108 | a file opening with a declaration of supported parameters yields the wrapper for that name, those Go types and names in order, whatever follows |
| Cuda2Go.ZeroArguments | gpu/ptx/cuda2go.go:48-108 | `__global__ void name )` yields the wrapper for that name with no parameters |
| Cuda2Go.NoParameters | gpu/ptx/cuda2go.go:64-78 | `()` gives the short-group fault for the empty group |
| Cuda2Go.ParseDeclared | gpu/ptx/cuda2go.go:76-82 | declared parameters map one by one to their Go types and names |

## Left out

- Lexing: the token stream is given. The `text/scanner` lexer (lines 36-38) is a library, and its comment and literal rules are not modelled.
- File I/O is not modelled:
  - `core.Open` and `core.OpenFile`;
  - that `core.NoExt` derives the `.ptx` input path and the `.go` output path from the input path (lines 31, 107, 109-110);
  - the `flag`/`main` driver (lines 20-25) and the progress line (line 29).
- The PTX text and the token sequence are parameters instead.
- Ptx.ReadBytes: models only the bytes and EOF of a read. A read error other than EOF (`core.Fatal(err)`, line 188) is not modelled.
- Template rendering as text is not modelled: whitespace, the fixed header and imports, the `{{with $i}},` separators, and `template.Execute` errors. `Template.Render` requires ArgT and ArgN of equal length, which the generator always provides.
- Runtime behaviour of the generated wrapper is not modelled: the mutex, lazy stream and module creation, `cu.LaunchKernel` and `Synchronize` (lines 147-161). This is concurrency plus foreign CUDA calls.
- A backquote inside the PTX would end the raw string literal early. Quoting is modelled as the plain concatenation of line 108.
- `engine/util.go`, `data/vector.go` and `submit/doc.go` are not part of this model.
