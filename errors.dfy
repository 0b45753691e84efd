/** The ways cuda2go gives up on a kernel file, and the result type its stages return. */
module Errors {

  /** Every fault is fatal for the file; each constructor names the Go operation that fails. */
  datatype Error =
    | NoKernel                          // no "__global__": the slice token[-1:-1] is out of range
    | NameOutOfRange                    // token[i+2] read past the end for a "__global__" at i
    | Unterminated                      // no ")" after the marker: the slice token[argstart:-1]
    | SpanInverted                      // ")" closer than the slice start: token[argstart:argstop] with argstart > argstop
    | ShortArg(group: seq<string>)      // args[i][1] or args[i][2] out of range
    | UnsupportedType(ctype: string)    // typemap's Fatalf, naming the C type

  datatype Result<T> = Ok(value: T) | Err(error: Error)
}
