/** The closed table from the CUDA parameter types the dialect supports to Go types. */
module Types {
  import opened Errors

  const Table: map<string, string> := map["float*" := "cu.DevicePtr", "float" := "float32", "int" := "int"]

  /** typemap: a table lookup; any type outside the table is fatal, with the type named. */
  function TypeMap(ctype: string): (r: Result<string>)
    ensures ctype == "float*" <==> r == Ok("cu.DevicePtr")
    ensures ctype == "float" <==> r == Ok("float32")
    ensures ctype == "int" <==> r == Ok("int")
    ensures r.Err? <==> ctype != "float*" && ctype != "float" && ctype != "int"
    ensures r.Err? ==> r.error == UnsupportedType(ctype)
  {
    if ctype in Table then Ok(Table[ctype]) else Err(UnsupportedType(ctype))
  }
}
