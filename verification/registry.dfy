/** The function table of query.py:17-23. The module-level dictionary `func_table` becomes a table
    value that is threaded through the registrations.

    Python keeps only the last of two definitions with the same name, so the one-argument
    `expose(func)` of query.py:18 is replaced by the two-argument one of query.py:21 and cannot be
    called; only `expose(name, function)` is modelled. */
module Registry {
  import opened Transformer

  /** The table after a registration, and what `expose` returns. */
  datatype Exposed = Exposed(table: FuncTable, returned: Builtin)

  /** `expose(name, function)`: binds `name` to the function `f` and returns `f`. */
  function Expose(table: FuncTable, name: string, f: Builtin): (r: Exposed)
    ensures r.returned == f
    ensures name in r.table && r.table[name] == f
    ensures r.table.Keys == table.Keys + {name}
    ensures forall n :: n in table && n != name ==> r.table[n] == table[n]
  {
    Exposed(table[name := f], f)
  }

  /** Re-exposing a name overwrites the earlier binding: only the last registration is seen. */
  lemma ExposeOverwrites(table: FuncTable, name: string, f: Builtin, g: Builtin)
    ensures Expose(Expose(table, name, f).table, name, g).table == Expose(table, name, g).table
  {
    var twice := Expose(Expose(table, name, f).table, name, g).table;
    var once := Expose(table, name, g).table;
    assert twice.Keys == once.Keys;
    forall n | n in twice
      ensures twice[n] == once[n]
    {
    }
  }

  /** Registrations under different names do not interfere: their order does not matter. */
  lemma ExposeCommutes(table: FuncTable, m: string, f: Builtin, n: string, g: Builtin)
    requires m != n
    ensures Expose(Expose(table, m, f).table, n, g).table == Expose(Expose(table, n, g).table, m, f).table
  {
    var a := Expose(Expose(table, m, f).table, n, g).table;
    var b := Expose(Expose(table, n, g).table, m, f).table;
    assert a.Keys == b.Keys;
    forall k | k in a
      ensures a[k] == b[k]
    {
    }
  }
}
