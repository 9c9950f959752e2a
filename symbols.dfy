/** The table of TLA+ built-in symbols that have both an ASCII and a Unicode
    spelling. Its entries are not part of this model: the table is a
    parameter, two partial maps, one per direction. */
module Symbols {
  import opened Options

  datatype SymbolTable = SymbolTable(a2u: map<string, string>, u2a: map<string, string>)

  /** The counterpart of `s` in the target encoding; `toU` selects ASCII to
      Unicode. A miss is an ordinary outcome. */
  function Lookup(table: SymbolTable, toU: bool, s: string): (r: Option<string>)
    ensures toU ==> (r.Some? <==> s in table.a2u) && (r.Some? ==> r.value == table.a2u[s])
    ensures !toU ==> (r.Some? <==> s in table.u2a) && (r.Some? ==> r.value == table.u2a[s])
  {
    var m := if toU then table.a2u else table.u2a;
    if s in m then Some(m[s]) else None
  }

  /** The two directions of the table undo each other. */
  ghost predicate Inverse(table: SymbolTable) {
    && (forall a :: a in table.a2u ==> table.a2u[a] in table.u2a && table.u2a[table.a2u[a]] == a)
    && (forall u :: u in table.u2a ==> table.u2a[u] in table.a2u && table.a2u[table.u2a[u]] == u)
  }
}
