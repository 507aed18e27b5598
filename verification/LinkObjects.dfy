/** Object files as the linker reads them: sorted symbol tables and functions. */
module LinkObjects {
  import opened LinkNames
  import opened IL

  datatype SymbolKind = ObjectName | TypeName

  /** `shape` tells types apart up to equality. */
  datatype SymbolType = SymbolType(isFunction: bool, shape: nat, specifiers: nat)

  /** `id` stands for the symbol object's address. */
  datatype Symbol = Symbol(id: nat, name: string, kind: SymbolKind, ty: SymbolType)

  datatype Entry = Entry(name: string, symbol: Symbol)

  datatype LinkFunction = LinkFunction(name: string, body: Body)

  /** The global scope of one object file, its symbol table in order, and the functions it defines. */
  datatype Unit = Unit(scope: Scope, table: seq<Entry>, functions: seq<LinkFunction>)

  predicate SortedTable(t: seq<Entry>) {
    forall i, j {:trigger t[i], t[j]} :: 0 <= i < j < |t| ==> Less(t[i].name, t[j].name)
  }

  function Names(t: seq<Entry>): set<string> {
    set k | 0 <= k < |t| :: t[k].name
  }

  /** The symbol a table has under a name. */
  function Find(t: seq<Entry>, name: string): (s: Symbol)
    requires name in Names(t)
    ensures exists k :: 0 <= k < |t| && t[k].name == name && t[k].symbol == s
  {
    if t[|t| - 1].name == name then t[|t| - 1].symbol else
    assert forall k :: 0 <= k < |t| - 1 ==> t[..|t| - 1][k] == t[k];
    Find(t[..|t| - 1], name)
  }

  /** Tables are sorted by name, file symbols under their names, and hold the functions the file defines. */
  predicate WellFormedUnit(u: Unit) {
    SortedTable(u.table) && (forall k {:trigger u.table[k]} :: 0 <= k < |u.table| ==> u.table[k].symbol.name == u.table[k].name) &&
    forall k {:trigger u.functions[k]} :: 0 <= k < |u.functions| ==> u.functions[k].name in Names(u.table)
  }

  predicate WellFormedUnits(units: seq<Unit>) {
    forall u {:trigger units[u]} :: 0 <= u < |units| ==> WellFormedUnit(units[u])
  }
}
