/** The compiler's scoped symbol table (src/SymbolTable.cpp): a stack of scopes, each mapping a
    name to its symbol, plus a counter that hands out memory addresses. The table is given
    twice: as a value (`Table`, with one function per operation, which the compiler's
    specification uses) and as the `SymbolTable` class whose methods update their fields in
    place as the source does and are proved against those functions. */
module Symbols {
  import opened Options
  import A = Ast

  datatype Symbol = Symbol(name: string, kind: A.NodeType, address: int)

  type Scope = map<string, Symbol>

  datatype Table = Table(scopes: seq<Scope>, nextAddress: int)

  /** A fresh table: the global scope and the first address. */
  function Initial(): (r: Table)
    ensures |r.scopes| == 1 && r.nextAddress == 0
    ensures forall n :: Lookup(r, n) == None
  {
    Table([map[]], 0)
  }

  /** Opens a new, empty innermost scope; every name still finds what it found before. */
  function Enter(t: Table): (r: Table)
    ensures |r.scopes| == |t.scopes| + 1 && r.scopes[|t.scopes|] == map[]
    ensures r.nextAddress == t.nextAddress
    ensures forall n :: Lookup(r, n) == Lookup(t, n)
  {
    var r := t.(scopes := t.scopes + [map[]]);
    assert r.scopes[..|t.scopes|] == t.scopes;
    r
  }

  /** Pops the innermost scope unless it is the only one. */
  function Exit(t: Table): (r: Table)
    ensures |t.scopes| >= 1 ==> |r.scopes| >= 1
    ensures r.nextAddress == t.nextAddress
  {
    if |t.scopes| > 1 then t.(scopes := t.scopes[..|t.scopes| - 1]) else t
  }

  /** The index of the innermost scope that binds `name`, if any: the scope whose symbol
      `lookupSymbol` returns. */
  function Innermost(scopes: seq<Scope>, name: string): (r: Option<nat>)
    ensures r.Some? ==> r.value < |scopes| && name in scopes[r.value]
    ensures r.Some? ==> forall j :: r.value < j < |scopes| ==> name !in scopes[j]
    ensures r.None? <==> forall j :: 0 <= j < |scopes| ==> name !in scopes[j]
    decreases |scopes|
  {
    if scopes == [] then None
    else if name in scopes[|scopes| - 1] then Some(|scopes| - 1)
    else Innermost(scopes[..|scopes| - 1], name)
  }

  /** The symbol `lookupSymbol` finds, or None where it returns null. */
  function Lookup(t: Table, name: string): (r: Option<Symbol>)
    ensures r.None? <==> forall j :: 0 <= j < |t.scopes| ==> name !in t.scopes[j]
    ensures r.Some? ==> exists j :: 0 <= j < |t.scopes| && name in t.scopes[j]
                                    && r.value == t.scopes[j][name]
                                    && forall k :: j < k < |t.scopes| ==> name !in t.scopes[k]
  {
    match Innermost(t.scopes, name)
    case Some(i) => Some(t.scopes[i][name])
    case None => None
  }

  /** `addSymbol`: fails when there is no scope or the innermost scope already binds the name;
      otherwise binds it there to a symbol holding the next address, and bumps the counter. */
  function Add(t: Table, name: string, kind: A.NodeType): (r: (bool, Table))
    ensures r.0 <==> |t.scopes| > 0 && name !in t.scopes[|t.scopes| - 1]
    ensures !r.0 ==> r.1 == t
    ensures r.0 ==> r.1.nextAddress == t.nextAddress + 1 && |r.1.scopes| == |t.scopes|
    ensures r.0 ==> Lookup(r.1, name) == Some(Symbol(name, kind, t.nextAddress))
  {
    if |t.scopes| == 0 then (false, t)
    else
      var top := t.scopes[|t.scopes| - 1];
      if name in top then (false, t)
      else
        var r := Table(t.scopes[|t.scopes| - 1 := top[name := Symbol(name, kind, t.nextAddress)]],
                       t.nextAddress + 1);
        assert name in r.scopes[|r.scopes| - 1];
        (true, r)
  }

  /** A write of a new type into the symbol `lookupSymbol` returned: the binding of `name`
      in scope `i` changes its type and nothing else changes. */
  function RetypeAt(t: Table, i: nat, name: string, kind: A.NodeType): (r: Table)
    requires i < |t.scopes| && name in t.scopes[i]
    ensures |r.scopes| == |t.scopes| && r.nextAddress == t.nextAddress
    ensures forall j :: 0 <= j < |t.scopes| ==> r.scopes[j].Keys == t.scopes[j].Keys
    ensures r.scopes[i][name] == t.scopes[i][name].(kind := kind)
    ensures forall j, n :: 0 <= j < |t.scopes| && n in t.scopes[j] && (j != i || n != name)
                           ==> r.scopes[j][n] == t.scopes[j][n]
  {
    t.(scopes := t.scopes[i := t.scopes[i][name := t.scopes[i][name].(kind := kind)]])
  }

  /** Two tables with the same names bound in the same scopes and the same address counter;
      the symbols themselves may differ. */
  predicate SameShape(t: Table, u: Table)
  {
    && |t.scopes| == |u.scopes| && t.nextAddress == u.nextAddress
    && (forall j :: 0 <= j < |t.scopes| ==> t.scopes[j].Keys == u.scopes[j].Keys)
  }

  /** The invariant every operation keeps: at least one scope, every symbol named by its key,
      every address below the counter, and no address bound twice. */
  predicate WellFormed(t: Table)
  {
    && |t.scopes| >= 1 && t.nextAddress >= 0
    && (forall i, n :: 0 <= i < |t.scopes| && n in t.scopes[i]
                       ==> t.scopes[i][n].name == n && 0 <= t.scopes[i][n].address < t.nextAddress)
    && (forall i, n, j, m :: 0 <= i < |t.scopes| && n in t.scopes[i] && 0 <= j < |t.scopes|
                             && m in t.scopes[j] && t.scopes[i][n].address == t.scopes[j][m].address
                             ==> i == j && n == m)
  }

  /** The fresh table has exactly one scope, which is empty, and starts addresses at 0. */
  lemma InitialIsWellFormed()
    ensures WellFormed(Initial())
    ensures |Initial().scopes| == 1 && Initial().scopes[0] == map[] && Initial().nextAddress == 0
    ensures forall n :: Lookup(Initial(), n) == None
  {
  }

  /** Leaving a scope just entered gives the table back. */
  lemma ExitUndoesEnter(t: Table)
    requires |t.scopes| >= 1
    ensures Exit(Enter(t)) == t
  {
  }

  /** Entering a scope hides nothing: every name resolves to the same symbol as before. */
  lemma {:induction false} EnterKeepsLookups(t: Table, name: string)
    ensures Lookup(Enter(t), name) == Lookup(t, name)
  {
    var s := Enter(t).scopes;
    assert s[..|s| - 1] == t.scopes;
    assert name !in s[|s| - 1];
  }

  /** Exit never pops the last scope, and a table with several scopes loses exactly one. */
  lemma ExitKeepsGlobalScope(t: Table)
    requires |t.scopes| >= 1
    ensures |Exit(t).scopes| == if |t.scopes| > 1 then |t.scopes| - 1 else 1
    ensures Exit(t).scopes == t.scopes[..|Exit(t).scopes|]
  {
  }

  /** A name bound only in an enclosing scope can be declared again: the new binding
      shadows the outer one, and leaving the scope brings the outer one back. */
  lemma Shadowing(t: Table, name: string, kind: A.NodeType, outer: nat)
    requires |t.scopes| >= 2 && outer < |t.scopes| - 1 && name in t.scopes[outer]
    requires name !in t.scopes[|t.scopes| - 1]
    ensures Add(t, name, kind).0
    ensures Lookup(Add(t, name, kind).1, name) == Some(Symbol(name, kind, t.nextAddress))
    ensures Lookup(Exit(Add(t, name, kind).1), name) == Lookup(t, name)
    ensures Lookup(t, name).Some?
  {
    var u := Add(t, name, kind).1;
    var e := Exit(u);
    assert e.scopes == t.scopes[..|t.scopes| - 1];
    assert Innermost(t.scopes, name) == Innermost(t.scopes[..|t.scopes| - 1], name);
  }

  /** Adding a name changes no other name's lookup. */
  lemma AddLeavesOtherNames(t: Table, name: string, kind: A.NodeType, other: string)
    requires other != name
    ensures Lookup(Add(t, name, kind).1, other) == Lookup(t, other)
  {
    var u := Add(t, name, kind).1;
    if Add(t, name, kind).0 {
      var k := |t.scopes| - 1;
      assert forall j :: 0 <= j < |t.scopes| ==> (other in u.scopes[j] <==> other in t.scopes[j]);
      assert forall j :: (0 <= j < |t.scopes| && other in t.scopes[j])
                           ==> u.scopes[j][other] == t.scopes[j][other];
      var a, b := Innermost(u.scopes, other), Innermost(t.scopes, other);
      if a.Some? && b.Some? {
        assert a.value == b.value;
      }
    }
  }

  lemma EnterPreservesWellFormed(t: Table)
    requires WellFormed(t)
    ensures WellFormed(Enter(t))
  {
    var u := Enter(t);
    forall i, n | 0 <= i < |u.scopes| && n in u.scopes[i]
      ensures i < |t.scopes| && n in t.scopes[i] && u.scopes[i][n] == t.scopes[i][n]
    {
      assert u.scopes[|t.scopes|] == map[];
    }
  }

  lemma ExitPreservesWellFormed(t: Table)
    requires WellFormed(t)
    ensures WellFormed(Exit(t))
  {
  }

  /** Every binding of the table after a successful `Add` other than the new one is a
      binding of the table before. */
  lemma AddKeepsOldBinding(t: Table, name: string, kind: A.NodeType, i: nat, n: string)
    requires Add(t, name, kind).0
    requires i < |Add(t, name, kind).1.scopes| && n in Add(t, name, kind).1.scopes[i]
    requires i != |t.scopes| - 1 || n != name
    ensures n in t.scopes[i] && Add(t, name, kind).1.scopes[i][n] == t.scopes[i][n]
  {
  }

  /** The new symbol takes an address no live symbol has, so addresses stay unique. */
  lemma AddPreservesWellFormed(t: Table, name: string, kind: A.NodeType)
    requires WellFormed(t)
    ensures WellFormed(Add(t, name, kind).1)
  {
    if Add(t, name, kind).0 {
      var u := Add(t, name, kind).1;
      var k := |t.scopes| - 1;
      assert u.scopes[k][name] == Symbol(name, kind, t.nextAddress);
      forall i, n | 0 <= i < |u.scopes| && n in u.scopes[i]
        ensures u.scopes[i][n].name == n && 0 <= u.scopes[i][n].address < u.nextAddress
      {
        if i != k || n != name {
          AddKeepsOldBinding(t, name, kind, i, n);
        }
      }
      forall i, n, j, m | 0 <= i < |u.scopes| && n in u.scopes[i] && 0 <= j < |u.scopes|
                          && m in u.scopes[j] && u.scopes[i][n].address == u.scopes[j][m].address
        ensures i == j && n == m
      {
        if i != k || n != name {
          AddKeepsOldBinding(t, name, kind, i, n);
        }
        if j != k || m != name {
          AddKeepsOldBinding(t, name, kind, j, m);
        }
      }
    }
  }

  lemma RetypePreservesWellFormed(t: Table, i: nat, name: string, kind: A.NodeType)
    requires WellFormed(t) && i < |t.scopes| && name in t.scopes[i]
    ensures WellFormed(RetypeAt(t, i, name, kind))
    ensures SameShape(t, RetypeAt(t, i, name, kind))
  {
    var u := RetypeAt(t, i, name, kind);
    forall j, n | 0 <= j < |u.scopes| && n in u.scopes[j]
      ensures n in t.scopes[j]
      ensures u.scopes[j][n].name == t.scopes[j][n].name
      ensures u.scopes[j][n].address == t.scopes[j][n].address
    {
    }
  }

  /** Retyping changes no scope, no bound name and not the counter. */
  lemma RetypeKeepsShape(t: Table, i: nat, name: string, kind: A.NodeType)
    requires i < |t.scopes| && name in t.scopes[i]
    ensures SameShape(t, RetypeAt(t, i, name, kind))
  {
  }

  /** Tables of the same shape resolve every name in the same scope. */
  lemma SameShapeInnermost(t: Table, u: Table, name: string)
    requires SameShape(t, u)
    ensures Innermost(t.scopes, name) == Innermost(u.scopes, name)
  {
    var a, b := Innermost(t.scopes, name), Innermost(u.scopes, name);
    if a.Some? {
      assert name in u.scopes[a.value];
      assert b.Some? && b.value >= a.value;
      assert name in t.scopes[b.value];
    } else {
      assert forall j :: 0 <= j < |u.scopes| ==> name !in u.scopes[j] by {
        forall j | 0 <= j < |u.scopes| ensures name !in u.scopes[j] {
          assert name !in t.scopes[j];
        }
      }
    }
  }

  /** Retyping the symbol `lookupSymbol` finds changes what that name resolves to in its type
      only, and no other name's lookup. */
  lemma RetypeLookups(t: Table, name: string, kind: A.NodeType, other: string)
    requires Lookup(t, name).Some?
    ensures var u := RetypeAt(t, Innermost(t.scopes, name).value, name, kind);
      && Lookup(u, name) == Some(Lookup(t, name).value.(kind := kind))
      && (other != name ==> Lookup(u, other) == Lookup(t, other))
  {
    var i := Innermost(t.scopes, name).value;
    var u := RetypeAt(t, i, name, kind);
    RetypeKeepsShape(t, i, name, kind);
    SameShapeInnermost(t, u, name);
    SameShapeInnermost(t, u, other);
  }

  lemma SameShapeTransitive(t: Table, u: Table, v: Table)
    requires SameShape(t, u) && SameShape(u, v)
    ensures SameShape(t, v)
  {
  }

  /** The operations of the table, for replaying a history of calls. */
  datatype Op =
    | EnterOp
    | ExitOp
    | AddOp(name: string, kind: A.NodeType)
    | RetypeOp(name: string, kind: A.NodeType)

  /** One operation; the second component is the address a successful add handed out.
      A retype writes into the innermost binding and does nothing when the
      name is unbound. */
  function Apply(t: Table, op: Op): (Table, Option<int>)
  {
    match op
    case EnterOp => (Enter(t), None)
    case ExitOp => (Exit(t), None)
    case AddOp(name, kind) =>
      var (ok, u) := Add(t, name, kind);
      (u, if ok then Some(t.nextAddress) else None)
    case RetypeOp(name, kind) =>
      match Innermost(t.scopes, name)
      case Some(i) => (RetypeAt(t, i, name, kind), None)
      case None => (t, None)
  }

  /** A history of operations, with the addresses handed out in order. */
  function Replay(t: Table, ops: seq<Op>): (r: (Table, seq<int>))
    ensures |r.1| <= |ops|
    ensures r.0.nextAddress == t.nextAddress + |r.1|
    decreases |ops|
  {
    if ops == [] then (t, [])
    else
      var (t1, a) := Apply(t, ops[0]);
      var (t2, given) := Replay(t1, ops[1..]);
      (t2, (if a.Some? then [a.value] else []) + given)
  }

  /** Addresses are never reused: whatever the history (scopes exited included), the
      addresses handed out are strictly increasing, start at the counter's first value and
      stay below its last one. */
  lemma {:induction false} AddressesStrictlyIncrease(t: Table, ops: seq<Op>)
    ensures var (u, given) := Replay(t, ops);
      && t.nextAddress <= u.nextAddress
      && (forall k :: 0 <= k < |given| ==> t.nextAddress <= given[k] < u.nextAddress)
      && (forall k, l :: 0 <= k < l < |given| ==> given[k] < given[l])
    decreases |ops|
  {
    if ops != [] {
      var (t1, a) := Apply(t, ops[0]);
      AddressesStrictlyIncrease(t1, ops[1..]);
      assert a.Some? ==> a.value == t.nextAddress && t1.nextAddress == t.nextAddress + 1;
      assert a.None? ==> t1.nextAddress == t.nextAddress;
    }
  }

  /** Every operation keeps the table well formed. */
  lemma {:induction false} ReplayPreservesWellFormed(t: Table, ops: seq<Op>)
    requires WellFormed(t)
    ensures WellFormed(Replay(t, ops).0)
    decreases |ops|
  {
    if ops != [] {
      match ops[0] {
        case EnterOp => EnterPreservesWellFormed(t);
        case ExitOp => ExitPreservesWellFormed(t);
        case AddOp(name, kind) => AddPreservesWellFormed(t, name, kind);
        case RetypeOp(name, kind) =>
          match Innermost(t.scopes, name) {
            case Some(i) => RetypePreservesWellFormed(t, i, name, kind);
            case None =>
          }
      }
      ReplayPreservesWellFormed(Apply(t, ops[0]).0, ops[1..]);
    }
  }

  /** The symbol table as the compiler holds it: fields updated in place. */
  class SymbolTable {
    var scopes: seq<Scope>
    var nextAddress: int

    function Value(): Table
      reads this
    {
      Table(scopes, nextAddress)
    }

    /** Starts with the global scope and address 0. */
    constructor ()
      ensures scopes == [map[]] && nextAddress == 0
    {
      scopes := [];
      nextAddress := 0;
      new;
      EnterScope();
    }

    method EnterScope()
      modifies this
      ensures scopes == old(scopes) + [map[]] && nextAddress == old(nextAddress)
      ensures Value() == Enter(old(Value()))
    {
      scopes := scopes + [map[]];
    }

    method ExitScope()
      modifies this
      ensures |old(scopes)| > 1 ==> scopes == old(scopes)[..|old(scopes)| - 1]
      ensures |old(scopes)| <= 1 ==> scopes == old(scopes)
      ensures nextAddress == old(nextAddress)
      ensures Value() == Exit(old(Value()))
    {
      if |scopes| > 1 {
        scopes := scopes[..|scopes| - 1];
      }
    }

    method AddSymbol(name: string, kind: A.NodeType) returns (ok: bool)
      modifies this
      ensures ok <==> |old(scopes)| > 0 && name !in old(scopes)[|old(scopes)| - 1]
      ensures (ok, Value()) == Add(old(Value()), name, kind)
    {
      if |scopes| == 0 {
        return false;
      }
      if name in scopes[|scopes| - 1] {
        return false;
      }
      var top := scopes[|scopes| - 1];
      scopes := scopes[|scopes| - 1 := top[name := Symbol(name, kind, nextAddress)]];
      nextAddress := nextAddress + 1;
      ok := true;
    }

    /** `lookupSymbol`: walks the scopes from the innermost outwards. The symbol address it returns
        is modelled as the index of the scope that holds the symbol. */
    method LookupSymbol(name: string) returns (where: Option<nat>)
      ensures where == Innermost(scopes, name)
      ensures where.Some? ==> Lookup(Value(), name) == Some(scopes[where.value][name])
    {
      var i := |scopes|;
      while i > 0
        invariant 0 <= i <= |scopes|
        invariant forall j :: i <= j < |scopes| ==> name !in scopes[j]
      {
        if name in scopes[i - 1] {
          return Some(i - 1);
        }
        i := i - 1;
      }
      return None;
    }

    /** `symbol->type = kind` on the symbol held by scope `where`. */
    method SetSymbolType(where: nat, name: string, kind: A.NodeType)
      requires where < |scopes| && name in scopes[where]
      modifies this
      ensures Value() == RetypeAt(old(Value()), where, name, kind)
    {
      scopes := scopes[where := scopes[where][name := scopes[where][name].(kind := kind)]];
    }
  }
}
