/**
 * The flattener: `runQuery` projects a record to the values of its fields,
 * in declaration order and without their names, and hands them once to an
 * executor bound to a prepared statement. The database is reduced to the
 * list of prepared-statement calls made through the transaction.
 */
module Flattener {
  import opened Descriptors

  /** A positional parameter of a prepared statement. */
  datatype Param = PInt(i: int) | PStr(s: string)

  predicate IsScalar(ty: Ty) {
    ty == TInt || ty == TStr
  }

  /** A struct whose fields are all `int` or `std::string`, the kind the program flattens. */
  predicate FlatRecord(ty: Ty) {
    ty.TRec? && forall k :: 0 <= k < |ty.fields| ==> IsScalar(ty.fields[k].ty)
  }

  function ToParam(v: V): Param
    requires v.VInt? || v.VStr?
  {
    if v.VInt? then PInt(v.i) else PStr(v.s)
  }

  /** The field values of `v`, in declaration order, names dropped. */
  function Flatten(v: V, ty: Ty): (ps: seq<Param>)
    requires FlatRecord(ty) && WellTyped(v, ty)
    ensures |ps| == |ty.fields|
    ensures forall k :: 0 <= k < |ps| ==> (ps[k].PInt? <==> ty.fields[k].ty == TInt)
    ensures forall k :: 0 <= k < |ps| ==> ps[k].PInt? ==> v.vals[k] == VInt(ps[k].i)
    ensures forall k :: 0 <= k < |ps| ==> ps[k].PStr? ==> v.vals[k] == VStr(ps[k].s)
  {
    ScalarFields(v, ty);
    seq(|v.vals|, k requires 0 <= k < |v.vals| => ToParam(v.vals[k]))
  }

  /** Each field value of a flat record is an int exactly where the field is declared `int`, else a string. */
  lemma ScalarFields(v: V, ty: Ty)
    requires FlatRecord(ty) && WellTyped(v, ty)
    ensures forall k :: 0 <= k < |v.vals| ==> (v.vals[k].VInt? <==> ty.fields[k].ty == TInt)
    ensures forall k :: 0 <= k < |v.vals| ==> v.vals[k].VInt? || v.vals[k].VStr?
  {
    forall k | 0 <= k < |v.vals|
      ensures (v.vals[k].VInt? <==> ty.fields[k].ty == TInt) && (v.vals[k].VInt? || v.vals[k].VStr?)
    {
      assert WellTyped(v.vals[k], ty.fields[k].ty);
      assert IsScalar(ty.fields[k].ty);
    }
  }

  /** Rebuilds a record of a flat type from its positional parameters. */
  function Unflatten(ps: seq<Param>, ty: Ty): (v: V)
    requires FlatRecord(ty) && |ps| == |ty.fields|
  {
    VRec(seq(|ps|, k requires 0 <= k < |ps| => if ps[k].PInt? then VInt(ps[k].i) else VStr(ps[k].s)))
  }

  /** Dropping the names loses nothing: the descriptor's positions recover the record. */
  lemma UnflattenFlatten(v: V, ty: Ty)
    requires FlatRecord(ty) && WellTyped(v, ty)
    ensures Unflatten(Flatten(v, ty), ty) == v
  {
    var ps := Flatten(v, ty);
    var w := Unflatten(ps, ty);
    forall k | 0 <= k < |v.vals| ensures w.vals[k] == v.vals[k] {
      assert IsScalar(ty.fields[k].ty);
    }
    assert w.vals == v.vals;
  }

  /** A Member flattens to the pair (id, name); Member{7, "Harald"} to (7, "Harald"). */
  lemma FlattenMember(id: int, name: string)
    requires IsInt32(id)
    ensures Flatten(MemberValue(id, name), MemberTy) == [PInt(id), PStr(name)]
  {
    var ps := Flatten(MemberValue(id, name), MemberTy);
    assert ps[0] == PInt(id) && ps[1] == PStr(name);
  }

  /** A prepared statement executed with positional parameters. */
  datatype Call = Call(statement: string, params: seq<Param>)

  /** A pqxx transaction, reduced to the prepared statements executed through it. */
  class Transaction {
    var executed: seq<Call>

    constructor ()
      ensures executed == []
    {
      executed := [];
    }

    method ExecPrepared(statement: string, params: seq<Param>)
      modifies this
      ensures executed == old(executed) + [Call(statement, params)]
    {
      executed := executed + [Call(statement, params)];
    }
  }

  /** What `make_db_executor` returns: a callable bound to a transaction and a statement name. */
  datatype DbExecutor = DbExecutor(trx: Transaction, query: string)

  /** Calling the executor runs its statement once with the given parameters. */
  method Invoke(exec: DbExecutor, params: seq<Param>)
    modifies exec.trx
    ensures exec.trx.executed == old(exec.trx.executed) + [Call(exec.query, params)]
  {
    exec.trx.ExecPrepared(exec.query, params);
  }

  /**
   * `runQuery`: one call of the prepared statement "add_user" with the
   * record's field values; the `query` argument is not used.
   */
  method RunQuery(trx: Transaction, query: string, obj: V, ty: Ty)
    requires FlatRecord(ty) && WellTyped(obj, ty)
    modifies trx
    ensures trx.executed == old(trx.executed) + [Call("add_user", Flatten(obj, ty))]
  {
    var params := Flatten(obj, ty);
    Invoke(DbExecutor(trx, "add_user"), params);
  }

  /** The program's storage loop: one `runQuery` per member of the group, in list order. */
  method StoreMembers(trx: Transaction, members: seq<V>)
    requires forall i :: 0 <= i < |members| ==> WellTyped(members[i], MemberTy)
    modifies trx
    ensures |trx.executed| == |old(trx.executed)| + |members|
    ensures trx.executed[..|old(trx.executed)|] == old(trx.executed)
    ensures forall i :: 0 <= i < |members| ==>
              trx.executed[|old(trx.executed)| + i] == Call("add_user", Flatten(members[i], MemberTy))
  {
    var n := 0;
    while n < |members|
      invariant 0 <= n <= |members|
      invariant |trx.executed| == |old(trx.executed)| + n
      invariant trx.executed[..|old(trx.executed)|] == old(trx.executed)
      invariant forall i :: 0 <= i < n ==>
                  trx.executed[|old(trx.executed)| + i] == Call("add_user", Flatten(members[i], MemberTy))
    {
      RunQuery(trx, "add_user", members[n], MemberTy);
      n := n + 1;
    }
  }
}
