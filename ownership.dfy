/**
 * The owner-checked mutations of app.py: `update_transaction`,
 * `delete_transaction`, `update_fixed_expense` and `delete_fixed_expense`.
 * Each first looks a row up by (id, owner) and answers 404 when nothing
 * matches; only then does it update or delete every row with that id.
 */
module Ownership {
  import opened Options
  import opened Ledger
  import opened Auth

  // ---------------------------------------------------------------------------
  // The rule, stated once for any table whose rows have an id and an owner

  /** Some row has id `id` and owner `who`: the check query returns data. */
  predicate Owns<R>(rows: seq<R>, key: R -> string, owner: R -> string, id: string, who: string)
    ensures Owns(rows, key, owner, id, who) ==> FirstWithId(rows, key, id).Some?
    ensures rows == [] ==> !Owns(rows, key, owner, id, who)
  {
    exists i :: 0 <= i < |rows| && key(rows[i]) == id && owner(rows[i]) == who
  }

  /** `.update(...).eq('id', id)`: every row with that id gets the new columns. */
  function PatchById<R>(rows: seq<R>, key: R -> string, id: string, patch: R -> R): (r: seq<R>)
    ensures |r| == |rows|
    ensures forall i :: 0 <= i < |rows| ==> r[i] == if key(rows[i]) == id then patch(rows[i]) else rows[i]
  {
    if rows == [] then []
    else [if key(rows[0]) == id then patch(rows[0]) else rows[0]] + PatchById(rows[1..], key, id, patch)
  }

  /** `.delete().eq('id', id)`: every row with that id goes, the others stay in order. */
  function RemoveById<R>(rows: seq<R>, key: R -> string, id: string): (r: seq<R>)
    ensures |r| <= |rows|
  {
    if rows == [] then []
    else
      (if key(rows[0]) == id then [] else [rows[0]]) + RemoveById(rows[1..], key, id)
  }

  /** After a delete, the rows left are exactly the old rows with another id. */
  lemma {:induction false} RemoveByIdMembers<R>(rows: seq<R>, key: R -> string, id: string)
    ensures forall k :: 0 <= k < |RemoveById(rows, key, id)| ==>
      key(RemoveById(rows, key, id)[k]) != id && RemoveById(rows, key, id)[k] in rows
    ensures forall k :: 0 <= k < |rows| && key(rows[k]) != id ==> rows[k] in RemoveById(rows, key, id)
  {
    if rows != [] {
      RemoveByIdMembers(rows[1..], key, id);
      var rest := RemoveById(rows[1..], key, id);
      forall k | 0 <= k < |rest| ensures rest[k] in rows {
        assert rest[k] in rows[1..];
      }
      forall k | 1 <= k < |rows| && key(rows[k]) != id ensures rows[k] in RemoveById(rows, key, id) {
        assert rows[1..][k - 1] == rows[k];
      }
    }
  }

  /** The first row with id `id`: `response.data[0]` after an update. */
  function FirstWithId<R>(rows: seq<R>, key: R -> string, id: string): (found: Option<R>)
    ensures found.Some? ==> found.value in rows && key(found.value) == id
    ensures found.None? ==> forall i :: 0 <= i < |rows| ==> key(rows[i]) != id
  {
    if rows == [] then None
    else if key(rows[0]) == id then Some(rows[0])
    else FirstWithId(rows[1..], key, id)
  }

  /** No two rows share an id (the table's primary key). */
  predicate UniqueIds<R>(rows: seq<R>, key: R -> string)
  {
    forall i, j :: 0 <= i < j < |rows| ==> key(rows[i]) != key(rows[j])
  }

  /** With unique ids, an update changes the one row with that id and nothing else. */
  lemma PatchTouchesOneRow<R>(rows: seq<R>, key: R -> string, id: string, patch: R -> R, i: nat)
    requires UniqueIds(rows, key) && i < |rows| && key(rows[i]) == id
    ensures PatchById(rows, key, id, patch) == rows[i := patch(rows[i])]
  {
  }

  /** An update that keeps ids keeps them unique. */
  lemma PatchKeepsIdsUnique<R>(rows: seq<R>, key: R -> string, id: string, patch: R -> R)
    requires UniqueIds(rows, key)
    requires forall x :: key(patch(x)) == key(x)
    ensures UniqueIds(PatchById(rows, key, id, patch), key)
  {
  }

  /**
   * After an update that keeps ids, the row returned as `response.data[0]` is
   * the patch of some row with that id; with unique ids, of the checked row.
   */
  lemma FirstPatched<R>(rows: seq<R>, key: R -> string, id: string, patch: R -> R, i: nat) returns (k: nat)
    requires forall x :: key(patch(x)) == key(x)
    requires i < |rows| && key(rows[i]) == id
    ensures k < |rows| && key(rows[k]) == id
    ensures FirstWithId(PatchById(rows, key, id, patch), key, id) == Some(patch(rows[k]))
    ensures UniqueIds(rows, key) ==> k == i
  {
    var patched := PatchById(rows, key, id, patch);
    assert key(patched[i]) == id;
    var found := FirstWithId(patched, key, id);
    k :| 0 <= k < |patched| && patched[k] == found.value;
    assert key(rows[k]) == id;
  }

  /** A delete works on each part of a table separately. */
  lemma {:induction false} RemoveConcat<R>(a: seq<R>, b: seq<R>, key: R -> string, id: string)
    ensures RemoveById(a + b, key, id) == RemoveById(a, key, id) + RemoveById(b, key, id)
  {
    if a == [] {
      assert a + b == b;
    } else {
      RemoveConcat(a[1..], b, key, id);
      assert (a + b)[0] == a[0];
      assert (a + b)[1..] == a[1..] + b;
      var head := if key(a[0]) == id then [] else [a[0]];
      calc {
        RemoveById(a + b, key, id);
        head + RemoveById(a[1..] + b, key, id);
        head + (RemoveById(a[1..], key, id) + RemoveById(b, key, id));
        (head + RemoveById(a[1..], key, id)) + RemoveById(b, key, id);
        RemoveById(a, key, id) + RemoveById(b, key, id);
      }
    }
  }

  /** A delete by an id only `x` has takes out `x` alone. */
  lemma {:induction false} RemoveOnly<R>(before: seq<R>, x: R, after: seq<R>, key: R -> string, id: string)
    requires key(x) == id
    requires forall j :: 0 <= j < |before| ==> key(before[j]) != id
    requires forall j :: 0 <= j < |after| ==> key(after[j]) != id
    ensures RemoveById(before + [x] + after, key, id) == before + after
  {
    RemoveAbsent(before, key, id);
    RemoveAbsent(after, key, id);
    RemoveConcat(before + [x], after, key, id);
    RemoveConcat(before, [x], key, id);
    assert RemoveById([x], key, id) == [];
  }

  /**
   * With unique ids, a delete removes exactly the one row with that id: the
   * table shrinks by one and every other row is kept, in order.
   */
  lemma RemoveDropsOneRow<R>(rows: seq<R>, key: R -> string, id: string, i: nat)
    requires UniqueIds(rows, key) && i < |rows| && key(rows[i]) == id
    ensures RemoveById(rows, key, id) == rows[..i] + rows[i + 1..]
    ensures multiset(RemoveById(rows, key, id)) + multiset{rows[i]} == multiset(rows)
  {
    var before, after := rows[..i], rows[i + 1..];
    forall j | 0 <= j < |before| ensures key(before[j]) != id {
      assert before[j] == rows[j];
    }
    forall j | 0 <= j < |after| ensures key(after[j]) != id {
      assert after[j] == rows[i + 1 + j];
    }
    RemoveOnly(before, rows[i], after, key, id);
    assert rows == before + [rows[i]] + after;
  }

  /** A delete by an id no row has leaves the rows as they were. */
  lemma {:induction false} RemoveAbsent<R>(rows: seq<R>, key: R -> string, id: string)
    requires forall i :: 0 <= i < |rows| ==> key(rows[i]) != id
    ensures RemoveById(rows, key, id) == rows
  {
    if rows != [] {
      RemoveAbsent(rows[1..], key, id);
    }
  }

  /** Deleting keeps ids unique. */
  lemma {:induction false} RemoveKeepsIdsUnique<R>(rows: seq<R>, key: R -> string, id: string)
    requires UniqueIds(rows, key)
    ensures UniqueIds(RemoveById(rows, key, id), key)
  {
    if rows != [] {
      RemoveKeepsIdsUnique(rows[1..], key, id);
      var rest := RemoveById(rows[1..], key, id);
      RemoveByIdMembers(rows[1..], key, id);
      forall k | 0 <= k < |rest| ensures key(rest[k]) != key(rows[0]) {
        var j :| 0 <= j < |rows[1..]| && rows[1..][j] == rest[k];
        assert rows[j + 1] == rest[k];
      }
    }
  }

  /**
   * With unique ids, a row owned by someone else can never pass the check:
   * the lookup by (id, owner) finds nothing, so the handler answers 404.
   */
  lemma ForeignRowFailsCheck<R>(rows: seq<R>, key: R -> string, owner: R -> string, i: nat, who: string)
    requires UniqueIds(rows, key) && i < |rows| && owner(rows[i]) != who
    ensures !Owns(rows, key, owner, key(rows[i]), who)
  {
  }

  // ---------------------------------------------------------------------------
  // Transactions: owner is `usuario_id`

  /** The columns `update_transaction` writes. */
  datatype TransactionPatch = TransactionPatch(fecha: string, categoria: string, monto: int, descripcion: string, tipo: string)

  function TransactionId(t: Transaction): string { t.id }
  function TransactionOwner(t: Transaction): string { t.usuarioId }

  /** A row after `update_transaction`: the five columns replaced, id, owner and creation time kept. */
  function ApplyTransactionPatch(p: TransactionPatch): (f: Transaction -> Transaction)
    ensures forall t :: f(t).id == t.id && f(t).usuarioId == t.usuarioId && f(t).createdAt == t.createdAt
  {
    (t: Transaction) => t.(fecha := p.fecha, categoria := p.categoria, monto := p.monto, descripcion := p.descripcion, tipo := p.tipo)
  }

  class TransactionTable {
    var rows: seq<Transaction>

    constructor (initial: seq<Transaction>)
      requires UniqueIds(initial, TransactionId)
      ensures rows == initial && Valid()
    {
      rows := initial;
    }

    /** The table's primary key holds. */
    predicate Valid()
      reads this
    {
      UniqueIds(rows, TransactionId)
    }

    /**
     * `update_transaction(id)` for the session user `user`: 404 and no change
     * unless the user owns a row with that id; otherwise every row with that
     * id gets the patch and the first of them is returned.
     */
    method Update(id: string, user: string, p: TransactionPatch) returns (status: int, data: Option<Transaction>)
      modifies this
      ensures !old(Owns(rows, TransactionId, TransactionOwner, id, user)) ==>
        status == 404 && data == None && rows == old(rows)
      ensures old(Owns(rows, TransactionId, TransactionOwner, id, user)) ==>
        status == 200
        && rows == PatchById(old(rows), TransactionId, id, ApplyTransactionPatch(p))
        && data.Some? && data.value.id == id && data.value in rows
        && data.value.fecha == p.fecha && data.value.categoria == p.categoria && data.value.monto == p.monto
        && data.value.descripcion == p.descripcion && data.value.tipo == p.tipo
      ensures old(Valid()) && old(Owns(rows, TransactionId, TransactionOwner, id, user)) ==>
        data.Some? && data.value.usuarioId == user
      ensures old(Valid()) ==> Valid()
    {
      if !Owns(rows, TransactionId, TransactionOwner, id, user) {
        return 404, None;
      }
      ghost var i :| 0 <= i < |rows| && rows[i].id == id && rows[i].usuarioId == user;
      if Valid() {
        PatchKeepsIdsUnique(rows, TransactionId, id, ApplyTransactionPatch(p));
      }
      ghost var k := FirstPatched(rows, TransactionId, id, ApplyTransactionPatch(p), i);
      ghost var checked := rows[k];
      rows := PatchById(rows, TransactionId, id, ApplyTransactionPatch(p));
      status, data := 200, FirstWithId(rows, TransactionId, id);
      assert data.value == ApplyTransactionPatch(p)(checked);
    }

    /**
     * `delete_transaction(id)` for the session user `user`: 404 and no change
     * unless the user owns a row with that id; otherwise the rows with that id
     * are removed and the rest kept in order.
     */
    method Delete(id: string, user: string) returns (status: int)
      modifies this
      ensures !old(Owns(rows, TransactionId, TransactionOwner, id, user)) ==> status == 404 && rows == old(rows)
      ensures old(Owns(rows, TransactionId, TransactionOwner, id, user)) ==>
        status == 200 && rows == RemoveById(old(rows), TransactionId, id)
      ensures old(Valid()) && old(Owns(rows, TransactionId, TransactionOwner, id, user)) ==>
        |rows| == |old(rows)| - 1 && forall t :: t in old(rows) && t.id != id ==> t in rows
      ensures old(Valid()) ==> Valid()
    {
      if !Owns(rows, TransactionId, TransactionOwner, id, user) {
        return 404;
      }
      ghost var i :| 0 <= i < |rows| && rows[i].id == id && rows[i].usuarioId == user;
      if Valid() {
        RemoveDropsOneRow(rows, TransactionId, id, i);
        RemoveKeepsIdsUnique(rows, TransactionId, id);
      }
      rows := RemoveById(rows, TransactionId, id);
      status := 200;
    }
  }

  // ---------------------------------------------------------------------------
  // Fixed expenses: owner is the phone number of the session user

  /** A row of the fixed-expenses table. */
  datatype FixedExpense = FixedExpense(
    id: string,
    telefono: string,
    diaPago: int,
    categoria: string,
    monto: int,
    descripcion: string,
    frecuencia: string,
    tipo: string)

  /** The columns `update_fixed_expense` writes. */
  datatype FixedExpensePatch = FixedExpensePatch(diaPago: int, categoria: string, monto: int, descripcion: string, frecuencia: string)

  function FixedExpenseId(e: FixedExpense): string { e.id }
  function FixedExpensePhone(e: FixedExpense): string { e.telefono }

  /** A row after `update_fixed_expense`: five columns replaced, id, phone and type kept. */
  function ApplyFixedExpensePatch(p: FixedExpensePatch): (f: FixedExpense -> FixedExpense)
    ensures forall e :: f(e).id == e.id && f(e).telefono == e.telefono && f(e).tipo == e.tipo
  {
    (e: FixedExpense) => e.(diaPago := p.diaPago, categoria := p.categoria, monto := p.monto,
                            descripcion := p.descripcion, frecuencia := p.frecuencia)
  }

  /** `select('telefono').eq('id', user_id)` then `data[0]['telefono']`: the phone of the first user with that id. */
  function PhoneOf(users: seq<User>, userId: string): (phone: Option<string>)
    ensures phone.Some? <==> exists i :: 0 <= i < |users| && users[i].id == userId
    ensures phone.Some? ==> exists i :: 0 <= i < |users| && users[i].id == userId && users[i].telefono == phone.value
  {
    if users == [] then None
    else if users[0].id == userId then Some(users[0].telefono)
    else
      var rest := PhoneOf(users[1..], userId);
      assert forall i :: 1 <= i < |users| ==> users[i] == users[1..][i - 1];
      rest
  }

  /** The fixed expense the session user may touch: the user exists and owns a row with that id. */
  predicate MayTouch(rows: seq<FixedExpense>, users: seq<User>, userId: string, id: string)
    ensures (forall i :: 0 <= i < |users| ==> users[i].id != userId) ==> !MayTouch(rows, users, userId, id)
    ensures MayTouch(rows, users, userId, id) ==>
      exists i, j :: 0 <= i < |users| && 0 <= j < |rows| && users[i].id == userId
        && rows[j].id == id && rows[j].telefono == users[i].telefono
  {
    PhoneOf(users, userId).Some? && Owns(rows, FixedExpenseId, FixedExpensePhone, id, PhoneOf(users, userId).value)
  }

  class FixedExpenseTable {
    var rows: seq<FixedExpense>

    constructor (initial: seq<FixedExpense>)
      requires UniqueIds(initial, FixedExpenseId)
      ensures rows == initial && Valid()
    {
      rows := initial;
    }

    /** The table's primary key holds. */
    predicate Valid()
      reads this
    {
      UniqueIds(rows, FixedExpenseId)
    }

    /**
     * `update_fixed_expense(id)`: 404 and no change unless the session user is
     * in the users table and a row with that id carries the user's phone;
     * otherwise every row with that id gets the patch.
     */
    method Update(id: string, userId: string, users: seq<User>, p: FixedExpensePatch)
      returns (status: int, data: Option<FixedExpense>)
      modifies this
      ensures !old(MayTouch(rows, users, userId, id)) ==> status == 404 && data == None && rows == old(rows)
      ensures old(MayTouch(rows, users, userId, id)) ==>
        status == 200
        && rows == PatchById(old(rows), FixedExpenseId, id, ApplyFixedExpensePatch(p))
        && data.Some? && data.value.id == id && data.value in rows
        && data.value.diaPago == p.diaPago && data.value.categoria == p.categoria && data.value.monto == p.monto
        && data.value.descripcion == p.descripcion && data.value.frecuencia == p.frecuencia
      ensures old(Valid()) ==> Valid()
    {
      var phone := PhoneOf(users, userId);
      if phone.None? {
        return 404, None;
      }
      if !Owns(rows, FixedExpenseId, FixedExpensePhone, id, phone.value) {
        return 404, None;
      }
      ghost var i :| 0 <= i < |rows| && rows[i].id == id;
      if Valid() {
        PatchKeepsIdsUnique(rows, FixedExpenseId, id, ApplyFixedExpensePatch(p));
      }
      ghost var k := FirstPatched(rows, FixedExpenseId, id, ApplyFixedExpensePatch(p), i);
      ghost var checked := rows[k];
      rows := PatchById(rows, FixedExpenseId, id, ApplyFixedExpensePatch(p));
      status, data := 200, FirstWithId(rows, FixedExpenseId, id);
      assert data.value == ApplyFixedExpensePatch(p)(checked);
    }

    /**
     * `delete_fixed_expense(id)`: 404 and no change unless the session user is
     * in the users table and a row with that id carries the user's phone;
     * otherwise the rows with that id are removed.
     */
    method Delete(id: string, userId: string, users: seq<User>) returns (status: int)
      modifies this
      ensures !old(MayTouch(rows, users, userId, id)) ==> status == 404 && rows == old(rows)
      ensures old(MayTouch(rows, users, userId, id)) ==>
        status == 200 && rows == RemoveById(old(rows), FixedExpenseId, id)
      ensures old(Valid()) && old(MayTouch(rows, users, userId, id)) ==>
        |rows| == |old(rows)| - 1 && forall e :: e in old(rows) && e.id != id ==> e in rows
      ensures old(Valid()) ==> Valid()
    {
      var phone := PhoneOf(users, userId);
      if phone.None? {
        return 404;
      }
      if !Owns(rows, FixedExpenseId, FixedExpensePhone, id, phone.value) {
        return 404;
      }
      ghost var i :| 0 <= i < |rows| && rows[i].id == id;
      if Valid() {
        RemoveDropsOneRow(rows, FixedExpenseId, id, i);
        RemoveKeepsIdsUnique(rows, FixedExpenseId, id);
      }
      rows := RemoveById(rows, FixedExpenseId, id);
      status := 200;
    }
  }
}
