/** The shared image collection the app writes into: rows keyed by the
    identifier of the content handle returned on insertion. Only the columns
    the app sets are modelled. */
module ImageStore {
  import opened Basics

  datatype Entry = Entry(
    displayName: string,
    mimeType: string,
    relativePath: Option<string>,
    pending: bool,
    content: seq<Byte>,
    description: Option<string>)

  datatype Table = Table(entries: map<nat, Entry>, nextId: nat)

  /** A table whose next identifier is fresh. */
  type Store = t: Table | forall id :: id in t.entries ==> id < t.nextId
    witness Table(map[], 0)

  /** Adds a row under an identifier no row has. */
  function Insert(st: Store, e: Entry): (r: (Store, nat))
    ensures r.1 !in st.entries
    ensures r.1 in r.0.entries && r.0.entries[r.1] == e
    ensures forall id :: id in st.entries ==> id in r.0.entries && r.0.entries[id] == st.entries[id]
    ensures r.0.entries.Keys == st.entries.Keys + {r.1}
  {
    (Table(st.entries[st.nextId := e], st.nextId + 1), st.nextId)
  }

  /** Replaces the row `id`; a missing row leaves the table as it is. */
  function Put(st: Store, id: nat, e: Entry): (r: Store)
    ensures id in st.entries ==> id in r.entries && r.entries[id] == e
    ensures r.entries.Keys == st.entries.Keys
    ensures forall k :: k in st.entries && k != id ==> r.entries[k] == st.entries[k]
  {
    if id in st.entries then Table(st.entries[id := e], st.nextId) else st
  }

  /** Removes the row `id` and no other. */
  function Delete(st: Store, id: nat): (r: Store)
    ensures r.entries.Keys == st.entries.Keys - {id}
    ensures forall k :: k in r.entries ==> r.entries[k] == st.entries[k]
  {
    Table(st.entries - {id}, st.nextId)
  }

  /** `t` is `st` with one more row, `id`, and the other rows as they were. */
  predicate Extends(st: Store, t: Store, id: nat) {
    && id !in st.entries
    && t.entries.Keys == st.entries.Keys + {id}
    && forall k :: k in st.entries ==> t.entries[k] == st.entries[k]
  }

  lemma InsertExtends(st: Store, e: Entry)
    ensures Extends(st, Insert(st, e).0, Insert(st, e).1)
    ensures Insert(st, e).1 == st.nextId
  {
  }

  /** Changing the added row keeps the other rows as they were. */
  lemma PutKeepsExtension(st: Store, t: Store, id: nat, e: Entry)
    requires Extends(st, t, id)
    ensures Extends(st, Put(t, id, e), id)
    ensures Put(t, id, e).entries == st.entries[id := e]
  {
  }

  /** Deleting the added row, however it was changed since, gives back the
      rows there were before it was added. */
  lemma DeleteUndoesExtension(st: Store, t: Store, id: nat)
    requires Extends(st, t, id)
    ensures Delete(t, id).entries == st.entries
  {
    assert Delete(t, id).entries.Keys == st.entries.Keys;
  }

  // ---------------------------------------------------------------------
  // A run of attempts, attempt `i` adding the row `row(i)` when `ok(i)` and
  // leaving the rows as they were otherwise.

  predicate IsNew(st: Store, r: Store, id: nat) {
    id in r.entries && id !in st.entries
  }

  /** `r` is `prev` after one attempt: one fresh row `e` when `added`, no
      change otherwise. */
  ghost predicate Stepped(prev: Store, r: Store, added: bool, e: Entry) {
    && (added ==> prev.nextId !in prev.entries && r.entries == prev.entries[prev.nextId := e])
    && (!added ==> r.entries == prev.entries)
  }

  /** Every row of `st` is still in `r`, unchanged. */
  ghost predicate KeepsRows(st: Store, r: Store) {
    forall id :: id in st.entries ==> id in r.entries && r.entries[id] == st.entries[id]
  }

  /** Every row added since `st` is the row of one of the first `n` attempts
      that succeeded. */
  ghost predicate NewRowsAmong(st: Store, r: Store, n: nat, ok: nat -> bool, row: nat -> Entry) {
    forall id :: IsNew(st, r, id) ==> exists i: nat :: i < n && ok(i) && r.entries[id] == row(i)
  }

  /** Every one of the first `n` attempts that succeeded has its row among
      those added since `st`. */
  ghost predicate RowsPresent(st: Store, r: Store, n: nat, ok: nat -> bool, row: nat -> Entry) {
    forall i: nat :: i < n && ok(i) ==> exists id :: IsNew(st, r, id) && r.entries[id] == row(i)
  }

  /** Rows added since `st` have pairwise distinct display names. */
  ghost predicate NewNamesDistinct(st: Store, r: Store) {
    forall a, b :: IsNew(st, r, a) && IsNew(st, r, b) && a != b ==>
      r.entries[a].displayName != r.entries[b].displayName
  }

  /** How many of the first `n` attempts succeeded. */
  function CountTrue(ok: nat -> bool, n: nat): (c: nat)
    ensures c <= n
  {
    if n == 0 then 0 else CountTrue(ok, n - 1) + (if ok(n - 1) then 1 else 0)
  }

  /** All of the first `n` attempts succeeded exactly when the count is `n`. */
  lemma {:induction false} CountTrueComplete(ok: nat -> bool, n: nat)
    ensures CountTrue(ok, n) == n <==> forall i: nat :: i < n ==> ok(i)
  {
    if n > 0 {
      CountTrueComplete(ok, n - 1);
    }
  }

  lemma StepKeepsRows(st: Store, prev: Store, r: Store, added: bool, e: Entry)
    requires KeepsRows(st, prev) && Stepped(prev, r, added, e)
    ensures KeepsRows(st, r)
  {
  }

  lemma StepNewRowsAmong(st: Store, prev: Store, r: Store, n: nat, ok: nat -> bool, row: nat -> Entry)
    requires KeepsRows(st, prev) && NewRowsAmong(st, prev, n, ok, row)
    requires Stepped(prev, r, ok(n), row(n))
    ensures NewRowsAmong(st, r, n + 1, ok, row)
  {
    forall id | IsNew(st, r, id)
      ensures exists i: nat :: i < n + 1 && ok(i) && r.entries[id] == row(i)
    {
      if ok(n) && id == prev.nextId {
        assert r.entries[id] == row(n);
      } else {
        assert IsNew(st, prev, id) && r.entries[id] == prev.entries[id];
      }
    }
  }

  lemma StepRowsPresent(st: Store, prev: Store, r: Store, n: nat, ok: nat -> bool, row: nat -> Entry)
    requires KeepsRows(st, prev) && RowsPresent(st, prev, n, ok, row)
    requires Stepped(prev, r, ok(n), row(n))
    ensures RowsPresent(st, r, n + 1, ok, row)
  {
    forall i: nat | i < n + 1 && ok(i)
      ensures exists id :: IsNew(st, r, id) && r.entries[id] == row(i)
    {
      if i < n {
        var id :| IsNew(st, prev, id) && prev.entries[id] == row(i);
        assert IsNew(st, r, id) && r.entries[id] == prev.entries[id];
      } else {
        assert IsNew(st, r, prev.nextId);
      }
    }
  }

  lemma StepNamesDistinct(st: Store, prev: Store, r: Store, n: nat, ok: nat -> bool, row: nat -> Entry)
    requires KeepsRows(st, prev) && NewRowsAmong(st, prev, n, ok, row) && NewNamesDistinct(st, prev)
    requires Stepped(prev, r, ok(n), row(n))
    requires forall i: nat :: i < n ==> row(i).displayName != row(n).displayName
    ensures NewNamesDistinct(st, r)
  {
    if ok(n) {
      var id := prev.nextId;
      forall a, b | IsNew(st, r, a) && IsNew(st, r, b) && a != b
        ensures r.entries[a].displayName != r.entries[b].displayName
      {
        if a != id && b != id {
          assert IsNew(st, prev, a) && IsNew(st, prev, b);
        } else {
          var other := if a == id then b else a;
          assert IsNew(st, prev, other);
          var i: nat :| i < n && ok(i) && prev.entries[other] == row(i);
        }
      }
    }
  }

  lemma AddOneNew(before: set<nat>, keys: set<nat>, id: nat)
    requires id !in keys && id !in before
    ensures (keys + {id}) - before == (keys - before) + {id}
    ensures |(keys + {id}) - before| == |keys - before| + 1
  {
  }

  /** The new keys grow by one when a fresh key is added and stay otherwise. */
  lemma NewKeysCount(before: set<nat>, keys: set<nat>, after: set<nat>, id: nat, added: bool)
    requires added ==> id !in keys && id !in before && after == keys + {id}
    requires !added ==> after == keys
    ensures |after - before| == |keys - before| + (if added then 1 else 0)
  {
    if added {
      AddOneNew(before, keys, id);
    }
  }

  /** A row never in `prev` was never in `st` either. */
  lemma FreshBefore(st: Store, prev: Store, id: nat)
    requires KeepsRows(st, prev) && id !in prev.entries
    ensures id !in st.entries
  {
  }

  lemma UpdateKeys<K, V>(m: map<K, V>, k: K, v: V)
    ensures m[k := v].Keys == m.Keys + {k}
  {
  }

  lemma StepCount(st: Store, prev: Store, r: Store, added: bool, e: Entry)
    requires KeepsRows(st, prev) && Stepped(prev, r, added, e)
    ensures |r.entries.Keys - st.entries.Keys| == |prev.entries.Keys - st.entries.Keys| + (if added then 1 else 0)
  {
    var id := prev.nextId;
    if added {
      FreshBefore(st, prev, id);
      UpdateKeys(prev.entries, id, e);
      NewKeysCount(st.entries.Keys, prev.entries.Keys, r.entries.Keys, id, true);
    } else {
      NewKeysCount(st.entries.Keys, prev.entries.Keys, r.entries.Keys, id, false);
    }
  }

  /** What a run of `n` attempts from `st` to `r` leaves behind: the earlier
      rows are kept; the rows added are exactly those of the attempts that
      succeeded; they have distinct names; and there are as many as attempts
      that succeeded. */
  ghost predicate RunFacts(st: Store, r: Store, n: nat, ok: nat -> bool, row: nat -> Entry) {
    && KeepsRows(st, r)
    && NewRowsAmong(st, r, n, ok, row)
    && RowsPresent(st, r, n, ok, row)
    && NewNamesDistinct(st, r)
    && |r.entries.Keys - st.entries.Keys| == CountTrue(ok, n)
  }

  lemma StepRun(st: Store, prev: Store, r: Store, n: nat, ok: nat -> bool, row: nat -> Entry)
    requires RunFacts(st, prev, n, ok, row)
    requires Stepped(prev, r, ok(n), row(n))
    requires forall i: nat :: i < n ==> row(i).displayName != row(n).displayName
    ensures RunFacts(st, r, n + 1, ok, row)
  {
    StepKeepsRows(st, prev, r, ok(n), row(n));
    StepNewRowsAmong(st, prev, r, n, ok, row);
    StepRowsPresent(st, prev, r, n, ok, row);
    StepNamesDistinct(st, prev, r, n, ok, row);
    StepCount(st, prev, r, ok(n), row(n));
  }

  /** A run of `n` attempts from `stores(0)`, attempt `i` taking `stores(i)` to
      `stores(i + 1)`, leaves behind what `RunFacts` describes, provided the
      attempts' rows have distinct names. */
  lemma {:induction false} RunEffect(stores: nat -> Store, n: nat, ok: nat -> bool, row: nat -> Entry)
    requires forall i: nat :: i < n ==> Stepped(stores(i), stores(i + 1), ok(i), row(i))
    requires forall i: nat, j: nat :: i < j < n ==> row(i).displayName != row(j).displayName
    ensures RunFacts(stores(0), stores(n), n, ok, row)
    decreases n
  {
    if n == 0 {
      assert stores(n).entries.Keys - stores(0).entries.Keys == {};
    } else {
      var i := n - 1;
      RunEffect(stores, i, ok, row);
      StepRun(stores(0), stores(i), stores(n), i, ok, row);
    }
  }
}
