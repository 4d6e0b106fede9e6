/** In-memory database tables. A table is the sequence of its rows in insertion
    order; every row carries its auto-increment primary key. These functions play
    the part of Sequelize's `findByPk`, `destroy`, `update` and `create`. */
module Tables {
  import opened Wrappers

  datatype Row<T> = Row(id: nat, val: T)

  type Table<T> = seq<Row<T>>

  predicate HasId<T>(t: Table<T>, id: nat) {
    exists i :: 0 <= i < |t| && t[i].id == id
  }

  /** Primary keys are pairwise distinct. */
  predicate UniqueIds<T>(t: Table<T>) {
    forall i, j :: 0 <= i < j < |t| ==> t[i].id != t[j].id
  }

  /** Every key is below the table's next auto-increment value. */
  predicate IdsBelow<T>(t: Table<T>, next: nat) {
    forall i :: 0 <= i < |t| ==> t[i].id < next
  }

  predicate Keyed<T>(t: Table<T>, next: nat) {
    UniqueIds(t) && IdsBelow(t, next)
  }

  /** `Model.findByPk(id)`: the first row with that key, if any. */
  function Find<T>(t: Table<T>, id: nat): (r: Option<T>)
    ensures r.None? <==> !HasId(t, id)
    ensures r.Some? ==> Row(id, r.value) in t
  {
    if t == [] then None
    else if t[0].id == id then Some(t[0].val)
    else
      var r := Find(t[1..], id);
      assert r.None? ==> forall i :: 1 <= i < |t| ==> t[i].id == t[1..][i - 1].id;
      assert r.Some? ==> Row(id, r.value) in t[1..];
      r
  }

  /** `row.destroy()`: drop the rows with that key. */
  function Remove<T>(t: Table<T>, id: nat): (r: Table<T>)
    ensures |r| <= |t|
  {
    if t == [] then []
    else if t[0].id == id then Remove(t[1..], id)
    else [t[0]] + Remove(t[1..], id)
  }

  /** `row.update(v)`: give the rows with that key the new value `v`. */
  function Replace<T>(t: Table<T>, id: nat, v: T): (r: Table<T>)
    ensures |r| == |t|
    ensures forall i :: 0 <= i < |t| ==> r[i] == if t[i].id == id then Row(id, v) else t[i]
  {
    if t == [] then []
    else [if t[0].id == id then Row(id, v) else t[0]] + Replace(t[1..], id, v)
  }

  /** With unique keys, `Find` returns exactly the value stored under the key. */
  lemma {:induction false} FindExact<T>(t: Table<T>, id: nat, v: T)
    requires UniqueIds(t)
    ensures Find(t, id) == Some(v) <==> Row(id, v) in t
  {
    if t != [] && t[0].id != id {
      assert UniqueIds(t[1..]) by {
        forall i, j | 0 <= i < j < |t[1..]| ensures t[1..][i].id != t[1..][j].id {
          assert t[1..][i] == t[i + 1] && t[1..][j] == t[j + 1];
        }
      }
      FindExact(t[1..], id, v);
      assert Row(id, v) in t <==> Row(id, v) in t[1..] by {
        if Row(id, v) in t {
          var k :| 0 <= k < |t| && t[k] == Row(id, v);
          assert k != 0;
          assert t[1..][k - 1] == Row(id, v);
        }
      }
    } else if t != [] {
      if Row(id, v) in t {
        var k :| 0 <= k < |t| && t[k] == Row(id, v);
        assert k == 0;
      }
    }
  }

  /** Destroying the row at position `k` of a keyed table removes that row and
      nothing else: the other rows keep their order and contents. */
  lemma {:induction false} RemoveAt<T>(t: Table<T>, k: nat)
    requires UniqueIds(t) && k < |t|
    ensures Remove(t, t[k].id) == t[..k] + t[k + 1..]
  {
    var id := t[k].id;
    if k == 0 {
      RemoveAbsent(t[1..], id);
    } else {
      assert UniqueIds(t[1..]) by {
        forall i, j | 0 <= i < j < |t[1..]| ensures t[1..][i].id != t[1..][j].id {
          assert t[1..][i] == t[i + 1] && t[1..][j] == t[j + 1];
        }
      }
      assert t[1..][k - 1] == t[k];
      RemoveAt(t[1..], k - 1);
      assert t[0].id != id;
      calc {
        Remove(t, id);
        [t[0]] + Remove(t[1..], id);
        [t[0]] + (t[1..][..k - 1] + t[1..][k..]);
        { assert t[1..][..k - 1] == t[1..k] && t[1..][k..] == t[k + 1..]; }
        [t[0]] + (t[1..k] + t[k + 1..]);
        { assert [t[0]] + t[1..k] == t[..k]; }
        t[..k] + t[k + 1..];
      }
    }
  }

  /** Destroying a key that no row has changes nothing. */
  lemma {:induction false} RemoveAbsent<T>(t: Table<T>, id: nat)
    requires forall i :: 0 <= i < |t| ==> t[i].id != id
    ensures Remove(t, id) == t
  {
    if t != [] {
      assert forall i :: 0 <= i < |t[1..]| ==> t[1..][i].id != id by {
        forall i | 0 <= i < |t[1..]| ensures t[1..][i].id != id {
          assert t[1..][i] == t[i + 1];
        }
      }
      RemoveAbsent(t[1..], id);
      assert [t[0]] + t[1..] == t;
    }
  }

  /** Destroying rows keeps the keys distinct. */
  lemma {:induction false} RemoveUnique<T>(t: Table<T>, id: nat)
    requires UniqueIds(t)
    ensures UniqueIds(Remove(t, id))
  {
    if exists k :: 0 <= k < |t| && t[k].id == id {
      var k :| 0 <= k < |t| && t[k].id == id;
      RemoveAt(t, k);
      var r := t[..k] + t[k + 1..];
      forall i, j | 0 <= i < j < |r| ensures r[i].id != r[j].id {
        var i' := if i < k then i else i + 1;
        var j' := if j < k then j else j + 1;
        assert r[i] == t[i'] && r[j] == t[j'];
      }
    } else {
      RemoveAbsent(t, id);
    }
  }

  /** Destroying rows keeps a table keyed. */
  lemma {:induction false} RemoveKeyed<T>(t: Table<T>, id: nat, next: nat)
    requires Keyed(t, next)
    ensures Keyed(Remove(t, id), next)
  {
    RemoveUnique(t, id);
    if exists k :: 0 <= k < |t| && t[k].id == id {
      var k :| 0 <= k < |t| && t[k].id == id;
      RemoveAt(t, k);
      var r := t[..k] + t[k + 1..];
      forall i | 0 <= i < |r| ensures r[i].id < next {
        assert r[i] == t[if i < k then i else i + 1];
      }
    } else {
      RemoveAbsent(t, id);
    }
  }

  /** Updating a row in place keeps the keys distinct. */
  lemma ReplaceUnique<T>(t: Table<T>, id: nat, v: T)
    requires UniqueIds(t)
    ensures UniqueIds(Replace(t, id, v))
  {
  }

  /** Updating a row in place keeps a table keyed. */
  lemma ReplaceKeyed<T>(t: Table<T>, id: nat, v: T, next: nat)
    requires Keyed(t, next)
    ensures Keyed(Replace(t, id, v), next)
  {
  }

  /** `Model.create(v)` with the next auto-increment key keeps the table keyed. */
  lemma InsertKeyed<T>(t: Table<T>, next: nat, v: T)
    requires Keyed(t, next)
    ensures Keyed(t + [Row(next, v)], next + 1)
  {
  }
}
