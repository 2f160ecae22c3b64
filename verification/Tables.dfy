// A database table with a unique index on (node, remote id), and the
// INSERT ... ON CONFLICT DO UPDATE statement on it.
module Tables {
  import opened Text

  type Key = (int, string)

  // next is the AUTOINCREMENT counter.
  datatype Table<T> = Table(rows: map<int, T>, index: map<Key, int>, next: int)

  // The row written for id, from what was stored there before.
  type Write<!T> = (int, Option<T>) -> T

  datatype Item<!T> = Item(key: Key, write: Write<T>)

  ghost predicate Consistent<T>(t: Table<T>) {
    && (forall k :: k in t.index ==> t.index[k] in t.rows)
    && (forall k, l :: k in t.index && l in t.index && t.index[k] == t.index[l] ==> k == l)
    && (forall id :: id in t.rows ==> id < t.next)
  }

  function RowOf<T>(t: Table<T>, k: Key): Option<T> {
    if k in t.index && t.index[k] in t.rows then Some(t.rows[t.index[k]]) else None
  }

  function IdFor<T>(t: Table<T>, k: Key): int {
    if k in t.index then t.index[k] else t.next
  }

  function Upsert<T>(t: Table<T>, item: Item<T>): Table<T> {
    var id := IdFor(t, item.key);
    Table(t.rows[id := item.write(id, RowOf(t, item.key))], t.index[item.key := id],
          if item.key in t.index then t.next else t.next + 1)
  }

  function UpsertAll<T>(t: Table<T>, items: seq<Item<T>>): Table<T> {
    if |items| == 0 then t else Upsert(UpsertAll(t, items[..|items| - 1]), items[|items| - 1])
  }

  function LastWith<T>(items: seq<Item<T>>, k: Key): (r: Option<Item<T>>)
    ensures r.Some? ==> r.value in items && r.value.key == k
    ensures r.None? ==> forall item :: item in items ==> item.key != k
  {
    if |items| == 0 then None
    else
      var last := items[|items| - 1];
      assert items == items[..|items| - 1] + [last];
      if last.key == k then Some(last) else LastWith(items[..|items| - 1], k)
  }

  // A write to a row replaces an earlier write to it completely.
  ghost predicate Absorbs<T(!new)>(items: seq<Item<T>>) {
    forall a, b, id, before :: a in items && b in items && a.key == b.key ==>
                               a.write(id, Some(b.write(id, before))) == a.write(id, before)
  }

  lemma {:induction false} UpsertConsistent<T>(t: Table<T>, item: Item<T>)
    requires Consistent(t)
    ensures Consistent(Upsert(t, item))
    ensures t.index.Keys <= Upsert(t, item).index.Keys && forall k :: k in t.index ==> Upsert(t, item).index[k] == t.index[k]
  {
  }

  lemma {:induction false} LastOfAppend<T>(items: seq<Item<T>>, last: Item<T>, k: Key)
    ensures LastWith(items + [last], k) == if last.key == k then Some(last) else LastWith(items, k)
  {
    assert (items + [last])[..|items|] == items;
  }

  // Ids are stable, and the keys known afterwards are the old ones and the written ones.
  ghost predicate IndexGrows<T>(t: Table<T>, items: seq<Item<T>>, u: Table<T>) {
    && t.next <= u.next
    && (forall k :: k in u.index <==> k in t.index || LastWith(items, k).Some?)
    && (forall k :: k in t.index ==> u.index[k] == t.index[k])
    && (forall k :: k in u.index && k !in t.index ==> t.next <= u.index[k])
  }

  // The row of every written key is its last write, applied to the row it had
  // before; the row of every other key is as it was.
  ghost predicate RowsWritten<T>(t: Table<T>, items: seq<Item<T>>, u: Table<T>)
    requires IndexGrows(t, items, u)
  {
    forall k :: k in u.index ==>
                  RowOf(u, k) == match LastWith(items, k)
                                 case None => RowOf(t, k)
                                 case Some(last) => Some(last.write(u.index[k], RowOf(t, k)))
  }

  // Rows without a key in the index are left alone, and no row is ever removed.
  ghost predicate OthersKept<T>(t: Table<T>, u: Table<T>) {
    && t.rows.Keys <= u.rows.Keys
    && (forall id :: id in t.rows && (forall k :: k in t.index ==> t.index[k] != id) ==> u.rows[id] == t.rows[id])
    && (forall id :: id in u.rows && id !in t.rows ==> exists k :: k in u.index && u.index[k] == id)
  }

  lemma {:induction false} IndexStep<T>(t: Table<T>, items: seq<Item<T>>, v: Table<T>, last: Item<T>)
    requires Consistent(t) && Consistent(v) && IndexGrows(t, items, v)
    ensures IndexGrows(t, items + [last], Upsert(v, last))
  {
    forall k
      ensures LastWith(items + [last], k) == if last.key == k then Some(last) else LastWith(items, k)
    {
      LastOfAppend(items, last, k);
    }
    hide LastWith, Consistent;
  }

  lemma {:induction false} UpsertRow<T>(v: Table<T>, last: Item<T>, k: Key)
    requires Consistent(v)
    ensures RowOf(Upsert(v, last), k) ==
            if k == last.key then Some(last.write(IdFor(v, k), RowOf(v, k))) else RowOf(v, k)
    ensures k in Upsert(v, last).index ==> Upsert(v, last).index[k] == IdFor(v, k)
  {
  }

  lemma {:induction false} Absorbed<T(!new)>(items: seq<Item<T>>, a: Item<T>, b: Item<T>, id: int, before: Option<T>)
    requires Absorbs(items) && a in items && b in items && a.key == b.key
    ensures a.write(id, Some(b.write(id, before))) == a.write(id, before)
  {
  }

  lemma {:induction false} RowStep<T(!new)>(t: Table<T>, items: seq<Item<T>>, v: Table<T>, last: Item<T>, k: Key)
    requires Consistent(v) && IndexGrows(t, items, v) && RowsWritten(t, items, v) && Absorbs(items + [last])
    requires k in Upsert(v, last).index
    ensures RowOf(Upsert(v, last), k) ==
            match LastWith(items + [last], k)
            case None => RowOf(t, k)
            case Some(w) => Some(w.write(Upsert(v, last).index[k], RowOf(t, k)))
  {
    LastOfAppend(items, last, k);
    UpsertRow(v, last, k);
    assert k != last.key ==> k in v.index;
    hide Upsert, Consistent;
    if k == last.key && k in v.index && LastWith(items, k).Some? {
      hide RowOf, Absorbs, IndexGrows;
      var prior := LastWith(items, k).value;
      assert items <= items + [last] && (items + [last])[|items|] == last;
      Absorbed(items + [last], last, prior, v.index[k], RowOf(t, k));
    }
  }

  lemma {:induction false} RowsStep<T(!new)>(t: Table<T>, items: seq<Item<T>>, v: Table<T>, last: Item<T>)
    requires Consistent(v) && IndexGrows(t, items, v) && RowsWritten(t, items, v) && Absorbs(items + [last])
    requires IndexGrows(t, items + [last], Upsert(v, last))
    ensures RowsWritten(t, items + [last], Upsert(v, last))
  {
    forall k | k in Upsert(v, last).index
      ensures RowOf(Upsert(v, last), k) ==
              match LastWith(items + [last], k)
              case None => RowOf(t, k)
              case Some(w) => Some(w.write(Upsert(v, last).index[k], RowOf(t, k)))
    {
      RowStep(t, items, v, last, k);
    }
    hide Upsert, RowOf, LastWith, Absorbs, Consistent, IndexGrows;
  }

  lemma {:induction false} OthersStep<T>(t: Table<T>, items: seq<Item<T>>, v: Table<T>, last: Item<T>)
    requires Consistent(t) && Consistent(v) && IndexGrows(t, items, v) && OthersKept(t, v)
    ensures OthersKept(t, Upsert(v, last))
  {
    hide LastWith;
    var u := Upsert(v, last);
    forall id | id in t.rows && (forall k :: k in t.index ==> t.index[k] != id)
      ensures u.rows[id] == t.rows[id]
    {
      assert id != IdFor(v, last.key);
    }
    forall id | id in u.rows && id !in t.rows
      ensures exists k :: k in u.index && u.index[k] == id
    {
      if id == IdFor(v, last.key) {
        assert last.key in u.index;
      } else {
        var k :| k in v.index && v.index[k] == id;
        assert k in u.index && u.index[k] == id;
      }
    }
  }

  // What a sequence of upserts does to the table.
  lemma {:induction false} UpsertAllExact<T(!new)>(t: Table<T>, items: seq<Item<T>>)
    requires Consistent(t) && Absorbs(items)
    ensures var u := UpsertAll(t, items);
            Consistent(u) && IndexGrows(t, items, u) && RowsWritten(t, items, u) && OthersKept(t, u)
  {
    if |items| > 0 {
      var front, last := items[..|items| - 1], items[|items| - 1];
      assert items == front + [last];
      assert Absorbs(front);
      UpsertAllExact(t, front);
      hide RowsWritten, IndexGrows, OthersKept, Consistent, Absorbs;
      var v := UpsertAll(t, front);
      UpsertConsistent(v, last);
      IndexStep(t, front, v, last);
      RowsStep(t, front, v, last);
      OthersStep(t, front, v, last);
    }
  }

  // Repeating the same upserts changes nothing.
  lemma {:induction false} UpsertAllIdempotent<T(!new)>(t: Table<T>, items: seq<Item<T>>)
    requires Consistent(t) && Absorbs(items)
    ensures UpsertAll(UpsertAll(t, items), items) == UpsertAll(t, items)
  {
    var u := UpsertAll(t, items);
    UpsertAllExact(t, items);
    UpsertAllExact(u, items);
    var w := UpsertAll(u, items);
    forall k | k in u.index
      ensures RowOf(w, k) == RowOf(u, k)
    {
      if LastWith(items, k).Some? {
        var last := LastWith(items, k).value;
        assert last in items;
      }
    }
    NextIsStable(u, items);
    SameTable(u, w);
  }

  lemma {:induction false} NextIsStable<T>(t: Table<T>, items: seq<Item<T>>)
    requires forall item :: item in items ==> item.key in t.index
    ensures UpsertAll(t, items).next == t.next
    ensures UpsertAll(t, items).index == t.index
  {
    if |items| > 0 {
      var front := items[..|items| - 1];
      assert items == front + [items[|items| - 1]];
      NextIsStable(t, front);
    }
  }

  lemma {:induction false} SameTable<T>(u: Table<T>, w: Table<T>)
    requires Consistent(u) && Consistent(w) && w.index == u.index && w.next == u.next
    requires forall k :: k in u.index ==> RowOf(w, k) == RowOf(u, k)
    requires forall id :: id in u.rows && (forall k :: k in u.index ==> u.index[k] != id) ==> id in w.rows && w.rows[id] == u.rows[id]
    requires forall id :: id in w.rows ==> id in u.rows || exists k :: k in w.index && w.index[k] == id
    ensures w == u
  {
    forall id
      ensures id in w.rows <==> id in u.rows
      ensures id in u.rows ==> id in w.rows && w.rows[id] == u.rows[id]
    {
      if k :| k in u.index && u.index[k] == id {
        assert RowOf(w, k) == RowOf(u, k);
      }
    }
    assert w.rows == u.rows;
  }

  // The index is the partial unique index of the rows: each row with a key is
  // found under it, and carries its own id.
  ghost predicate Keyed<T>(t: Table<T>, keyOf: T -> Option<Key>, idOf: T -> int) {
    && Consistent(t)
    && (forall k :: k in t.index ==> keyOf(t.rows[t.index[k]]) == Some(k))
    && (forall id :: id in t.rows ==> idOf(t.rows[id]) == id)
    && (forall id :: id in t.rows && keyOf(t.rows[id]).Some? ==>
                       keyOf(t.rows[id]).value in t.index && t.index[keyOf(t.rows[id]).value] == id)
  }

  // Writing the item leaves a row with the item's key and the row's id.
  ghost predicate KeepsKey<T(!new)>(item: Item<T>, keyOf: T -> Option<Key>, idOf: T -> int) {
    forall id, before: Option<T> :: (before.None? || (keyOf(before.value) == Some(item.key) && idOf(before.value) == id)) ==>
                                      && keyOf(item.write(id, before)) == Some(item.key)
                                      && idOf(item.write(id, before)) == id
  }

  lemma {:induction false} UpsertKeyed<T(!new)>(t: Table<T>, item: Item<T>, keyOf: T -> Option<Key>, idOf: T -> int)
    requires Keyed(t, keyOf, idOf) && KeepsKey(item, keyOf, idOf)
    ensures Keyed(Upsert(t, item), keyOf, idOf)
  {
    UpsertConsistent(t, item);
    var u, at := Upsert(t, item), IdFor(t, item.key);
    assert keyOf(u.rows[at]) == Some(item.key) && idOf(u.rows[at]) == at by {
      var before := RowOf(t, item.key);
      assert u.rows[at] == item.write(at, before);
      assert before.Some? ==> keyOf(before.value) == Some(item.key) && idOf(before.value) == at;
    }
    hide KeepsKey, RowOf;
    forall k | k in u.index
      ensures keyOf(u.rows[u.index[k]]) == Some(k)
    {
      if k != item.key {
        assert u.index[k] == t.index[k] && t.index[k] in t.rows && u.index[k] != at;
      }
    }
    forall id | id in u.rows
      ensures idOf(u.rows[id]) == id
      ensures keyOf(u.rows[id]).Some? ==> keyOf(u.rows[id]).value in u.index && u.index[keyOf(u.rows[id]).value] == id
    {
      if id != at {
        assert u.rows[id] == t.rows[id];
      }
    }
  }

  lemma {:induction false} UpsertAllKeyed<T(!new)>(t: Table<T>, items: seq<Item<T>>, keyOf: T -> Option<Key>, idOf: T -> int)
    requires Keyed(t, keyOf, idOf) && forall item :: item in items ==> KeepsKey(item, keyOf, idOf)
    ensures Keyed(UpsertAll(t, items), keyOf, idOf)
  {
    if |items| > 0 {
      var front, last := items[..|items| - 1], items[|items| - 1];
      assert items == front + [last];
      UpsertAllKeyed(t, front, keyOf, idOf);
      UpsertKeyed(UpsertAll(t, front), last, keyOf, idOf);
    }
  }

  // A row whose key no item carries, or that has no key, is left as it was.
  lemma {:induction false} UnmentionedRowKept<T(!new)>(t: Table<T>, items: seq<Item<T>>, keyOf: T -> Option<Key>, idOf: T -> int, id: int)
    requires Keyed(t, keyOf, idOf) && Absorbs(items)
    requires id in t.rows && forall item :: item in items ==> keyOf(t.rows[id]) != Some(item.key)
    ensures id in UpsertAll(t, items).rows && UpsertAll(t, items).rows[id] == t.rows[id]
  {
    UpsertAllExact(t, items);
    var u := UpsertAll(t, items);
    match keyOf(t.rows[id]) {
      case None =>
        assert forall k :: k in t.index ==> t.index[k] != id;
      case Some(k) =>
        assert k in t.index && t.index[k] == id && k in u.index && u.index[k] == id;
        assert LastWith(items, k).None?;
        assert RowOf(u, k) == RowOf(t, k) == Some(t.rows[id]);
    }
  }

  lemma {:induction false} LastWithIs<T>(items: seq<Item<T>>, i: nat)
    requires i < |items| && forall j :: i < j < |items| ==> items[j].key != items[i].key
    ensures LastWith(items, items[i].key) == Some(items[i])
  {
    if i < |items| - 1 {
      assert items[..|items| - 1][i] == items[i];
      LastWithIs(items[..|items| - 1], i);
    }
  }
}
