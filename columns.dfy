/** The column reordering done on both output tables: `name_of_the_product`
    is taken out of the column list and put back right after `item_id`, or
    at position 1 when there is no `item_id`. */
module Columns {
  import opened Keys
  import opened Records

  const ProductColumn: string := "name_of_the_product"
  const ItemColumn: string := "item_id"

  /** The list without any occurrence of `x`, the others in order. */
  function Without(s: seq<string>, x: string): (r: seq<string>)
    ensures forall y :: y in r <==> y in s && y != x
  {
    if s == [] then []
    else
      assert forall y :: y in s <==> y == s[0] || y in s[1..];
      (if s[0] == x then [] else [s[0]]) + Without(s[1..], x)
  }

  lemma {:induction false} WithoutAppend(a: seq<string>, b: seq<string>, x: string)
    ensures Without(a + b, x) == Without(a, x) + Without(b, x)
  {
    if a != [] {
      assert (a + b)[1..] == a[1..] + b;
      WithoutAppend(a[1..], b, x);
    } else {
      assert a + b == b;
    }
  }

  lemma NoDupWithout(s: seq<string>, i: nat)
    requires NoDup(s) && i < |s|
    ensures Without(s, s[i]) == s[..i] + s[i + 1..]
  {
    var x, a, b := s[i], s[..i], s[i + 1..];
    assert s == a + [x] + b;
    assert x !in a by {
      forall k | 0 <= k < |a| ensures a[k] != x {
        assert a[k] == s[k];
      }
    }
    assert x !in b by {
      forall k | 0 <= k < |b| ensures b[k] != x {
        assert b[k] == s[i + 1 + k];
      }
    }
    calc {
      Without(s, x);
      { WithoutAppend(a + [x], b, x); }
      Without(a + [x], x) + Without(b, x);
      { WithoutAppend(a, [x], x); }
      Without(a, x) + Without([x], x) + Without(b, x);
      { WithoutSelf(x); WithoutAbsent(a, x); WithoutAbsent(b, x); }
      a + [] + b;
    }
    assert a + [] + b == s[..i] + s[i + 1..];
  }

  lemma {:induction false} WithoutAbsent(s: seq<string>, x: string)
    requires x !in s
    ensures Without(s, x) == s
  {
    if s != [] {
      WithoutAbsent(s[1..], x);
    }
  }

  /** Where the product column ends up, given the list without it:
      right after `item_id`, else at 1, never past the end. */
  function Slot(rest: seq<string>): (i: nat)
    ensures i <= |rest|
  {
    var idx := if ItemColumn in rest then FirstIndex(rest, ItemColumn) + 1 else 1;
    if idx > |rest| then |rest| else idx
  }

  /** `cols.remove(...)`, `cols.index('item_id')`, `cols.insert(idx, ...)`. */
  method MoveProductName(cols: seq<string>) returns (r: seq<string>)
    requires NoDup(cols)
    ensures ProductColumn !in cols ==> r == cols
    ensures ProductColumn in cols ==> ProductColumn in r && multiset(r) == multiset(cols)
    ensures NoDup(r)
    ensures Without(r, ProductColumn) == Without(cols, ProductColumn)
    ensures ProductColumn in cols && ItemColumn in cols ==>
      ProductColumn in r && ItemColumn in r && FirstIndex(r, ProductColumn) == FirstIndex(r, ItemColumn) + 1
    ensures ProductColumn in cols && ItemColumn !in cols ==>
      ProductColumn in r && FirstIndex(r, ProductColumn) == if |cols| >= 2 then 1 else 0
  {
    r := cols;
    if ProductColumn in r {
      var i := FirstIndex(r, ProductColumn);
      r := r[..i] + r[i + 1..];
      var idx := if ItemColumn in r then FirstIndex(r, ItemColumn) + 1 else 1;
      if idx > |r| {
        idx := |r|;
      }
      Moved(cols, i, idx);
      r := r[..idx] + [ProductColumn] + r[idx..];
    }
  }

  /** Removing the product column at `i` and inserting it at the slot
      `idx` gives a list with the properties the reordering promises. */
  lemma Moved(cols: seq<string>, i: nat, idx: nat)
    requires NoDup(cols) && ProductColumn in cols && i == FirstIndex(cols, ProductColumn)
    requires idx == Slot(cols[..i] + cols[i + 1..])
    ensures var rest := cols[..i] + cols[i + 1..];
      var r := rest[..idx] + [ProductColumn] + rest[idx..];
      ProductColumn in r && multiset(r) == multiset(cols) && NoDup(r) &&
      Without(r, ProductColumn) == Without(cols, ProductColumn) &&
      (ItemColumn in cols ==> ItemColumn in r && FirstIndex(r, ProductColumn) == FirstIndex(r, ItemColumn) + 1) &&
      (ItemColumn !in cols ==> FirstIndex(r, ProductColumn) == if |cols| >= 2 then 1 else 0)
  {
    var rest := cols[..i] + cols[i + 1..];
    ColumnsDistinct();
    Removed(cols, i);
    PlacedNoDup(rest, idx);
    PlacedWithout(rest, idx);
    PlacedIndex(rest, idx);
    PlacedMultiset(rest, idx);
    if ItemColumn in cols {
      PlacedAfterItem(rest, idx);
    }
  }

  lemma ColumnsDistinct()
    ensures ProductColumn != ItemColumn
  {
  }

  /** Taking the column out of a list without duplicates. */
  lemma Removed(cols: seq<string>, i: nat)
    requires NoDup(cols) && i < |cols|
    ensures NoDup(cols[..i] + cols[i + 1..]) && cols[i] !in cols[..i] + cols[i + 1..]
    ensures Without(cols, cols[i]) == cols[..i] + cols[i + 1..]
    ensures multiset(cols) == multiset(cols[..i] + cols[i + 1..]) + multiset{cols[i]}
    ensures |cols[..i] + cols[i + 1..]| == |cols| - 1
  {
    var rest := cols[..i] + cols[i + 1..];
    assert forall a :: 0 <= a < |rest| ==> rest[a] == cols[if a < i then a else a + 1];
    NoDupWithout(cols, i);
    assert cols == cols[..i] + [cols[i]] + cols[i + 1..];
  }

  lemma PlacedNoDup(rest: seq<string>, idx: nat)
    requires NoDup(rest) && ProductColumn !in rest && idx <= |rest|
    ensures NoDup(rest[..idx] + [ProductColumn] + rest[idx..])
  {
    var r := rest[..idx] + [ProductColumn] + rest[idx..];
    assert forall a :: 0 <= a < |r| && a != idx ==> r[a] == rest[if a < idx then a else a - 1];
  }

  lemma PlacedWithout(rest: seq<string>, idx: nat)
    requires ProductColumn !in rest && idx <= |rest|
    ensures Without(rest[..idx] + [ProductColumn] + rest[idx..], ProductColumn) == rest
  {
    InsertedWithout(rest, idx, ProductColumn);
  }

  lemma InsertedWithout(rest: seq<string>, idx: nat, x: string)
    requires x !in rest && idx <= |rest|
    ensures Without(rest[..idx] + [x] + rest[idx..], x) == rest
  {
    var a, b := rest[..idx], rest[idx..];
    assert rest == a + b;
    assert x !in a && x !in b;
    WithoutAppend(a + [x], b, x);
    WithoutAppend(a, [x], x);
    WithoutSelf(x);
    WithoutAbsent(a, x);
    WithoutAbsent(b, x);
  }

  lemma WithoutSelf(x: string)
    ensures Without([x], x) == []
  {
    assert [x][1..] == [];
  }

  lemma PlacedIndex(rest: seq<string>, idx: nat)
    requires ProductColumn !in rest && idx <= |rest|
    ensures FirstIndex(rest[..idx] + [ProductColumn] + rest[idx..], ProductColumn) == idx
  {
    var r := rest[..idx] + [ProductColumn] + rest[idx..];
    assert r[..idx] == rest[..idx];
    FirstIndexAt(r, ProductColumn, idx);
  }

  lemma PlacedMultiset(rest: seq<string>, idx: nat)
    requires idx <= |rest|
    ensures multiset(rest[..idx] + [ProductColumn] + rest[idx..]) == multiset(rest) + multiset{ProductColumn}
  {
    assert rest == rest[..idx] + rest[idx..];
  }

  lemma PlacedAfterItem(rest: seq<string>, idx: nat)
    requires NoDup(rest) && ProductColumn !in rest && ItemColumn in rest
    requires idx == Slot(rest)
    ensures ItemColumn in rest[..idx] + [ProductColumn] + rest[idx..]
    ensures FirstIndex(rest[..idx] + [ProductColumn] + rest[idx..], ItemColumn) + 1 == idx
  {
    var r := rest[..idx] + [ProductColumn] + rest[idx..];
    var j := FirstIndex(rest, ItemColumn);
    assert idx == j + 1;
    assert r[j] == ItemColumn;
    assert r[..j] == rest[..j];
    FirstIndexAt(r, ItemColumn, j);
  }

  /** The reordering applied to a table: `df = df[cols]` with the product
      column moved, done only when the table has that column. */
  method MoveProductColumn<T>(f: Frame<T>, fill: T) returns (g: Frame<T>)
    requires WellFormed(f)
    ensures WellFormed(g) && |g.rows| == |f.rows|
    ensures multiset(g.columns) == multiset(f.columns)
    ensures Without(g.columns, ProductColumn) == Without(f.columns, ProductColumn)
    ensures ProductColumn in f.columns && ItemColumn in f.columns ==>
      ProductColumn in g.columns && ItemColumn in g.columns &&
      FirstIndex(g.columns, ProductColumn) == FirstIndex(g.columns, ItemColumn) + 1
    ensures ProductColumn in f.columns && ItemColumn !in f.columns ==>
      ProductColumn in g.columns &&
      FirstIndex(g.columns, ProductColumn) == if |f.columns| >= 2 then 1 else 0
    ensures forall i, k :: 0 <= i < |f.rows| ==> Lookup(g.rows[i], k) == Lookup(f.rows[i], k)
  {
    g := f;
    var cols := MoveProductName(f.columns);
    if ProductColumn in f.columns {
      assert forall c :: c in cols <==> c in f.columns by {
        assert forall c :: c in cols <==> c in multiset(cols);
        assert forall c :: c in f.columns <==> c in multiset(f.columns);
      }
      g := Select(f, cols, fill);
      forall i, k | 0 <= i < |f.rows| ensures Lookup(g.rows[i], k) == Lookup(f.rows[i], k) {
        SelectKeepsCells(f, cols, fill, i, k);
      }
    }
  }

  /** `g` is `pd.DataFrame(rows)`, a cell a row lacks filled with `fill`, with
      the product column moved after the item id. */
  ghost predicate LaidOut<T>(g: Frame<T>, rows: seq<Record<T>>, fill: T)
  {
    var cols := UnionKeys(rows);
    WellFormed(g) && |g.rows| == |rows| &&
    multiset(g.columns) == multiset(cols) &&
    Without(g.columns, ProductColumn) == Without(cols, ProductColumn) &&
    (ProductColumn in g.columns && ItemColumn in g.columns ==>
      FirstIndex(g.columns, ProductColumn) == FirstIndex(g.columns, ItemColumn) + 1) &&
    (ProductColumn in g.columns && ItemColumn !in g.columns ==>
      FirstIndex(g.columns, ProductColumn) == if |cols| >= 2 then 1 else 0) &&
    forall i, k :: 0 <= i < |rows| ==>
      Lookup(g.rows[i], k) == if k in cols then Some(GetOr(rows[i], k, fill)) else None
  }

  /** `df = pd.DataFrame(rows)` followed by the reordering of its columns. */
  method Tabulate<T>(rows: seq<Record<T>>, fill: T) returns (g: Frame<T>)
    ensures LaidOut(g, rows, fill)
  {
    var cols := UnionKeys(rows);
    var f := FromRecords(rows, fill);
    g := MoveProductColumn(f, fill);
    assert forall c :: c in g.columns <==> c in cols by {
      assert forall c :: c in g.columns <==> c in multiset(g.columns);
      assert forall c :: c in cols <==> c in multiset(cols);
    }
    forall i, k | 0 <= i < |rows|
      ensures Lookup(g.rows[i], k) == if k in cols then Some(GetOr(rows[i], k, fill)) else None
    {
      assert f.rows[i] == Align(rows[i], cols, fill);
      LookupAlign(rows[i], cols, fill, k);
    }
  }
}
