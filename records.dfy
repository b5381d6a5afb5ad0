/** Rows as Python dictionaries (insertion-ordered key/value lists) and the
    few DataFrame operations the engine performs on them: building a frame
    from a list of dicts, selecting columns in a new order, and assigning a
    column. */
module Records {
  import opened Keys

  /** An insertion-ordered dictionary from column name to cell. */
  type Record<T> = seq<(string, T)>

  function KeyList<T>(r: Record<T>): (ks: seq<string>)
    ensures |ks| == |r|
    ensures forall i :: 0 <= i < |r| ==> ks[i] == r[i].0
  {
    seq(|r|, i requires 0 <= i < |r| => r[i].0)
  }

  predicate NoDup(s: seq<string>)
  {
    forall i, j :: 0 <= i < j < |s| ==> s[i] != s[j]
  }

  predicate IsDict<T>(r: Record<T>)
  {
    NoDup(KeyList(r))
  }

  /** `d.get(k)`. */
  function Lookup<T>(r: Record<T>, k: string): (o: Option<T>)
    ensures o.Some? <==> k in KeyList(r)
  {
    if r == [] then None
    else if r[0].0 == k then Some(r[0].1)
    else
      assert KeyList(r) == [r[0].0] + KeyList(r[1..]);
      Lookup(r[1..], k)
  }

  /** `d.get(k, default)`. */
  function GetOr<T>(r: Record<T>, k: string, default: T): T
  {
    match Lookup(r, k)
    case Some(v) => v
    case None => default
  }

  /** `row[k]` on a row whose table has the column `k`; NaN where absent. */
  function Field(r: Record<Value>, k: string): Value
  {
    GetOr(r, k, Missing)
  }

  /** `d[k] = v`: an existing key keeps its position and takes the new
      value; a new key goes to the end. */
  function Assign<T>(r: Record<T>, k: string, v: T): (r': Record<T>)
  {
    if r == [] then [(k, v)]
    else if r[0].0 == k then [(k, v)] + r[1..]
    else [r[0]] + Assign(r[1..], k, v)
  }

  lemma {:induction false} LookupAssign<T>(r: Record<T>, k: string, v: T, k': string)
    ensures Lookup(Assign(r, k, v), k') == if k' == k then Some(v) else Lookup(r, k')
  {
    if r != [] && r[0].0 != k {
      LookupAssign(r[1..], k, v, k');
    }
  }

  lemma KeyListCons<T>(x: (string, T), r: Record<T>)
    ensures KeyList([x] + r) == [x.0] + KeyList(r)
  {
  }

  lemma {:induction false} KeysAssign<T>(r: Record<T>, k: string, v: T)
    ensures KeyList(Assign(r, k, v)) == if k in KeyList(r) then KeyList(r) else KeyList(r) + [k]
  {
    if r != [] {
      var x, tail := r[0], r[1..];
      assert r == [x] + tail;
      KeyListCons(x, tail);
      if x.0 != k {
        KeysAssign(tail, k, v);
        KeyListCons(x, Assign(tail, k, v));
      } else {
        KeyListCons((k, v), tail);
      }
    }
  }

  lemma AssignDict<T>(r: Record<T>, k: string, v: T)
    requires IsDict(r)
    ensures IsDict(Assign(r, k, v))
  {
    KeysAssign(r, k, v);
  }

  /** `{**r, **s}`: the entries of `s` assigned into `r` one by one. */
  function Update<T>(r: Record<T>, s: Record<T>): Record<T>
    decreases |s|
  {
    if s == [] then r else Update(Assign(r, s[0].0, s[0].1), s[1..])
  }

  /** Later keys win: a key of `s` takes the value `s` gives it. */
  lemma {:induction false} LookupUpdate<T>(r: Record<T>, s: Record<T>, k: string)
    requires IsDict(s)
    ensures Lookup(Update(r, s), k) == if k in KeyList(s) then Lookup(s, k) else Lookup(r, k)
    decreases |s|
  {
    if s != [] {
      assert KeyList(s) == [s[0].0] + KeyList(s[1..]);
      assert IsDict(s[1..]) by {
        forall i, j | 0 <= i < j < |s| - 1 ensures KeyList(s[1..])[i] != KeyList(s[1..])[j] {
          assert KeyList(s)[i + 1] != KeyList(s)[j + 1];
        }
      }
      LookupUpdate(Assign(r, s[0].0, s[0].1), s[1..], k);
      LookupAssign(r, s[0].0, s[0].1, k);
      if k == s[0].0 {
        assert k !in KeyList(s[1..]);
      }
    }
  }

  lemma {:induction false} UpdateDict<T>(r: Record<T>, s: Record<T>)
    requires IsDict(r)
    ensures IsDict(Update(r, s))
    decreases |s|
  {
    if s != [] {
      AssignDict(r, s[0].0, s[0].1);
      UpdateDict(Assign(r, s[0].0, s[0].1), s[1..]);
    }
  }

  /** A row laid out on the columns `cols`, in that order; a column the row
      lacks holds `fill` (NaN in pandas). */
  function Align<T>(r: Record<T>, cols: seq<string>, fill: T): (a: Record<T>)
    ensures KeyList(a) == cols
  {
    seq(|cols|, i requires 0 <= i < |cols| => (cols[i], GetOr(r, cols[i], fill)))
  }

  lemma LookupAlign<T>(r: Record<T>, cols: seq<string>, fill: T, k: string)
    ensures Lookup(Align(r, cols, fill), k) == if k in cols then Some(GetOr(r, k, fill)) else None
  {
    var a := Align(r, cols, fill);
    if k in cols {
      var i := FirstIndex(KeyList(a), k);
      LookupAt(a, i);
    }
  }

  /** `s.index(k)`: the first position of `k`. */
  function FirstIndex<T(==)>(s: seq<T>, k: T): (i: nat)
    requires k in s
    ensures i < |s| && s[i] == k && k !in s[..i]
  {
    if s[0] == k then 0 else 1 + FirstIndex(s[1..], k)
  }

  /** A position holding `k` with no `k` before it is the first position. */
  lemma {:induction false} FirstIndexAt<T>(s: seq<T>, k: T, j: nat)
    requires j < |s| && s[j] == k && k !in s[..j]
    ensures FirstIndex(s, k) == j
  {
    if j > 0 {
      assert s[0] in s[..j];
      assert s[1..][..j - 1] == s[1..j];
      FirstIndexAt(s[1..], k, j - 1);
    }
  }

  /** Appending keeps the first position of what was already there. */
  lemma FirstIndexPrefix<T>(s: seq<T>, x: T, k: T)
    requires k in s
    ensures FirstIndex(s + [x], k) == FirstIndex(s, k)
  {
    var i := FirstIndex(s, k);
    assert (s + [x])[..i] == s[..i];
    FirstIndexAt(s + [x], k, i);
  }

  lemma FirstIndexLast<T>(s: seq<T>, x: T)
    requires x !in s
    ensures FirstIndex(s + [x], x) == |s|
  {
    assert (s + [x])[..|s|] == s;
    FirstIndexAt(s + [x], x, |s|);
  }

  lemma FirstIndexTail<T>(s: seq<T>, k: T)
    requires k in s && k != s[0]
    ensures k in s[1..] && FirstIndex(s, k) == 1 + FirstIndex(s[1..], k)
  {
    assert s == [s[0]] + s[1..];
  }

  /** The value at the first position of a key is the one `Lookup` finds. */
  lemma {:induction false} LookupAt<T>(r: Record<T>, i: nat)
    requires i < |r| && r[i].0 !in KeyList(r)[..i]
    ensures Lookup(r, r[i].0) == Some(r[i].1)
  {
    if i > 0 {
      assert r[0].0 == KeyList(r)[..i][0];
      assert KeyList(r[1..])[..i - 1] == KeyList(r)[1..i];
      LookupAt(r[1..], i - 1);
    }
  }

  /** The keys of `ks` not yet in `acc`, appended in order. */
  function AddNew(acc: seq<string>, ks: seq<string>): (r: seq<string>)
    ensures acc <= r
    ensures forall i :: |acc| <= i < |r| ==> r[i] in ks && r[i] !in acc
    decreases |ks|
  {
    if ks == [] then acc
    else AddNew(if ks[0] in acc then acc else acc + [ks[0]], ks[1..])
  }

  lemma {:induction false} AddNewSpec(acc: seq<string>, ks: seq<string>)
    ensures forall k :: k in AddNew(acc, ks) <==> k in acc || k in ks
    ensures NoDup(acc) ==> NoDup(AddNew(acc, ks))
    decreases |ks|
  {
    if ks != [] {
      var acc' := if ks[0] in acc then acc else acc + [ks[0]];
      AddNewSpec(acc', ks[1..]);
      assert forall k :: k in ks <==> k == ks[0] || k in ks[1..];
      if NoDup(acc) && ks[0] !in acc {
        assert NoDup(acc') by {
          forall i, j | 0 <= i < j < |acc'| ensures acc'[i] != acc'[j] {
            if j == |acc| { assert acc'[i] == acc[i]; }
          }
        }
      }
    }
  }

  /** The keys `AddNew` appends come in the order they first appear in `ks`. */
  lemma {:induction false} AddNewOrder(acc: seq<string>, ks: seq<string>)
    ensures var r := AddNew(acc, ks);
      forall i, j :: |acc| <= i < j < |r| ==> FirstIndex(ks, r[i]) < FirstIndex(ks, r[j])
    decreases |ks|
  {
    if ks != [] {
      var acc' := if ks[0] in acc then acc else acc + [ks[0]];
      var r := AddNew(acc', ks[1..]);
      assert AddNew(acc, ks) == r;
      AddNewOrder(acc', ks[1..]);
      AddNewShift(acc', ks, r);
      forall i, j | |acc| <= i < j < |r| ensures FirstIndex(ks, r[i]) < FirstIndex(ks, r[j]) {
        if i < |acc'| {
          assert r[i] == ks[0];
        }
      }
    }
  }

  /** Past `prev`, `cols` holds keys of `ks` in the order they first appear there. */
  predicate AppendsInOrder(prev: seq<string>, cols: seq<string>, ks: seq<string>)
  {
    forall i, j :: |prev| <= i < j < |cols| ==> cols[i] in ks && cols[j] in ks && FirstIndex(ks, cols[i]) < FirstIndex(ks, cols[j])
  }

  /** What `AddNew` appends: keys of `ks`, in their order; all of `ks` when
      nothing came before and `ks` has no repeats. */
  lemma AddNewAppends(acc: seq<string>, ks: seq<string>)
    ensures AppendsInOrder(acc, AddNew(acc, ks), ks)
    ensures acc == [] && NoDup(ks) ==> AddNew(acc, ks) == ks
  {
    AddNewOrder(acc, ks);
    if acc == [] && NoDup(ks) {
      AddNewFresh([], ks);
      assert [] + ks == ks;
    }
  }

  /** Past `acc'`, the first position in `ks` is one more than in its tail. */
  lemma AddNewShift(acc': seq<string>, ks: seq<string>, r: seq<string>)
    requires ks != [] && ks[0] in acc' && r == AddNew(acc', ks[1..])
    ensures forall i :: |acc'| <= i < |r| ==> r[i] in ks && FirstIndex(ks, r[i]) == 1 + FirstIndex(ks[1..], r[i])
  {
    forall i | |acc'| <= i < |r| ensures r[i] in ks && FirstIndex(ks, r[i]) == 1 + FirstIndex(ks[1..], r[i]) {
      FirstIndexTail(ks, r[i]);
    }
  }

  /** The columns of `pd.DataFrame(rows)`: every key of every row, in the
      order of first appearance. */
  function UnionKeys<T>(rs: seq<Record<T>>): (cols: seq<string>)
    ensures NoDup(cols)
    ensures forall k :: k in cols <==> exists i :: 0 <= i < |rs| && k in KeyList(rs[i])
    ensures |rs| > 0 ==> UnionKeys(rs[..|rs| - 1]) <= cols
    ensures |rs| > 0 ==> AppendsInOrder(UnionKeys(rs[..|rs| - 1]), cols, KeyList(rs[|rs| - 1]))
    ensures |rs| == 1 && IsDict(rs[0]) ==> cols == KeyList(rs[0])
  {
    if rs == [] then []
    else
      var prev := UnionKeys(rs[..|rs| - 1]);
      UnionStep(rs, rs[..|rs| - 1], prev, KeyList(rs[|rs| - 1]));
      AddNew(prev, KeyList(rs[|rs| - 1]))
  }

  /** One more row: the keys so far, then that row's new keys in its order. */
  lemma UnionStep<T>(rs: seq<Record<T>>, front: seq<Record<T>>, prev: seq<string>, ks: seq<string>)
    requires rs != [] && front == rs[..|rs| - 1] && ks == KeyList(rs[|rs| - 1])
    requires NoDup(prev) && forall k :: k in prev <==> exists i :: 0 <= i < |front| && k in KeyList(front[i])
    ensures NoDup(AddNew(prev, ks)) && AppendsInOrder(prev, AddNew(prev, ks), ks)
    ensures forall k :: k in AddNew(prev, ks) <==> exists i :: 0 <= i < |rs| && k in KeyList(rs[i])
    ensures |rs| == 1 && IsDict(rs[0]) ==> AddNew(prev, ks) == KeyList(rs[0])
  {
    var cols := AddNew(prev, ks);
    AddNewSpec(prev, ks);
    assert AppendsInOrder(prev, cols, ks) && (|rs| == 1 && IsDict(rs[0]) ==> cols == KeyList(rs[0])) by {
      AddNewAppends(prev, ks);
      assert prev != [] ==> prev[0] in prev;
    }
    forall k | k in cols ensures exists i :: 0 <= i < |rs| && k in KeyList(rs[i]) {
      if k in prev {
        var i :| 0 <= i < |front| && k in KeyList(front[i]);
        assert front[i] == rs[i];
      } else {
        assert k in KeyList(rs[|rs| - 1]);
      }
    }
    assert forall i :: 0 <= i < |front| ==> front[i] == rs[i];
  }

  /** When every row has the same keys, those keys are the frame's columns. */
  lemma {:induction false} UnionKeysUniform<T>(rs: seq<Record<T>>, ks: seq<string>)
    requires |rs| > 0 && NoDup(ks)
    requires forall i :: 0 <= i < |rs| ==> KeyList(rs[i]) == ks
    ensures UnionKeys(rs) == ks
  {
    if |rs| == 1 {
      AddNewFresh([], ks);
    } else {
      UnionKeysUniform(rs[..|rs| - 1], ks);
      AddNewKnown(ks, ks);
    }
  }

  /** Dropping the first key of a duplicate-free list of keys that are all
      new to `acc`: the rest are new to `acc` extended by that key. */
  lemma FreshTail(acc: seq<string>, ks: seq<string>)
    requires NoDup(ks) && ks != [] && forall i :: 0 <= i < |ks| ==> ks[i] !in acc
    ensures NoDup(ks[1..])
    ensures forall i :: 0 <= i < |ks| - 1 ==> ks[1..][i] !in acc + [ks[0]]
  {
    forall i, j | 0 <= i < j < |ks| - 1 ensures ks[1..][i] != ks[1..][j] {
      assert ks[i + 1] != ks[j + 1];
    }
    forall i | 0 <= i < |ks| - 1 ensures ks[1..][i] !in acc + [ks[0]] {
      assert ks[1..][i] == ks[i + 1] != ks[0];
    }
  }

  lemma AddNewStep(acc: seq<string>, ks: seq<string>)
    requires ks != [] && ks[0] !in acc
    ensures AddNew(acc, ks) == AddNew(acc + [ks[0]], ks[1..])
  {
  }

  lemma ConsAppend(acc: seq<string>, ks: seq<string>)
    requires ks != []
    ensures acc + [ks[0]] + ks[1..] == acc + ks
  {
    assert ks == [ks[0]] + ks[1..];
  }

  lemma {:induction false} AddNewFresh(acc: seq<string>, ks: seq<string>)
    requires NoDup(ks) && forall i :: 0 <= i < |ks| ==> ks[i] !in acc
    ensures AddNew(acc, ks) == acc + ks
    decreases |ks|
  {
    if ks != [] {
      AddNewStep(acc, ks);
      FreshTail(acc, ks);
      AddNewFresh(acc + [ks[0]], ks[1..]);
      ConsAppend(acc, ks);
    }
  }

  lemma {:induction false} AddNewKnown(acc: seq<string>, ks: seq<string>)
    requires forall k :: k in ks ==> k in acc
    ensures AddNew(acc, ks) == acc
  {
    if ks != [] {
      AddNewKnown(acc, ks[1..]);
    }
  }

  /** A table: its column order and its rows, each laid out on the columns. */
  datatype Frame<T> = Frame(columns: seq<string>, rows: seq<Record<T>>)

  predicate WellFormed<T>(f: Frame<T>)
  {
    NoDup(f.columns) && forall i :: 0 <= i < |f.rows| ==> KeyList(f.rows[i]) == f.columns
  }

  /** `pd.DataFrame(records)`. */
  function FromRecords<T>(rs: seq<Record<T>>, fill: T): (f: Frame<T>)
    ensures WellFormed(f) && |f.rows| == |rs|
    ensures f.columns == UnionKeys(rs)
  {
    var cols := UnionKeys(rs);
    Frame(cols, seq(|rs|, i requires 0 <= i < |rs| => Align(rs[i], cols, fill)))
  }

  /** `df[cols]`: the same rows laid out on a new column order. */
  function Select<T>(f: Frame<T>, cols: seq<string>, fill: T): (g: Frame<T>)
    requires NoDup(cols)
    ensures WellFormed(g) && |g.rows| == |f.rows| && g.columns == cols
  {
    Frame(cols, seq(|f.rows|, i requires 0 <= i < |f.rows| => Align(f.rows[i], cols, fill)))
  }

  /** `df[name] = vals`. */
  function SetColumn<T>(f: Frame<T>, name: string, vals: seq<T>): (g: Frame<T>)
    requires WellFormed(f) && |vals| == |f.rows|
    ensures WellFormed(g) && |g.rows| == |f.rows|
    ensures g.columns == if name in f.columns then f.columns else f.columns + [name]
    ensures forall i :: 0 <= i < |g.rows| ==> g.rows[i] == Assign(f.rows[i], name, vals[i])
  {
    var cols := if name in f.columns then f.columns else f.columns + [name];
    var rows := seq(|f.rows|, i requires 0 <= i < |f.rows| => Assign(f.rows[i], name, vals[i]));
    assert forall i :: 0 <= i < |rows| ==> KeyList(rows[i]) == cols by {
      forall i | 0 <= i < |rows| ensures KeyList(rows[i]) == cols {
        KeysAssign(f.rows[i], name, vals[i]);
      }
    }
    Frame(cols, rows)
  }

  /** Selecting the same columns in another order loses and changes no cell. */
  lemma SelectKeepsCells<T>(f: Frame<T>, cols: seq<string>, fill: T, i: nat, k: string)
    requires WellFormed(f) && NoDup(cols) && i < |f.rows|
    requires forall c :: c in cols <==> c in f.columns
    ensures Lookup(Select(f, cols, fill).rows[i], k) == Lookup(f.rows[i], k)
  {
    LookupAlign(f.rows[i], cols, fill, k);
  }

  /** Assigning a key the value it already has changes nothing. */
  lemma {:induction false} AssignSame<T>(r: Record<T>, k: string, v: T)
    requires Lookup(r, k) == Some(v)
    ensures Assign(r, k, v) == r
  {
    if r[0].0 != k {
      AssignSame(r[1..], k, v);
    }
  }

  // ---------------------------------------------------------------- row sequences

  /** `s[mask]`: the elements that satisfy `p`, in their order. */
  function Filter<T(!new)>(s: seq<T>, p: T -> bool): (r: seq<T>)
    ensures |r| <= |s|
    ensures forall x :: x in r <==> x in s && p(x)
    ensures forall x :: multiset(r)[x] == if p(x) then multiset(s)[x] else 0
  {
    if s == [] then []
    else
      var prev := s[..|s| - 1];
      var x := s[|s| - 1];
      assert forall y :: y in s <==> y in prev || y == x;
      assert s == prev + [x];
      if p(x) then Filter(prev, p) + [x] else Filter(prev, p)
  }

  /** Filtering keeps the order of what it keeps. */
  lemma {:induction false} FilterSub<T(!new)>(s: seq<T>, p: T -> bool)
    ensures Sub(Filter(s, p), s)
  {
    if s != [] {
      var prev := s[..|s| - 1];
      var x := s[|s| - 1];
      var f := Filter(prev, p);
      FilterSub(prev, p);
      if p(x) {
        assert (f + [x])[..|f|] == f;
      } else {
        SubExtend(f, prev, x);
        assert prev + [x] == s;
      }
    }
  }

  /** `drop_duplicates()`: the first occurrence of every row, in order. */
  function Dedup<T(==,!new)>(s: seq<T>): (r: seq<T>)
    ensures forall x :: x in r <==> x in s
    ensures forall i, j :: 0 <= i < j < |r| ==> r[i] != r[j]
    ensures forall i, j :: 0 <= i < j < |r| ==> FirstIndex(s, r[i]) < FirstIndex(s, r[j])
  {
    if s == [] then []
    else
      var prev := s[..|s| - 1];
      var d := Dedup(prev);
      assert forall x :: x in s <==> x in prev || x == s[|s| - 1];
      DedupOrderStep(prev, s[|s| - 1], d);
      assert prev + [s[|s| - 1]] == s;
      if s[|s| - 1] in prev then d else d + [s[|s| - 1]]
  }

  /** One more element keeps `Dedup` in the order of first occurrence. */
  lemma DedupOrderStep<T(!new)>(prev: seq<T>, x: T, d: seq<T>)
    requires forall y :: y in d <==> y in prev
    requires forall i, j :: 0 <= i < j < |d| ==> FirstIndex(prev, d[i]) < FirstIndex(prev, d[j])
    ensures var r := if x in prev then d else d + [x];
      forall i, j :: 0 <= i < j < |r| ==> FirstIndex(prev + [x], r[i]) < FirstIndex(prev + [x], r[j])
  {
    var r := if x in prev then d else d + [x];
    forall i | 0 <= i < |d| ensures FirstIndex(prev + [x], d[i]) == FirstIndex(prev, d[i]) < |prev| {
      FirstIndexPrefix(prev, x, d[i]);
    }
    if x !in prev {
      FirstIndexLast(prev, x);
      assert forall i :: 0 <= i < |d| ==> r[i] == d[i];
    }
  }

  /** Appending rows that are all already present adds nothing. */
  lemma {:induction false} DedupSubsumed<T(!new)>(s: seq<T>, t: seq<T>)
    requires forall x :: x in t ==> x in s
    ensures Dedup(s + t) == Dedup(s)
    decreases |t|
  {
    if t == [] {
      assert s + t == s;
    } else {
      var t' := t[..|t| - 1];
      assert (s + t)[..|s + t| - 1] == s + t';
      assert t[|t| - 1] in t;
      DedupSubsumed(s, t');
    }
  }

  /** `a` is `b` with some elements left out, the rest in order. */
  predicate Sub<T(==)>(a: seq<T>, b: seq<T>)
    decreases |b|
  {
    if a == [] then true
    else if b == [] then false
    else if a[|a| - 1] == b[|b| - 1] then Sub(a[..|a| - 1], b[..|b| - 1])
    else Sub(a, b[..|b| - 1])
  }

  lemma {:induction false} SubExtend<T>(a: seq<T>, b: seq<T>, x: T)
    requires Sub(a, b)
    ensures Sub(a, b + [x])
    decreases |b|, 1
  {
    if a != [] {
      assert (b + [x])[..|b|] == b;
      if a[|a| - 1] == x {
        SubDrop(a, b);
      }
    }
  }

  /** Leaving out the last element of `a` keeps it a subsequence. */
  lemma {:induction false} SubDrop<T>(a: seq<T>, b: seq<T>)
    requires a != [] && Sub(a, b)
    ensures Sub(a[..|a| - 1], b)
    decreases |b|, 0
  {
    var a', b' := a[..|a| - 1], b[..|b| - 1];
    if a[|a| - 1] != b[|b| - 1] {
      SubDrop(a, b');
    }
    SubExtend(a', b', b[|b| - 1]);
    assert b' + [b[|b| - 1]] == b;
  }

  lemma {:induction false} SubTrans<T>(a: seq<T>, b: seq<T>, c: seq<T>)
    requires Sub(a, b) && Sub(b, c)
    ensures Sub(a, c)
    decreases |c|
  {
    if a != [] {
      var a', b', c' := a[..|a| - 1], b[..|b| - 1], c[..|c| - 1];
      if b[|b| - 1] == c[|c| - 1] {
        if a[|a| - 1] == b[|b| - 1] {
          SubTrans(a', b', c');
        } else {
          SubTrans(a, b', c');
        }
      } else {
        SubTrans(a, b, c');
        if a[|a| - 1] == c[|c| - 1] {
          SubDrop(a, c');
        }
      }
    }
  }

  lemma {:induction false} DedupSub<T(!new)>(s: seq<T>)
    ensures Sub(Dedup(s), s)
  {
    if s != [] {
      var prev := s[..|s| - 1];
      DedupSub(prev);
      if s[|s| - 1] in prev {
        SubExtend(Dedup(prev), prev, s[|s| - 1]);
        assert prev + [s[|s| - 1]] == s;
      } else {
        var d := Dedup(prev) + [s[|s| - 1]];
        assert d[..|d| - 1] == Dedup(prev);
      }
    }
  }
}
