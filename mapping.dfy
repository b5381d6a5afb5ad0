/** Lookups in the master item table: the product-name dictionary built from
    column `b`, and the material-code list of an item, both as the
    reconciliation computes them on normalised keys and as the stock check
    recomputes them with its stricter conversion. */
module Mapping {
  import opened Keys
  import opened Records

  /** A row of the master item table: its item id, its product name (column
      `b`), and its primary and secondary material codes. */
  datatype MasterRow = MasterRow(itemId: Value, name: Value, code1: Value, code2: Value)

  /** The master table; `hasCode1` and `hasCode2` say whether the columns
      `material_code` and `material_code2` exist. */
  datatype Master = Master(rows: seq<MasterRow>, hasCode1: bool, hasCode2: bool)

  // ---------------------------------------------------------------- product names

  /** The `item_id_norm` column: each row's normalised id. */
  function IdKeys(rows: seq<MasterRow>): (ks: seq<string>)
    ensures |ks| == |rows|
  {
    seq(|rows|, i requires 0 <= i < |rows| => Normalize(rows[i].itemId))
  }

  /** `dict(zip(ks, vs))`: each key maps to a value; a later pair overwrites
      an earlier one with the same key. */
  function Zip(ks: seq<string>, vs: seq<Value>): (m: map<string, Value>)
    requires |ks| == |vs|
    ensures forall k :: k in m <==> k in ks
  {
    if ks == [] then map[]
    else
      var n := |ks| - 1;
      assert forall k :: k in ks <==> k in ks[..n] || k == ks[n];
      Zip(ks[..n], vs[..n])[ks[n] := vs[n]]
  }

  /** The product-name dictionary: normalised ids to column `b`. */
  function ProductMap(rows: seq<MasterRow>): map<string, Value>
  {
    Zip(IdKeys(rows), seq(|rows|, i requires 0 <= i < |rows| => rows[i].name))
  }

  /** `itemid_to_product.get(key, '')`. */
  function ProductName(rows: seq<MasterRow>, key: string): (r: Value)
    ensures (forall i :: 0 <= i < |rows| ==> Normalize(rows[i].itemId) != key) ==> r == Str("")
  {
    var m := ProductMap(rows);
    assert key in m ==> exists i :: 0 <= i < |rows| && IdKeys(rows)[i] == key;
    if key in m then m[key] else Str("")
  }

  /** The pair found is the last one with the key. */
  lemma {:induction false} ZipLastWins(ks: seq<string>, vs: seq<Value>, i: nat)
    requires |ks| == |vs| && i < |ks|
    requires forall j :: i < j < |ks| ==> ks[j] != ks[i]
    ensures ks[i] in Zip(ks, vs) && Zip(ks, vs)[ks[i]] == vs[i]
  {
    var n := |ks| - 1;
    if i < n {
      ZipLastWins(ks[..n], vs[..n], i);
    }
  }

  /** With several rows for one normalised id, the name of the last of them
      is the one found. */
  lemma ProductNameLastWins(rows: seq<MasterRow>, key: string, i: nat)
    requires i < |rows| && Normalize(rows[i].itemId) == key
    requires forall j :: i < j < |rows| ==> Normalize(rows[j].itemId) != key
    ensures ProductName(rows, key) == rows[i].name
  {
    var ks := IdKeys(rows);
    ZipLastWins(ks, seq(|rows|, j requires 0 <= j < |rows| => rows[j].name), i);
  }

  // ---------------------------------------------------------------- material codes

  /** A master row whose normalised item id is `key`. */
  function ItemIs(key: string): MasterRow -> bool
  {
    (m: MasterRow) => Normalize(m.itemId) == key
  }

  /** `master_map[master_map['item_id_norm'] == key]`: the rows whose
      normalised id is `key`, in table order. */
  function RowsFor(rows: seq<MasterRow>, key: string): (r: seq<MasterRow>)
    ensures |r| <= |rows|
    ensures forall m :: m in r <==> m in rows && Normalize(m.itemId) == key
    ensures r == Filter(rows, ItemIs(key))
  {
    if rows == [] then []
    else
      var rest := RowsFor(rows[..|rows| - 1], key);
      var m := rows[|rows| - 1];
      assert forall x :: x in rows <==> x in rows[..|rows| - 1] || x == m;
      if Normalize(m.itemId) == key then rest + [m] else rest
  }

  /** One code column of the given rows, as raw cells. */
  function CodeColumn(rs: seq<MasterRow>, second: bool): (vs: seq<Value>)
    ensures |vs| == |rs|
    ensures forall i :: 0 <= i < |rs| ==> vs[i] == if second then rs[i].code2 else rs[i].code1
  {
    seq(|rs|, i requires 0 <= i < |rs| => if second then rs[i].code2 else rs[i].code1)
  }

  /** `.apply(normalize_code).tolist()`. */
  function NormalizeAll(vs: seq<Value>): (cs: seq<string>)
    ensures |cs| == |vs|
    ensures forall i :: 0 <= i < |vs| ==> cs[i] == Normalize(vs[i])
  {
    seq(|vs|, i requires 0 <= i < |vs| => Normalize(vs[i]))
  }

  /** A code that survives `code and code.lower() != 'nan'`. */
  predicate UsableCode(c: string)
  {
    c != "" && !IsNanText(c)
  }

  /** `[code for code in codes if code and code.lower() != 'nan']`. */
  function CleanCodes(cs: seq<string>): (r: seq<string>)
    ensures |r| <= |cs|
    ensures forall c :: c in r <==> c in cs && UsableCode(c)
    ensures r == Filter(cs, UsableCode)
  {
    if cs == [] then []
    else
      var rest := CleanCodes(cs[..|cs| - 1]);
      var c := cs[|cs| - 1];
      assert forall x :: x in cs <==> x in cs[..|cs| - 1] || x == c;
      if UsableCode(c) then rest + [c] else rest
  }

  lemma {:induction false} CleanCodesAppend(a: seq<string>, b: seq<string>)
    ensures CleanCodes(a + b) == CleanCodes(a) + CleanCodes(b)
    decreases |b|
  {
    if b == [] {
      assert a + b == a;
    } else {
      var b' := b[..|b| - 1];
      assert (a + b)[..|a + b| - 1] == a + b';
      CleanCodesAppend(a, b');
    }
  }

  /** The raw codes of the rows: every primary code in row order, then, when
      the column exists, every secondary code. */
  function RawCodes(t: Master, rs: seq<MasterRow>): (vs: seq<Value>)
  {
    CodeColumn(rs, false) + if t.hasCode2 then CodeColumn(rs, true) else []
  }

  /** The material codes the reconciliation looks for under a normalised
      item id. */
  function MaterialCodes(t: Master, key: string): (r: seq<string>)
    requires t.hasCode1
  {
    CleanCodes(NormalizeAll(RawCodes(t, RowsFor(t.rows, key))))
  }

  /** A code of the master table for `key`: the normalised primary or (when
      that column exists) secondary code of some row whose id is `key`. */
  predicate CodeOf(t: Master, key: string, c: string)
  {
    exists m :: m in t.rows && Normalize(m.itemId) == key &&
      (Normalize(m.code1) == c || (t.hasCode2 && Normalize(m.code2) == c))
  }

  /** The normalised primary (or secondary) code of a row. */
  function CodeKey(m: MasterRow, second: bool): string
  {
    Normalize(if second then m.code2 else m.code1)
  }

  /** Some row of `rs` has `c` as its normalised code in one column. */
  predicate HasCode(rs: seq<MasterRow>, second: bool, c: string)
  {
    exists m :: m in rs && CodeKey(m, second) == c
  }

  /** A normalised code of one of the rows `rs`, secondary codes counting
      when that column exists. */
  predicate CodeIn(t: Master, rs: seq<MasterRow>, c: string)
  {
    HasCode(rs, false, c) || (t.hasCode2 && HasCode(rs, true, c))
  }

  lemma RawCodesMembers(t: Master, rs: seq<MasterRow>, c: string)
    ensures c in NormalizeAll(RawCodes(t, rs)) <==> CodeIn(t, rs, c)
  {
    var c1 := CodeColumn(rs, false);
    var c2 := if t.hasCode2 then CodeColumn(rs, true) else [];
    var n1, n2 := NormalizeAll(c1), NormalizeAll(c2);
    NormalizeAllAppend(c1, c2);
    ColumnMembers(rs, false, c);
    if t.hasCode2 {
      ColumnMembers(rs, true, c);
    } else {
      assert n2 == [];
    }
  }

  lemma NormalizeAllAppend(a: seq<Value>, b: seq<Value>)
    ensures NormalizeAll(a + b) == NormalizeAll(a) + NormalizeAll(b)
  {
    var l, r := NormalizeAll(a + b), NormalizeAll(a) + NormalizeAll(b);
    assert |l| == |r|;
    forall i | 0 <= i < |l| ensures l[i] == r[i] {
      if i < |a| {
        assert (a + b)[i] == a[i];
      } else {
        assert (a + b)[i] == b[i - |a|];
      }
    }
  }

  /** A normalised cell of one code column is the code of one of the rows. */
  lemma ColumnMembers(rs: seq<MasterRow>, second: bool, c: string)
    ensures c in NormalizeAll(CodeColumn(rs, second)) <==> HasCode(rs, second, c)
  {
    var cs := NormalizeAll(CodeColumn(rs, second));
    if c in cs {
      var k :| 0 <= k < |cs| && cs[k] == c;
      assert rs[k] in rs && CodeKey(rs[k], second) == c;
    }
    if HasCode(rs, second, c) {
      var m :| m in rs && CodeKey(m, second) == c;
      var j :| 0 <= j < |rs| && rs[j] == m;
      assert cs[j] == c;
    }
  }

  /** The list holds exactly the usable codes of the rows for `key`. */
  lemma MaterialCodesMembers(t: Master, key: string, c: string)
    requires t.hasCode1
    ensures c in MaterialCodes(t, key) <==> UsableCode(c) && CodeOf(t, key, c)
  {
    var rs := RowsFor(t.rows, key);
    RawCodesMembers(t, rs, c);
    assert CodeIn(t, rs, c) <==> CodeOf(t, key, c);
  }

  /** Primary codes of all matching rows come before their secondary codes. */
  lemma MaterialCodesOrder(t: Master, key: string)
    requires t.hasCode1 && t.hasCode2
    ensures MaterialCodes(t, key) ==
      CleanCodes(NormalizeAll(CodeColumn(RowsFor(t.rows, key), false))) +
      CleanCodes(NormalizeAll(CodeColumn(RowsFor(t.rows, key), true)))
  {
    var rs := RowsFor(t.rows, key);
    var a := NormalizeAll(CodeColumn(rs, false));
    var b := NormalizeAll(CodeColumn(rs, true));
    assert NormalizeAll(RawCodes(t, rs)) == a + b by {
      NormalizeAllAppend(CodeColumn(rs, false), CodeColumn(rs, true));
    }
    CleanCodesAppend(a, b);
  }

  // ---------------------------------------------------------------- the stock check's lookup

  /** An item id that `int(float(str(item_id)))` accepts. */
  predicate StockItem(item: Value)
  {
    IsNumeric(Str(PyStr(item)))
  }

  /** `str(int(float(item_id)))` for `item_id = str(row['item_id'])`. */
  function StockItemKey(item: Value): (k: string)
    requires StockItem(item)
    ensures k == Normalize(item)
  {
    NormalizeOfPyStr(item);
    DecimalString(NumericValue(Str(PyStr(item))))
  }

  /** Every cell of the id column converts under the strict conversion, and
      so do the code cells of the rows it selects. */
  predicate StockReady(t: Master, key: string)
  {
    (forall i :: 0 <= i < |t.rows| ==> NumericOrMissing(t.rows[i].itemId)) &&
    (forall i :: 0 <= i < |t.rows| && StrictKey(t.rows[i].itemId) == key ==>
       NumericOrMissing(t.rows[i].code1) && (t.hasCode2 ==> NumericOrMissing(t.rows[i].code2)))
  }

  /** A master row whose strictly converted item id is `key`. */
  function StrictItemIs(key: string): MasterRow -> bool
  {
    (m: MasterRow) => NumericOrMissing(m.itemId) && StrictKey(m.itemId) == key
  }

  /** The rows whose strictly converted id equals `key`. */
  function StrictRowsFor(rows: seq<MasterRow>, key: string): (r: seq<MasterRow>)
    requires forall i :: 0 <= i < |rows| ==> NumericOrMissing(rows[i].itemId)
    ensures |r| <= |rows|
    ensures forall m :: m in r ==> m in rows && StrictKey(m.itemId) == key
    ensures r == Filter(rows, StrictItemIs(key))
  {
    if rows == [] then []
    else
      var m := rows[|rows| - 1];
      var rest := StrictRowsFor(rows[..|rows| - 1], key);
      if StrictKey(m.itemId) == key then rest + [m] else rest
  }

  /** The strict conversion of every cell. */
  function StrictAll(vs: seq<Value>): (cs: seq<string>)
    requires forall i :: 0 <= i < |vs| ==> NumericOrMissing(vs[i])
    ensures |cs| == |vs|
    ensures forall i :: 0 <= i < |vs| ==> cs[i] == StrictKey(vs[i])
  {
    seq(|vs|, i requires 0 <= i < |vs| => StrictKey(vs[i]))
  }

  /** A strictly converted cell is a decimal number or empty: no comma. */
  lemma StrictKeyNoComma(v: Value)
    requires NumericOrMissing(v)
    ensures ',' !in StrictKey(v)
  {
    var s := StrictKey(v);
    forall i | 0 <= i < |s| ensures s[i] != ',' {
      if s[0] == '-' && i > 0 {
        assert s[i] == s[1..][i - 1];
      }
    }
  }

  lemma StrictAllNoComma(vs: seq<Value>)
    requires forall i :: 0 <= i < |vs| ==> NumericOrMissing(vs[i])
    ensures forall c :: c in StrictAll(vs) ==> ',' !in c
  {
    var cs := StrictAll(vs);
    forall c | c in cs ensures ',' !in c {
      var i :| 0 <= i < |cs| && cs[i] == c;
      StrictKeyNoComma(vs[i]);
    }
  }

  /** The code cells of the rows a converted id selects all convert. */
  lemma StrictCodesReady(t: Master, key: string)
    requires StockReady(t, key)
    ensures forall i :: 0 <= i < |RawCodes(t, StrictRowsFor(t.rows, key))| ==>
      NumericOrMissing(RawCodes(t, StrictRowsFor(t.rows, key))[i])
  {
    var rs := StrictRowsFor(t.rows, key);
    var vs := RawCodes(t, rs);
    forall i | 0 <= i < |vs| ensures NumericOrMissing(vs[i]) {
      var n := |CodeColumn(rs, false)|;
      var m := if i < n then rs[i] else rs[i - n];
      assert m in rs;
      var j :| 0 <= j < |t.rows| && t.rows[j] == m;
    }
  }

  /** The material codes the stock check tries for an item, in order; each
      is a decimal number, so none holds a comma. */
  function StockCodes(t: Master, item: Value): (r: seq<string>)
    requires t.hasCode1 && StockItem(item) && StockReady(t, StockItemKey(item))
    ensures forall c :: c in r ==> ',' !in c
  {
    var vs := RawCodes(t, StrictRowsFor(t.rows, StockItemKey(item)));
    StrictCodesReady(t, StockItemKey(item));
    StrictAllNoComma(vs);
    CleanCodes(StrictAll(vs))
  }

  /** On the same table, the strict lookup selects the same rows as the
      normalised one for a decimal key. */
  lemma {:induction false} StrictRowsAgree(rows: seq<MasterRow>, n: int)
    requires forall i :: 0 <= i < |rows| ==> NumericOrMissing(rows[i].itemId)
    ensures StrictRowsFor(rows, DecimalString(n)) == RowsFor(rows, DecimalString(n))
  {
    if rows != [] {
      StrictRowsAgree(rows[..|rows| - 1], n);
      KeyMatchAgrees(rows[|rows| - 1].itemId, n);
    }
  }

  /** For a decimal key, one cell matches strictly iff it matches normalised. */
  lemma KeyMatchAgrees(v: Value, n: int)
    requires NumericOrMissing(v)
    ensures StrictKey(v) == DecimalString(n) <==> Normalize(v) == DecimalString(n)
  {
    DecimalStringIsCode(n);
    StrictKeyAgrees(v);
    if v.Missing? {
      assert IsNanText("nan");
    }
  }

  /** A missing code cell becomes "nan" or "", and both are dropped. */
  lemma MissingCodeDropped(v: Value)
    requires v.Missing?
    ensures !UsableCode(Normalize(v)) && !UsableCode(StrictKey(v))
  {
  }

  /** Both conversions keep the same codes: a number becomes its decimal
      text under both, and a missing cell ("" or "nan") is dropped. */
  lemma {:induction false} CleanStrictAgree(vs: seq<Value>)
    requires forall i :: 0 <= i < |vs| ==> NumericOrMissing(vs[i])
    ensures CleanCodes(StrictAll(vs)) == CleanCodes(NormalizeAll(vs))
  {
    if vs != [] {
      var v := vs[|vs| - 1];
      var prev := vs[..|vs| - 1];
      assert StrictAll(vs)[..|vs| - 1] == StrictAll(prev);
      assert NormalizeAll(vs)[..|vs| - 1] == NormalizeAll(prev);
      CleanStrictAgree(prev);
      if IsNumeric(v) {
        assert StrictKey(v) == Normalize(v);
      } else {
        MissingCodeDropped(v);
      }
    }
  }

  /** The stock check finds exactly the codes the reconciliation found for
      the same item. */
  lemma StockCodesAgree(t: Master, item: Value)
    requires t.hasCode1 && StockItem(item) && StockReady(t, StockItemKey(item))
    ensures StockCodes(t, item) == MaterialCodes(t, Normalize(item))
  {
    var n := NumericValue(Str(PyStr(item)));
    assert StockItemKey(item) == DecimalString(n);
    var rs := RowsFor(t.rows, DecimalString(n));
    assert StrictRowsFor(t.rows, DecimalString(n)) == rs by {
      StrictRowsAgree(t.rows, n);
    }
    StrictCodesReady(t, DecimalString(n));
    CleanStrictAgree(RawCodes(t, rs));
  }
}
