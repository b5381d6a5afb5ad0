/** The older lookup helpers of the data-processing module, which compare raw
    cells with Python's `==` instead of normalised keys:
    `map_item_to_material_codes` and `find_sr_entry`. */
module Legacy {
  import opened Keys
  import opened Records
  import opened Mapping

  /** Python's `==` between two cells: numbers compare by value whatever
      their type, texts by content, and NaN equals nothing. */
  predicate PyEquals(a: Value, b: Value)
  {
    ((a.Int? || a.Float?) && (b.Int? || b.Float?) && NumericValue(a) == NumericValue(b)) ||
    (a.Str? && b.Str? && a.s == b.s)
  }

  // ---------------------------------------------------------------- map_item_to_material_codes

  /** A master row whose raw item id equals `item`. */
  function ItemEquals(item: Value): MasterRow -> bool
  {
    (m: MasterRow) => PyEquals(m.itemId, item)
  }

  /** `master_map[master_map['item_id'] == item_id]`. */
  function EqualRows(rows: seq<MasterRow>, item: Value): (r: seq<MasterRow>)
    ensures forall m :: m in r <==> m in rows && PyEquals(m.itemId, item)
    ensures r == Filter(rows, ItemEquals(item))
  {
    if rows == [] then []
    else
      var rest := EqualRows(rows[..|rows| - 1], item);
      var m := rows[|rows| - 1];
      assert forall x :: x in rows <==> x in rows[..|rows| - 1] || x == m;
      if PyEquals(m.itemId, item) then rest + [m] else rest
  }

  /** `.astype(str).tolist()`. */
  function StrAll(vs: seq<Value>): (cs: seq<string>)
    ensures |cs| == |vs|
    ensures forall i :: 0 <= i < |vs| ==> cs[i] == PyStr(vs[i])
  {
    seq(|vs|, i requires 0 <= i < |vs| => PyStr(vs[i]))
  }

  /** `[code for code in codes if pd.notna(code) and code != 'nan']`: a text
      is never NaN, so exactly the texts "nan" are dropped. */
  predicate NotNan(c: string)
  {
    c != "nan"
  }

  function DropNan(cs: seq<string>): (r: seq<string>)
    ensures forall c :: c in r <==> c in cs && c != "nan"
    ensures r == Filter(cs, NotNan)
  {
    if cs == [] then []
    else
      var rest := DropNan(cs[..|cs| - 1]);
      var c := cs[|cs| - 1];
      assert forall x :: x in cs <==> x in cs[..|cs| - 1] || x == c;
      if c != "nan" then rest + [c] else rest
  }

  /** The rendered codes of the given rows: the primary column, then the
      secondary one, each only when the column exists. */
  function Rendered(t: Master, rows: seq<MasterRow>): (cs: seq<string>)
  {
    Column(t, rows, false) + Column(t, rows, true)
  }

  /** The codes `map_item_to_material_codes` returns. */
  function LegacyCodes(item: Value, t: Master): (r: seq<string>)
    ensures "nan" !in r
    ensures (forall m :: m in t.rows ==> !PyEquals(m.itemId, item)) ==> r == []
  {
    var rows := EqualRows(t.rows, item);
    if rows == [] then [] else DropNan(Rendered(t, rows))
  }

  /** `map_item_to_material_codes(item_id, master_map)`. */
  method MapItemToMaterialCodes(item: Value, t: Master) returns (r: seq<string>)
    ensures r == LegacyCodes(item, t)
  {
    var row := EqualRows(t.rows, item);
    if row == [] {
      return [];
    }
    var codes: seq<string> := [];
    if t.hasCode1 {
      codes := codes + StrAll(CodeColumn(row, false));
    }
    ghost var primary := codes;
    assert primary == Column(t, row, false);
    if t.hasCode2 {
      codes := codes + StrAll(CodeColumn(row, true));
    }
    assert codes == primary + Column(t, row, true);
    r := DropNan(codes);
  }

  /** The rendered cells of one code column, empty when it does not exist. */
  function Column(t: Master, rows: seq<MasterRow>, second: bool): seq<string>
  {
    if (if second then t.hasCode2 else t.hasCode1) then StrAll(CodeColumn(rows, second)) else []
  }

  /** Some row of `rs` renders as `c` in a code column that exists. */
  predicate HasRendered(t: Master, rs: seq<MasterRow>, second: bool, c: string)
  {
    (if second then t.hasCode2 else t.hasCode1) &&
    exists m :: m in rs && PyStr(if second then m.code2 else m.code1) == c
  }

  /** A rendered code of one of the rows `rs`, from a column that exists. */
  predicate RenderedIn(t: Master, rs: seq<MasterRow>, c: string)
  {
    HasRendered(t, rs, false, c) || HasRendered(t, rs, true, c)
  }

  lemma RenderedMembers(t: Master, rs: seq<MasterRow>, c: string)
    ensures c in Rendered(t, rs) <==> RenderedIn(t, rs, c)
  {
    ColumnRendered(t, rs, false, c);
    ColumnRendered(t, rs, true, c);
  }

  lemma ColumnRendered(t: Master, rs: seq<MasterRow>, second: bool, c: string)
    ensures c in Column(t, rs, second) <==> HasRendered(t, rs, second, c)
  {
    var cs := Column(t, rs, second);
    if c in cs {
      var k :| 0 <= k < |cs| && cs[k] == c;
      assert rs[k] in rs && PyStr(if second then rs[k].code2 else rs[k].code1) == c;
    }
    if HasRendered(t, rs, second, c) {
      var m :| m in rs && PyStr(if second then m.code2 else m.code1) == c;
      var j :| 0 <= j < |rs| && rs[j] == m;
      assert cs[j] == c;
    }
  }

  /** A code of a row equal to the item, as `str(...)` renders it, from a
      column that exists. */
  predicate LegacyCodeOf(t: Master, item: Value, c: string)
  {
    exists m :: m in t.rows && PyEquals(m.itemId, item) &&
      ((t.hasCode1 && PyStr(m.code1) == c) || (t.hasCode2 && PyStr(m.code2) == c))
  }

  /** The result holds exactly the rendered codes of the equal rows, "nan"
      excepted. */
  lemma LegacyCodesMembers(item: Value, t: Master, c: string)
    ensures c in LegacyCodes(item, t) <==> c != "nan" && LegacyCodeOf(t, item, c)
  {
    var rows := EqualRows(t.rows, item);
    RenderedMembers(t, rows, c);
    assert RenderedIn(t, rows, c) <==> LegacyCodeOf(t, item, c);
  }

  // ---------------------------------------------------------------- comparison with the dashboard lookup

  lemma DecimalStringInjective(a: int, b: int)
    requires DecimalString(a) == DecimalString(b)
    ensures a == b
  {
    ParseDecimalString(a);
    ParseDecimalString(b);
  }

  /** Integer cells throughout. */
  predicate IntegerTable(t: Master)
  {
    forall m :: m in t.rows ==> m.itemId.Int? && m.code1.Int? && (t.hasCode2 ==> m.code2.Int?)
  }

  lemma {:induction false} EqualRowsAgree(rows: seq<MasterRow>, n: int)
    requires forall m :: m in rows ==> m.itemId.Int?
    ensures EqualRows(rows, Int(n)) == RowsFor(rows, DecimalString(n))
  {
    if rows != [] {
      var m := rows[|rows| - 1];
      assert m in rows;
      EqualRowsAgree(rows[..|rows| - 1], n);
      if DecimalString(m.itemId.i) == DecimalString(n) {
        DecimalStringInjective(m.itemId.i, n);
      }
    }
  }

  lemma {:induction false} RenderAgree(vs: seq<Value>)
    requires forall i :: 0 <= i < |vs| ==> vs[i].Int?
    ensures DropNan(StrAll(vs)) == CleanCodes(NormalizeAll(vs))
  {
    if vs != [] {
      var prev := vs[..|vs| - 1];
      assert StrAll(vs)[..|vs| - 1] == StrAll(prev);
      assert NormalizeAll(vs)[..|vs| - 1] == NormalizeAll(prev);
      RenderAgree(prev);
      DecimalStringIsCode(vs[|vs| - 1].i);
      assert StrAll(vs)[|vs| - 1] == NormalizeAll(vs)[|vs| - 1];
    }
  }

  lemma RenderedRaw(t: Master, rows: seq<MasterRow>)
    requires t.hasCode1
    ensures Rendered(t, rows) == StrAll(RawCodes(t, rows))
  {
  }

  lemma RawIntegers(t: Master, rows: seq<MasterRow>)
    requires IntegerTable(t) && forall m :: m in rows ==> m in t.rows
    ensures forall i :: 0 <= i < |RawCodes(t, rows)| ==> RawCodes(t, rows)[i].Int?
  {
    var a := CodeColumn(rows, false);
    var vs := RawCodes(t, rows);
    forall i | 0 <= i < |vs| ensures vs[i].Int? {
      if i < |a| {
        assert rows[i] in rows;
      } else {
        assert rows[i - |a|] in rows;
      }
    }
  }

  /** On a table of integer cells and an integer item id, the older helper
      returns the same codes as the dashboard's lookup. */
  lemma LegacyAgreesOnIntegers(n: int, t: Master)
    requires t.hasCode1 && IntegerTable(t)
    ensures LegacyCodes(Int(n), t) == MaterialCodes(t, DecimalString(n))
  {
    EqualRowsAgree(t.rows, n);
    var rows := RowsFor(t.rows, DecimalString(n));
    RawIntegers(t, rows);
    RenderAgree(RawCodes(t, rows));
    RenderedRaw(t, rows);
    if rows == [] {
      assert RawCodes(t, rows) == [];
    }
  }

  /** A one-row table for item `n` whose primary code is the integral
      float `f`. */
  function FloatCodeTable(n: int, f: int): Master
  {
    Master([MasterRow(Int(n), Str(""), Float(f), Missing)], true, false)
  }

  /** Where a code is an integral float, the older helper keeps its ".0"... */
  lemma LegacyFloatCode(n: int, f: int)
    ensures LegacyCodes(Int(n), FloatCodeTable(n, f)) == [DecimalString(f) + ".0"]
  {
    var t := FloatCodeTable(n, f);
    SingleEqual(t.rows[0], Int(n));
    SingleRendered(t, f);
    FloatTextNotNan(f);
    SingleDropNan(DecimalString(f) + ".0");
  }

  lemma SingleEqual(m: MasterRow, item: Value)
    requires PyEquals(m.itemId, item)
    ensures EqualRows([m], item) == [m]
  {
    assert [m][..0] == [];
  }

  lemma SingleRendered(t: Master, f: int)
    requires |t.rows| == 1 && t.rows[0].code1 == Float(f) && t.hasCode1 && !t.hasCode2
    ensures Rendered(t, t.rows) == [DecimalString(f) + ".0"]
  {
  }

  lemma FloatTextNotNan(f: int)
    ensures DecimalString(f) + ".0" != "nan"
  {
    var text := DecimalString(f) + ".0";
    assert text[|text| - 1] == '0';
  }

  lemma SingleDropNan(c: string)
    requires c != "nan"
    ensures DropNan([c]) == [c]
  {
    var none: seq<string> := [];
    assert [c][..0] == none;
  }

  /** ... while the dashboard's lookup drops it. */
  lemma DashboardFloatCode(n: int, f: int)
    ensures MaterialCodes(FloatCodeTable(n, f), DecimalString(n)) == [DecimalString(f)]
  {
    var t := FloatCodeTable(n, f);
    SingleRow(t.rows[0], DecimalString(n));
    SingleCode(t, f);
    DecimalStringIsCode(f);
    SingleClean(DecimalString(f));
  }

  lemma SingleRow(m: MasterRow, key: string)
    requires Normalize(m.itemId) == key
    ensures RowsFor([m], key) == [m]
  {
    assert [m][..0] == [];
  }

  lemma SingleCode(t: Master, f: int)
    requires |t.rows| == 1 && t.rows[0].code1 == Float(f) && !t.hasCode2
    ensures NormalizeAll(RawCodes(t, t.rows)) == [DecimalString(f)]
  {
  }

  lemma SingleClean(c: string)
    requires UsableCode(c)
    ensures CleanCodes([c]) == [c]
  {
    var none: seq<string> := [];
    assert [c][..0] == none;
  }

  /** In any table, a row for item `n` whose primary code is the integral
      float `f` gives "f.0" under the older helper and "f" under the
      dashboard's lookup. */
  lemma FloatCodeRenderings(n: int, f: int, t: Master)
    requires t.hasCode1 && exists m :: m in t.rows && m.itemId == Int(n) && m.code1 == Float(f)
    ensures DecimalString(f) + ".0" in LegacyCodes(Int(n), t)
    ensures DecimalString(f) in MaterialCodes(t, DecimalString(n))
  {
    var m :| m in t.rows && m.itemId == Int(n) && m.code1 == Float(f);
    FloatTextNotNan(f);
    assert PyEquals(m.itemId, Int(n)) && PyStr(m.code1) == DecimalString(f) + ".0";
    LegacyCodesMembers(Int(n), t, DecimalString(f) + ".0");
    DecimalStringIsCode(f);
    assert Normalize(m.itemId) == DecimalString(n) && Normalize(m.code1) == DecimalString(f);
    MaterialCodesMembers(t, DecimalString(n), DecimalString(f));
  }

  // ---------------------------------------------------------------- find_sr_entry

  /** The SR rows `find_sr_entry` accepts for one code: the same po_number
      under `==` and a material code whose `str` is the code. */
  predicate SrRowMatches(r: Record<Value>, po: Value, code: string)
  {
    PyEquals(Field(r, "po_number"), po) && PyStr(Field(r, "Material Code")) == code
  }

  /** The filtered table `sr_data[(...) & (...)]`, in table order. */
  function SrMatches(rows: seq<Record<Value>>, po: Value, code: string): (r: seq<Record<Value>>)
    ensures forall x :: x in r <==> x in rows && SrRowMatches(x, po, code)
  {
    if rows == [] then []
    else
      var rest := SrMatches(rows[1..], po, code);
      assert forall x :: x in rows <==> x == rows[0] || x in rows[1..];
      if SrRowMatches(rows[0], po, code) then [rows[0]] + rest else rest
  }

  /** `.iloc[0]` of the filtered table is the first matching row in table
      order. */
  lemma {:induction false} SrMatchesFirst(rows: seq<Record<Value>>, po: Value, code: string)
    requires SrMatches(rows, po, code) != []
    ensures exists j :: 0 <= j < |rows| && rows[j] == SrMatches(rows, po, code)[0] &&
                        forall j' :: 0 <= j' < j ==> !SrRowMatches(rows[j'], po, code)
  {
    if !SrRowMatches(rows[0], po, code) {
      var rest := SrMatches(rows[1..], po, code);
      SrMatchesFirst(rows[1..], po, code);
      var j :| 0 <= j < |rows[1..]| && rows[1..][j] == rest[0] &&
        forall j' :: 0 <= j' < j ==> !SrRowMatches(rows[1..][j'], po, code);
      assert rows[j + 1] == rest[0];
      assert forall j' :: 0 <= j' < j + 1 ==> !SrRowMatches(rows[j'], po, code) by {
        forall j' | 0 <= j' < j + 1 ensures !SrRowMatches(rows[j'], po, code) {
          if j' > 0 { assert rows[j'] == rows[1..][j' - 1]; }
        }
      }
    }
  }

  /** What `find_sr_entry` returns: for the first code with any match, the
      first matching row. */
  function SrEntry(po: Value, codes: seq<string>, rows: seq<Record<Value>>): Option<Record<Value>>
  {
    if codes == [] then None
    else
      var ms := SrMatches(rows, po, codes[0]);
      if ms != [] then Some(ms[0]) else SrEntry(po, codes[1..], rows)
  }

  /** `find_sr_entry(po_number, material_codes, sr_data)`. */
  method FindSrEntry(po: Value, codes: seq<string>, sr: Frame<Value>) returns (r: Option<Record<Value>>)
    requires WellFormed(sr) && (codes != [] ==> "po_number" in sr.columns && "Material Code" in sr.columns)
    ensures r == SrEntry(po, codes, sr.rows)
  {
    for k := 0 to |codes|
      invariant SrEntry(po, codes, sr.rows) == SrEntry(po, codes[k..], sr.rows)
    {
      assert codes[k..][1..] == codes[k + 1..];
      var found := SrMatches(sr.rows, po, codes[k]);
      if found != [] {
        return Some(found[0]);
      }
    }
    return None;
  }

  /** None exactly when no code has a matching row; so always None for an
      empty code list. */
  lemma {:induction false} SrEntryNone(po: Value, codes: seq<string>, rows: seq<Record<Value>>)
    ensures SrEntry(po, codes, rows).None? <==>
      forall k, j :: 0 <= k < |codes| && 0 <= j < |rows| ==> !SrRowMatches(rows[j], po, codes[k])
  {
    if codes != [] {
      SrEntryNone(po, codes[1..], rows);
      if SrMatches(rows, po, codes[0]) == [] {
        assert forall k, j :: 1 <= k < |codes| && 0 <= j < |rows| ==>
          (SrRowMatches(rows[j], po, codes[k]) <==> SrRowMatches(rows[j], po, codes[1..][k - 1]));
        assert forall j :: 0 <= j < |rows| ==> rows[j] in rows;
      } else {
        var ms := SrMatches(rows, po, codes[0]);
        assert ms[0] in ms;
        var j :| 0 <= j < |rows| && rows[j] == ms[0];
        assert SrRowMatches(rows[j], po, codes[0]);
      }
    }
  }

  /** Row `j` matches code `k`; no earlier code matches any row, and no
      earlier row matches code `k`. */
  predicate FirstHit(po: Value, codes: seq<string>, rows: seq<Record<Value>>, k: int, j: int)
  {
    0 <= k < |codes| && 0 <= j < |rows| && SrRowMatches(rows[j], po, codes[k]) &&
    (forall k', j' :: 0 <= k' < k && 0 <= j' < |rows| ==> !SrRowMatches(rows[j'], po, codes[k'])) &&
    (forall j' :: 0 <= j' < j ==> !SrRowMatches(rows[j'], po, codes[k]))
  }

  /** A returned row comes from the table, carries the po_number, and its
      material code is one of the codes; and it is the first row, in table
      order, for the earliest code that has any match. */
  lemma {:induction false} SrEntryFound(po: Value, codes: seq<string>, rows: seq<Record<Value>>)
    requires SrEntry(po, codes, rows).Some?
    ensures SrEntry(po, codes, rows).value in rows
    ensures PyEquals(Field(SrEntry(po, codes, rows).value, "po_number"), po)
    ensures PyStr(Field(SrEntry(po, codes, rows).value, "Material Code")) in codes
    ensures exists k, j :: FirstHit(po, codes, rows, k, j) && rows[j] == SrEntry(po, codes, rows).value
  {
    var ms := SrMatches(rows, po, codes[0]);
    if ms != [] {
      SrMatchesFirst(rows, po, codes[0]);
      assert ms[0] in ms;
      var j :| 0 <= j < |rows| && rows[j] == ms[0] &&
        forall j' :: 0 <= j' < j ==> !SrRowMatches(rows[j'], po, codes[0]);
      assert FirstHit(po, codes, rows, 0, j);
    } else {
      SrEntryFound(po, codes[1..], rows);
      var k, j :| FirstHit(po, codes[1..], rows, k, j) && rows[j] == SrEntry(po, codes[1..], rows).value;
      FirstHitShift(po, codes, rows, k, j);
    }
  }

  /** A first hit in the codes after the first, when the first code has no
      match, is a first hit in the whole list. */
  lemma FirstHitShift(po: Value, codes: seq<string>, rows: seq<Record<Value>>, k: int, j: int)
    requires codes != [] && SrMatches(rows, po, codes[0]) == []
    requires FirstHit(po, codes[1..], rows, k, j)
    ensures FirstHit(po, codes, rows, k + 1, j)
  {
    assert forall j' :: 0 <= j' < |rows| ==> rows[j'] in rows;
    forall k', j' | 0 <= k' < k + 1 && 0 <= j' < |rows|
      ensures !SrRowMatches(rows[j'], po, codes[k'])
    {
      if k' > 0 { assert codes[k'] == codes[1..][k' - 1]; }
    }
    assert codes[k + 1] == codes[1..][k];
  }
}
