/** The stock check that follows the reconciliation: the Partially Serviced
    lines, and the Not Found lines whose PO expires after today, are looked
    up in the stock-on-hand (SOH) table of their warehouse city, and each
    becomes a row of a second table with the codes tried, the stock found
    and a supply status. */
module Stock {
  import opened Keys
  import opened Records
  import opened Mapping
  import opened Reconcile
  import opened Cities
  import opened Columns

  // ---------------------------------------------------------------- selection

  const CityMapped: string := "city_mapped"

  /** A result row with its `city_mapped` cell set. */
  function WithCity(row: Record<Value>): Record<Value>
  {
    Assign(row, CityMapped, MapCityName(Field(row, "city")))
  }

  /** `result_df['city_mapped'] = result_df['city'].apply(map_city_name)`. */
  function AddCityColumn(f: Frame<Value>): (g: Frame<Value>)
    requires WellFormed(f)
    ensures WellFormed(g) && |g.rows| == |f.rows|
    ensures forall i :: 0 <= i < |f.rows| ==> g.rows[i] == WithCity(f.rows[i])
  {
    SetColumn(f, CityMapped, seq(|f.rows|, i requires 0 <= i < |f.rows| => MapCityName(Field(f.rows[i], "city"))))
  }

  predicate HasStatus(row: Record<Value>, s: Status)
  {
    Field(row, "Status") == Str(StatusText(s))
  }

  /** `pd.to_datetime(po_expiry_date) > today`, dates as day numbers; a cell
      that holds no date (NaT) compares false. */
  predicate ExpiresAfter(v: Value, today: int)
  {
    v.Int? && v.i > today
  }

  /** A Not Found line whose PO has not expired. */
  predicate LateNotFound(row: Record<Value>, today: int)
  {
    HasStatus(row, NotFound) && ExpiresAfter(Field(row, "po_expiry_date"), today)
  }

  /** The first mask: Partially Serviced, or Not Found and not expired. */
  predicate Selected(row: Record<Value>, today: int)
  {
    HasStatus(row, PartiallyServiced) || LateNotFound(row, today)
  }

  function SelectedOn(today: int): Record<Value> -> bool
  {
    row => Selected(row, today)
  }

  function LateOn(today: int): Record<Value> -> bool
  {
    row => LateNotFound(row, today)
  }

  /** `filtered`: the selected rows, then the late Not Found rows again,
      with duplicate rows dropped (the first occurrence kept). */
  function StockSelection(rows: seq<Record<Value>>, today: int): seq<Record<Value>>
  {
    Dedup(Filter(rows, SelectedOn(today)) + Filter(rows, LateOn(today)))
  }

  /** The second concatenation adds no row: every late Not Found row is
      already selected. */
  lemma SecondSelectionAddsNothing(rows: seq<Record<Value>>, today: int)
    ensures StockSelection(rows, today) == Dedup(Filter(rows, SelectedOn(today)))
  {
    var sel, late := Filter(rows, SelectedOn(today)), Filter(rows, LateOn(today));
    assert forall x :: x in late ==> x in sel by {
      forall x | x in late ensures x in sel {
        assert LateOn(today)(x);
      }
    }
    DedupSubsumed(sel, late);
  }

  /** A row is in the stock table's selection iff it is a result row that is
      Partially Serviced, or Not Found with its expiry after today; the
      selection keeps the table's order and holds no row twice. */
  lemma StockSelectionSpec(rows: seq<Record<Value>>, today: int)
    ensures forall r :: r in StockSelection(rows, today) <==> r in rows && Selected(r, today)
    ensures Sub(StockSelection(rows, today), rows)
    ensures forall i, j :: 0 <= i < j < |StockSelection(rows, today)| ==>
      StockSelection(rows, today)[i] != StockSelection(rows, today)[j]
  {
    var sel := Filter(rows, SelectedOn(today));
    SecondSelectionAddsNothing(rows, today);
    forall r ensures r in sel <==> r in rows && Selected(r, today) {
      assert SelectedOn(today)(r) == Selected(r, today);
    }
    DedupSub(sel);
    FilterSub(rows, SelectedOn(today));
    SubTrans(Dedup(sel), sel, rows);
  }

  // ---------------------------------------------------------------- the SOH search

  /** A row of the stock-on-hand table. */
  datatype SohRow = SohRow(city: Value, materialCode: Value, totalQty: int)

  /** Every material code of the SOH table converts under
      `str(int(float(x))) if pd.notna(x) else ''`. */
  predicate SohReady(soh: seq<SohRow>)
  {
    forall i :: 0 <= i < |soh| ==> NumericOrMissing(soh[i].materialCode)
  }

  /** `fresh_soh['city'].str.lower() == city.lower()`: a SOH cell that is not
      text compares false. */
  predicate SameCity(r: SohRow, city: Value)
  {
    r.city.Str? && city.Str? && Lower(r.city.s) == Lower(city.s)
  }

  /** The mask of `soh_match`: the same city and the converted code. */
  predicate SohHit(r: SohRow, city: Value, code: string)
  {
    SameCity(r, city) && NumericOrMissing(r.materialCode) && StrictKey(r.materialCode) == code
  }

  function HitOn(city: Value, code: string): SohRow -> bool
  {
    r => SohHit(r, city, code)
  }

  /** `soh_match` for one code. */
  function SohMatches(soh: seq<SohRow>, city: Value, code: string): (ms: seq<SohRow>)
    ensures forall r :: r in ms <==> r in soh && SohHit(r, city, code)
    ensures forall r :: multiset(ms)[r] == if SohHit(r, city, code) then multiset(soh)[r] else 0
    ensures Sub(ms, soh)
  {
    var ms := Filter(soh, HitOn(city, code));
    assert forall r :: HitOn(city, code)(r) == SohHit(r, city, code);
    FilterSub(soh, HitOn(city, code));
    ms
  }

  /** `soh_match['total_qty'].sum()`. */
  function SohTotal(rs: seq<SohRow>): int
  {
    if rs == [] then 0 else SohTotal(rs[..|rs| - 1]) + rs[|rs| - 1].totalQty
  }

  /** The quantity of a city and code summed over the whole SOH table, row by
      row from the front, every matching row counting, repeated rows too. */
  function HitTotal(soh: seq<SohRow>, city: Value, code: string): int
  {
    if soh == [] then 0
    else (if SohHit(soh[0], city, code) then soh[0].totalQty else 0) + HitTotal(soh[1..], city, code)
  }

  lemma {:induction false} HitTotalAppend(soh: seq<SohRow>, x: SohRow, city: Value, code: string)
    ensures HitTotal(soh + [x], city, code) ==
      HitTotal(soh, city, code) + if SohHit(x, city, code) then x.totalQty else 0
  {
    if soh != [] {
      assert (soh + [x])[1..] == soh[1..] + [x];
      HitTotalAppend(soh[1..], x, city, code);
    }
  }

  /** The total of the matched rows is the table's quantity for that city and
      code, with every duplicate row counted. */
  lemma {:induction false} SohTotalCounts(soh: seq<SohRow>, city: Value, code: string)
    ensures SohTotal(SohMatches(soh, city, code)) == HitTotal(soh, city, code)
  {
    if soh != [] {
      var prev, x := soh[..|soh| - 1], soh[|soh| - 1];
      var f := Filter(prev, HitOn(city, code));
      SohTotalCounts(prev, city, code);
      assert prev + [x] == soh;
      HitTotalAppend(prev, x, city, code);
      if SohHit(x, city, code) {
        assert (f + [x])[..|f|] == f;
      }
    }
  }

  /** The stock found for a list of codes: the codes are tried in order, and
      the first with any SOH row in the city gives the total of those rows. */
  function StockLookup(codes: seq<string>, city: Value, soh: seq<SohRow>): Option<int>
  {
    if codes == [] then None
    else
      var ms := SohMatches(soh, city, codes[0]);
      if ms != [] then Some(SohTotal(ms)) else StockLookup(codes[1..], city, soh)
  }

  /** `codes[k]` is the first code with an SOH row in the city. */
  predicate FirstStockCode(codes: seq<string>, city: Value, soh: seq<SohRow>, k: int)
  {
    0 <= k < |codes| && SohMatches(soh, city, codes[k]) != [] &&
    forall k' :: 0 <= k' < k ==> SohMatches(soh, city, codes[k']) == []
  }

  /** Nothing is found iff no code has an SOH row in the city. */
  lemma {:induction false} StockLookupNone(codes: seq<string>, city: Value, soh: seq<SohRow>)
    ensures StockLookup(codes, city, soh).None? <==>
      forall k :: 0 <= k < |codes| ==> SohMatches(soh, city, codes[k]) == []
  {
    if codes != [] {
      StockLookupNone(codes[1..], city, soh);
      if SohMatches(soh, city, codes[0]) == [] {
        assert (forall k :: 0 <= k < |codes| ==> SohMatches(soh, city, codes[k]) == []) <==>
               (forall k :: 0 <= k < |codes[1..]| ==> SohMatches(soh, city, codes[1..][k]) == []) by {
          assert forall k :: 1 <= k < |codes| ==> codes[k] == codes[1..][k - 1];
        }
      }
    }
  }

  /** The stock found is the total over the first code with an SOH row. */
  lemma {:induction false} StockLookupFirst(codes: seq<string>, city: Value, soh: seq<SohRow>, k: int)
    requires FirstStockCode(codes, city, soh, k)
    ensures StockLookup(codes, city, soh) == Some(SohTotal(SohMatches(soh, city, codes[k])))
  {
    if k > 0 {
      assert SohMatches(soh, city, codes[0]) == [];
      assert forall k' :: 0 <= k' < k - 1 ==> codes[1..][k'] == codes[k' + 1];
      assert FirstStockCode(codes[1..], city, soh, k - 1);
      StockLookupFirst(codes[1..], city, soh, k - 1);
    }
  }

  /** The loop over the codes, stopping at the first one with a match. */
  method SearchStock(codes: seq<string>, city: Value, soh: seq<SohRow>) returns (found: bool, qty: int)
    requires codes != [] ==> city.Str?
    ensures found <==> StockLookup(codes, city, soh).Some?
    ensures qty == if found then StockLookup(codes, city, soh).value else 0
  {
    found := false;
    qty := 0;
    for i := 0 to |codes|
      invariant !found && qty == 0
      invariant StockLookup(codes, city, soh) == StockLookup(codes[i..], city, soh)
    {
      assert codes[i..][0] == codes[i] && codes[i..][1..] == codes[i + 1..];
      var sohMatch := SohMatches(soh, city, codes[i]);
      if sohMatch != [] {
        found := true;
        qty := SohTotal(sohMatch);
        break;
      }
    }
  }

  // ---------------------------------------------------------------- supply status

  /** The status text of the stock table, without its wording: whether the
      stock covers the PO quantity, and both numbers. */
  datatype SupplyStatus = CanBeSupplied(stock: int, poQty: Value) | NotEnough(stock: int, poQty: Value) | NoStockInfo

  /** `soh_qty >= po_qty`; false when po_qty is NaN. */
  predicate Covers(stock: int, poQty: Value)
    requires Quantity(poQty)
  {
    !poQty.Missing? && stock >= NumericValue(poQty)
  }

  /** The three-way supply status. */
  function SupplyStatusOf(found: bool, stock: int, poQty: Value): (s: SupplyStatus)
    requires found ==> Quantity(poQty)
    ensures s.CanBeSupplied? <==> found && Covers(stock, poQty)
    ensures s.NotEnough? <==> found && !Covers(stock, poQty)
    ensures s.NoStockInfo? <==> !found
    ensures !s.NoStockInfo? ==> s.stock == stock && s.poQty == poQty
  {
    if found && Covers(stock, poQty) then CanBeSupplied(stock, poQty)
    else if found then NotEnough(stock, poQty)
    else NoStockInfo
  }

  // ---------------------------------------------------------------- the codes cell

  /** `','.join(codes)`. */
  function JoinComma(cs: seq<string>): string
  {
    if cs == [] then "" else if |cs| == 1 then cs[0] else cs[0] + "," + JoinComma(cs[1..])
  }

  /** `s.split(',')`. */
  function SplitComma(s: string): (parts: seq<string>)
    ensures parts != []
  {
    if s == [] then [""]
    else
      var rest := SplitComma(s[1..]);
      if s[0] == ',' then [""] + rest else [[s[0]] + rest[0]] + rest[1..]
  }

  lemma SplitCons(ch: char, s: string)
    requires ch != ','
    ensures SplitComma([ch] + s) == [[ch] + SplitComma(s)[0]] + SplitComma(s)[1..]
  {
    assert ([ch] + s)[1..] == s;
  }

  lemma {:induction false} SplitPlain(c: string, tail: string)
    requires ',' !in c
    ensures SplitComma(c + tail) == [c + SplitComma(tail)[0]] + SplitComma(tail)[1..]
  {
    var parts := SplitComma(tail);
    if c == [] {
      assert c + tail == tail;
      assert c + parts[0] == parts[0] && parts == [parts[0]] + parts[1..];
    } else {
      assert c[0] in c;
      SplitPlain(c[1..], tail);
      assert c + tail == [c[0]] + (c[1..] + tail);
      SplitCons(c[0], c[1..] + tail);
      assert [c[0]] + (c[1..] + parts[0]) == c + parts[0];
    }
  }

  /** The codes cell can be split back into the codes, when there is at
      least one and none contains a comma. */
  lemma {:induction false} SplitJoin(cs: seq<string>)
    requires cs != [] && forall c :: c in cs ==> ',' !in c
    ensures SplitComma(JoinComma(cs)) == cs
  {
    if |cs| == 1 {
      SplitPlain(cs[0], "");
      assert cs[0] + "" == cs[0];
    } else {
      var j := JoinComma(cs[1..]);
      assert cs[0] in cs;
      SplitJoin(cs[1..]);
      assert cs[0] + "," + j == cs[0] + ("," + j);
      SplitPlain(cs[0], "," + j);
      assert ("," + j)[1..] == j;
      assert cs[0] + "" == cs[0];
      assert [cs[0]] + cs[1..] == cs;
    }
  }

  // ---------------------------------------------------------------- a row of the stock table

  /** A cell of the stock table: a value, or the supply status text. */
  datatype Cell = Plain(value: Value) | Supply(status: SupplyStatus)

  const Blank: Cell := Plain(Str(""))

  /** `row.to_dict()`, the cells wrapped for the stock table. */
  function Lift(r: Record<Value>): (l: Record<Cell>)
    ensures KeyList(l) == KeyList(r)
  {
    seq(|r|, i requires 0 <= i < |r| => (r[i].0, Plain(r[i].1)))
  }

  /** Lifting keeps every key and every value. */
  lemma {:induction false} LookupLift(r: Record<Value>, k: string)
    ensures Lookup(Lift(r), k) == if k in KeyList(r) then Some(Plain(Field(r, k))) else None
  {
    if r != [] {
      assert Lift(r)[1..] == Lift(r[1..]);
      assert KeyList(r) == [r[0].0] + KeyList(r[1..]);
      LookupLift(r[1..], k);
    }
  }

  /** The service-request columns a Not Found row must show blank. */
  const SrColumns: seq<string> := ["bill-to_street", "name_of_the_employee", "item", "material_code", "quantity"]

  /** Every column of `cols` the row has is set to ''; others are not added. */
  function Blanked(r: Record<Cell>, cols: seq<string>): Record<Cell>
  {
    if cols == [] then r
    else
      var prev := Blanked(r, cols[..|cols| - 1]);
      var c := cols[|cols| - 1];
      if c in KeyList(prev) then Assign(prev, c, Blank) else prev
  }

  /** Blanking keeps the keys, empties the listed ones and leaves the rest. */
  lemma {:induction false} BlankedSpec(r: Record<Cell>, cols: seq<string>, k: string)
    ensures KeyList(Blanked(r, cols)) == KeyList(r)
    ensures Lookup(Blanked(r, cols), k) ==
      if k in cols && k in KeyList(r) then Some(Blank) else Lookup(r, k)
  {
    if cols != [] {
      var init, c := cols[..|cols| - 1], cols[|cols| - 1];
      var prev := Blanked(r, init);
      BlankedSpec(r, init, k);
      assert k in cols <==> k in init || k == c by {
        assert cols == init + [c];
      }
      if c in KeyList(prev) {
        KeysAssign(prev, c, Blank);
        LookupAssign(prev, c, Blank, k);
      }
    }
  }

  /** The loop over the service-request columns of a Not Found row. */
  method BlankSrColumns(r: Record<Cell>) returns (b: Record<Cell>)
    ensures b == Blanked(r, SrColumns)
  {
    b := r;
    for j := 0 to |SrColumns|
      invariant b == Blanked(r, SrColumns[..j])
    {
      var col := SrColumns[j];
      assert SrColumns[..j + 1][..j] == SrColumns[..j];
      if col in KeyList(b) {
        b := Assign(b, col, Blank);
      }
    }
    assert SrColumns[..|SrColumns|] == SrColumns;
  }

  /** What the search of one row needs not to fail: a text city and
      convertible SOH codes when there is a code to search, and a comparable
      PO quantity when stock is found. */
  predicate SearchReady(codes: seq<string>, city: Value, soh: seq<SohRow>, poQty: Value)
  {
    (codes != [] ==> city.Str? && SohReady(soh)) &&
    (StockLookup(codes, city, soh).Some? ==> Quantity(poQty))
  }

  /** What a selected row needs for the stock check not to fail: a numeric
      item id, convertible ids and codes in the mapping, and a search that
      does not fail. */
  predicate RowReady(row: Record<Value>, t: Master, soh: seq<SohRow>)
  {
    var item := Field(row, ItemColumn);
    t.hasCode1 && StockItem(item) && StockReady(t, StockItemKey(item)) &&
    SearchReady(StockCodes(t, item), Field(row, CityMapped), soh, Field(row, "po_qty"))
  }

  /** The result row with the four computed columns assigned. */
  function Computed(row: Record<Value>, name: Value, codes: seq<string>, found: bool, qty: int): Record<Cell>
    requires found ==> Quantity(Field(row, "po_qty"))
  {
    var r := Assign(Lift(row), ProductColumn, Plain(name));
    var r := Assign(r, "material_codes", Plain(Str(JoinComma(codes))));
    var r := Assign(r, "soh_stock", Plain(Int(qty)));
    Assign(r, "supply_status", Supply(SupplyStatusOf(found, qty, Field(row, "po_qty"))))
  }

  /** The new row built from a result row and what was computed for it. */
  function NewRow(row: Record<Value>, name: Value, codes: seq<string>, found: bool, qty: int): Record<Cell>
    requires found ==> Quantity(Field(row, "po_qty"))
  {
    var r := Computed(row, name, codes, found, qty);
    if HasStatus(row, NotFound) then Blanked(r, SrColumns) else r
  }

  /** The four computed columns hold their values; every other column is
      the result row's. */
  lemma ComputedLookup(row: Record<Value>, name: Value, codes: seq<string>, found: bool, qty: int, k: string)
    requires found ==> Quantity(Field(row, "po_qty"))
    ensures Lookup(Computed(row, name, codes, found, qty), k) ==
      if k == ProductColumn then Some(Plain(name))
      else if k == "material_codes" then Some(Plain(Str(JoinComma(codes))))
      else if k == "soh_stock" then Some(Plain(Int(qty)))
      else if k == "supply_status" then Some(Supply(SupplyStatusOf(found, qty, Field(row, "po_qty"))))
      else if k in KeyList(row) then Some(Plain(Field(row, k)))
      else None
  {
    var r1 := Assign(Lift(row), ProductColumn, Plain(name));
    var r2 := Assign(r1, "material_codes", Plain(Str(JoinComma(codes))));
    var r3 := Assign(r2, "soh_stock", Plain(Int(qty)));
    LookupLift(row, k);
    LookupAssign(Lift(row), ProductColumn, Plain(name), k);
    LookupAssign(r1, "material_codes", Plain(Str(JoinComma(codes))), k);
    LookupAssign(r2, "soh_stock", Plain(Int(qty)), k);
    LookupAssign(r3, "supply_status", Supply(SupplyStatusOf(found, qty, Field(row, "po_qty"))), k);
  }

  lemma SrColumnNotComputed(k: string)
    requires k in SrColumns
    ensures k != ProductColumn && k != "material_codes" && k != "soh_stock" && k != "supply_status"
  {
  }

  /** A Not Found row's blanked columns keep the keys the result row has. */
  lemma BlankedComputed(row: Record<Value>, name: Value, codes: seq<string>, found: bool, qty: int, k: string)
    requires found ==> Quantity(Field(row, "po_qty"))
    ensures Lookup(Blanked(Computed(row, name, codes, found, qty), SrColumns), k) ==
      if k in SrColumns && k in KeyList(row) then Some(Blank)
      else Lookup(Computed(row, name, codes, found, qty), k)
  {
    var r := Computed(row, name, codes, found, qty);
    BlankedSpec(r, SrColumns, k);
    if k in SrColumns {
      SrColumnNotComputed(k);
      ComputedLookup(row, name, codes, found, qty, k);
      assert Lookup(r, k).Some? <==> k in KeyList(row);
    }
  }

  /** A new row is the computed row, with the service-request columns of
      a Not Found row blank where the result row has them. */
  lemma NewRowLookup(row: Record<Value>, name: Value, codes: seq<string>, found: bool, qty: int, k: string)
    requires found ==> Quantity(Field(row, "po_qty"))
    ensures Lookup(NewRow(row, name, codes, found, qty), k) ==
      if HasStatus(row, NotFound) && k in SrColumns && k in KeyList(row) then Some(Blank)
      else Lookup(Computed(row, name, codes, found, qty), k)
  {
    if HasStatus(row, NotFound) {
      BlankedComputed(row, name, codes, found, qty, k);
    }
  }

  /** Building the new row: the four assignments, then the loop blanking the
      service-request columns of a Not Found row. */
  method BuildRow(row: Record<Value>, name: Value, codes: seq<string>, found: bool, qty: int) returns (newRow: Record<Cell>)
    requires found ==> Quantity(Field(row, "po_qty"))
    ensures newRow == NewRow(row, name, codes, found, qty)
  {
    newRow := Assign(Lift(row), ProductColumn, Plain(name));
    newRow := Assign(newRow, "material_codes", Plain(Str(JoinComma(codes))));
    newRow := Assign(newRow, "soh_stock", Plain(Int(qty)));
    newRow := Assign(newRow, "supply_status", Supply(SupplyStatusOf(found, qty, Field(row, "po_qty"))));
    if HasStatus(row, NotFound) {
      newRow := BlankSrColumns(newRow);
    }
  }

  /** The new row for one selected row. */
  function StockRowOf(row: Record<Value>, t: Master, soh: seq<SohRow>): Record<Cell>
    requires RowReady(row, t, soh)
  {
    var item := Field(row, ItemColumn);
    var codes := StockCodes(t, item);
    var found := StockLookup(codes, Field(row, CityMapped), soh);
    NewRow(row, ProductName(t.rows, Normalize(Str(PyStr(item)))), codes, found.Some?, if found.Some? then found.value else 0)
  }

  /** One iteration of the loop over the selected rows. */
  method StockRow(row: Record<Value>, t: Master, soh: seq<SohRow>) returns (newRow: Record<Cell>)
    requires RowReady(row, t, soh)
    ensures newRow == StockRowOf(row, t, soh)
  {
    var item := Field(row, ItemColumn);
    var codes := StockCodes(t, item);
    var found, sohQty := SearchStock(codes, Field(row, CityMapped), soh);
    newRow := BuildRow(row, ProductName(t.rows, Normalize(Str(PyStr(item)))), codes, found, sohQty);
  }

  /** The codes cell of a row splits back into the codes tried. */
  lemma CodesCellRoundTrip(t: Master, item: Value)
    requires t.hasCode1 && StockItem(item) && StockReady(t, StockItemKey(item))
    ensures StockCodes(t, item) != [] ==> SplitComma(JoinComma(StockCodes(t, item))) == StockCodes(t, item)
  {
    var codes := StockCodes(t, item);
    if codes != [] {
      SplitJoin(codes);
    }
  }

  // ---------------------------------------------------------------- the stock table

  /** Every selected row of the result table, its city mapped, is ready. */
  predicate StockInputReady(f: Frame<Value>, t: Master, soh: seq<SohRow>, today: int)
    requires WellFormed(f)
  {
    forall r :: r in AddCityColumn(f).rows && Selected(r, today) ==> RowReady(r, t, soh)
  }

  /** The new rows for the first `n` rows of `rows`. */
  function StockRows(rows: seq<Record<Value>>, n: nat, t: Master, soh: seq<SohRow>): (rs: seq<Record<Cell>>)
    requires n <= |rows| && forall r :: r in rows ==> RowReady(r, t, soh)
    ensures |rs| == n
  {
    if n == 0 then [] else StockRows(rows, n - 1, t, soh) + [StockRowAt(rows, n - 1, t, soh)]
  }

  /** The new row built from row `i`. */
  function StockRowAt(rows: seq<Record<Value>>, i: nat, t: Master, soh: seq<SohRow>): Record<Cell>
    requires i < |rows| && forall r :: r in rows ==> RowReady(r, t, soh)
  {
    assert rows[i] in rows;
    StockRowOf(rows[i], t, soh)
  }

  /** New row `i` is the one built from selected row `i`. */
  lemma {:induction false} StockRowsAt(rows: seq<Record<Value>>, n: nat, t: Master, soh: seq<SohRow>, i: nat)
    requires n <= |rows| && (forall r :: r in rows ==> RowReady(r, t, soh)) && i < n
    ensures StockRows(rows, n, t, soh)[i] == StockRowAt(rows, i, t, soh)
  {
    var prev := StockRows(rows, n - 1, t, soh);
    assert StockRows(rows, n, t, soh) == prev + [StockRowAt(rows, n - 1, t, soh)];
    if i < n - 1 {
      StockRowsAt(rows, n - 1, t, soh, i);
      assert (prev + [StockRowAt(rows, n - 1, t, soh)])[i] == prev[i];
    }
  }

  /** The loop over the selected rows. */
  method BuildStockRows(rows: seq<Record<Value>>, t: Master, soh: seq<SohRow>) returns (newRows: seq<Record<Cell>>)
    requires forall r :: r in rows ==> RowReady(r, t, soh)
    ensures newRows == StockRows(rows, |rows|, t, soh)
  {
    newRows := [];
    for i := 0 to |rows|
      invariant newRows == StockRows(rows, i, t, soh)
    {
      var row := rows[i];
      assert row in rows;
      var newRow := StockRow(row, t, soh);
      newRows := newRows + [newRow];
    }
  }

  /** The new table, built only when there are new rows. */
  method MakeTable(newRows: seq<Record<Cell>>) returns (table: Option<Frame<Cell>>)
    ensures table.None? <==> newRows == []
    ensures table.Some? ==> LaidOut(table.value, newRows, Plain(Missing))
  {
    if newRows == [] {
      table := None;
    } else {
      var newDf := Tabulate(newRows, Plain(Missing));
      table := Some(newDf);
    }
  }

  /** The stock check: the selected rows, each turned into a new row, laid
      out as a table; nothing when no row is selected. */
  method StockCheck(resultDf: Frame<Value>, t: Master, soh: seq<SohRow>, today: int) returns (table: Option<Frame<Cell>>)
    requires WellFormed(resultDf) && "city" in resultDf.columns && StockInputReady(resultDf, t, soh, today)
    ensures var sel := StockSelection(AddCityColumn(resultDf).rows, today);
      (table.None? <==> sel == []) &&
      (forall r :: r in sel ==> RowReady(r, t, soh)) &&
      (table.Some? ==> LaidOut(table.value, StockRows(sel, |sel|, t, soh), Plain(Missing)))
  {
    var withCity := AddCityColumn(resultDf);
    var filtered := StockSelection(withCity.rows, today);
    StockSelectionSpec(withCity.rows, today);
    var newRows := BuildStockRows(filtered, t, soh);
    table := MakeTable(newRows);
  }
}
