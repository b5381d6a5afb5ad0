/** The dashboard's main flow once the four sheets are loaded: every PO line
    reconciled, the results laid out as the first table, and the stock check
    run over that table. */
module Dashboard {
  import opened Keys
  import opened Records
  import opened Mapping
  import opened Reconcile
  import opened Cities
  import opened Columns
  import opened Stock

  /** Two rows read the same cell under every column, a missing column as NaN. */
  ghost predicate SameFields(a: Record<Value>, b: Record<Value>)
  {
    forall k :: Field(a, k) == Field(b, k)
  }

  lemma FieldAssign(r: Record<Value>, k: string, v: Value, k': string)
    ensures Field(Assign(r, k, v), k') == if k' == k then v else Field(r, k')
  {
    LookupAssign(r, k, v, k');
  }

  /** Setting `city_mapped` keeps two rows that read alike reading alike. */
  lemma WithCitySame(a: Record<Value>, b: Record<Value>)
    requires SameFields(a, b)
    ensures SameFields(WithCity(a), WithCity(b))
  {
    var c := MapCityName(Field(a, "city"));
    assert WithCity(a) == Assign(a, CityMapped, c);
    assert WithCity(b) == Assign(b, CityMapped, c) by {
      assert Field(a, "city") == Field(b, "city");
    }
    forall k ensures Field(Assign(a, CityMapped, c), k) == Field(Assign(b, CityMapped, c), k) {
      FieldAssign(a, CityMapped, c, k);
      FieldAssign(b, CityMapped, c, k);
    }
  }

  /** The selection masks and what the stock search needs read cells only. */
  lemma SelectedSame(a: Record<Value>, b: Record<Value>, t: Master, soh: seq<SohRow>, today: int)
    requires SameFields(a, b)
    ensures Selected(a, today) == Selected(b, today)
    ensures RowReady(a, t, soh) == RowReady(b, t, soh)
  {
    assert Field(a, "Status") == Field(b, "Status");
    assert Field(a, "po_expiry_date") == Field(b, "po_expiry_date");
    assert Field(a, ItemColumn) == Field(b, ItemColumn);
    assert Field(a, CityMapped) == Field(b, CityMapped);
    assert Field(a, "po_qty") == Field(b, "po_qty");
  }

  lemma ExpiryNotComputed()
    ensures "po_expiry_date" != StatusKey && "po_expiry_date" != SuppliedKey
    ensures "po_expiry_date" != ProductKey && "po_expiry_date" != CityMapped
  {
  }

  lemma CityNotComputed()
    ensures "city" != StatusKey && "city" != SuppliedKey && "city" != ProductKey
  {
  }

  lemma StatusNotCity()
    ensures StatusKey == "Status" && StatusKey != CityMapped
  {
  }

  lemma StatusTextInjective(s: Status, s': Status)
    ensures StatusText(s) == StatusText(s') <==> s == s'
  {
  }

  /** A line's status and expiry, the two things the first mask asks of it. */
  predicate LineSelected(rows: seq<Record<Value>>, i: nat, srN: Frame<Value>, t: Master, today: int)
    requires i < |rows| && t.hasCode1 && LinesReady(rows, srN, t)
  {
    assert rows[i] in rows;
    var s := LineStatus(rows[i], srN, t);
    s == PartiallyServiced || (s == NotFound && ExpiresAfter(Field(rows[i], "po_expiry_date"), today))
  }

  /** The result dict of a line, its city mapped, is selected iff the line is
      Partially Serviced, or Not Found with its PO expiring after today. */
  lemma ResultSelected(rows: seq<Record<Value>>, i: nat, srN: Frame<Value>, t: Master, today: int)
    requires i < |rows| && t.hasCode1 && LinesReady(rows, srN, t) && WellFormed(srN)
    ensures Selected(WithCity(ResultAt(rows, i, srN, t)), today) <==> LineSelected(rows, i, srN, t, today)
  {
    var row := rows[i];
    assert row in rows;
    var r := ResultAt(rows, i, srN, t);
    var city := MapCityName(Field(r, "city"));
    var s := LineStatus(row, srN, t);
    ResultRowLookup(row, srN, t, StatusKey);
    ResultRowLookup(row, srN, t, "po_expiry_date");
    ExpiryNotComputed();
    StatusNotCity();
    FieldAssign(r, CityMapped, city, StatusKey);
    FieldAssign(r, CityMapped, city, "po_expiry_date");
    assert Field(WithCity(r), "Status") == Str(StatusText(s));
    StatusTextInjective(s, PartiallyServiced);
    StatusTextInjective(s, NotFound);
    if s == NotFound {
      assert LineMatches(row, srN, t) == [];
      assert Field(WithCity(r), "po_expiry_date") == Field(row, "po_expiry_date");
    }
  }

  /** Every result dict keeps the PO line's `city` key. */
  lemma CityKept(row: Record<Value>, srN: Frame<Value>, t: Master)
    requires t.hasCode1 && LineReady(row, srN, t) && WellFormed(srN) && "city" in KeyList(row)
    ensures "city" in KeyList(ResultRow(row, srN, t))
  {
    ResultRowLookup(row, srN, t, "city");
    CityNotComputed();
  }

  /** A row of the laid-out table reads like the dict it was built from. */
  lemma LaidOutFields(g: Frame<Value>, rows: seq<Record<Value>>, i: nat)
    requires LaidOut(g, rows, Missing) && i < |rows|
    ensures SameFields(g.rows[i], rows[i])
  {
    forall k ensures Field(g.rows[i], k) == Field(rows[i], k) {
      if k !in UnionKeys(rows) {
        assert k !in KeyList(rows[i]);
      }
    }
  }

  /** What the stock check needs of a PO line: when its result row is
      selected, that row's item, codes and quantities let the search run. */
  predicate LineStockReady(rows: seq<Record<Value>>, i: nat, srN: Frame<Value>, t: Master, soh: seq<SohRow>, today: int)
    requires i < |rows| && t.hasCode1 && LinesReady(rows, srN, t)
  {
    var r := WithCity(ResultAt(rows, i, srN, t));
    Selected(r, today) ==> RowReady(r, t, soh)
  }

  /** `main()` after loading: the reconciliation loop, `pd.DataFrame(results)`
      with the product column moved, shown as the first table, then the stock
      check over it.  The stock check's selection holds exactly the rows of
      the lines that are Partially Serviced, or Not Found with their PO
      expiring after today. */
  method BuildTables(po: Frame<Value>, sr0: Frame<Value>, t: Master, soh: seq<SohRow>, today: int)
    returns (resultDf: Frame<Value>, stock: Option<Frame<Cell>>)
    requires WellFormed(po) && "city" in po.columns && po.rows != []
    requires t.hasCode1 && WellFormed(sr0) && LinesReady(po.rows, WithNorm(sr0), t)
    requires forall i :: 0 <= i < |po.rows| ==> LineStockReady(po.rows, i, WithNorm(sr0), t, soh, today)
    ensures LaidOut(resultDf, Results(po.rows, |po.rows|, WithNorm(sr0), t), Missing)
    ensures WellFormed(resultDf) && "city" in resultDf.columns && |resultDf.rows| == |po.rows|
    ensures forall i :: 0 <= i < |po.rows| ==> SameFields(resultDf.rows[i], ResultAt(po.rows, i, WithNorm(sr0), t))
    ensures var sel := StockSelection(AddCityColumn(resultDf).rows, today);
      (forall r :: r in sel ==> exists i :: 0 <= i < |po.rows| && r == WithCity(resultDf.rows[i])) &&
      (forall i :: 0 <= i < |po.rows| ==>
        (WithCity(resultDf.rows[i]) in sel <==> LineSelected(po.rows, i, WithNorm(sr0), t, today)))
    ensures var sel := StockSelection(AddCityColumn(resultDf).rows, today);
      (stock.None? <==> sel == []) &&
      (forall r :: r in sel ==> RowReady(r, t, soh)) &&
      (stock.Some? ==> LaidOut(stock.value, StockRows(sel, |sel|, t, soh), Plain(Missing)))
  {
    var results := Reconcile.Reconcile(po, sr0, t);
    resultDf := Tabulate(results, Missing);
    ResultTable(po, WithNorm(sr0), t, results, resultDf);
    StockInput(po, WithNorm(sr0), t, soh, today, resultDf);
    stock := StockCheck(resultDf, t, soh, today);
  }

  /** The first table reads line by line like the result dicts, and has the
      `city` column of the PO sheet. */
  lemma ResultTable(po: Frame<Value>, srN: Frame<Value>, t: Master, results: seq<Record<Value>>, resultDf: Frame<Value>)
    requires WellFormed(po) && "city" in po.columns && po.rows != []
    requires t.hasCode1 && WellFormed(srN) && LinesReady(po.rows, srN, t)
    requires results == Results(po.rows, |po.rows|, srN, t) && LaidOut(resultDf, results, Missing)
    ensures "city" in resultDf.columns
    ensures forall i :: 0 <= i < |po.rows| ==> SameFields(resultDf.rows[i], ResultAt(po.rows, i, srN, t))
  {
    forall i | 0 <= i < |po.rows| ensures SameFields(resultDf.rows[i], ResultAt(po.rows, i, srN, t)) {
      ResultsAt(po.rows, |po.rows|, srN, t, i);
      LaidOutFields(resultDf, results, i);
    }
    assert po.rows[0] in po.rows && KeyList(po.rows[0]) == po.columns;
    CityKept(po.rows[0], srN, t);
    ResultsAt(po.rows, |po.rows|, srN, t, 0);
    assert "city" in UnionKeys(results);
    assert "city" in multiset(resultDf.columns);
  }

  /** Over a table that reads like the result dicts, the stock check can run,
      and it selects the rows of exactly the lines `LineSelected` names. */
  lemma StockInput(po: Frame<Value>, srN: Frame<Value>, t: Master, soh: seq<SohRow>, today: int, resultDf: Frame<Value>)
    requires t.hasCode1 && WellFormed(srN) && LinesReady(po.rows, srN, t)
    requires forall i :: 0 <= i < |po.rows| ==> LineStockReady(po.rows, i, srN, t, soh, today)
    requires WellFormed(resultDf) && |resultDf.rows| == |po.rows|
    requires forall i :: 0 <= i < |po.rows| ==> SameFields(resultDf.rows[i], ResultAt(po.rows, i, srN, t))
    ensures StockInputReady(resultDf, t, soh, today)
    ensures var sel := StockSelection(AddCityColumn(resultDf).rows, today);
      (forall r :: r in sel ==> exists i :: 0 <= i < |po.rows| && r == WithCity(resultDf.rows[i])) &&
      (forall i :: 0 <= i < |po.rows| ==>
        (WithCity(resultDf.rows[i]) in sel <==> LineSelected(po.rows, i, srN, t, today)))
  {
    var withCity := AddCityColumn(resultDf);
    forall i | 0 <= i < |po.rows|
      ensures withCity.rows[i] == WithCity(resultDf.rows[i])
      ensures Selected(withCity.rows[i], today) <==> LineSelected(po.rows, i, srN, t, today)
      ensures Selected(withCity.rows[i], today) ==> RowReady(withCity.rows[i], t, soh)
    {
      RowOfLine(po.rows, i, srN, t, soh, today, resultDf.rows[i]);
    }
    ReadyRows(resultDf, t, soh, today);
    SelectedRows(withCity.rows, today);
  }

  lemma ReadyRows(f: Frame<Value>, t: Master, soh: seq<SohRow>, today: int)
    requires WellFormed(f)
    requires var rows := AddCityColumn(f).rows;
      forall i :: 0 <= i < |rows| && Selected(rows[i], today) ==> RowReady(rows[i], t, soh)
    ensures StockInputReady(f, t, soh, today)
  {
    var rows := AddCityColumn(f).rows;
    forall r | r in rows && Selected(r, today) ensures RowReady(r, t, soh) {
      var i :| 0 <= i < |rows| && rows[i] == r;
    }
  }

  /** Every row of the selection is one of the rows, and a row is in it iff
      it is selected. */
  lemma SelectedRows(rows: seq<Record<Value>>, today: int)
    ensures var sel := StockSelection(rows, today);
      (forall r :: r in sel ==> exists i :: 0 <= i < |rows| && r == rows[i]) &&
      (forall i :: 0 <= i < |rows| ==> (rows[i] in sel <==> Selected(rows[i], today)))
  {
    StockSelectionSpec(rows, today);
  }

  /** A table row that reads like the result dict of line `i`. */
  lemma RowOfLine(rows: seq<Record<Value>>, i: nat, srN: Frame<Value>, t: Master, soh: seq<SohRow>, today: int, a: Record<Value>)
    requires i < |rows| && t.hasCode1 && WellFormed(srN) && LinesReady(rows, srN, t)
    requires LineStockReady(rows, i, srN, t, soh, today) && SameFields(a, ResultAt(rows, i, srN, t))
    ensures Selected(WithCity(a), today) <==> LineSelected(rows, i, srN, t, today)
    ensures Selected(WithCity(a), today) ==> RowReady(WithCity(a), t, soh)
  {
    WithCitySame(a, ResultAt(rows, i, srN, t));
    SelectedSame(WithCity(a), WithCity(ResultAt(rows, i, srN, t)), t, soh, today);
    ResultSelected(rows, i, srN, t, today);
  }
}
