/** The per-PO reconciliation: every purchase-order line is joined with the
    supply (SR) rows of the same PO whose material code belongs to the
    item, their quantities are summed, and the line is classified. */
module Reconcile {
  import opened Keys
  import opened Records
  import opened Mapping

  datatype Status = FullyServiced | PartiallyServiced | OverSupplied | NotFound

  /** The text stored in the `Status` column. */
  function StatusText(s: Status): string
  {
    match s
    case FullyServiced => "Fully Serviced"
    case PartiallyServiced => "Partially Serviced"
    case OverSupplied => "Over Supplied"
    case NotFound => "Not Found"
  }

  /** A cell that a quantity comparison or sum accepts: a number or NaN. */
  predicate Quantity(v: Value)
  {
    v.Int? || v.Float? || v.Missing?
  }

  /** The comparison chain on a PO line with matches: equal is Fully
      Serviced, more ordered than supplied is Partially Serviced, anything
      else, NaN included (every comparison with NaN is false), is Over
      Supplied. */
  function Classify(poQty: Value, supplied: int): (s: Status)
    requires Quantity(poQty)
    ensures s != NotFound
    ensures s == FullyServiced <==> !poQty.Missing? && NumericValue(poQty) == supplied
    ensures s == PartiallyServiced <==> !poQty.Missing? && NumericValue(poQty) > supplied
    ensures s == OverSupplied <==> poQty.Missing? || NumericValue(poQty) < supplied
  {
    if !poQty.Missing? && NumericValue(poQty) == supplied then FullyServiced
    else if !poQty.Missing? && NumericValue(poQty) > supplied then PartiallyServiced
    else OverSupplied
  }

  // ---------------------------------------------------------------- the normalised SR columns

  const PoNorm: string := "po_number_norm"
  const CodeNorm: string := "material_code_norm"

  /** `sr_data['po_number_norm']` and `sr_data['material_code_norm']` as
      assigned on each pass of the loop. */
  function WithNorm(sr: Frame<Value>): (g: Frame<Value>)
    requires WellFormed(sr)
    ensures WellFormed(g) && |g.rows| == |sr.rows|
    ensures PoNorm in g.columns && CodeNorm in g.columns
  {
    var f := SetColumn(sr, PoNorm, NormalizedColumn(sr, "po_number"));
    SetColumn(f, CodeNorm, NormalizedColumn(f, "material_code"))
  }

  /** `f[col].apply(normalize_code)`, each key kept as text. */
  function NormalizedColumn(f: Frame<Value>, col: string): (vs: seq<Value>)
    ensures |vs| == |f.rows|
  {
    seq(|f.rows|, i requires 0 <= i < |f.rows| => Str(Normalize(Field(f.rows[i], col))))
  }

  /** A row with its two key columns set. */
  function NormRow(r: Record<Value>): Record<Value>
  {
    var r1 := Assign(r, PoNorm, Str(Normalize(Field(r, "po_number"))));
    Assign(r1, CodeNorm, Str(Normalize(Field(r1, "material_code"))))
  }

  lemma WithNormRow(sr: Frame<Value>, i: nat)
    requires WellFormed(sr) && i < |sr.rows|
    ensures WithNorm(sr).rows[i] == NormRow(sr.rows[i])
  {
  }

  /** The key columns hold the normalised po_number and material_code; every
      other cell is the SR table's own. */
  lemma LookupNormRow(r: Record<Value>, k: string)
    ensures Lookup(NormRow(r), k) ==
      if k == CodeNorm then Some(Str(Normalize(Field(r, "material_code"))))
      else if k == PoNorm then Some(Str(Normalize(Field(r, "po_number"))))
      else Lookup(r, k)
  {
    var r1 := Assign(r, PoNorm, Str(Normalize(Field(r, "po_number"))));
    LookupAssign(r, PoNorm, Str(Normalize(Field(r, "po_number"))), "material_code");
    LookupAssign(r1, CodeNorm, Str(Normalize(Field(r1, "material_code"))), k);
    LookupAssign(r, PoNorm, Str(Normalize(Field(r, "po_number"))), k);
  }

  /** Setting the key columns a second time changes nothing, so the loop
      may reassign them on every pass. */
  lemma NormRowIdempotent(r: Record<Value>)
    ensures NormRow(NormRow(r)) == NormRow(r)
  {
    var n := NormRow(r);
    LookupNormRow(r, "po_number");
    LookupNormRow(r, PoNorm);
    AssignSame(n, PoNorm, Str(Normalize(Field(n, "po_number"))));
    LookupNormRow(r, "material_code");
    LookupNormRow(r, CodeNorm);
    AssignSame(n, CodeNorm, Str(Normalize(Field(n, "material_code"))));
  }

  lemma WithNormIdempotent(sr: Frame<Value>)
    requires WellFormed(sr)
    ensures WithNorm(WithNorm(sr)) == WithNorm(sr)
  {
    var g := WithNorm(sr);
    var h := WithNorm(g);
    forall i | 0 <= i < |g.rows| ensures h.rows[i] == g.rows[i] {
      WithNormRow(g, i);
      WithNormRow(sr, i);
      NormRowIdempotent(sr.rows[i]);
    }
  }

  // ---------------------------------------------------------------- matching SR rows

  /** An SR row with the PO's normalised number whose normalised code is in
      the list (`isin`). */
  predicate NormMatch(r: Record<Value>, po: string, codes: seq<string>)
  {
    Field(r, PoNorm) == Str(po) && Field(r, CodeNorm).Str? && Field(r, CodeNorm).s in codes
  }

  /** `sr_code_matches`: the matching rows in table order. */
  function CodeMatches(rows: seq<Record<Value>>, po: string, codes: seq<string>): (ms: seq<Record<Value>>)
    ensures forall x :: x in ms <==> x in rows && NormMatch(x, po, codes)
  {
    if rows == [] then []
    else
      assert forall x :: x in rows <==> x == rows[0] || x in rows[1..];
      (if NormMatch(rows[0], po, codes) then [rows[0]] else []) + CodeMatches(rows[1..], po, codes)
  }

  /** `.iloc[0]` of the matches is the first matching row of the table. */
  lemma {:induction false} CodeMatchesFirst(rows: seq<Record<Value>>, po: string, codes: seq<string>)
    requires CodeMatches(rows, po, codes) != []
    ensures exists j :: 0 <= j < |rows| && rows[j] == CodeMatches(rows, po, codes)[0] &&
                        forall j' :: 0 <= j' < j ==> !NormMatch(rows[j'], po, codes)
  {
    if !NormMatch(rows[0], po, codes) {
      CodeMatchesFirst(rows[1..], po, codes);
      var j :| 0 <= j < |rows[1..]| && rows[1..][j] == CodeMatches(rows[1..], po, codes)[0] &&
                forall j' :: 0 <= j' < j ==> !NormMatch(rows[1..][j'], po, codes);
      forall j' | 0 <= j' < j + 1 ensures !NormMatch(rows[j'], po, codes) {
        if j' > 0 { assert rows[j'] == rows[1..][j' - 1]; }
      }
      assert rows[j + 1] == rows[1..][j];
    }
  }

  /** Matching is by membership, so repeated codes, or the same codes in
      another order, select the same rows. */
  lemma {:induction false} CodeMatchesSameCodes(rows: seq<Record<Value>>, po: string, c1: seq<string>, c2: seq<string>)
    requires forall c :: c in c1 <==> c in c2
    ensures CodeMatches(rows, po, c1) == CodeMatches(rows, po, c2)
  {
    if rows != [] {
      CodeMatchesSameCodes(rows[1..], po, c1, c2);
    }
  }

  // ---------------------------------------------------------------- supplied quantity

  predicate QuantitiesOk(rows: seq<Record<Value>>)
  {
    forall r :: r in rows ==> Quantity(Field(r, "quantity"))
  }

  /** A quantity as `sum()` counts it: NaN is skipped. */
  function Qty(v: Value): int
    requires Quantity(v)
  {
    if v.Missing? then 0 else NumericValue(v)
  }

  /** `sr_code_matches['quantity'].sum()`. */
  function SumQty(rows: seq<Record<Value>>): int
    requires QuantitiesOk(rows)
  {
    if rows == [] then 0
    else
      assert rows[0] in rows;
      assert forall x :: x in rows[1..] ==> x in rows;
      Qty(Field(rows[0], "quantity")) + SumQty(rows[1..])
  }

  /** The reference total: over the SR table as loaded, the quantities of
      the rows whose normalised po_number is `po` and whose normalised
      material_code is in `codes`. */
  function MatchedQty(rows: seq<Record<Value>>, po: string, codes: seq<string>): int
    requires QuantitiesOk(rows)
  {
    if rows == [] then 0
    else
      assert rows[0] in rows;
      assert forall x :: x in rows[1..] ==> x in rows;
      var r := rows[0];
      (if Normalize(Field(r, "po_number")) == po && Normalize(Field(r, "material_code")) in codes
       then Qty(Field(r, "quantity")) else 0) + MatchedQty(rows[1..], po, codes)
  }

  function NormRows(rows: seq<Record<Value>>): (ns: seq<Record<Value>>)
    ensures |ns| == |rows| && forall i :: 0 <= i < |rows| ==> ns[i] == NormRow(rows[i])
  {
    seq(|rows|, i requires 0 <= i < |rows| => NormRow(rows[i]))
  }

  lemma NormRowMatch(r: Record<Value>, po: string, codes: seq<string>)
    ensures NormMatch(NormRow(r), po, codes) <==>
      Normalize(Field(r, "po_number")) == po && Normalize(Field(r, "material_code")) in codes
    ensures Field(NormRow(r), "quantity") == Field(r, "quantity")
  {
    LookupNormRow(r, PoNorm);
    LookupNormRow(r, CodeNorm);
    LookupNormRow(r, "quantity");
  }

  lemma NormRowsQuantities(rows: seq<Record<Value>>)
    requires QuantitiesOk(rows)
    ensures QuantitiesOk(NormRows(rows))
  {
    forall x | x in NormRows(rows) ensures Quantity(Field(x, "quantity")) {
      var i :| 0 <= i < |rows| && NormRows(rows)[i] == x;
      NormRowMatch(rows[i], "", []);
    }
  }

  /** The supplied quantity is the reference total: the sum over every SR
      row of the PO with a code of the item, duplicates included. */
  lemma {:induction false} SuppliedIsMatched(rows: seq<Record<Value>>, po: string, codes: seq<string>)
    requires QuantitiesOk(rows)
    ensures QuantitiesOk(CodeMatches(NormRows(rows), po, codes))
    ensures SumQty(CodeMatches(NormRows(rows), po, codes)) == MatchedQty(rows, po, codes)
  {
    NormRowsQuantities(rows);
    if rows != [] {
      var r := rows[0];
      var tail := CodeMatches(NormRows(rows[1..]), po, codes);
      assert forall x :: x in rows[1..] ==> x in rows;
      SuppliedIsMatched(rows[1..], po, codes);
      NormRowMatch(r, po, codes);
      MatchesCons(rows, po, codes);
      MatchedCons(rows, po, codes);
      if NormMatch(NormRow(r), po, codes) {
        SumQtyCons(NormRow(r), tail);
      } else {
        assert CodeMatches(NormRows(rows), po, codes) == tail;
      }
    } else {
      assert NormRows(rows) == [];
    }
  }

  lemma MatchedCons(rows: seq<Record<Value>>, po: string, codes: seq<string>)
    requires rows != [] && QuantitiesOk(rows)
    ensures QuantitiesOk(rows[1..]) && Quantity(Field(rows[0], "quantity"))
    ensures MatchedQty(rows, po, codes) ==
      (if Normalize(Field(rows[0], "po_number")) == po && Normalize(Field(rows[0], "material_code")) in codes
       then Qty(Field(rows[0], "quantity")) else 0) + MatchedQty(rows[1..], po, codes)
  {
    assert rows[0] in rows;
    assert forall x :: x in rows[1..] ==> x in rows;
  }

  lemma MatchesCons(rows: seq<Record<Value>>, po: string, codes: seq<string>)
    requires rows != []
    ensures CodeMatches(NormRows(rows), po, codes) ==
      (if NormMatch(NormRow(rows[0]), po, codes) then [NormRow(rows[0])] else []) +
      CodeMatches(NormRows(rows[1..]), po, codes)
  {
    assert NormRows(rows)[1..] == NormRows(rows[1..]);
  }

  lemma SumQtyCons(x: Record<Value>, tail: seq<Record<Value>>)
    requires QuantitiesOk([x] + tail)
    ensures QuantitiesOk(tail)
    ensures SumQty([x] + tail) == Qty(Field(x, "quantity")) + SumQty(tail)
  {
    assert ([x] + tail)[1..] == tail;
    assert forall y :: y in tail ==> y in [x] + tail;
  }

  /** Every SR row is counted, also a repeated one: the total over a table
      is the sum of the totals over its parts. */
  lemma {:induction false} MatchedQtyAppend(a: seq<Record<Value>>, b: seq<Record<Value>>, po: string, codes: seq<string>)
    requires QuantitiesOk(a) && QuantitiesOk(b)
    ensures QuantitiesOk(a + b)
    ensures MatchedQty(a + b, po, codes) == MatchedQty(a, po, codes) + MatchedQty(b, po, codes)
  {
    if a != [] {
      assert (a + b)[1..] == a[1..] + b;
      assert forall x :: x in a[1..] ==> x in a;
      MatchedQtyAppend(a[1..], b, po, codes);
      assert (a + b)[0] == a[0];
    } else {
      assert a + b == b;
    }
  }

  /** An SR table listed twice supplies twice as much. */
  lemma DuplicateRowsCounted(rows: seq<Record<Value>>, po: string, codes: seq<string>)
    requires QuantitiesOk(rows)
    ensures QuantitiesOk(rows + rows)
    ensures MatchedQty(rows + rows, po, codes) == 2 * MatchedQty(rows, po, codes)
  {
    MatchedQtyAppend(rows, rows, po, codes);
  }

  // ---------------------------------------------------------------- one result row

  const ProductKey: string := "name_of_the_product"
  const SuppliedKey: string := "Supplied_Qty"
  const StatusKey: string := "Status"

  function LinePo(row: Record<Value>): string
  {
    Normalize(Field(row, "po_number"))
  }

  function LineItem(row: Record<Value>): string
  {
    Normalize(Field(row, "item_id"))
  }

  /** The SR rows that answer a PO line. */
  function LineMatches(row: Record<Value>, srN: Frame<Value>, t: Master): seq<Record<Value>>
    requires t.hasCode1
  {
    CodeMatches(srN.rows, LinePo(row), MaterialCodes(t, LineItem(row)))
  }

  /** A PO line the loop can handle: only a line with SR matches sums their
      quantities and compares its po_qty with the total. */
  predicate LineReady(row: Record<Value>, srN: Frame<Value>, t: Master)
    requires t.hasCode1
  {
    var ms := LineMatches(row, srN, t);
    ms != [] ==> Quantity(Field(row, "po_qty")) && QuantitiesOk(ms)
  }

  /** The status a line receives. */
  function LineStatus(row: Record<Value>, srN: Frame<Value>, t: Master): Status
    requires t.hasCode1 && LineReady(row, srN, t)
  {
    var ms := LineMatches(row, srN, t);
    if ms == [] then NotFound else Classify(Field(row, "po_qty"), SumQty(ms))
  }

  /** The `Supplied_Qty` a line receives. */
  function LineSupplied(row: Record<Value>, srN: Frame<Value>, t: Master): int
    requires t.hasCode1 && QuantitiesOk(LineMatches(row, srN, t))
  {
    var ms := LineMatches(row, srN, t);
    if ms == [] then 0 else SumQty(ms)
  }

  /** The dict `result` built for one PO line: the PO row, the product name,
      the first matching SR row's fields (later keys overwrite earlier
      ones), the supplied quantity and the status. */
  function ResultRow(row: Record<Value>, srN: Frame<Value>, t: Master): Record<Value>
    requires t.hasCode1 && LineReady(row, srN, t)
  {
    var name := ProductName(t.rows, LineItem(row));
    var ms := LineMatches(row, srN, t);
    var base := Assign(row, ProductKey, name);
    var merged := if ms == [] then base else Update(base, ms[0]);
    Assign(Assign(merged, SuppliedKey, Int(LineSupplied(row, srN, t))),
           StatusKey, Str(StatusText(LineStatus(row, srN, t))))
  }

  /** Each cell of a result row: status and supplied quantity as computed;
      a column of the first matching SR row takes that row's value; the
      product name otherwise; the PO line's own cells for everything else. */
  lemma ResultRowLookup(row: Record<Value>, srN: Frame<Value>, t: Master, k: string)
    requires t.hasCode1 && LineReady(row, srN, t) && WellFormed(srN)
    ensures Lookup(ResultRow(row, srN, t), k) ==
      if k == StatusKey then Some(Str(StatusText(LineStatus(row, srN, t))))
      else if k == SuppliedKey then Some(Int(LineSupplied(row, srN, t)))
      else if LineMatches(row, srN, t) != [] && k in KeyList(LineMatches(row, srN, t)[0])
        then Lookup(LineMatches(row, srN, t)[0], k)
      else if k == ProductKey then Some(ProductName(t.rows, LineItem(row)))
      else Lookup(row, k)
  {
    var name := ProductName(t.rows, LineItem(row));
    var ms := LineMatches(row, srN, t);
    var base := Assign(row, ProductKey, name);
    var merged := if ms == [] then base else Update(base, ms[0]);
    var withQty := Assign(merged, SuppliedKey, Int(LineSupplied(row, srN, t)));
    LookupAssign(withQty, StatusKey, Str(StatusText(LineStatus(row, srN, t))), k);
    LookupAssign(merged, SuppliedKey, Int(LineSupplied(row, srN, t)), k);
    LookupAssign(row, ProductKey, name, k);
    if ms != [] {
      assert ms[0] in srN.rows;
      var j :| 0 <= j < |srN.rows| && srN.rows[j] == ms[0];
      assert IsDict(ms[0]);
      LookupUpdate(base, ms[0], k);
    }
  }

  /** A line without matches is Not Found with nothing supplied; a line with
      matches gets one of the three other statuses, by comparing po_qty
      with the total. */
  lemma LineOutcome(row: Record<Value>, srN: Frame<Value>, t: Master)
    requires t.hasCode1 && LineReady(row, srN, t)
    ensures LineStatus(row, srN, t) == NotFound <==> LineMatches(row, srN, t) == []
    ensures LineStatus(row, srN, t) == NotFound ==> LineSupplied(row, srN, t) == 0
    ensures LineStatus(row, srN, t) != NotFound ==>
      LineStatus(row, srN, t) == Classify(Field(row, "po_qty"), LineSupplied(row, srN, t))
  {
  }

  /** Read against the SR table as loaded: the supplied quantity of a line is
      the reference total over its PO number and its item's codes. */
  lemma LineSuppliedIsMatched(row: Record<Value>, sr: Frame<Value>, t: Master)
    requires t.hasCode1 && WellFormed(sr) && QuantitiesOk(sr.rows)
    ensures QuantitiesOk(WithNorm(sr).rows) && QuantitiesOk(LineMatches(row, WithNorm(sr), t))
    ensures LineSupplied(row, WithNorm(sr), t) == MatchedQty(sr.rows, LinePo(row), MaterialCodes(t, LineItem(row)))
  {
    assert WithNorm(sr).rows == NormRows(sr.rows) by {
      forall i | 0 <= i < |sr.rows| ensures WithNorm(sr).rows[i] == NormRows(sr.rows)[i] {
        WithNormRow(sr, i);
      }
    }
    NormRowsQuantities(sr.rows);
    SuppliedIsMatched(sr.rows, LinePo(row), MaterialCodes(t, LineItem(row)));
  }

  // ---------------------------------------------------------------- the loop

  /** The two shapes a result row takes. */
  lemma ResultRowCases(row: Record<Value>, srN: Frame<Value>, t: Master)
    requires t.hasCode1 && LineReady(row, srN, t)
    ensures LineMatches(row, srN, t) != [] ==>
      QuantitiesOk(LineMatches(row, srN, t)) && Quantity(Field(row, "po_qty"))
    ensures LineMatches(row, srN, t) != [] ==>
      ResultRow(row, srN, t) ==
        Assign(Assign(Update(Assign(row, ProductKey, ProductName(t.rows, LineItem(row))), LineMatches(row, srN, t)[0]),
                      SuppliedKey, Int(SumQty(LineMatches(row, srN, t)))),
               StatusKey, Str(StatusText(Classify(Field(row, "po_qty"), SumQty(LineMatches(row, srN, t))))))
    ensures LineMatches(row, srN, t) == [] ==>
      ResultRow(row, srN, t) ==
        Assign(Assign(Assign(row, ProductKey, ProductName(t.rows, LineItem(row))), SuppliedKey, Int(0)),
               StatusKey, Str(StatusText(NotFound)))
  {
    var ms := LineMatches(row, srN, t);
    assert forall x :: x in ms ==> x in srN.rows;
  }

  /** One pass of the PO loop: the key columns are (re)assigned on the SR
      table, then the line's result dict is built. */
  method ReconcileLine(row: Record<Value>, sr0: Frame<Value>, sr: Frame<Value>, t: Master)
    returns (result: Record<Value>, sr': Frame<Value>)
    requires t.hasCode1 && WellFormed(sr0)
    requires sr == sr0 || sr == WithNorm(sr0)
    requires LineReady(row, WithNorm(sr0), t)
    ensures sr' == WithNorm(sr0)
    ensures result == ResultRow(row, WithNorm(sr0), t)
  {
    WithNormIdempotent(sr0);
    var poNumber := Normalize(Field(row, "po_number"));
    var itemId := Normalize(Field(row, "item_id"));
    var poQty := Field(row, "po_qty");
    var productName := ProductName(t.rows, itemId);
    var materialCodes := MaterialCodes(t, itemId);
    sr' := SetColumn(sr, PoNorm, NormalizedColumn(sr, "po_number"));
    sr' := SetColumn(sr', CodeNorm, NormalizedColumn(sr', "material_code"));
    assert sr' == WithNorm(sr0);
    var srCodeMatches := CodeMatches(sr'.rows, poNumber, materialCodes);
    ResultRowCases(row, sr', t);
    if srCodeMatches != [] {
      var suppliedQty := SumQty(srCodeMatches);
      var status := Classify(poQty, suppliedQty);
      var srInfo := srCodeMatches[0];
      result := Assign(Assign(Update(Assign(row, ProductKey, productName), srInfo),
                              SuppliedKey, Int(suppliedQty)),
                       StatusKey, Str(StatusText(status)));
    } else {
      result := Assign(Assign(Assign(row, ProductKey, productName), SuppliedKey, Int(0)),
                       StatusKey, Str(StatusText(NotFound)));
    }
  }

  /** Every PO line can be reconciled. */
  predicate LinesReady(rows: seq<Record<Value>>, srN: Frame<Value>, t: Master)
    requires t.hasCode1
  {
    forall row :: row in rows ==> LineReady(row, srN, t)
  }

  /** The result dict of PO line `i`. */
  function ResultAt(rows: seq<Record<Value>>, i: nat, srN: Frame<Value>, t: Master): Record<Value>
    requires i < |rows| && t.hasCode1 && LinesReady(rows, srN, t)
  {
    assert rows[i] in rows;
    ResultRow(rows[i], srN, t)
  }

  /** The result dicts of the first `n` PO lines, one per line, in their order. */
  function Results(rows: seq<Record<Value>>, n: nat, srN: Frame<Value>, t: Master): (rs: seq<Record<Value>>)
    requires n <= |rows| && t.hasCode1 && LinesReady(rows, srN, t)
    ensures |rs| == n
  {
    if n == 0 then []
    else
      Results(rows, n - 1, srN, t) + [ResultAt(rows, n - 1, srN, t)]
  }

  /** Result `i` is the result dict of PO line `i`. */
  lemma {:induction false} ResultsAt(rows: seq<Record<Value>>, n: nat, srN: Frame<Value>, t: Master, i: nat)
    requires n <= |rows| && t.hasCode1 && LinesReady(rows, srN, t) && i < n
    ensures Results(rows, n, srN, t)[i] == ResultAt(rows, i, srN, t)
  {
    var prev := Results(rows, n - 1, srN, t);
    assert Results(rows, n, srN, t) == prev + [ResultAt(rows, n - 1, srN, t)];
    if i < n - 1 {
      ResultsAt(rows, n - 1, srN, t, i);
      assert (prev + [ResultAt(rows, n - 1, srN, t)])[i] == prev[i];
    }
  }

  /** The PO loop: one result per PO line, in input order. */
  method Reconcile(po: Frame<Value>, sr0: Frame<Value>, t: Master) returns (results: seq<Record<Value>>)
    requires t.hasCode1 && WellFormed(sr0) && LinesReady(po.rows, WithNorm(sr0), t)
    ensures results == Results(po.rows, |po.rows|, WithNorm(sr0), t)
  {
    ghost var srN := WithNorm(sr0);
    results := [];
    var sr := sr0;
    for i := 0 to |po.rows|
      invariant sr == sr0 || sr == srN
      invariant results == Results(po.rows, i, srN, t)
    {
      var row := po.rows[i];
      assert row in po.rows;
      var result;
      result, sr := ReconcileLine(row, sr0, sr, t);
      results := results + [result];
    }
  }
}
