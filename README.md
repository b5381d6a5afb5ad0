# PO reconciliation and stock check, modelled in Dafny

The dashboard reads four spreadsheets:
- Fresh FR: purchase-order (PO) lines.
- SR data: supply records.
- The master map: an item id's product name and material codes.
- Fresh SOH: stock on hand per city and material code.

It then produces two tables:

1. **The reconciliation table.** Every PO line is looked up in the SR data.
   - The SR rows that match have the line's PO number and one of the item's material codes. Both sides are compared after normalisation: `str(int(float(v))).strip()`, falling back to `str(v).strip()`.
   - The line gets the product name, the first matching SR row's fields and `Supplied_Qty`, the sum of the matched quantities.
   - Its `Status` is Fully Serviced, Partially Serviced or Over Supplied, from comparing `po_qty` with that sum. A line with no match is Not Found and has nothing supplied.
   - `name_of_the_product` is moved to the column after `item_id`.
2. **The stock-check table.**
   - Rows selected: Partially Serviced lines, and Not Found lines whose PO expires after today.
   - City: each selected row's city is mapped onto a supplying city. The mapping is a fixed alias table keyed by the trimmed, lower-cased name; an unknown name is kept as trimmed.
   - Material codes: the item's codes are computed again under a stricter conversion.
   - Stock search: the codes are tried in order against the stock on hand in that city. The first code with any stock row gives the stock, the sum of `total_qty` over its rows.
   - Supply status: "can be supplied", "not enough" or "no stock info".
   - Cleared SR cells: on Not Found rows, the SR cells are blanked.
   - Columns: the product column is placed as in the first table.

The model also covers two helpers of an earlier data-processing module:
- `map_item_to_material_codes`. It matches item ids by equality and renders codes with `astype(str)`. The model proves that its codes agree with the dashboard's on integer tables, and that they differ (`"5.0"` against `"5"`) once a code is stored as a float.
- `find_sr_entry`.

The model is organised in modules:

| Module | File | Contents |
|---|---|---|
| `Keys` | `keys.dfy` | Cell values (`Int`, integral `Float`, `Str`, `Missing` for NaN). `str`, `strip`, `lower`, the numeric parse behind `float(...)`, `normalize_id`/`normalize_code` (one function, `Normalize`, since both are the same code) and the stricter `str(int(float(x))) if pd.notna(x) else ''` (`StrictKey`). |
| `Records` | `records.dfy` | Rows as ordered dicts, `{**a, **b}` merges, frames built from a list of dicts, boolean-mask filters and `drop_duplicates`. |
| `Mapping` | `mapping.dfy` | The master map: the item-id-to-product dict and the material codes of an item, in both the lenient and the strict conversion. |
| `Reconcile` | `reconcile.dfy` | The status rule, the SR key columns, the matching, the supplied total, the result dict and the PO loop. |
| `Columns` | `columns.dfy` | Moving `name_of_the_product` after `item_id`, and a list of dicts laid out as a table with that order. |
| `Cities` | `cities.dfy` | `map_city_name` and its alias table. |
| `Stock` | `stock.dfy` | The selection, the SOH search, the supply status, the new rows and the stock-check table. |
| `Legacy` | `legacy.dfy` | `map_item_to_material_codes` and `find_sr_entry`. |
| `Dashboard` | `dashboard.dfy` | The main flow: the PO loop, the first table built from its results, and the stock check over that table. |

## Model

| member | source | states |
|---|---|---|
| Keys.TrimLeft | drafts/dashboard.py:35 | The left half of `strip()` is a suffix of the text; what it drops is all whitespace in Python's sense (`str.isspace`, Unicode spaces included); it starts with a character that is not whitespace, or is empty. |
| Keys.TrimRight | drafts/dashboard.py:35 | The right half of `strip()` is a prefix of the text; what it drops is all whitespace in Python's sense; it ends with a character that is not whitespace, or is empty. |
| Keys.Trim | drafts/dashboard.py:35 | The result of `strip()` is empty or starts and ends with a character that is not whitespace, and is no longer than the text. |
| Keys.TrimSlice | drafts/dashboard.py:35 | The result of `strip()` is a slice `s[i..j]` of the text with only whitespace before `i` and after `j`. Together with `Trim`'s contract this fixes the result. |
| Keys.Lower | soh_processing.py:46 | `lower()` maps each character in place: `A`-`Z` to `a`-`z`, every other character to itself. |
| Keys.DecimalString | drafts/dashboard.py:33 | `str(int)` is a non-empty run of digits, with a leading `-` for negatives. |
| Keys.DigitsRoundTrip | drafts/dashboard.py:33 | Reading back the digits written for a natural number gives that number. |
| Keys.ParseDecimalString | drafts/dashboard.py:33 | `float` parses `str(n)` and `str(n) + ".0"` back to `n`, so `int(float(...))` inverts `str`. |
| Keys.NormalizeSpec | drafts/dashboard.py:30-42 | The normaliser is the try/except applied to `str(val)`: when the stripped `str(val)` parses as a number, the key is that number's decimal text; otherwise the key is the stripped `str(val)`. So a cell that `int(float(...))` accepts becomes the decimal text of its integer part. |
| Keys.NormalizeIntegral | drafts/dashboard.py:30-42 | The int `n`, the float `n.0`, the text `"n"` and the text `"n.0"` all normalise to the same key. |
| Keys.NormalizeIdempotent | drafts/dashboard.py:30-42 | Normalising an already normalised key changes nothing. |
| Keys.NormalizeOfPyStr | drafts/dashboard.py:106-110 | Normalising `str(item_id)` gives the same key as normalising `item_id`, so the product lookup of the stock table agrees with the first table. |
| Keys.StrictKey | drafts/dashboard.py:112 | The strict conversion yields `''` exactly for NaN. |
| Keys.StrictKeyAgrees | drafts/dashboard.py:112-118 | On numbers the strict conversion equals the lenient one. On NaN it yields `''` where the lenient one yields `"nan"`. |
| Keys.DecimalStringIsCode | drafts/dashboard.py:61 | A normalised number is never empty and never `"nan"`, so the code filter keeps it. |
| Records.Lookup | drafts/dashboard.py:77 | A key has a value in a row exactly when it is one of the row's keys. |
| Records.LookupAssign | drafts/dashboard.py:136-139 | After `d[k] = v`, `k` maps to `v` and every other key keeps its value. |
| Records.KeysAssign | drafts/dashboard.py:136-139 | Assigning an existing key keeps the key order. A new key is appended at the end. |
| Records.LookupUpdate | drafts/dashboard.py:77 | In `{**a, **b}` a key of `b` takes `b`'s value and every other key keeps `a`'s. |
| Records.UnionKeys | drafts/dashboard.py:82 | The columns of `pd.DataFrame(list_of_dicts)` are every key of every row, once each, in order of first appearance: the columns of all rows but the last are a prefix, and the keys the last row adds follow in that row's order. A single dict without repeated keys gives exactly its keys. |
| Records.AddNewSpec | drafts/dashboard.py:82 | Collecting keys in first-seen order loses none, invents none and never repeats one. |
| Records.UnionKeysUniform | drafts/dashboard.py:82 | When all rows have the same keys, those keys in their order are the frame's columns. |
| Records.LookupAlign | drafts/dashboard.py:148 | In a frame row, a column missing from its dict holds the fill value (NaN). A present column holds the dict's value. |
| Records.SetColumn | drafts/dashboard.py:63-64 | `df[name] = values` sets that cell in every row and appends the column only when it is new. |
| Records.SelectKeepsCells | drafts/dashboard.py:89 | Reordering the columns with `df[cols]` leaves every cell's value unchanged. |
| Records.Filter | drafts/dashboard.py:97-100 | A boolean mask keeps every row satisfying it, as many times as it occurs, and no other row. |
| Records.FilterSub | drafts/dashboard.py:97-100 | Filtering keeps the table's row order. |
| Records.Dedup | drafts/dashboard.py:101 | `drop_duplicates` keeps every distinct row once, leaves no two equal rows, and orders them by their first occurrence in the table. |
| Records.DedupSub | drafts/dashboard.py:101 | The rows that `drop_duplicates` keeps are a subsequence of the table, in the table's order. |
| Records.DedupSubsumed | drafts/dashboard.py:101 | Appending rows that are already present, then dropping duplicates, is the same as dropping duplicates alone. |
| Mapping.ProductName | drafts/dashboard.py:53 | An item id that no master row normalises to gets the product name `''`. |
| Mapping.ZipLastWins | drafts/dashboard.py:46 | In `dict(zip(keys, values))` a repeated key takes the value of its last occurrence. |
| Mapping.ProductNameLastWins | drafts/dashboard.py:44-53 | With several master rows for one item id, the product name comes from the last of them. |
| Mapping.RowsFor | drafts/dashboard.py:55 | `map_row` is the boolean mask "normalised item id equals the line's" applied to the master table, so it keeps those rows in order with their repeats. |
| Mapping.CleanCodes | drafts/dashboard.py:61 | Filtering the codes is the mask "non-empty and not `nan` in any letter case", keeping those codes in order with their repeats. |
| Mapping.CleanCodesAppend | drafts/dashboard.py:61 | Filtering the concatenation of the two code columns filters each column separately. |
| Mapping.MaterialCodesMembers | drafts/dashboard.py:55-61 | A code is among an item's material codes iff it is usable and is the normalised first or second code of a master row for that item. The second code counts only when the column exists. |
| Mapping.MaterialCodesOrder | drafts/dashboard.py:56-60 | The item's `material_code` values come first in table order, then its `material_code2` values. |
| Mapping.StockItemKey | drafts/dashboard.py:110-112 | In the stock table, `str(int(float(item_id)))` is the same key as the normalised item id. |
| Mapping.StrictRowsFor | drafts/dashboard.py:112 | The strict `map_row` is the mask "strictly converted item id equals the key" applied to the master table. |
| Mapping.StrictRowsAgree | drafts/dashboard.py:112 | For a numeric key, the strict and the lenient master-row selections are the same rows. |
| Mapping.StrictAll | drafts/dashboard.py:115-117 | Each code is converted by the strict conversion, position by position. |
| Mapping.CleanStrictAgree | drafts/dashboard.py:115-118 | After the code filter, the strict and the lenient code lists are equal. |
| Mapping.StockCodes | drafts/dashboard.py:112-118 | The stock table's codes contain no comma. |
| Mapping.StockCodesAgree | drafts/dashboard.py:112-118 | The stock table's code list equals the reconciliation table's code list for the same item. |
| Reconcile.Classify | drafts/dashboard.py:70-75 | Fully Serviced iff `po_qty == total`; Partially Serviced iff `po_qty > total`; otherwise Over Supplied, which includes a NaN `po_qty`, because every comparison with NaN is false. Never Not Found. |
| Reconcile.WithNorm | drafts/dashboard.py:63-64 | Adding the two key columns keeps the SR table well formed, with the same number of rows. |
| Reconcile.LookupNormRow | drafts/dashboard.py:63-64 | An SR row gains the normalised `po_number` and `material_code` under the two key columns and keeps every other cell. |
| Reconcile.WithNormIdempotent | drafts/dashboard.py:63-64 | Recomputing the key columns on every pass of the loop leaves the SR table as after the first pass. |
| Reconcile.CodeMatches | drafts/dashboard.py:65-67 | An SR row matches iff its key columns hold the line's PO number and one of its material codes. |
| Reconcile.CodeMatchesFirst | drafts/dashboard.py:76 | `iloc[0]` of the matches is the first matching SR row in table order. |
| Reconcile.CodeMatchesSameCodes | drafts/dashboard.py:67 | `isin` depends only on which codes are listed, not on their order or repeats. |
| Reconcile.SuppliedIsMatched | drafts/dashboard.py:62-69 | The total over the matches equals the reference total computed over the SR table as loaded. |
| Reconcile.MatchedQtyAppend | drafts/dashboard.py:69 | The total over a concatenation of SR tables is the sum of the totals. |
| Reconcile.DuplicateRowsCounted | drafts/dashboard.py:69 | A repeated SR row is counted each time it appears: doubling the table doubles every total. |
| Reconcile.LineSuppliedIsMatched | drafts/dashboard.py:62-69 | A line's `Supplied_Qty` is the reference total for its PO number and its item's codes. |
| Reconcile.LineOutcome | drafts/dashboard.py:68-79 | A line is Not Found iff it has no match, and then it has nothing supplied. Otherwise its status is `Classify(po_qty, Supplied_Qty)`. |
| Reconcile.ResultRowLookup | drafts/dashboard.py:76-79 | In a result row:<br>- `Status` and `Supplied_Qty` hold the computed values.<br>- A key of the first matching SR row holds that row's value, so it overrides the PO line and even `name_of_the_product`.<br>- `name_of_the_product` otherwise holds the product name.<br>- Every other key holds the PO line's value. |
| Reconcile.ReconcileLine | drafts/dashboard.py:49-80 | One pass of the loop leaves the SR table with its key columns and returns the result dict of the line. |
| Reconcile.Reconcile | drafts/dashboard.py:48-82 | The loop returns `Results`: one result dict per PO line, in PO order. |
| Reconcile.ResultsAt | drafts/dashboard.py:48-80 | Result `i` is `ResultRow` of PO line `i`, with the SR table's key columns in place. |
| Columns.Without | drafts/dashboard.py:86 | `remove` leaves exactly the other columns. |
| Columns.NoDupWithout | drafts/dashboard.py:86 | In a list without repeats, `remove(x)` cuts out the single occurrence of `x`. |
| Columns.MoveProductName | drafts/dashboard.py:84-89 | When the list has no `name_of_the_product`, it is unchanged. Otherwise the result:<br>- is a permutation of the list, without repeats;<br>- keeps the other columns in order;<br>- puts `name_of_the_product` right after `item_id`, or at position 1 when `item_id` is absent. Position 1 becomes 0 when it is the only column. |
| Columns.MoveProductColumn | drafts/dashboard.py:84-89 | Moving the frame's columns that way keeps every row and every cell value. |
| Cities.Resolve | soh_processing.py:43-46 | NaN is returned as is. Any other city becomes a value of the table or its own trimmed text. |
| Cities.AliasesAgree | soh_processing.py:11-42 | Every entry written in the alias table is what the dict holds, including the twice-written `surat`, whose two entries agree. |
| Cities.CityMapClosed | soh_processing.py:11-42 | Every target city is trimmed and lower-case. A target that is also a key maps to itself. |
| Cities.TargetsCanonical | soh_processing.py:11-42 | Every target is already trimmed and lower-case. |
| Cities.TargetsFixed | soh_processing.py:11-42 | A target that is also a key maps to itself. |
| Cities.ResolveIdempotent | soh_processing.py:43-46 | Over a closed table, mapping a mapped city again changes nothing. |
| Cities.MapCityIdempotent | soh_processing.py:9-46 | `map_city_name(map_city_name(c)) == map_city_name(c)` for every `c`. |
| Cities.ResolveTrimmed | soh_processing.py:45-46 | Trimmed text is looked up by its lower-case form and kept when absent. |
| Cities.ResolveKnown | soh_processing.py:45-46 | A city whose trimmed lower-case form is a key maps to that key's target. |
| Cities.KnownCityInsensitive | soh_processing.py:45-46 | For a known city, case and surrounding spaces do not change the result. |
| Cities.ResolveUnknown | soh_processing.py:46 | An unknown city comes back trimmed, with its case kept. |
| Cities.NoidaExample | soh_processing.py:22 | `map_city_name("NOIDA") == "ghaziabad"`. |
| Cities.UnknownCityExample | soh_processing.py:46 | `map_city_name("Unknown City ") == "Unknown City"`. |
| Stock.AddCityColumn | drafts/dashboard.py:95 | Every result row gains `city_mapped`, the mapped value of its `city`. |
| Stock.SecondSelectionAddsNothing | drafts/dashboard.py:97-101 | Concatenating the unexpired Not Found rows again adds no row after `drop_duplicates`. |
| Stock.StockSelectionSpec | drafts/dashboard.py:96-101 | A row is selected iff it is a result row that is Partially Serviced, or Not Found with expiry after today. The selection keeps table order and holds no row twice, so identical result rows collapse into one. |
| Stock.SohMatches | drafts/dashboard.py:123-124 | `soh_match` holds the SOH rows with the same city, compared case-insensitively, and the strictly converted code: each as many times as the table has it, no other row, in table order. |
| Stock.SohTotalCounts | drafts/dashboard.py:126 | The `total_qty` sum over `soh_match` equals a reference sum over the whole SOH table that adds the quantity of every matching row, repeated rows included. |
| Stock.StockLookupNone | drafts/dashboard.py:120-128 | No stock is found iff no code has any SOH row in the city. |
| Stock.StockLookupFirst | drafts/dashboard.py:122-128 | The stock found is the `total_qty` sum for the first code, in list order, that has SOH rows in the city. |
| Stock.SearchStock | drafts/dashboard.py:120-128 | The loop with its `break` reports `soh_found` exactly when stock is found, and `soh_qty` is that stock, or 0. |
| Stock.SupplyStatusOf | drafts/dashboard.py:129-134 | The status is:<br>- "can be supplied" iff stock was found and covers `po_qty`;<br>- "not enough" iff stock was found and does not cover it (a NaN `po_qty` is never covered);<br>- "no stock info" iff no stock was found.<br>The message carries the stock and the PO quantity. |
| Stock.SplitJoin | drafts/dashboard.py:137 | Splitting a joined non-empty list of comma-free codes at its commas gives the list back. |
| Stock.CodesCellRoundTrip | drafts/dashboard.py:112-137 | When an item has codes, the `material_codes` cell written for it splits back into exactly its strict code list. |
| Stock.Lift | drafts/dashboard.py:135 | `row.to_dict()` keeps the row's keys in order. |
| Stock.LookupLift | drafts/dashboard.py:135 | `row.to_dict()` keeps every cell value. |
| Stock.BlankedSpec | drafts/dashboard.py:140-144 | Blanking keeps the keys. It sets to `''` exactly the listed columns that the row has, and never adds a column. |
| Stock.BlankSrColumns | drafts/dashboard.py:141-144 | The loop over the five SR columns blanks exactly those present in the row. |
| Stock.ComputedLookup | drafts/dashboard.py:135-139 | A new row holds the four computed cells. Every other key holds the result row's value. |
| Stock.BlankedComputed | drafts/dashboard.py:135-144 | Blanking the computed row clears only the SR columns the result row has. None of the four computed cells is an SR column, so none is cleared. |
| Stock.NewRowLookup | drafts/dashboard.py:135-144 | On a Not Found row each present SR column is `''`. Every other cell is as computed. |
| Stock.BuildRow | drafts/dashboard.py:135-145 | The built row is the computed row, blanked when the status is Not Found. |
| Stock.StockRow | drafts/dashboard.py:105-145 | One pass of the loop: product name, strict codes, stock search, supply status and blanking, combined as `StockRowOf`. |
| Stock.BuildStockRows | drafts/dashboard.py:104-145 | The loop returns `StockRows`: one new row per selected row, in selection order. |
| Stock.StockRowsAt | drafts/dashboard.py:104-145 | New row `i` is `StockRowOf` selected row `i`. |
| Columns.Tabulate | drafts/dashboard.py:82-89 | `pd.DataFrame(rows)` with the product column moved. Its columns:<br>- are a permutation of the union of the rows' keys;<br>- with the product column taken out, are that union in its order;<br>- put the product column right after `item_id`, or at position 1 (0 for a single column) without `item_id`.<br>Every cell holds its row's value, or the fill value where the row lacks the key. |
| Stock.MakeTable | drafts/dashboard.py:147-154 | No table iff there is no new row. Otherwise the table is laid out as `Tabulate` states, with NaN as the fill value. |
| Stock.StockCheck | drafts/dashboard.py:92-154 | The whole stock check: mapped cities, the selection, one new row per selected row, and the table laid out as `MakeTable` states. There is no table iff nothing is selected. |
| Dashboard.ResultTable | drafts/dashboard.py:82-89 | Each row of the first table reads, column by column, like the result dict of its PO line. The table has the PO sheet's `city` column. |
| Dashboard.CityKept | drafts/dashboard.py:77-79 | A result dict keeps the PO line's `city` key. |
| Dashboard.ResultSelected | drafts/dashboard.py:97-98 | A line's result row is selected iff the line is Partially Serviced, or Not Found with its own `po_expiry_date` after today. |
| Dashboard.StockInput | drafts/dashboard.py:95-101 | Over the first table, every row of the selection is a row of that table with its city mapped, and the row of line `i` is selected iff line `i` is Partially Serviced, or Not Found and unexpired. |
| Dashboard.BuildTables | drafts/dashboard.py:48-154 | The main flow. The first table is `Results` laid out by `Tabulate`, and its row `i` reads like the result dict of PO line `i`. The stock check runs over it. Its selection holds the row of line `i` iff that line is Partially Serviced, or Not Found with its PO expiring after today, and no other row. |
| Legacy.EqualRows | data_processing.py:17 | The mask "`item_id` equals the argument under Python `==`" applied to the table: those rows in order, with their repeats. |
| Legacy.StrAll | data_processing.py:22-24 | `astype(str)` renders every code position by position. |
| Legacy.DropNan | data_processing.py:25 | The mask "not `"nan"`" applied to the codes: the others, in order, with their repeats. |
| Legacy.LegacyCodes | data_processing.py:16-25 | The result never holds `"nan"`. An item id no row equals yields `[]`. |
| Legacy.MapItemToMaterialCodes | data_processing.py:16-25 | The loop returns `LegacyCodes`. |
| Legacy.LegacyCodesMembers | data_processing.py:16-25 | A code is returned iff it is not `"nan"` and is the rendered first or second code of a row with that item id. |
| Legacy.LegacyAgreesOnIntegers | data_processing.py:16-25 | On a table of integer ids and codes, the older helper returns exactly the dashboard's material codes. |
| Legacy.LegacyFloatCode | data_processing.py:22 | A code stored as the float `f` is returned as `"f.0"`. |
| Legacy.DashboardFloatCode | drafts/dashboard.py:55-61 | For the same table, the dashboard yields `"f"`, so the two helpers disagree on float-typed codes. |
| Legacy.FloatCodeRenderings | data_processing.py:16-25 | In any table, a row for item `n` with the float code `f` puts `"f.0"` among the older helper's codes and `"f"` among the dashboard's. |
| Legacy.SrMatches | data_processing.py:29 | The filter keeps exactly the SR rows with an equal `po_number` whose `Material Code` renders as the code. |
| Legacy.SrMatchesFirst | data_processing.py:31 | `iloc[0]` is the first such row in table order. |
| Legacy.FindSrEntry | data_processing.py:27-32 | The loop returns `SrEntry`: the first matching row for the first code that has any match. |
| Legacy.SrEntryNone | data_processing.py:27-32 | `None` is returned iff no code matches any row, so always for an empty code list. |
| Legacy.SrEntryFound | data_processing.py:28-31 | A returned row:<br>- comes from the table;<br>- has an equal `po_number`;<br>- has a `Material Code` rendered as one of the codes;<br>- is the first row matching the first code with any match. |

## Left out

- The Streamlit user interface: file uploads, `st.dataframe`, headings and the session-state flag that shows the stock table once (drafts/dashboard.py:156-160). The second, unconditional display of the new rows (:162-165) is a display of the same rows and is not modelled either.
- Reading the spreadsheets. The inputs are parameters.
- The snake-casing of column names (drafts/dashboard.py:24-27). Column names are taken as given after that step.
- Floating point: a float cell is modelled only as an integral value `n.0`. Text is parsed as an optional sign, digits and an optional fraction. Exponents, `inf`, underscores and non-ASCII digits are not parsed. `Keys.PyStr` renders every integral float as `n.0`. Python's `str` and `astype(str)` switch to exponent form (`1e+16`) once |f| >= 1e16, so on such cells `Legacy.LegacyCodes` and `Legacy.SrMatches` compare different text in the model than in the source.
- Keys.Normalize: integers are exact. In the source `int(float(x))` goes through a 64-bit float, so an integer beyond 2^53 is rounded, and two distinct long ids or codes can normalise to the same key there while the model keeps them apart.
- Dates: `po_expiry_date` is an integer day number and "today" is a parameter. `Stock.ExpiresAfter` compares false for any cell that is not a day number. In pandas only a missing date (NaT) compares false; text that `pd.to_datetime` cannot parse raises. Day numbers also drop the time of day: an expiry later on the current day is after the normalised `today` in pandas, but not in the model.
- pandas dtypes: an integer column that holds NaN is stored as float in pandas and renders as `"n.0"` under `astype(str)`. The model keeps each cell's own kind.
- Missing columns: `Records.Field` reads a column a row lacks as NaN. The source raises `KeyError` instead, for example at `row['po_qty']` (drafts/dashboard.py:51) or `sr_data['po_number']` (:63). On such inputs the model computes a result where the source stops. The columns the model does require are:
  - the master table's `material_code` (`hasCode1`);
  - the SR table's `po_number` and `Material Code`, in `Legacy.FindSrEntry` when the code list is not empty (data_processing.py:29).
- Crashes: the other inputs on which the source raises are excluded by preconditions rather than modelled as errors. These are:
  - a non-numeric `item_id` in the stock part (drafts/dashboard.py:112);
  - a non-numeric SOH material code (:124);
  - a NaN mapped city when the item has codes (:123);
  - a non-numeric master `material_code` or `material_code2` on the rows of a selected item (:115, :117), excluded by `Mapping.StockReady`;
  - text in a quantity that is compared or summed.
- Reconcile.Reconcile: the SR rows a line matches must each hold a numeric or NaN `quantity`. A sum over text quantities, which pandas would concatenate, is not modelled.
- Stock.StockCheck: requires the result table to have a `city` column. An empty PO table gives pandas a frame without columns, where line 95 raises.
- Dashboard.BuildTables: requires a non-empty PO sheet with a `city` column. This also excludes one input the source accepts: a PO sheet without `city` where a matched SR row has a `city` cell. There `sr_info` brings the column into `result_df` (drafts/dashboard.py:75-76), and line 95 runs.
- Stock.SearchStock: `total_qty` is an integer column without NaN. The else-branch of line 127 is unreachable once `soh_match` has a `total_qty` column, so it is not modelled.
- Stock.SupplyStatusOf: the status message is kept as a datatype carrying the stock and the PO quantity, not as formatted text.
- Keys.Lower: only `A`-`Z` are lower-cased. Python's `str.lower()` also maps other letters and can change the length (`'İ'.lower()` has two characters). City names and spellings of `nan` outside ASCII therefore compare differently in the model. This also affects `Keys.IsNanText`, `Cities.MapCityName` and `Stock.SameCity`.
- Legacy.EqualRows: Python `==` between cells is modelled for equal kinds and for int against float. Text never equals a number, and NaN equals nothing.
