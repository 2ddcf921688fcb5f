/**
 * The product export engine: a formatted `;`-delimited export with one row per product and four
 * statistics gathered in the same pass, and a raw comma-separated dump.
 */
module ProductExporter {
  import opened Wrappers
  import opened ByteStrings
  import opened Formatting
  import Entities

  /**
   * What the exporter reads through the getters of one persisted product. Id, name, price and stock
   * are NOT NULL columns, so only the description can be null.
   */
  datatype ProductRecord = ProductRecord(id: int, name: Bytes, description: Option<Bytes>, price: real, stock: int)

  /** The record of a persisted product: each field is what the product's getter returns. */
  function RecordOf(p: Entities.Product): (r: ProductRecord)
    reads p
    requires p.GetId().Some? && p.GetName().Some? && p.GetPrice().Some? && p.GetStock().Some?
    ensures Some(r.id) == p.GetId() && Some(r.name) == p.GetName() && r.description == p.GetDescription()
    ensures Some(r.price) == p.GetPrice() && Some(r.stock) == p.GetStock()
  {
    ProductRecord(p.GetId().value, p.GetName().value, p.GetDescription(), p.GetPrice().value, p.GetStock().value)
  }

  /** One field of a CSV record, as handed to the writer. */
  datatype Cell = IntCell(n: int) | TextCell(text: Bytes)

  type Row = seq<Cell>

  // ---------------------------------------------------------------- description cleaning

  predicate IsControl(b: byte) {
    b == LineFeed || b == CarriageReturn || b == Tab
  }

  predicate NoControls(s: Bytes) {
    forall i :: 0 <= i < |s| ==> !IsControl(s[i])
  }

  /** `str_replace($from, $to, $s)` for one-byte search and replacement strings. */
  function ReplaceByte(s: Bytes, from: byte, to: byte): (r: Bytes)
    ensures |r| == |s|
    ensures forall i {:trigger r[i]} :: 0 <= i < |s| ==> r[i] == if s[i] == from then to else s[i]
    decreases |s|
  {
    if s == [] then []
    else ReplaceByte(s[..|s| - 1], from, to) + [if s[|s| - 1] == from then to else s[|s| - 1]]
  }

  /** Each control byte becomes exactly one space; every other byte stays where it was. */
  function ReplaceControls(s: Bytes): (r: Bytes)
    ensures |r| == |s| && NoControls(r)
  {
    seq(|s|, i requires 0 <= i < |s| => if IsControl(s[i]) then Space else s[i])
  }

  /**
   * `str_replace(["\n", "\r", "\t"], ' ', $s)` runs the three replacements one after the other;
   * since a space is none of the three, that is the same as replacing each control byte at once.
   */
  lemma StrReplaceSequential(s: Bytes)
    ensures ReplaceByte(ReplaceByte(ReplaceByte(s, LineFeed, Space), CarriageReturn, Space), Tab, Space)
            == ReplaceControls(s)
  {
    var r := ReplaceByte(ReplaceByte(ReplaceByte(s, LineFeed, Space), CarriageReturn, Space), Tab, Space);
    assert forall i :: 0 <= i < |s| ==> r[i] == ReplaceControls(s)[i];
  }

  /** The bytes PHP's `trim()` strips by default: " \t\n\r\0\x0B". */
  predicate IsTrimByte(b: byte) {
    b == Space || b == Tab || b == LineFeed || b == CarriageReturn || b == Nul || b == VerticalTab
  }

  /** Index of the first byte at or after `i` that `trim` keeps (|s| when there is none). */
  function TrimStart(s: Bytes, i: nat): (k: nat)
    requires i <= |s|
    ensures i <= k <= |s|
    ensures forall j :: i <= j < k ==> IsTrimByte(s[j])
    ensures k == |s| || !IsTrimByte(s[k])
    decreases |s| - i
  {
    if i < |s| && IsTrimByte(s[i]) then TrimStart(s, i + 1) else i
  }

  /** One past the last byte before `k` that `trim` keeps, not going below `lo` (`lo` when there is none). */
  function TrimEnd(s: Bytes, lo: nat, k: nat): (e: nat)
    requires lo <= k <= |s|
    ensures lo <= e <= k
    ensures forall j :: e <= j < k ==> IsTrimByte(s[j])
    ensures e == lo || !IsTrimByte(s[e - 1])
    decreases k
  {
    if lo < k && IsTrimByte(s[k - 1]) then TrimEnd(s, lo, k - 1) else k
  }

  /**
   * `trim`: the slice between the leading and the trailing trim bytes. Every byte cut away is a
   * trim byte, and the slice neither starts nor ends with one.
   */
  function Trim(s: Bytes): (r: Bytes)
    ensures r == [] || (!IsTrimByte(r[0]) && !IsTrimByte(r[|r| - 1]))
  {
    var lo := TrimStart(s, 0);
    s[lo..TrimEnd(s, lo, |s|)]
  }

  /** Trimming cuts only whole runs of trim bytes at either end. */
  lemma TrimSlice(s: Bytes)
    ensures var lo := TrimStart(s, 0);
            var hi := TrimEnd(s, lo, |s|);
            && Trim(s) == s[lo..hi]
            && (forall j :: 0 <= j < lo ==> IsTrimByte(s[j]))
            && (forall j :: hi <= j < |s| ==> IsTrimByte(s[j]))
  {
  }

  /** Text that starts and ends with a byte `trim` keeps is left as it is. */
  lemma TrimKeeps(s: Bytes)
    requires s == [] || (!IsTrimByte(s[0]) && !IsTrimByte(s[|s| - 1]))
    ensures Trim(s) == s
  {
  }

  const MaxDescriptionLength: nat := 100
  const KeptLength: nat := 97
  const Ellipsis: Bytes := [Dot, Dot, Dot]

  /** At most 100 bytes: a longer text keeps its first 97 bytes followed by "...". */
  function Truncate(t: Bytes): (r: Bytes)
    ensures |r| <= MaxDescriptionLength
    ensures |t| > MaxDescriptionLength ==>
              |r| == MaxDescriptionLength && r[..KeptLength] == t[..KeptLength] && r[KeptLength..] == Ellipsis
    ensures |t| <= MaxDescriptionLength ==> r == t
    ensures NoControls(t) ==> NoControls(r)
  {
    if |t| > MaxDescriptionLength then t[..KeptLength] + Ellipsis else t
  }

  /**
   * `cleanDescription`: control bytes become spaces, the ends are trimmed, and a text longer than
   * 100 bytes keeps its first 97 bytes followed by "...".
   */
  function CleanDescription(d: Bytes): (r: Bytes)
    ensures |r| <= MaxDescriptionLength && NoControls(r)
    ensures var t := Trim(ReplaceControls(d));
            if |t| > MaxDescriptionLength
            then |r| == MaxDescriptionLength && r[..KeptLength] == t[..KeptLength] && r[KeptLength..] == Ellipsis
            else r == t
  {
    TrimNoControls(ReplaceControls(d));
    Truncate(Trim(ReplaceControls(d)))
  }

  lemma TrimNoControls(s: Bytes)
    requires NoControls(s)
    ensures NoControls(Trim(s))
  {
    var lo := TrimStart(s, 0);
    var t := Trim(s);
    assert forall j :: 0 <= j < |t| ==> t[j] == s[lo + j];
  }

  /** Replacing control bytes changes nothing in a text that has none. */
  lemma ReplaceControlsKeeps(s: Bytes)
    requires NoControls(s)
    ensures ReplaceControls(s) == s
  {
  }

  /** Cleaning a cleaned description gives it back unchanged. */
  lemma CleanDescriptionIdempotent(d: Bytes)
    ensures CleanDescription(CleanDescription(d)) == CleanDescription(d)
  {
    var r := CleanDescription(d);
    var t := Trim(ReplaceControls(d));
    ReplaceControlsKeeps(r);
    if |t| > MaxDescriptionLength {
      assert r[0] == t[0];
      assert r[|r| - 1] == Dot;
    }
    TrimKeeps(r);
  }

  // ---------------------------------------------------------------- stock status

  datatype StockStatus = Rupture | Faible | Moyen | Eleve

  /** `getStockStatus`: zero is out of stock, up to 5 (negatives included) low, up to 10 medium, above high. */
  function GetStockStatus(stock: int): (s: StockStatus)
    ensures s == Rupture <==> stock == 0
    ensures s == Faible <==> stock != 0 && stock <= 5
    ensures s == Moyen <==> 6 <= stock <= 10
    ensures s == Eleve <==> stock > 10
  {
    if stock == 0 then Rupture
    else if stock <= 5 then Faible
    else if stock <= 10 then Moyen
    else Eleve
  }

  /** The label written in the "Statut Stock" column (UTF-8). */
  function Label(s: StockStatus): (r: Bytes)
    ensures |r| == match s case Rupture => 7 case Faible => 12 case Moyen => 11 case Eleve => 13
  {
    match s
    case Rupture => Ascii("Rupture")
    case Faible => Ascii("Stock faible")
    case Moyen => Ascii("Stock moyen")
    case Eleve => Ascii("Stock ") + EAcute + Ascii("lev") + EAcute
  }

  // ---------------------------------------------------------------- rows

  const NoDescription: Bytes := Ascii("Aucune description")

  /** The "Prix" column: `number_format($price, 2, ',', ' ') . ' €'`. */
  function PriceText(price: real): (r: Bytes)
    ensures r == NumberFormat2(price) + [Space] + EuroSign
    ensures |r| >= 4 && r[|r| - 4..] == [Space] + EuroSign
  {
    var r := NumberFormat2(price) + [Space] + EuroSign;
    assert r[|r| - 4..] == [Space] + EuroSign;
    r
  }

  /** `formatProductRow`: id, name, cleaned description, price in euros, stock, stock status. */
  function FormatProductRow(p: ProductRecord): (row: Row)
    ensures |row| == 6
    ensures row[0] == IntCell(p.id) && row[1] == TextCell(p.name)
    ensures row[2] == TextCell(CleanDescription(p.description.GetOr(NoDescription)))
    ensures row[3] == TextCell(PriceText(p.price))
    ensures row[4] == IntCell(p.stock) && row[5] == TextCell(Label(GetStockStatus(p.stock)))
  {
    var description := CleanDescription(p.description.GetOr(NoDescription));
    var price := PriceText(p.price);
    var status := Label(GetStockStatus(p.stock));
    var row := [IntCell(p.id), TextCell(p.name), TextCell(description), TextCell(price), IntCell(p.stock), TextCell(status)];
    assert |row| == 6 && row[0] == IntCell(p.id) && row[1] == TextCell(p.name) && row[2] == TextCell(description);
    assert row[3] == TextCell(price) && row[4] == IntCell(p.stock) && row[5] == TextCell(status);
    row
  }

  const Header: Row := [TextCell(Ascii("ID")), TextCell(Ascii("Nom")), TextCell(Ascii("Description")),
                        TextCell(Ascii("Prix")), TextCell(Ascii("Stock")), TextCell(Ascii("Statut Stock"))]

  /** `format` applied to each product, in order. */
  function MapRows(ps: seq<ProductRecord>, format: ProductRecord -> Row): (rows: seq<Row>)
    ensures |rows| == |ps|
    decreases |ps|
  {
    if ps == [] then [] else MapRows(ps[..|ps| - 1], format) + [format(ps[|ps| - 1])]
  }

  /** The i-th row formats the i-th product. */
  lemma {:induction false} MapRowsAt(ps: seq<ProductRecord>, format: ProductRecord -> Row)
    ensures forall i :: 0 <= i < |ps| ==> MapRows(ps, format)[i] == format(ps[i])
    decreases |ps|
  {
    if ps != [] {
      var prefix := ps[..|ps| - 1];
      MapRowsAt(prefix, format);
      forall i | 0 <= i < |ps| ensures MapRows(ps, format)[i] == format(ps[i]) {
        if i < |prefix| {
          assert MapRows(ps, format)[i] == MapRows(prefix, format)[i];
          assert prefix[i] == ps[i];
        }
      }
    }
  }

  /** Formatting one more product appends its row. */
  lemma MapRowsSnoc(ps: seq<ProductRecord>, p: ProductRecord, format: ProductRecord -> Row)
    ensures MapRows(ps + [p], format) == MapRows(ps, format) + [format(p)]
  {
    assert (ps + [p])[..|ps|] == ps;
  }

  /** The formatted rows of the products, in repository order. */
  function Rows(ps: seq<ProductRecord>): (rows: seq<Row>)
    ensures |rows| == |ps|
  {
    MapRows(ps, FormatProductRow)
  }

  /** Exactly one row per product, the i-th row formatting the i-th product. */
  lemma RowsAt(ps: seq<ProductRecord>)
    ensures |Rows(ps)| == |ps|
    ensures forall i :: 0 <= i < |ps| ==> Rows(ps)[i] == FormatProductRow(ps[i])
  {
    MapRowsAt(ps, FormatProductRow);
  }

  /** Writing one more product appends its formatted row. */
  lemma RowsSnoc(ps: seq<ProductRecord>, p: ProductRecord)
    ensures Rows(ps + [p]) == Rows(ps) + [FormatProductRow(p)]
  {
    MapRowsSnoc(ps, p, FormatProductRow);
  }

  // ---------------------------------------------------------------- statistics

  datatype ExportStats = ExportStats(totalProducts: nat, totalValue: real, outOfStock: nat, lowStock: nat)

  /** Sum of price × stock. */
  function TotalValue(ps: seq<ProductRecord>): real
    decreases |ps|
  {
    if ps == [] then 0.0 else TotalValue(ps[..|ps| - 1]) + ps[|ps| - 1].price * (ps[|ps| - 1].stock as real)
  }

  /** The stock value is never negative while no price and no stock is. */
  lemma {:induction false} TotalValueNonNegative(ps: seq<ProductRecord>)
    requires forall i :: 0 <= i < |ps| ==> ps[i].price >= 0.0 && ps[i].stock >= 0
    ensures TotalValue(ps) >= 0.0
    decreases |ps|
  {
    if ps != [] {
      var p := ps[|ps| - 1];
      TotalValueNonNegative(ps[..|ps| - 1]);
      assert p.price * (p.stock as real) >= 0.0;
    }
  }

  /** Products whose stock is exactly zero. */
  function CountOutOfStock(ps: seq<ProductRecord>): (n: nat)
    ensures n <= |ps|
    decreases |ps|
  {
    if ps == [] then 0 else CountOutOfStock(ps[..|ps| - 1]) + (if ps[|ps| - 1].stock == 0 then 1 else 0)
  }

  /** Products whose stock is not zero but at most 5. */
  function CountLowStock(ps: seq<ProductRecord>): (n: nat)
    ensures n <= |ps|
    decreases |ps|
  {
    if ps == [] then 0
    else CountLowStock(ps[..|ps| - 1]) + (if ps[|ps| - 1].stock != 0 && ps[|ps| - 1].stock <= 5 then 1 else 0)
  }

  /** No product is out of stock exactly when every product has stock. */
  lemma {:induction false} OutOfStockNone(ps: seq<ProductRecord>)
    ensures CountOutOfStock(ps) == 0 <==> forall i :: 0 <= i < |ps| ==> ps[i].stock != 0
    decreases |ps|
  {
    if ps != [] {
      var prefix := ps[..|ps| - 1];
      OutOfStockNone(prefix);
      assert forall i :: 0 <= i < |prefix| ==> prefix[i] == ps[i];
    }
  }

  /** No product is low on stock exactly when every stock is zero or above 5. */
  lemma {:induction false} LowStockNone(ps: seq<ProductRecord>)
    ensures CountLowStock(ps) == 0 <==> forall i :: 0 <= i < |ps| ==> ps[i].stock == 0 || ps[i].stock > 5
    decreases |ps|
  {
    if ps != [] {
      var prefix := ps[..|ps| - 1];
      LowStockNone(prefix);
      assert forall i :: 0 <= i < |prefix| ==> prefix[i] == ps[i];
    }
  }

  /** The four statistics of `calculateExportStats`. */
  function StatsOf(ps: seq<ProductRecord>): (stats: ExportStats)
    ensures stats.totalProducts == |ps|
    ensures stats.outOfStock + stats.lowStock <= stats.totalProducts
  {
    CountersBounded(ps);
    ExportStats(|ps|, TotalValue(ps), CountOutOfStock(ps), CountLowStock(ps))
  }

  /** One more product adds its stock value and, by its stock, to at most one counter. */
  lemma StatsSnoc(ps: seq<ProductRecord>, p: ProductRecord)
    ensures TotalValue(ps + [p]) == TotalValue(ps) + p.price * (p.stock as real)
    ensures CountOutOfStock(ps + [p]) == CountOutOfStock(ps) + (if p.stock == 0 then 1 else 0)
    ensures CountLowStock(ps + [p]) == CountLowStock(ps) + (if p.stock != 0 && p.stock <= 5 then 1 else 0)
  {
    assert (ps + [p])[..|ps|] == ps;
  }

  /** No product is counted both out of stock and low, so the two counters never exceed the total. */
  lemma {:induction false} CountersBounded(ps: seq<ProductRecord>)
    ensures CountOutOfStock(ps) + CountLowStock(ps) <= |ps|
    decreases |ps|
  {
    if ps != [] {
      CountersBounded(ps[..|ps| - 1]);
    }
  }

  /** Rows whose "Statut Stock" field carries `status`. */
  function CountLabel(rows: seq<Row>, status: Bytes): nat
    decreases |rows|
  {
    if rows == [] then 0
    else CountLabel(rows[..|rows| - 1], status)
         + (if |rows[|rows| - 1]| == 6 && rows[|rows| - 1][5] == TextCell(status) then 1 else 0)
  }

  /** A row formatting whose sixth field is the stock label of the product. */
  ghost predicate LabelsStock(format: ProductRecord -> Row) {
    forall p :: |format(p)| == 6 && format(p)[5] == TextCell(Label(GetStockStatus(p.stock)))
  }

  /** Under such a formatting, the counters count the "Rupture" and the "Stock faible" rows. */
  lemma {:induction false} CountersMatchLabelsOf(ps: seq<ProductRecord>, format: ProductRecord -> Row)
    requires LabelsStock(format)
    ensures CountOutOfStock(ps) == CountLabel(MapRows(ps, format), Label(Rupture))
    ensures CountLowStock(ps) == CountLabel(MapRows(ps, format), Label(Faible))
    decreases |ps|
  {
    if ps != [] {
      var rows := MapRows(ps, format);
      assert rows[..|rows| - 1] == MapRows(ps[..|ps| - 1], format);
      CountersMatchLabelsOf(ps[..|ps| - 1], format);
    }
  }

  /** The counters agree with the rows: out of stock counts "Rupture" rows, low stock "Stock faible" rows. */
  lemma CountersMatchLabels(ps: seq<ProductRecord>)
    ensures CountOutOfStock(ps) == CountLabel(Rows(ps), Label(Rupture))
    ensures CountLowStock(ps) == CountLabel(Rows(ps), Label(Faible))
  {
    CountersMatchLabelsOf(ps, FormatProductRow);
  }

  /** The stock value of two concatenated lists is the sum of their stock values. */
  lemma {:induction false} TotalValueAppend(a: seq<ProductRecord>, b: seq<ProductRecord>)
    ensures TotalValue(a + b) == TotalValue(a) + TotalValue(b)
    decreases |b|
  {
    if b == [] {
      assert a + b == a;
    } else {
      var rest, p := b[..|b| - 1], b[|b| - 1];
      TotalValueAppend(a, rest);
      assert (a + b)[..|a + b| - 1] == a + rest && (a + b)[|a + b| - 1] == p;
    }
  }

  /** The out-of-stock count of two concatenated lists is the sum of their counts. */
  lemma {:induction false} OutOfStockAppend(a: seq<ProductRecord>, b: seq<ProductRecord>)
    ensures CountOutOfStock(a + b) == CountOutOfStock(a) + CountOutOfStock(b)
    decreases |b|
  {
    if b == [] {
      assert a + b == a;
    } else {
      var rest, p := b[..|b| - 1], b[|b| - 1];
      OutOfStockAppend(a, rest);
      assert (a + b)[..|a + b| - 1] == a + rest && (a + b)[|a + b| - 1] == p;
    }
  }

  /** The low-stock count of two concatenated lists is the sum of their counts. */
  lemma {:induction false} LowStockAppend(a: seq<ProductRecord>, b: seq<ProductRecord>)
    ensures CountLowStock(a + b) == CountLowStock(a) + CountLowStock(b)
    decreases |b|
  {
    if b == [] {
      assert a + b == a;
    } else {
      var rest, p := b[..|b| - 1], b[|b| - 1];
      LowStockAppend(a, rest);
      assert (a + b)[..|a + b| - 1] == a + rest && (a + b)[|a + b| - 1] == p;
    }
  }

  /** The statistics of two concatenated lists are the sums of their statistics. */
  lemma StatsAppend(a: seq<ProductRecord>, b: seq<ProductRecord>)
    ensures StatsOf(a + b) == ExportStats(StatsOf(a).totalProducts + StatsOf(b).totalProducts,
                                          StatsOf(a).totalValue + StatsOf(b).totalValue,
                                          StatsOf(a).outOfStock + StatsOf(b).outOfStock,
                                          StatsOf(a).lowStock + StatsOf(b).lowStock)
  {
    TotalValueAppend(a, b);
    OutOfStockAppend(a, b);
    LowStockAppend(a, b);
  }

  // ---------------------------------------------------------------- the CSV writer

  /** The CSV writer the export fills: its delimiter and the records inserted so far. */
  class CsvWriter {
    var delimiter: byte
    var records: seq<Row>

    /** `Writer::createFromString('')`: no records, the default `,` delimiter. */
    constructor ()
      ensures delimiter == Comma && records == []
    {
      delimiter := Comma;
      records := [];
    }

    method SetDelimiter(delimiter: byte)
      modifies this`delimiter
      ensures this.delimiter == delimiter
    {
      this.delimiter := delimiter;
    }

    method InsertOne(row: Row)
      modifies this`records
      ensures records == old(records) + [row]
    {
      records := records + [row];
    }
  }

  /**
   * The loop of `calculateExportStats`, written once for any row formatting: each product's row is
   * inserted in order while the four statistics accumulate.
   */
  method InsertAndCount(products: seq<ProductRecord>, csv: CsvWriter, format: ProductRecord -> Row)
    returns (stats: ExportStats)
    modifies csv`records
    ensures csv.records == old(csv.records) + MapRows(products, format)
    ensures stats == StatsOf(products)
  {
    ghost var written := csv.records;
    var totalProducts: nat := 0;
    var totalValue: real := 0.0;
    var outOfStock: nat := 0;
    var lowStock: nat := 0;
    var i := 0;
    while i < |products|
      invariant 0 <= i <= |products|
      invariant csv.records == written + MapRows(products[..i], format)
      invariant totalProducts == i && totalValue == TotalValue(products[..i])
      invariant outOfStock == CountOutOfStock(products[..i]) && lowStock == CountLowStock(products[..i])
    {
      var product := products[i];
      var done, next := products[..i], products[..i + 1];
      assert next == done + [product];
      MapRowsSnoc(done, product, format);
      StatsSnoc(done, product);
      var row := format(product);
      assert written + MapRows(next, format) == (written + MapRows(done, format)) + [row];
      assert TotalValue(next) == TotalValue(done) + product.price * (product.stock as real);
      assert CountOutOfStock(next) == CountOutOfStock(done) + (if product.stock == 0 then 1 else 0);
      assert CountLowStock(next) == CountLowStock(done) + (if product.stock != 0 && product.stock <= 5 then 1 else 0);
      csv.InsertOne(row);
      totalValue := totalValue + product.price * (product.stock as real);
      totalProducts := totalProducts + 1;
      if product.stock == 0 {
        outOfStock := outOfStock + 1;
      } else if product.stock <= 5 {
        lowStock := lowStock + 1;
      }
      i := i + 1;
    }
    assert products[..i] == products;
    stats := ExportStats(totalProducts, totalValue, outOfStock, lowStock);
  }

  /** `calculateExportStats`: one pass that writes the formatted row of every product and gathers the statistics. */
  method CalculateExportStats(products: seq<ProductRecord>, csv: CsvWriter) returns (stats: ExportStats)
    modifies csv`records
    ensures csv.records == old(csv.records) + Rows(products)
    ensures stats == StatsOf(products)
  {
    stats := InsertAndCount(products, csv, FormatProductRow);
  }

  // ---------------------------------------------------------------- the formatted export

  /** `'products_export_' . date('Y_m_d_H_i_s') . '.csv'`, with the time supplied by the caller. */
  function ExportFilename(now: DateTime): (name: Bytes)
    ensures |name| >= 20 && name[..16] == Ascii("products_export_") && name[|name| - 4..] == Ascii(".csv")
  {
    Ascii("products_export_") + DateStamp(now) + Ascii(".csv")
  }

  /** For a four-digit year the filename has 39 bytes: fixed prefix, the stamp of `now`, ".csv". */
  lemma ExportFilenameShape(now: DateTime)
    requires ValidDateTime(now) && now.year <= 9999
    ensures var f := ExportFilename(now);
            |f| == 39 && f[..16] == Ascii("products_export_") && f[35..] == Ascii(".csv")
            && ParseDateStamp(f[16..35]) == Some(now)
  {
    var f := ExportFilename(now);
    assert f[16..35] == DateStamp(now);
  }

  /** The records written, with the delimiter they are written with. */
  datatype CsvDocument = CsvDocument(delimiter: byte, records: seq<Row>)

  /** The array returned by `exportToCsvResponse`. */
  datatype ExportResult = ExportResult(csv: CsvDocument, filename: Bytes, totalProducts: nat,
                                       totalValue: real, outOfStock: nat, lowStock: nat)

  /**
   * `exportToCsvResponse`: a `;`-delimited document whose first record is the header, followed by
   * one record per product in repository order, the timestamped filename and the statistics.
   */
  method ExportToCsvResponse(products: seq<ProductRecord>, now: DateTime) returns (result: ExportResult)
    ensures result.csv == CsvDocument(Semicolon, [Header] + Rows(products))
    ensures result.filename == ExportFilename(now)
    ensures result.totalProducts == |products| && result.totalValue == TotalValue(products)
    ensures result.outOfStock == CountOutOfStock(products) && result.lowStock == CountLowStock(products)
  {
    var csv := new CsvWriter();
    csv.SetDelimiter(Semicolon);
    csv.InsertOne(Header);
    assert csv.records == [Header];
    var stats := CalculateExportStats(products, csv);
    result := ExportResult(CsvDocument(csv.delimiter, csv.records), ExportFilename(now),
                           stats.totalProducts, stats.totalValue, stats.outOfStock, stats.lowStock);
  }

  // ---------------------------------------------------------------- the raw dump

  const RawHeader: Bytes := Ascii("id,name,description,price,stock") + [LineFeed]

  lemma RawHeaderLineFeeds()
    ensures CountByte(RawHeader, LineFeed) == 1
  {
    var h := Ascii("id,name,description,price,stock");
    assert forall i :: 0 <= i < |h| ==> h[i] != LineFeed;
    CountByteAbsent(h, LineFeed);
    assert RawHeader[..|RawHeader| - 1] == h;
  }

  /** Text made of digits, minus signs and points holds neither a comma nor a line feed. */
  lemma NumericTextPlain(s: Bytes)
    requires forall i :: 0 <= i < |s| ==> IsDigit(s[i]) || s[i] == Minus || s[i] == Dot
    ensures Comma !in s && LineFeed !in s
  {
  }

  /** The `%d` and `%.2f` texts of a product hold neither a comma nor a line feed. */
  lemma NumbersPlain(id: Bytes, price: Bytes, stock: Bytes)
    requires forall i :: 0 <= i < |id| ==> IsDigit(id[i]) || id[i] == Minus
    requires forall i :: 0 <= i < |price| ==> IsDigit(price[i]) || price[i] == Minus || price[i] == Dot
    requires forall i :: 0 <= i < |stock| ==> IsDigit(stock[i]) || stock[i] == Minus
    ensures Comma !in id && Comma !in price && Comma !in stock
    ensures LineFeed !in id && LineFeed !in price && LineFeed !in stock
  {
    NumericTextPlain(id);
    NumericTextPlain(price);
    NumericTextPlain(stock);
  }

  /**
   * The five conversions of the raw line; a null description prints as nothing. Only the name and
   * the description can hold a comma or a line feed.
   */
  function RawFields(p: ProductRecord): (fields: seq<Bytes>)
    ensures |fields| == 5 && fields[1] == p.name && fields[2] == p.description.GetOr([])
    ensures fields[0] == IntText(p.id) && fields[3] == FixedTwo(p.price) && fields[4] == IntText(p.stock)
    ensures Comma !in fields[0] && Comma !in fields[3] && Comma !in fields[4]
    ensures LineFeed !in fields[0] && LineFeed !in fields[3] && LineFeed !in fields[4]
  {
    var id, price, stock := IntText(p.id), FixedTwo(p.price), IntText(p.stock);
    NumbersPlain(id, price, stock);
    var fields := [id, p.name, p.description.GetOr([]), price, stock];
    assert |fields| == 5 && fields[0] == id && fields[3] == price && fields[4] == stock;
    fields
  }

  /** `sprintf("%d,%s,%s,%.2f,%d\n", ...)`: the five conversions separated by commas, then a line feed. */
  function RawLine(p: ProductRecord): (line: Bytes)
    ensures line == Join(RawFields(p), Comma) + [LineFeed]
    ensures var id := IntText(p.id); |line| > |id| && line[..|id| + 1] == id + [Comma]
    ensures line[|line| - 1] == LineFeed
  {
    Join(RawFields(p), Comma) + [LineFeed]
  }

  /** A raw line spelled out: id, name, description, price and stock, comma-separated, then a line feed. */
  lemma RawLineLayout(p: ProductRecord)
    ensures RawLine(p) == IntText(p.id) + [Comma] + p.name + [Comma] + p.description.GetOr([]) + [Comma]
                          + FixedTwo(p.price) + [Comma] + IntText(p.stock) + [LineFeed]
  {
    var fields := RawFields(p);
    assert fields == [fields[0], fields[1], fields[2], fields[3], fields[4]];
    JoinFive(fields[0], fields[1], fields[2], fields[3], fields[4], Comma);
  }

  /** The header followed by one line per product, in repository order. */
  function RawDump(ps: seq<ProductRecord>): (dump: Bytes)
    ensures |dump| >= |RawHeader| && dump[..|RawHeader|] == RawHeader
    decreases |ps|
  {
    if ps == [] then RawHeader
    else
      var prefix := RawDump(ps[..|ps| - 1]);
      var dump := prefix + RawLine(ps[|ps| - 1]);
      assert dump[..|RawHeader|] == prefix[..|RawHeader|];
      dump
  }

  /** `exportToCsv`: appends one line per product to the header. */
  method ExportToCsv(products: seq<ProductRecord>) returns (csv: Bytes)
    ensures csv == RawDump(products)
  {
    csv := RawHeader;
    for i := 0 to |products|
      invariant csv == RawDump(products[..i])
    {
      assert products[..i + 1][..i] == products[..i];
      csv := csv + RawLine(products[i]);
    }
    assert products[..|products|] == products;
  }

  /** Line feeds a product's line holds besides its terminating one: those inside its name and description. */
  function EmbeddedLineFeeds(p: ProductRecord): nat {
    CountByte(p.name, LineFeed) + CountByte(p.description.GetOr([]), LineFeed)
  }

  function TotalEmbeddedLineFeeds(ps: seq<ProductRecord>): nat
    decreases |ps|
  {
    if ps == [] then 0 else TotalEmbeddedLineFeeds(ps[..|ps| - 1]) + EmbeddedLineFeeds(ps[|ps| - 1])
  }

  /** Five comma-joined fields and a line feed: the line feeds are the last one and those of fields 1 and 2. */
  lemma FieldsLineFeeds(fields: seq<Bytes>)
    requires |fields| == 5
    requires LineFeed !in fields[0] && LineFeed !in fields[3] && LineFeed !in fields[4]
    ensures CountByte(Join(fields, Comma) + [LineFeed], LineFeed)
            == 1 + CountByte(fields[1], LineFeed) + CountByte(fields[2], LineFeed)
  {
    CountByteAbsent(fields[0], LineFeed);
    CountByteAbsent(fields[3], LineFeed);
    CountByteAbsent(fields[4], LineFeed);
    assert CountInFields(fields[4..], LineFeed) == 0 by {
      assert fields[4..][1..] == [];
    }
    assert CountInFields(fields[3..], LineFeed) == 0 by {
      assert fields[3..][1..] == fields[4..];
    }
    assert CountInFields(fields[2..], LineFeed) == CountByte(fields[2], LineFeed) by {
      assert fields[2..][1..] == fields[3..];
    }
    assert CountInFields(fields[1..], LineFeed) == CountByte(fields[1], LineFeed) + CountByte(fields[2], LineFeed) by {
      assert fields[1..][1..] == fields[2..];
    }
    CountByteJoin(fields, Comma, LineFeed);
    CountByteAppend(Join(fields, Comma), [LineFeed], LineFeed);
    assert CountByte([LineFeed], LineFeed) == 1 by {
      assert [LineFeed][..0] == [];
    }
  }

  /** A product's line holds its terminating line feed and those inside its name and description. */
  lemma RawLineLineFeeds(p: ProductRecord)
    ensures CountByte(RawLine(p), LineFeed) == 1 + EmbeddedLineFeeds(p)
  {
    var fields := RawFields(p);
    FieldsLineFeeds(fields);
  }

  /**
   * The raw dump has one line for the header and one per product, plus one for every line feed inside
   * a name or description (which the `%s` conversions copy unchanged).
   */
  lemma {:induction false} RawDumpLineCount(ps: seq<ProductRecord>)
    ensures CountByte(RawDump(ps), LineFeed) == 1 + |ps| + TotalEmbeddedLineFeeds(ps)
    decreases |ps|
  {
    if ps == [] {
      RawHeaderLineFeeds();
    } else {
      RawDumpLineCount(ps[..|ps| - 1]);
      CountByteAppend(RawDump(ps[..|ps| - 1]), RawLine(ps[|ps| - 1]), LineFeed);
      RawLineLineFeeds(ps[|ps| - 1]);
    }
  }
}
