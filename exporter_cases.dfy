/** The exporter's behaviour on the concrete products and descriptions its unit tests use. */
module ExporterCases {
  import opened Wrappers
  import opened ByteStrings
  import opened Formatting
  import opened ProductExporter

  /** Line feed, carriage return and tab each become one space. */
  lemma CleanDescriptionControls()
    ensures CleanDescription(Ascii("Line1\nLine2\rLine3\tTab")) == Ascii("Line1 Line2 Line3 Tab")
  {
    var d := Ascii("Line1\nLine2\rLine3\tTab");
    var t := ReplaceControls(d);
    assert t == Ascii("Line1 Line2 Line3 Tab");
    TrimKeeps(t);
  }

  /** 150 bytes are cut to 100: the first 97 and "...". */
  lemma CleanDescriptionLong()
    ensures var r := CleanDescription(seq(150, _ => 97 as byte));
            |r| == 100 && r[97..] == Ascii("...")
  {
    var d: Bytes := seq(150, _ => 97 as byte);
    ReplaceControlsKeeps(d);
    TrimKeeps(d);
  }

  /** 19.99 is written "19,99 €". */
  lemma PriceTextCase()
    ensures PriceText(19.99) == Ascii("19,99 ") + EuroSign
  {
    assert RoundHalfAwayFromZero(19.99 * 100.0) == 1999;
    assert Abs(1999) / 100 == 19 && Abs(1999) % 100 == 99;
    assert NumberFormat2(19.99) == GroupedAmount(false, 19, 99);
    GroupedCentsCase();
  }

  lemma GroupedCentsCase()
    ensures GroupedAmount(false, 19, 99) == Ascii("19,99")
  {
    assert Digits(19) == [Digits(1)[0], DigitByte(9)];
    assert GroupThousands(Digits(19), Space) == Digits(19);
    assert PadLeft(99, 2) == Digits(99) == [Digits(9)[0], DigitByte(9)];
  }

  /** The two products of the export test: low stock with a description, out of stock without. */
  const FirstProduct: ProductRecord := ProductRecord(1, Ascii("Produit 1"), Some(Ascii("Description du produit 1")), 10.99, 5)
  const SecondProduct: ProductRecord := ProductRecord(2, Ascii("Produit 2"), None, 25.50, 0)

  /** Two products, a stock value of 10.99 × 5, one out of stock and one low. */
  lemma StatsCase()
    ensures StatsOf([FirstProduct, SecondProduct]) == ExportStats(2, 54.95, 1, 1)
  {
    var ps := [FirstProduct, SecondProduct];
    assert ps[..1] == [FirstProduct] && [FirstProduct][..0] == [];
    assert TotalValue([FirstProduct]) == 54.95;
    assert CountOutOfStock([FirstProduct]) == 0 && CountLowStock([FirstProduct]) == 1;
  }

  /** A product without a description is written "Aucune description", out of stock as "Rupture". */
  lemma MissingDescriptionCase()
    ensures FormatProductRow(SecondProduct) ==
      [IntCell(2), TextCell(Ascii("Produit 2")), TextCell(Ascii("Aucune description")),
       TextCell(Ascii("25,50 ") + EuroSign), IntCell(0), TextCell(Ascii("Rupture"))]
  {
    NoDescriptionClean();
    PriceTextHalfCase();
  }

  /** 25.50 is written "25,50 €". */
  lemma PriceTextHalfCase()
    ensures PriceText(25.50) == Ascii("25,50 ") + EuroSign
  {
    assert RoundHalfAwayFromZero(25.50 * 100.0) == 2550;
    assert Abs(2550) / 100 == 25 && Abs(2550) % 100 == 50;
    assert NumberFormat2(25.50) == GroupedAmount(false, 25, 50);
    GroupedHalfCase();
  }

  lemma GroupedHalfCase()
    ensures GroupedAmount(false, 25, 50) == Ascii("25,50")
  {
    assert Digits(25) == [Digits(2)[0], DigitByte(5)];
    assert GroupThousands(Digits(25), Space) == Digits(25);
    assert PadLeft(50, 2) == Digits(50) == [Digits(5)[0], DigitByte(0)];
  }

  /** The row the formatting test expects: newlines in the description become spaces. */
  lemma FullRowCase()
    ensures FormatProductRow(ProductRecord(42, Ascii("Test Product"), Some(Ascii("Description\nwith\nnewlines")), 19.99, 3)) ==
      [IntCell(42), TextCell(Ascii("Test Product")), TextCell(Ascii("Description with newlines")),
       TextCell(Ascii("19,99 ") + EuroSign), IntCell(3), TextCell(Ascii("Stock faible"))]
  {
    CleanDescriptionNewlines();
    PriceTextCase();
  }

  lemma CleanDescriptionNewlines()
    ensures CleanDescription(Ascii("Description\nwith\nnewlines")) == Ascii("Description with newlines")
  {
    var d := Ascii("Description\nwith\nnewlines");
    var t := ReplaceControls(d);
    assert t == Ascii("Description with newlines");
    TrimKeeps(t);
  }

  lemma NoDescriptionClean()
    ensures CleanDescription(NoDescription) == NoDescription
  {
    var d := NoDescription;
    assert forall i :: 0 <= i < |d| ==> d[i] == Space || 65 <= d[i] as int <= 122;
    ReplaceControlsKeeps(d);
    TrimKeeps(d);
  }

  /** With no products the document is the header alone and every statistic is zero. */
  lemma EmptyExportCase()
    ensures [Header] + Rows([]) == [Header]
    ensures StatsOf([]) == ExportStats(0, 0.0, 0, 0)
  {
  }
}
