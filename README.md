# Product export, promo codes and the Product–PromoCode association

A Dafny model of the business logic of a small Symfony shop application:

- **The product exporter** (`ProductExporter`). It produces a `;`-delimited CSV export and a raw
  comma-separated dump. The export has a fixed header and one row per product, built from six
  fields:
  - the id;
  - the name;
  - the description, cleaned and cut to 100 bytes;
  - the price in euros;
  - the stock;
  - a stock status label.

  While the rows are written, the same pass gathers four statistics: the number of products, the
  total stock value, the products out of stock and the products low on stock. The export filename
  carries a `Y_m_d_H_i_s` timestamp. The raw dump has a header, then one `sprintf` line per product.
- **Promo-code validation.** Two callers apply a code to a product's price. One is the live
  component's `updateCode` action, which sets a discounted price or an error message. The other is
  the product page's form branch, which renders a discounted price or adds an error flash. Both look
  the code up for the product, reject it when it is unknown or has expired, and otherwise take its
  percentage off the price.
- **The entities.** `Product` owns a collection of `PromoCode`s, and each `PromoCode` points back to
  its product. `addPromoCode` and `removePromoCode` keep both sides consistent. The setters change
  one field each.

PHP strings are byte strings, modelled as `seq<byte>`. The French labels and messages are spelled out
in UTF-8, for example `Stock élevé`, `expiré` and `€`. Prices, percentages and the stock value are
`real`.

The modules are:

- `Wrappers` (`wrappers.dfy`): `Option`
- `ByteStrings` (`bytestrings.dfy`): bytes, the named control and punctuation bytes, literals, byte counting
- `Formatting` (`formatting.dfy`): `%d`, `%.2f`, `number_format(x, 2, ',', ' ')`, `date('Y_m_d_H_i_s')`
- `Entities` (`entities.dfy`): the two entity classes
- `ProductExporter` (`exporter.dfy`): the exporter, with the CSV writer as a class holding its records
- `ExporterCases` (`exporter_cases.dfy`): the exporter on the concrete inputs of its unit tests
- `Promo` (`promo.dfy`): the lookup, the shared decision, the live component and the page branch

The exporter reads each product through its getters. `ProductRecord` is what those getters return
for a persisted product. Its id, name, price and stock come from NOT NULL columns; only the
description may be null.

Two kinds of loop are written as methods, each proved against a specification function:

- `calculateExportStats` inserts rows into the writer object. Its loop is `InsertAndCount`, written
  once for any row formatting; `CalculateExportStats` passes it `FormatProductRow`.
- `exportToCsv` builds its dump with `.=`.

The two promo callers share one decision, `Decide`.
- `UpdateCode` is a method of the component class and assigns its two output fields.
- `ShowProduct` returns the price and appends to a `FlashBag` object.

The repository's `findOneBy` is a first-match search over a sequence of stored codes. The clock is a
parameter.

PHP semantics that the model spells out:

- `empty()` treats null, `""` and `"0"` alike. So the component takes the code `"0"` for no code at
  all. The page's form branch never tests for emptiness. `ZeroCodeDiverges` states the difference.
- A null expiration date compares below any date. So a code without an expiration date counts as
  expired.
- Arithmetic treats a null price or a null percentage as 0.
- `number_format` rounds half away from zero. `sprintf('%.2f')` sends an exact half to the even
  neighbour.

## Model

| member | source | states |
|---|---|---|
| `ProductExporter.RecordOf` | src/Entity/Product.php:44-88 | the record carries what the five getters return for a product whose id, name, price and stock are set, the description possibly null |
| `ProductExporter.ReplaceByte` | src/Service/ProductExporter.php:114 | one `str_replace` pass: same length, each occurrence of the searched byte becomes the replacement, every other byte stays |
| `ProductExporter.ReplaceControls` | src/Service/ProductExporter.php:114 | same length as the input, and no `\n`, `\r` or `\t` remains |
| `ProductExporter.StrReplaceSequential` | src/Service/ProductExporter.php:114 | the three successive `str_replace` passes give the same text as replacing every control byte at once |
| `ProductExporter.Trim` | src/Service/ProductExporter.php:115 | the trimmed text is empty or neither starts nor ends with one of " \t\n\r\0\x0B" |
| `ProductExporter.TrimSlice` | src/Service/ProductExporter.php:115 | trim keeps one contiguous slice, and every byte cut before or after it is a trim byte |
| `ProductExporter.TrimKeeps` | src/Service/ProductExporter.php:115 | a text whose ends are not trim bytes is left unchanged |
| `ProductExporter.Truncate` | src/Service/ProductExporter.php:116 | at most 100 bytes; a longer text becomes its first 97 bytes and "..." (exactly 100); a shorter one is unchanged |
| `ProductExporter.CleanDescription` | src/Service/ProductExporter.php:112-117 | at most 100 bytes and no `\n`/`\r`/`\t`; equal to the trimmed, replaced text when that has at most 100 bytes, otherwise its first 97 bytes and "..." |
| `ProductExporter.TrimNoControls` | src/Service/ProductExporter.php:114-115 | trimming a text without control bytes gives one without control bytes |
| `ProductExporter.ReplaceControlsKeeps` | src/Service/ProductExporter.php:114 | replacement changes nothing in a text without control bytes |
| `ProductExporter.CleanDescriptionIdempotent` | src/Service/ProductExporter.php:112-117 | cleaning a cleaned description gives it back unchanged |
| `ProductExporter.GetStockStatus` | src/Service/ProductExporter.php:122-132 | partition of all integers: 0 ⇔ Rupture; non-zero and ≤ 5, negatives included ⇔ Stock faible; 6..10 ⇔ Stock moyen; > 10 ⇔ Stock élevé |
| `ProductExporter.Label` | src/Service/ProductExporter.php:124-131 | the four labels have 7, 12, 11 and 13 bytes, so no two statuses share a label |
| `ProductExporter.PriceText` | src/Service/ProductExporter.php:103 | the price column is `number_format` of the price (whose value and grouping `NumberFormat2` states) followed by " €" |
| `ProductExporter.FormatProductRow` | src/Service/ProductExporter.php:94-107 | exactly six fields in order: id, name, cleaned description (a null one replaced by "Aucune description"), price text, stock, stock label |
| `ProductExporter.RowsAt` | src/Service/ProductExporter.php:69-71 | one row per product, the i-th row formatting the i-th product |
| `ProductExporter.RowsSnoc` | src/Service/ProductExporter.php:69-71 | writing one more product appends exactly its formatted row |
| `ProductExporter.Rows` | src/Service/ProductExporter.php:69-71 | one row per product |
| `ProductExporter.TotalValue` | src/Service/ProductExporter.php:73 | Σ price × stock over the products (a definition; what it satisfies is stated by `TotalValueNonNegative`, `StatsSnoc` and `StatsAppend`) |
| `ProductExporter.TotalValueNonNegative` | src/Service/ProductExporter.php:73 | Σ price × stock is never negative while no price and no stock is |
| `ProductExporter.CountOutOfStock` | src/Service/ProductExporter.php:76-77 | at most one per product; zero exactly when no product has stock 0 is `OutOfStockNone` |
| `ProductExporter.CountLowStock` | src/Service/ProductExporter.php:78-79 | at most one per product; zero exactly when no product is low is `LowStockNone` |
| `ProductExporter.OutOfStockNone` | src/Service/ProductExporter.php:76-77 | the out-of-stock count is zero exactly when every product has a non-zero stock |
| `ProductExporter.LowStockNone` | src/Service/ProductExporter.php:78-79 | the low-stock count is zero exactly when every product has stock 0 or above 5 |
| `ProductExporter.StatsOf` | src/Service/ProductExporter.php:62-89 | the product count is the number of products, and the two stock counters together never exceed it |
| `ProductExporter.StatsSnoc` | src/Service/ProductExporter.php:73-80 | one more product adds price × stock to the value and counts toward at most one of the two counters, by its stock |
| `ProductExporter.CountersBounded` | src/Service/ProductExporter.php:76-80 | out of stock + low stock ≤ number of products |
| `ProductExporter.CountersMatchLabels` | src/Service/ProductExporter.php:69-80 | the out-of-stock counter equals the number of rows labelled "Rupture", the low-stock counter the number labelled "Stock faible" |
| `ProductExporter.StatsAppend` | src/Service/ProductExporter.php:62-89 | the statistics of two concatenated lists are the sums of their statistics |
| `ProductExporter.CsvWriter.constructor` | src/Service/ProductExporter.php:43 | a new writer has no records and the default `,` delimiter |
| `ProductExporter.CsvWriter.SetDelimiter` | src/Service/ProductExporter.php:44 | the delimiter becomes the one given; the records are not touched |
| `ProductExporter.CsvWriter.InsertOne` | src/Service/ProductExporter.php:71 | the row is appended after the records already written |
| `ProductExporter.InsertAndCount` | src/Service/ProductExporter.php:69-81 | the loop appends each product's row in order and returns the count, Σ price × stock, the stock-0 count and the non-zero ≤ 5 count |
| `ProductExporter.CalculateExportStats` | src/Service/ProductExporter.php:62-89 | the writer gains the formatted rows of the products, in order, after its earlier records; the statistics are those of the products |
| `ProductExporter.ExportFilename` | src/Service/ProductExporter.php:51 | the filename starts with "products_export_" and ends with ".csv" |
| `ProductExporter.ExportFilenameShape` | src/Service/ProductExporter.php:51 | for a four-digit year the filename is 39 bytes: "products_export_", a stamp that reads back as the given time, ".csv" |
| `ProductExporter.ExportToCsvResponse` | src/Service/ProductExporter.php:40-57 | a `;`-delimited document holding the header then one row per product in order, the timestamped filename, and the four statistics |
| `ProductExporter.RawFields` | src/Service/ProductExporter.php:26-33 | the five conversions in order: `%d` of the id, the name, the description (a null one as nothing), `%.2f` of the price, `%d` of the stock; the three numeric ones hold no comma and no line feed |
| `ProductExporter.RawLine` | src/Service/ProductExporter.php:26-33 | the five conversions joined by commas, then a line feed; it starts with the `%d` id and a comma and ends with the line feed |
| `ProductExporter.RawLineLayout` | src/Service/ProductExporter.php:26-33 | a line is exactly id, name, description, price and stock, in that order, with a comma between each and a line feed at the end |
| `ProductExporter.RawDump` | src/Service/ProductExporter.php:20-37 | the dump always starts with "id,name,description,price,stock\n" |
| `ProductExporter.RawHeaderLineFeeds` | src/Service/ProductExporter.php:23 | the raw header holds exactly one line feed, its terminator |
| `ProductExporter.ExportToCsv` | src/Service/ProductExporter.php:20-37 | the dump is the header followed by one `sprintf` line per product, in order |
| `ProductExporter.RawLineLineFeeds` | src/Service/ProductExporter.php:26-33 | a product's line holds one terminating line feed plus those inside its name and description |
| `ProductExporter.RawDumpLineCount` | src/Service/ProductExporter.php:20-37 | the dump has 1 + (number of products) + (line feeds inside names and descriptions) line feeds |
| `Formatting.Digits` | src/Service/ProductExporter.php:27 | at least one digit, all digits, no leading zero except for 0 itself |
| `Formatting.DigitsRoundTrip` | src/Service/ProductExporter.php:27 | the decimal digits of n read back as n |
| `Formatting.IntText` | src/Service/ProductExporter.php:27 | `%d`: a minus sign exactly when the number is negative, followed by digits, with no leading zero, that read back as its absolute value |
| `Formatting.PadLeft` | src/Service/ProductExporter.php:51 | zero-padded digits of length max(width, digit count) that read back as n |
| `Formatting.PadLeftWidth` | src/Service/ProductExporter.php:51 | a number below 10^k is padded to exactly k digits |
| `Formatting.GroupThousands` | src/Service/ProductExporter.php:103 | one separator per full group of three digits below the leading group, and the first byte is the leading digit |
| `Formatting.GroupThousandsSeparators` | src/Service/ProductExporter.php:103 | for digits without the separator, the separator sits exactly at the positions a multiple of four bytes from the end |
| `Formatting.GroupThousandsRoundTrip` | src/Service/ProductExporter.php:103 | dropping the thousands separators gives back the digits |
| `Formatting.RoundHalfAwayFromZero` | src/Service/ProductExporter.php:103 | nearest integer, an exact half rounded away from zero |
| `Formatting.GroupedAmount` | src/Service/ProductExporter.php:103 | units and cents as `number_format` writes them: a minus sign exactly when asked, units that start with a digit, a space exactly every fourth byte from the end of the units and no leading zero group, a comma, two decimal digits; the units (spaces dropped) and the decimals read back as the given numbers |
| `Formatting.NumberFormat2` | src/Service/ProductExporter.php:103 | `number_format(x, 2, ',', ' ')`: a minus sign exactly when x rounds to negative cents, units that start with a digit, a space exactly every fourth byte from the end of the units and no leading zero group, a comma before two decimals, and units (spaces dropped) × 100 + decimals = the absolute amount in cents, rounded half away from zero |
| `Formatting.RoundHalfEven` | src/Service/ProductExporter.php:27 | nearest integer, an exact half rounded to the even neighbour |
| `Formatting.FixedAmount` | src/Service/ProductExporter.php:27 | an amount of cents written as `%.2f`: only digits, a dot and a minus sign; a minus sign exactly when asked; a dot before two decimals; units without leading zeros that read back as cents / 100, the decimals as cents % 100, together the amount |
| `Formatting.FixedTwo` | src/Service/ProductExporter.php:27 | `%.2f`: only digits, a dot and a minus sign; a minus sign exactly for a negative value; units without leading zeros; units × 100 + decimals = the absolute value in cents, rounded half to even |
| `Formatting.ParseJoinRoundTrip` | src/Service/ProductExporter.php:51 | digit fields of fixed widths joined by a separator read back as their values |
| `Formatting.JoinLength` | src/Service/ProductExporter.php:51 | joined fields take the sum of their widths plus one byte per separator |
| `Formatting.StampFieldsWidths` | src/Service/ProductExporter.php:51 | for a four-digit year the six fields have widths 4, 2, 2, 2, 2, 2 |
| `Formatting.DateStamp` | src/Service/ProductExporter.php:51 | `date('Y_m_d_H_i_s')` of a four-digit-year time has 19 bytes and reads back as that time |
| `ExporterCases.CleanDescriptionControls` | tests/Service/ProductExporterTest.php:162-163 | "Line1\nLine2\rLine3\tTab" is cleaned to "Line1 Line2 Line3 Tab" |
| `ExporterCases.CleanDescriptionLong` | tests/Service/ProductExporterTest.php:166-169 | 150 × "a" is cleaned to 100 bytes ending with "..." |
| `ExporterCases.PriceTextCase` | tests/Service/ProductExporterTest.php:142 | 19.99 is written "19,99 €" |
| `ExporterCases.GroupedCentsCase` | tests/Service/ProductExporterTest.php:142 | 19 units and 99 cents are written "19,99" |
| `ExporterCases.StatsCase` | tests/Service/ProductExporterTest.php:108-111 | the two test products give 2 products, value 54.95, one out of stock, one low |
| `ExporterCases.MissingDescriptionCase` | tests/Service/ProductExporterTest.php:105 | the whole row of the second test product: 2, "Produit 2", "Aucune description", "25,50 €", 0, "Rupture" |
| `ExporterCases.PriceTextHalfCase` | tests/Service/ProductExporterTest.php:105 | 25.50 is written "25,50 €" |
| `ExporterCases.GroupedHalfCase` | tests/Service/ProductExporterTest.php:105 | 25 units and 50 cents are written "25,50" |
| `ExporterCases.FullRowCase` | tests/Service/ProductExporterTest.php:117-148 | the formatting test's product gives exactly its expected row: 42, "Test Product", "Description with newlines", "19,99 €", 3, "Stock faible" |
| `ExporterCases.CleanDescriptionNewlines` | tests/Service/ProductExporterTest.php:122-141 | "Description\nwith\nnewlines" is cleaned to "Description with newlines" |
| `ExporterCases.NoDescriptionClean` | src/Service/ProductExporter.php:96-97 | the default description comes out of cleaning unchanged |
| `ExporterCases.EmptyExportCase` | tests/Service/ProductExporterTest.php:59-66 | no products: the document is the header alone and all four statistics are zero |
| `Entities.IndexOf` | src/Entity/Product.php:117 | a position of the element with no occurrence before it: its first occurrence |
| `Entities.RemoveElement` | src/Entity/Product.php:117 | an absent element leaves the sequence as it is; otherwise its first occurrence is removed: the elements before it stay in place, those after it move down by one, and nothing new appears |
| `Entities.RemoveElementDistinct` | src/Entity/Product.php:117 | in a collection without repeats, removal takes the element out entirely and keeps it without repeats |
| `Entities.Product.constructor` | src/Entity/Product.php:39-42 | a new product has an empty collection and null fields |
| `Entities.Product.SetName` | src/Entity/Product.php:54-59 | the getter returns the new name, only that field changes, the product itself is returned |
| `Entities.Product.SetDescription` | src/Entity/Product.php:66-71 | the getter returns the new, possibly null, description; only that field changes; returns the product |
| `Entities.Product.SetPrice` | src/Entity/Product.php:78-83 | the getter returns the new price; only that field changes; returns the product |
| `Entities.Product.SetStock` | src/Entity/Product.php:90-95 | the getter returns the new stock; only that field changes; returns the product |
| `Entities.Product.AddPromoCode` | src/Entity/Product.php:105-113 | the code is held afterwards; if it already was, nothing changes; otherwise it is appended and points back here; no duplicates and two-sided consistency are preserved |
| `Entities.Product.RemovePromoCode` | src/Entity/Product.php:115-125 | the collection loses the code (nothing changes if absent); its pointer is cleared only if it was held and pointed here; no duplicates and consistency are preserved |
| `Entities.PromoCode.constructor` | src/Entity/PromoCode.php:14-29 | a new promo code has every field null |
| `Entities.PromoCode.SetName` | src/Entity/PromoCode.php:41-46 | the getter returns the new name; only that field changes; returns the code |
| `Entities.PromoCode.SetPourcentage` | src/Entity/PromoCode.php:53-58 | the getter returns the new percentage; only that field changes; returns the code |
| `Entities.PromoCode.SetDateExpiration` | src/Entity/PromoCode.php:65-70 | the getter returns the new expiration; only that field changes; returns the code |
| `Entities.PromoCode.SetProduct` | src/Entity/PromoCode.php:77-82 | the back-pointer (possibly null) is the only thing changed; no product's collection is touched |
| `Entities.PromoCode.SetCode` | src/Entity/PromoCode.php:89-94 | the getter returns the new code; only that field changes; returns the code |
| `Promo.IsEmptyCode` | src/Twig/Components/PromoCodeComponent.php:38 | PHP `empty()` on the nullable code: null, "" and "0" and nothing else (a definition, with no contract of its own) |
| `Promo.Matches` | src/Twig/Components/PromoCodeComponent.php:44-47 | the `findOneBy` criteria: same code (a null code matching a null column) and same product (a definition, with no contract of its own) |
| `Promo.FirstMatch` | src/Twig/Components/PromoCodeComponent.php:44-47 | the index of the first stored code with this code string and this product; none before it matches |
| `Promo.FindOneBy` | src/Twig/Components/PromoCodeComponent.php:44-47 | null exactly when no stored code matches both the code and the product; otherwise a stored code that matches both |
| `Promo.IsExpired` | src/Twig/Components/PromoCodeComponent.php:55 | expiration strictly before now, a null expiration counting as expired (a definition, with no contract of its own) |
| `Promo.DiscountedPrice` | src/Twig/Components/PromoCodeComponent.php:62-63 | price − price × pct/100 equals price × (1 − pct/100), the formula of the commented-out line of the page |
| `Promo.Decide` | src/Twig/Components/PromoCodeComponent.php:49-63 | invalid ⇔ nothing found; expired ⇔ found and expiring strictly before now (or without a date); otherwise the discounted price, a null price or percentage counting as 0 |
| `Promo.UpdateOutcome` | src/Twig/Components/PromoCodeComponent.php:38-63 | no outcome ⇔ the code is empty (null, "" or "0"); any other code is looked up for the product and decided |
| `Promo.ComponentOutputs` | src/Twig/Components/PromoCodeComponent.php:38-63 | never both outputs set; a price only for a discount; the invalid or expired message exactly for those outcomes |
| `Promo.PromoCodeComponent.constructor` | src/Twig/Components/PromoCodeComponent.php:19-29 | a new component shows its product with no code, no price and no error |
| `Promo.PromoCodeComponent.UpdateCode` | src/Twig/Components/PromoCodeComponent.php:36-64 | both outputs are set from the code, product, stored codes and time alone, never both non-null; code and product unchanged |
| `Promo.FlashBag.Add` | src/Controller/Product/ShowProductController.php:32 | the flash is appended after those already there |
| `Promo.PageOutcome` | src/Controller/Product/ShowProductController.php:22-40 | only a submitted, valid form is looked up and decided, without an emptiness test |
| `Promo.PagePrice` | src/Controller/Product/ShowProductController.php:22-39 | the rendered price is set exactly for a discount |
| `Promo.PageFlashes` | src/Controller/Product/ShowProductController.php:31-34 | exactly one error flash with the invalid or expired message for those outcomes, none otherwise |
| `Promo.ShowProduct` | src/Controller/Product/ShowProductController.php:22-40 | the rendered price and the flashes appended are those of the page outcome |
| `Promo.ComponentAgreesWithPage` | src/Controller/Product/ShowProductController.php:31-39 | for a non-empty code the component and a valid form reach the same outcome: same price, and the component's message is the text of the page's single error flash |
| `Promo.ZeroCodeDiverges` | src/Twig/Components/PromoCodeComponent.php:38-42 | for the code "0" the component shows nothing while a valid form has it looked up and decided (a discount or an error flash) |
| `Promo.NoPriceUnlessSubmitted` | src/Controller/Product/ShowProductController.php:22-23 | without a submitted, valid form no price is rendered and no flash added |
| `Promo.DiscountBounds` | src/Twig/Components/PromoCodeComponent.php:62-63 | for a non-negative price and 0 ≤ pct ≤ 100 the price stays between 0 and the price; 0% keeps it, 100% makes it 0, a larger percentage never raises it |
| `Promo.ExpiryIsStrict` | src/Twig/Components/PromoCodeComponent.php:55 | a code expiring exactly now is accepted, one that expired before now is not, one without a date is treated as expired |

## Left out

- Persistence. The repositories, `findAll` and the entity manager are left out. The products are a
  sequence parameter and the stored codes are a sequence searched by `findOneBy`.
- The exporter's constructor wiring, a `ProductRepository` and an entity manager, is left out.
- The CSV library. Rows are sequences of fields; its serialization, quoting and enclosure rules are
  not modelled.
- Floating point. Prices and percentages are exact `real`s. The model does not capture binary
  representation error, `number_format`'s pre-rounding, or the correctly rounded, fixed-precision
  `%.2f` conversion of `sprintf` on binary doubles. The only exception is that exact halves round
  to even.
- Clock reads. `date()` and `new DateTimeImmutable()` become a `DateTime` or `Instant` parameter.
- Time zones and the calendar are left out. `ValidDateTime` checks only field ranges.
- Byte and character semantics. Truncation counts bytes and may split a UTF-8 sequence; the model
  counts bytes too and says nothing about encoding.
- `ProductRecord` gives the exporter non-null id, name, price and stock. A product with null fields,
  before it is persisted, is not exported.
- Twig rendering, form creation and handling, and the `PromoCodeType` form. The form's result
  becomes the `FormState` parameter, and `PromoCodeType` is not part of this model.
- The rest of the application: the export controller's HTTP, flash and redirect handling, the
  messenger message and its handler, email sending, and the front-end assets.
- The getters of the entities are plain reads of the fields and carry no contract of their own. The
  setters' contracts state what the getters return.
- The `id` fields of the entities have no setter, and no method of the model sets one: an id is
  assigned on persistence, which is left out. The exporter gets its non-null ids through
  `ProductRecord`, whose `RecordOf` requires the product's id to be set.
