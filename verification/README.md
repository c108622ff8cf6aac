# frank: address parsing, CSV rows and stamp layout, in Dafny

`frank.py` buys postage stamps from Deutsche Post's web service and writes
the resulting PDF. Apart from the command line, the configuration files and
the service client, it has a small, purely sequential core. This project
models that core as pure functions and proves what it promises:

- **Address parser** (`parse_address`, module `Addresses`). A string that
  starts with `$` is looked up as the configuration section `a.<name>`.
  Any other string is cut into up to four lines at `;` or at newlines. The
  name, street and city lines are cut into words at their last or first
  space, and the fourth line, stripped, overrides the default country
  `DEU`. `mk_address` chooses the personal or the company form of an
  address object.
- **CSV recipients** (the row loop of `parse_csv`, module `CsvRows`). The
  header row is skipped. Each data row is cut or padded to seven fields,
  and an eighth column becomes a product override.
- **Layout indexer** (the page/column/row arithmetic of `buy`, module
  `Layout`). The i-th stamp goes to a 1-based (page, column, row) of the
  format's label grid.
- **Catalog lookups** (module `Catalog`). `get_format` is a first-match
  search by id. `get_page_info` reads the label grid (`GetPageInfo`, a
  plain accessor). The product listing pads prices to a common width.
- **Purchase loop** (`parse_addresses` and the recipient loop of `run`,
  module `Orders`). There is one position per recipient. The sender and
  product lists advance by one entry per recipient and then stay on their
  last entry.

`Strings` models the parts of Python's `str` the parser uses: `split` with
an explicit one-character separator, `join`, and `strip`. `Wrappers` holds
`Option` and `Result`. `Errors` has one constructor per way the core can
fail; between them they stand for `KeyError`, `ValueError`,
`StopIteration`, `IndexError`, `TypeError` and `ZeroDivisionError`.

The configuration is a `map<string, map<string, string>>` from section
names to their keys. A CSV file is its rows, already split into columns.
The format catalog is a sequence of `Format` values.

Two consequences of the code are worth spelling out:

- **Delimiter.** `;` wins when both delimiters occur, because the loop at
  frank.py:254-256 tries the newline, then `;`, without a break
  (`Addresses.Delimiter`).
- **"Jane User".** The usage example's name line `Jane User` gives first
  name `Jane` and name `User` (frank.py:268-269,
  `Addresses.JaneUserExample`).

## Model

| member | source | states |
|---|---|---|
| `Strings.Split` | frank.py:261 | `str.split(sep)` with an explicit separator always gives at least one piece, and no piece holds the separator |
| `Strings.JoinSplit` | frank.py:261 | joining the pieces of a split with the separator gives back the string |
| `Strings.SplitJoin` | frank.py:261 | splitting a join of separator-free pieces gives back the pieces, so split and join are inverse |
| `Strings.SplitCount` | frank.py:261 | the number of pieces is the number of separators plus one, so empty pieces are kept |
| `Strings.LeadingSpaces` | frank.py:287 | the count of leading white-space characters: all of them white space, and the next one, if any, is not |
| `Strings.TrailingSpaces` | frank.py:287 | the count of trailing white-space characters: all of them white space, and the one before, if any, is not |
| `Strings.Strip` | frank.py:287 | `strip()` leaves no white space at either end, cuts only white space from both sides, and is empty exactly when the line is all white space |
| `Addresses.FromFields` | frank.py:299 | a 7-column row read as an address gives back the same row |
| `Addresses.FieldsRoundTrip` | frank.py:290 | the other direction: an address written as its 7-field tuple and read back is unchanged |
| `Addresses.LookupAddress` | frank.py:249-252 | `$name` needs section `a.<name>` and the keys name, street, number, zip and city; a missing section, or the first missing key in tuple order, is the error; every present key fills its field; `first` defaults to empty and `country` to `DEU` |
| `Addresses.LookupSectionRoundTrip` | frank.py:249-252 | an address stored as section `a.<name>` is looked up unchanged |
| `Addresses.Delimiter` | frank.py:253-256 | the delimiter is `;` when the string holds one, else a newline when it holds one, else there is none |
| `Addresses.NameLine` | frank.py:262-269 | a name line without a space is all name with an empty first name; otherwise first name, a space and name give back the line, and the name has no space |
| `Addresses.StreetLine` | frank.py:270-277 | a street line without a space is all street with an empty number; otherwise street, a space and number give back the line, and the number has no space |
| `Addresses.CityLine` | frank.py:278-285 | a city line without a space is all city with an empty postal code; otherwise postal code, a space and city give back the line, and the postal code has no space |
| `Addresses.NameLineUnique` | frank.py:262-269 | only one cut of the name line meets the name-line rule, so the rule fully determines the parse |
| `Addresses.StreetLineUnique` | frank.py:270-277 | only one cut of the street line meets the street-line rule |
| `Addresses.CityLineUnique` | frank.py:278-285 | only one cut of the city line meets the city-line rule |
| `Addresses.ParseLines` | frank.py:259-290 | each present line gives its fields by its line rule; the fields of absent lines stay empty; the country is `DEU` unless a fourth line exists that is not all white space, and then it is that line stripped |
| `Addresses.ParseLinesIgnoresExtra` | frank.py:286-290 | lines after the fourth change nothing |
| `Addresses.ParseAddress` | frank.py:248-258 | a string starting with `$` is always a configuration lookup, even if it holds delimiters; any other string fails exactly when it has neither `;` nor a newline; otherwise its lines are cut at `;` when present, else at newlines |
| `Addresses.JaneUserExample` | frank.py:148-149 | the usage example `Jane User;Fakestreet 2;67890 Fakestadt` parses to first name Jane, name User, Fakestreet 2, 67890 Fakestadt, DEU |
| `Addresses.DefaultSectionExample` | frank.py:124-130 | the documented `[a.default]` section gives a company address in Bielefeld with country DEU |
| `Addresses.NoDelimiterExample` | frank.py:257-258 | a recipient string without a delimiter is rejected |
| `Addresses.MkAddress` | frank.py:325-331 | the personal form is chosen exactly when the first name is non-empty |
| `Addresses.MkAddressKeeps` | frank.py:325-331 | the address object keeps every field of the tuple it was built from |
| `Addresses.MkAddressFlatten` | frank.py:325-331 | every address object of either form comes back unchanged from its tuple |
| `CsvRows.Blanks` | frank.py:299 | `[''] * n` is n empty strings, and none for a negative n |
| `CsvRows.NormaliseRow` | frank.py:299 | every row becomes exactly seven fields: its first seven columns, padded with empty strings |
| `CsvRows.NormaliseSevenColumns` | frank.py:299 | a row of exactly seven columns is kept as it is |
| `CsvRows.Overrides` | frank.py:300-301 | there are never more overrides than rows |
| `CsvRows.OverrideRows` | frank.py:300-301 | the rows with more than seven columns, in increasing order, and all of them |
| `CsvRows.OverridesColumns` | frank.py:298-301 | every collected override is the eighth column of the row at the matching position of the override-row list |
| `CsvRows.OverridesOfRows` | frank.py:298-301 | the j-th override is the eighth column of the j-th row with more than seven columns |
| `CsvRows.ParseCsv` | frank.py:292-302 | an empty file fails at the header; otherwise there is one address per data row, namely that row normalised, and the overrides of the data rows in order |
| `Layout.Place` | frank.py:336-338 | on a grid of at least one column and one row, the placement lies on the sheet (page at least 1, column and row within the grid); stamp 0 goes to (1, 1, 1) |
| `Layout.PlaceIndexOf` | frank.py:336-338 | the stamp's number is recovered from its placement as (page-1)·c·r + (row-1)·c + (column-1) |
| `Layout.DivDiv` | frank.py:336-338 | the page computed from `i / (c*r)` agrees with the row computed from `i / c` |
| `Layout.PlaceOfIndex` | frank.py:336-338 | every spot on the sheet is the placement of the stamp whose number it encodes, so the layout is a bijection |
| `Layout.PlaceInjective` | frank.py:336-338 | two stamps never share a spot |
| `Layout.PlaceNext` | frank.py:336-338 | the next stamp goes one column right, else to the start of the next row, else to the top-left of the next page |
| `Layout.PlaceExamples` | frank.py:336-338 | on a 2-by-3 grid, stamps 0, 5 and 6 go to (1,1,1), (1,2,3) and (2,1,1) |
| `Catalog.FormatIndex` | frank.py:365-369 | the index of the first format with the id, or the catalog length when none has it |
| `Catalog.GetFormat` | frank.py:365-369 | fails exactly when no format has the id; otherwise it returns a format with that id, and no earlier entry has it |
| `Catalog.GetPageInfo` | frank.py:371-373 | a format's `labelX` becomes the grid's column count (the divisor of `i % pi[0]`) and `labelY` its rows per page; the grid is usable exactly when both are at least one |
| `Catalog.PageCapacity` | frank.py:336-338 | a page of a format holds `labelX * labelY` stamps: stamp `n * labelX * labelY` is the top-left one of page n + 1 |
| `Catalog.Spaces` | frank.py:221-223 | `' ' * n` is n spaces, and none for a negative n |
| `Catalog.PadPrice` | frank.py:218-223 | the padded price starts with the price and continues only with spaces |
| `Catalog.PadPriceAligns` | frank.py:218-223 | a whole-euro price and a price with at most two decimals are padded to the same width |
| `Catalog.PadPriceLongFraction` | frank.py:218-223 | a price with more than two decimals gets no padding |
| `Orders.FirstFailure` | frank.py:307-312 | the index of the first address string that does not parse, every earlier one parsing |
| `Orders.ParseEach` | frank.py:305-313 | a list of address strings parses exactly when each string does, element by element; otherwise the first failure's error is raised |
| `Orders.SenderStrings` | frank.py:199-200 | the sender strings are those given, or `$default` alone when none are given |
| `Orders.AppendRows` | frank.py:314-316 | after the recipients come the CSV data rows, one address per row, each the row cut or padded to seven fields |
| `Orders.ParseAddresses` | frank.py:305-319 | recipients are parsed first, then senders (`$default` when none are given, frank.py:199-200), then the CSV file; the first error wins; CSV addresses are appended after the recipients and CSV overrides after the products; there is always at least one sender |
| `Orders.Cursor` | frank.py:420-427 | recipient k uses entry k while the list lasts and its last entry afterwards |
| `Orders.CursorStep` | frank.py:422-426 | after k rounds of `xs = xs[1:]` while longer than one, the list's head is the cursor entry for k, and one more round advances it by one unless only the last entry is left |
| `Orders.CursorSticksOnLast` | frank.py:423-426 | once a list is exhausted, every further recipient reuses its last entry |
| `Orders.Buy` | frank.py:333-341 | a grid without labels fails by dividing by zero; otherwise the position keeps the product, and its placement is on the sheet and encodes the stamp's number |
| `Orders.BuyKeepsAddresses` | frank.py:333-335 | on a usable grid the position's sender and recipient objects give back the sender and recipient tuples |
| `Orders.Purchase` | frank.py:420-427 | the reference result of the purchase loop: when it succeeds for some recipients, it holds exactly one position per recipient k, with sender and product taken by the cursor at k and the placement of stamp k |
| `Orders.PurchaseContents` | frank.py:420-427 | for recipients, the purchase fails exactly when there is no sender, no product or no usable grid; otherwise there is one position per recipient, and recipient k goes from sender k (the last sender once they run out) with product k (likewise) to the spot of stamp k |
| `Orders.BuyAll` | frank.py:420-427 | the loop that slices the sender and product lists after every recipient computes exactly the reference result: nothing for no recipients; a missing sender, then a missing product, then an empty grid fails in the first round; otherwise one position per recipient |
| `Orders.Run` | frank.py:419-427 | the format lookup fails first with the unknown id; otherwise the result is the reference purchase on that format's label grid |

## Left out

- Command-line parsing, logging and the reading and merging of configuration files (frank.py:63-198, 201-206, 434-435; the `$default` sender of frank.py:199-200 is modelled by `Orders.SenderStrings`) are library wrappers. The configuration is given as an already-merged map.
- Configuration details are not modelled. Key lower-casing, `DEFAULT`-section fallback and value interpolation belong to `configparser`. `Addresses.LookupAddress` assumes the keys are already lower-case.
- The `[general] manifest` setting (`apply_config`, frank.py:321-323) is configuration plumbing.
- The service client (`Internetmarke`), `Fake_IM`, checkout, preview download and the flattening of SOAP faults (frank.py:29-53, 388-401, 412-414, 429, 438-450) are foreign network calls. The address objects and positions the client would build are modelled as plain datatypes.
- File names and file writes (`mk_filename`, `store_files`, frank.py:344-363) depend on the file system and the clock.
- The regular-expression filters and table printing of `list_products` and `list_formats` (frank.py:208-246) need Python's `re` engine and `format`. Only the price padding is modelled.
- The total `compute_total()/100` (frank.py:428) is float division.
- The `int(...)` coercions of the catalog's label counts in `get_page_info` (frank.py:372-373) are not modelled. `Catalog.Format` holds them as natural numbers.
- A missing product list (`None`, no `--product` and no `--csv`) makes `ps[0]` raise `TypeError`, an empty one `IndexError`. Both are modelled as the empty sequence and fail as `NoProduct`.
- `get_format`'s conversion `int(ident)` of the command-line string is not modelled. `Catalog.GetFormat` takes the id as an integer.
- The CSV reader's quoting and field splitting are not modelled. `CsvRows.ParseCsv` takes rows already split into columns.
- `Layout.Place`: `buy` computes `int(i / n)` in floating point. The model uses exact integer division, which agrees as long as the index stays below 2^53. Label counts are taken as non-negative.
- The slices `ss[1:]` and `ps[1:]` of the purchase loop are kept as start offsets into the original lists (`Orders.BuyAll`); `Orders.CursorStep` states that the offset walks exactly as the slicing does.
- `Strings.Strip`: Python's white-space set is written out from `str.isspace`. Characters whose class a newer Unicode version changes are not tracked.
