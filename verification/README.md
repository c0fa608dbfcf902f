# Car dealership ledger: storage and index core

A Dafny model of `CarService`, the storage engine of a small car-dealership
ledger, and of the record shapes it works with. The service keeps three record
stores: car models, cars and sales. Each store is a data file of
comma-separated lines plus an in-memory index. An index is a list of
(key, line number) entries. It is re-sorted by key after every change and
written out whole to an index file, so the index file always mirrors the
in-memory list.

The model works on values:

- A data file is a `seq<Line>`. A `Line` is what `line.strip().split(",")`
  returns for one line of the file: at least one field, no comma and no line
  break in any field, and no blank at either end of the line.
- An index is a `seq<Entry<K>>`. Model ids are sorted as integers; vins and
  sales numbers are sorted as strings.
- Every operation is a pure function from a `Service` value to the service
  as it is left, paired with the returned value or the error raised.
- Every write goes through `Store(fields)`. It builds the text the program
  writes, `",".join(fields).ljust(500) + "\n"`, and reads that text back the
  way the next read sees it. The text is cut into lines at `\n`, `\r` and
  `\r\n`, and each line is stripped and split. So a field with a comma
  reads back split. A field with a line break reads back as two lines. A
  blank at either end of the record is cut. All of this happens in the
  program too.

Modules, following the program's structure:

| file | module | what it models |
|---|---|---|
| `wrappers.dfy` | `Wrappers` | `Option` and `Result` |
| `fields.dfy` | `Fields` | `",".join`, `split(",")`, `strip()`, `ljust(500)` and text-mode `readlines()` on record lines |
| `numerals.dfy` | `Numerals` | `str(int)` and `int(str)` on plain decimal text |
| `seqs.dfy` | `Seqs` | first-match scans, last-match scans and order-keeping filters |
| `sorting.dfy` | `Sorting` | `list.sort(key=…)` as a stable sort; Python's `<=` on `int` and `str` |
| `models.dfy` | `Models` | `CarStatus`, `Car`, `Model`, `Sale`, `CarFullInfo`, `ModelSaleStats`, `to_string`, `index()` |
| `index.dfy` | `Index` | index entries, lookup, insertion, re-keying, and consistency with a data file |
| `car_service.dfy` | `CarService` | `add_model`, `add_car`, `sell_car`, `update_vin`, `revert_sale` |
| `car_queries.dfy` | `CarQueries` | `get_cars`, `get_car_info` |
| `sales_ranking.dfy` | `SalesRanking` | `top_models_by_sales` |

The model follows the code as written, including these behaviours:

- No insert checks for a duplicate key. `add_car` does not check that the
  model exists, and `sell_car` does not check whether the car is already sold.
- Index lookups are linear first-match scans, not binary searches. The index
  is fully re-sorted after each change, not updated by ordered insertion.
- A new entry's position is the index length, not the data file's length. It
  points at the new line only while the two lengths agree (`AddModel`,
  `AddCar`).
- `sell_car` appends and indexes the sale before it looks the car up. A sale
  of an unknown car raises but leaves the sale behind; there is no
  compensation.
- `revert_sale` drops sale lines without touching the sales index. Positions
  after the dropped line go stale (`RevertSaleLeavesSalesIndexStale`). A
  tombstone flag or a renumbering of the index would avoid this; the code
  does neither, and neither does the model.
- Fields are not escaped. A comma in a field splits it. A line break in a
  field writes the record across several lines while the index gains one
  entry (`AddModelNameBreak`). A blank at the start of a key is cut on
  reading, so the key no longer matches its index entry.
- `get_car_info` scans `cars.txt` for the vin rather than using the car index.
- `get_cars` and `top_models_by_sales` do not skip a bad line and report it.
  They run inside catch-all handlers, so the first line that raises ends the
  scan. Everything gathered up to that line is kept.
- Car lines written by `add_car` have five fields and sale lines have four.
  Neither carries the `is_deleted` flag that `Car.to_string` and
  `Sale.to_string` emit; the service never calls those serialisers.

Errors are one datatype:

- `UnknownCar`, `UnknownSale` and `UnknownModel` are the service's own
  `ValueError`s. `UnknownCar` also covers the `TypeError` that `update_vin`
  raises when it indexes the line list with `None`.
- `BadPosition` is the `IndexError` of a line number the data file does not
  have.
- `Malformed` is any error raised while picking fields out of a split line or
  converting them.

## Model

| member | source | states |
|---|---|---|
| Fields.SplitJoin | src/bibip_car_service.py:136-138 | joining comma-free fields with `,` and splitting again gives back the same field list |
| Fields.JoinSplit | src/bibip_car_service.py:136-138 | splitting a line on `,` and joining again gives back the same text |
| Fields.JoinOnOneLine | src/bibip_car_service.py:138 | the joined text holds a line break exactly when one of the fields does |
| Fields.JoinLead | src/bibip_car_service.py:138 | the joined text starts with a blank exactly when the first field does |
| Fields.JoinTail | src/bibip_car_service.py:138 | the joined text ends with a blank exactly when the last field does |
| Fields.StripStart | src/bibip_car_service.py:65 | the leading part `strip()` cuts is all blanks, and what is left starts with no blank |
| Fields.StripEnd | src/bibip_car_service.py:65 | the trailing part `strip()` cuts is all blanks, and what is left ends with no blank |
| Fields.Strip | src/bibip_car_service.py:65 | a stripped line has no blank at either end and gains no line break |
| Fields.Padded | src/bibip_car_service.py:72 | `ljust(500)` keeps the text and pads it with spaces to 500 characters, or leaves longer text alone |
| Fields.StripPadded | src/bibip_car_service.py:65-73 | stripping a padded record whose text has no blank at its ends gives the text back |
| Fields.TextLinesBreakFree | src/bibip_car_service.py:63-65 | no line `readlines()` returns holds a line break once its ending is removed |
| Fields.TextLinesPrefix | src/bibip_car_service.py:63-65 | break-free text in front of a file's text joins the first line `readlines()` finds |
| Fields.TextLinesOfLine | src/bibip_car_service.py:72-73 | break-free text written with one `\n` is read back as exactly that one line |
| Fields.SplitIsLine | src/bibip_car_service.py:65 | splitting break-free text with no blank at its ends gives a well-formed line |
| Fields.StripKeepsHead | src/bibip_car_service.py:65 | `strip()` does not touch a comma-free first field with no leading blank, so `split` returns it first |
| Fields.FirstLineHead | src/bibip_car_service.py:63-65 | the first line read from a record that starts with a key field and a comma begins with that field |
| Fields.StoreOneLine | src/bibip_car_service.py:72-73 | a record with no line break in any field is written as exactly one line |
| Fields.StoreKeeps | src/bibip_car_service.py:138 | a field list that is already a well-formed line is written back and read again as itself, on one line |
| Fields.StoreHead | src/bibip_car_service.py:247-249 | a first field with no comma, no line break and no leading blank reads back first on the first written line, whatever the other fields hold |
| Numerals.ParseIntOfString | src/bibip_car_service.py:72 | `int(str(i)) == i`: the id text a model line gets parses back to the id |
| Numerals.IntToStringChars | src/bibip_car_service.py:72 | `str(i)` is one or more characters, each a sign or a digit |
| Numerals.ParseDigitsOfNat | src/bibip_car_service.py:72 | the digits `str` writes for a natural number parse back to that number |
| Seqs.FirstWhere | src/bibip_car_service.py:129 | `next(...)` over a list: the index of the first match with none before it, and no result exactly when nothing matches |
| Seqs.FirstWhereFinds | src/bibip_car_service.py:129 | a first match is unique, so it is the one the scan returns |
| Seqs.LastWhere | src/bibip_car_service.py:282-287 | a scan that overwrites its result on every hit ends at the last match, and finds none exactly when nothing matches |
| Seqs.Filter | src/bibip_car_service.py:282-288 | the kept elements all satisfy the test and are no more than the input |
| Seqs.FilterConcat | src/bibip_car_service.py:282-288 | filtering a concatenation filters each part, so order is kept |
| Seqs.FilterMembers | src/bibip_car_service.py:282-288 | every kept element comes from the input, and every input element that passes the test is kept |
| Sorting.Sort | src/bibip_car_service.py:80 | the sorted list is a permutation of the input (same multiset) |
| Sorting.SortSorted | src/bibip_car_service.py:80 | the result is ordered by any total preorder it is given |
| Sorting.SortKeepsTies | src/bibip_car_service.py:340 | stability: elements that compare equal keep their input order |
| Sorting.SortKeepsDistinct | src/bibip_car_service.py:100 | sorting keeps a unique attribute, such as the line number, unique |
| Sorting.StrLeIsTotalPreorder | src/bibip_car_service.py:100 | Python's string order on vins and sales numbers is total and transitive |
| Sorting.IntLeIsTotalPreorder | src/bibip_car_service.py:80 | the integer order on model ids is total and transitive |
| Models.ParseStatus | src/models.py:11-15 | `CarStatus(s)` succeeds exactly on the four values and returns the member with that value |
| Models.StatusValues | src/models.py:11-15 | every status has one of the four values and reads back as itself |
| Models.DecodeCar | src/bibip_car_service.py:162-168 | a car is rebuilt exactly from lines with at least five fields, an integer model and a valid status; the vin, price and date are copied, the model is `int()` of field 1, the status is the one field 4 names, and `is_deleted` is false |
| Models.CarToStringFields | src/models.py:29-30 | `Car.to_string` gives six fields in the order vin, model, price, date_start, status, is_deleted (`0`/`1`); splitting recovers them and the first five decode to the car |
| Models.SaleToStringFields | src/models.py:52-53 | `Sale.to_string` gives five fields in the order sales_number, car_vin, sales_date, cost, is_deleted (`0`/`1`), recovered by splitting |
| Models.DeletedDefaultsFalse | src/models.py:18-47 | `is_deleted` is false on a `Car` and on a `Sale` built without it |
| Models.ModelKey | src/models.py:38-39 | `Model.index()` is text that parses back to the model id |
| Index.Lookup | src/bibip_car_service.py:129 | the position of the first entry with the key; no result exactly when no entry has the key |
| Index.LookupSlot | src/bibip_car_service.py:239-242 | the slot of the first entry with the key, agreeing with `Lookup` |
| Index.AddEntry | src/bibip_car_service.py:76-80 | the index gains exactly the entry (key, old index length): one more entry, same multiset plus that entry |
| Index.AddEntrySorted | src/bibip_car_service.py:76-80 | after an insert the index is sorted by key |
| Index.Rekey | src/bibip_car_service.py:252-257 | re-keying swaps exactly one entry for one with the new key and the same position |
| Index.RekeySorted | src/bibip_car_service.py:252-257 | after a re-key the index is sorted by key |
| Index.LookupPointsAt | src/bibip_car_service.py:129 | in an index consistent with its data file, a lookup lands on a line that carries the key |
| Index.AddEntryConsistent | src/bibip_car_service.py:71-80 | appending a line with key `k` and indexing `k` keeps index and data file consistent |
| Index.RekeyConsistent | src/bibip_car_service.py:247-257 | rewriting an entry's line to carry a new key and re-keying the entry keeps them consistent |
| Index.ReplaceConsistent | src/bibip_car_service.py:134-140 | rewriting a line so that it keeps its key keeps them consistent |
| CarService.IdIsKey | src/bibip_car_service.py:72 | an id written as `str(id)` has no comma, no line break and no blank, so it reads back unchanged |
| CarService.StoreAppends | src/bibip_car_service.py:71-73 | appending a record keeps the earlier lines, adds at least one line, exactly one when no field holds a line break, and that line is the fields when they form a well-formed line |
| CarService.AddModel | src/bibip_car_service.py:69-88 | the record is appended after the unchanged earlier lines, as one line unless a field holds a line break; the first new line starts with the id; the index gains (id, old length) and is sorted; the new entry points at the first new line when index and file had equal length; the other stores are untouched |
| CarService.CarAppended | src/bibip_car_service.py:93-95 | the car record is appended after the earlier lines; the first new line starts with the vin when the vin has no comma, line break or leading blank, and decodes back to the car with `is_deleted` false when the fields form a well-formed line |
| CarService.AddCar | src/bibip_car_service.py:91-108 | as for models, with the vin as key when it has no comma, line break or leading blank; the new line decodes back to the car with `is_deleted` false when the fields form a well-formed line |
| CarService.StoreKeys | src/models.py:26-50 | for a key with no comma, line break or leading blank, car lines carry `Car.index()`, model lines always carry `Model.index()`, and sale lines carry their sales number, which equals `Sale.index()` (the car vin) only when the two texts are equal |
| CarService.Splice | src/bibip_car_service.py:138-140 | a rewritten line is replaced by the lines it reads back as: the lines before stay, the written lines take its place in order, the lines after follow, and a one-line rewrite is a plain update |
| CarService.RewriteKept | src/bibip_car_service.py:136-140 | a line with one field set to a value with no comma or line break (and no blank where the line ends) is written back and read again as that same single line |
| CarService.StatusKept | src/bibip_car_service.py:136-140 | setting the status field to any status value is written back and read again as that same single line |
| CarService.SetField | src/bibip_car_service.py:136-137 | the line with one field replaced and the rest kept, or the `IndexError` of a missing line or field |
| CarService.RecordSale | src/bibip_car_service.py:113-125 | the sale record is appended after the unchanged earlier lines; the index gains (number, old length) and is sorted; the new entry points at the new line when the number has no comma, line break or leading blank and index and file had equal length; the other stores are untouched |
| CarService.SellCar | src/bibip_car_service.py:111-149 | the sale is always appended and indexed, as `RecordSale` does; an unknown vin raises `UnknownCar` with `cars.txt` untouched (a half-applied sale); a returned car has status `sold`; models and car index are untouched |
| CarService.SellCarBadLine | src/bibip_car_service.py:134-137 | a stale position or a line without a status field raises before `cars.txt` is written |
| CarService.SellCarMarksSold | src/bibip_car_service.py:134-149 | only field 4 of the looked-up line changes, to `sold`; the call returns exactly when the model field is an integer, and it returns the stored car with status `sold` |
| CarService.UpdateVin | src/bibip_car_service.py:236-272 | an absent vin raises before any write; only the car store changes; a returned car has the new vin |
| CarService.UpdateVinStale | src/bibip_car_service.py:244-247 | a first entry pointing past `cars.txt` raises with nothing written |
| CarService.UpdateVinRenames | src/bibip_car_service.py:247-264 | the renamed line is replaced, in place and in order, by the lines the renamed record reads back as, with the lines before and after unchanged; `cars.txt` keeps its length when the new vin has no line break; only field 0 of that line changes when the new vin has no comma, line break or leading blank (and no trailing blank on a one-field line) |
| CarService.UpdateVinReturns | src/bibip_car_service.py:247-272 | the call returns exactly when the stored line decodes, giving the stored car under the new vin, and raises `Malformed` otherwise |
| CarService.UpdateVinRekeys | src/bibip_car_service.py:252-257 | the entry (old vin, p) is swapped for (new vin, p) and the index is sorted again |
| CarService.RevertSale | src/bibip_car_service.py:275-317 | an unknown sales number raises with nothing changed; either nothing changes or the sale lines numbered `n` are filtered out; the sales index never changes; a returned car is `available` |
| CarService.RevertSaleShortLine | src/bibip_car_service.py:282-286 | a sale line with the number and no vin field raises before anything is written |
| CarService.RevertSaleCarErrors | src/bibip_car_service.py:292-303 | the last matching sale's vin missing from the car index, a stale position, or a line without a status field each raise with nothing written |
| CarService.RevertSaleReverts | src/bibip_car_service.py:299-317 | only field 4 of the car named by the last matching sale becomes `available`; the other sale lines remain in order; the result is the stored car with status `available` when its line decodes |
| CarService.RevertSaleDropsSales | src/bibip_car_service.py:282-288 | after a revert that writes, no sale line has the number and every other sale line is still there |
| CarService.AddModelIndexed | src/bibip_car_service.py:71-86 | `add_model` keeps every index consistent with its data file when neither name nor brand holds a line break |
| CarService.AddModelNameBreak | src/bibip_car_service.py:71-80 | a model name with a line break is written as two or more lines while the index gains one entry, so a consistent store stops being consistent |
| CarService.AddCarIndexed | src/bibip_car_service.py:93-106 | `add_car` keeps every index consistent when the vin has no comma, line break or leading blank and no other field holds a line break |
| CarService.RecordSaleIndexed | src/bibip_car_service.py:113-125 | appending and indexing a sale keeps every index consistent when the number has no comma, line break or leading blank and no other sale field holds a line break |
| CarService.SellCarKeepsCarIndex | src/bibip_car_service.py:128-140 | the status rewrite of `sell_car` keeps the car index consistent, whether the call returns or raises |
| CarService.SellCarIndexed | src/bibip_car_service.py:113-140 | `sell_car` keeps every index consistent, whether it returns or raises, under the conditions of `RecordSaleIndexed` |
| CarService.UpdateVinIndexed | src/bibip_car_service.py:247-264 | `update_vin` keeps every index consistent when the new vin has no comma, line break or leading blank (and no trailing blank, unless every car line has a field after the vin) |
| CarService.RevertSaleKeepsCarIndex | src/bibip_car_service.py:299-309 | `revert_sale` keeps the model and car indexes consistent |
| CarService.RevertSaleLeavesSalesIndexStale | src/bibip_car_service.py:305-307 | counterexample: from a consistent store, reverting the first of two sales leaves a two-entry sales index over one sale line, so the store is no longer consistent |
| CarQueries.ScanEnd | src/bibip_car_service.py:157-175 | the `get_cars` scan stops at the first line that raises (no status field, or the wanted status with a non-integer model) |
| CarQueries.DecodeAll | src/bibip_car_service.py:162-168 | one car per line, each the line's decoding, in order |
| CarQueries.ScanEnds | src/bibip_car_service.py:159-171 | the loop's state at its end is the decoding of the matching lines before the stop, each with the wanted status |
| CarQueries.GetCars | src/bibip_car_service.py:152-177 | the cars of exactly the lines with the wanted status before the scan stops, decoded in file order, all with that status |
| CarQueries.GetCarsReadsAll | src/bibip_car_service.py:159-171 | on well-formed car lines the scan reads the whole file |
| CarQueries.GetCarInfo | src/bibip_car_service.py:180-233 | `None` exactly when no car line has the vin; a view carries that vin |
| CarQueries.GetCarInfoBadCar | src/bibip_car_service.py:184-193 | a first car line with too few fields or a non-integer model raises |
| CarQueries.GetCarInfoUnknownModel | src/bibip_car_service.py:198-209 | a model id no readable model line carries raises `UnknownModel` |
| CarQueries.GetCarInfoJoined | src/bibip_car_service.py:180-233 | the view joins the first car line with the vin and the first model line with its id; it has sale fields exactly when some sale names the vin |
| CarQueries.GetCarInfoSale | src/bibip_car_service.py:211-230 | sale date and cost come from the first sale line naming the vin |
| SalesRanking.SoldNames | src/bibip_car_service.py:325-337 | one resolved model name per sale line, in order, up to the first line whose vin is missing or does not resolve |
| SalesRanking.TallyCounts | src/bibip_car_service.py:322-335 | the counted items have one entry per distinct name, each counting that name's occurrences, and cover every name |
| SalesRanking.BumpCounts | src/bibip_car_service.py:335 | `sales_count[name] += 1` keeps the tally exact |
| SalesRanking.TallyOrder | src/bibip_car_service.py:322-335 | items are listed in the order their names first occur (dictionary insertion order) |
| SalesRanking.BumpOrder | src/bibip_car_service.py:335 | one more count keeps first-occurrence order |
| SalesRanking.RankedCounts | src/bibip_car_service.py:340 | every ranked item counts its name's occurrences |
| SalesRanking.RankedOrder | src/bibip_car_service.py:340 | ranking is by count, largest first, with distinct names and ties in first-occurrence order |
| SalesRanking.RankedComplete | src/bibip_car_service.py:340 | a name occurring more often than the item at place `p` is ranked before `p` |
| SalesRanking.FirstThree | src/bibip_car_service.py:347 | `[:3]` is the prefix of length at most three, the whole list when shorter |
| SalesRanking.AttachEnd | src/bibip_car_service.py:343-366 | the brand loop gets through the items before the first whose scan meets a line without a brand field |
| SalesRanking.AttachAll | src/bibip_car_service.py:347-362 | one statistic per item that some model line names, in order, with the item's name and count and the first such line's brand |
| SalesRanking.AttachReadsAll | src/bibip_car_service.py:349-355 | when every model line has a name and a brand, the loop never raises and an item is listed exactly when a model line carries its name |
| SalesRanking.Report | src/bibip_car_service.py:320-368 | at most three statistics |
| SalesRanking.ReportCounts | src/bibip_car_service.py:320-368 | each reported count is the number of counted sales of that model name |
| SalesRanking.ReportBrands | src/bibip_car_service.py:349-362 | each reported brand is that of the first model line with the reported name |
| SalesRanking.ReportOrdered | src/bibip_car_service.py:340-362 | the report's counts do not increase, names are distinct, and ties keep first-occurrence order |
| SalesRanking.ReportReadsAll | src/bibip_car_service.py:343-366 | when every model line has a name and a brand, the report is the top three ranked items with brands attached |
| SalesRanking.ReportComplete | src/bibip_car_service.py:340-362 | when every model line has a name and a brand, a name counted more often than a reported one, and present in `models.txt`, is itself reported |
| SalesRanking.TopModelsCounts | src/bibip_car_service.py:320-368 | each reported count is the number of times the model's name occurs among the names resolved from `sales.txt` before the first sale line that fails to resolve, where the catch-all ends the count |
| SalesRanking.TopModelsOrdered | src/bibip_car_service.py:340-362 | at most three models, by sales largest first, no name twice, ties in the order the names are first resolved from `sales.txt` |
| SalesRanking.TopModelsBrands | src/bibip_car_service.py:343-362 | each reported brand is that of the first line of `models.txt` with the reported name |
| SalesRanking.TopModelsComplete | src/bibip_car_service.py:340-362 | when every model line has a name and a brand, a name that sells more than a reported one and is present in `models.txt` is itself reported |

`TopModels(s)` is `Report(SoldNamesOf(s), s.models)`, where `SoldNamesOf(s)`
resolves every sale's vin through `GetCarInfo`.

## Left out

- File-system plumbing is not modelled: opening, append and rewrite modes,
  path joins, the missing-file branch of `_read_file`, and the hard-coded root
  directory. Files are sequences held in the `Service` value.
- Index loading (`_initialize_indexes`) is not modelled. A store is any
  `Service` value; the `Indexed` predicate says when its indexes agree with
  its data files.
- Data files are kept as the lines they read back as, not as raw text. A
  line that a rewrite copies unchanged (`writelines(car_lines)`, or the
  unpadded `line.strip()` lines of `revert_sale`) reads back as the same
  fields, so nothing is lost. Index files are not modelled as text; their
  `ljust(50)` padding matters only to index loading, which is left out above.
- Newline translation on write (`\n` written as `\r\n` on Windows, the
  platform of the hard-coded root directory) is not modelled. It changes
  what is read back only for a record that already holds a line break. A
  field holding `\r\n` is written as `\r\r\n`, which reads back as one
  more, empty, line. So does a record of 500 characters or more that ends
  in `\r`. The model counts the lines such a record reads back as on a
  platform that writes `\n` unchanged. Every clause about a record without
  a line break holds on both platforms.
- Text encoding is not modelled. `open()` uses the locale's encoding, and a
  name, brand, vin or other field that encoding cannot represent makes
  `add_model`, `add_car` or `sell_car` raise `UnicodeEncodeError` at the
  data-file write, before the index is touched. The model writes any
  string, so its inserts always succeed.
- Appending assumes the data file is empty or ends with a line break, as
  every file the service writes does. When a file's text does not end with
  a break, `add_model`, `add_car` and `sell_car` join the new record onto
  its last line. The model appends the record as new lines.
- CarService.SellCar: `cars.txt` is rewritten in `r+` mode after `seek(0)`,
  without truncation. When the rewritten text is shorter than the file (a car
  line longer than 500 characters whose status shrinks, or a file read with
  `\r\n` endings), the old tail of the file is left behind. The model
  assumes the file ends where the new text ends.
- UpdateVinIndexed: a new vin with a trailing blank is covered only when
  every car line has a field after the vin. Only the renamed line needs one,
  but the contract does not name that line.
- `strip()` inside the fields (`car_data[4].strip()`) is not modelled. Lines
  are already stripped, so only a blank-padded status field in the middle of
  a line would differ.
- Prices, costs and timestamps are kept as text. `Decimal(...)` and
  `datetime.fromisoformat(...)` are not modelled, because no arithmetic or
  comparison is done on them.
- CarQueries.GetCars: a line whose price or date text `Decimal` or
  `datetime.fromisoformat` would reject is read as a car instead of ending the
  scan, because those parsers are not modelled.
- CarQueries.GetCarInfo: a car or sale line whose price, date or cost those
  parsers reject is joined rather than raising, for the same reason.
- CarService.SellCar, CarService.UpdateVin, CarService.RevertSale: a stored
  line whose price or date those parsers reject returns a car instead of
  raising after the write, for the same reason.
- Python's `int()` is modelled on an optional sign followed by ASCII digits.
  Surrounding whitespace, `_` digit separators and non-ASCII digits, which
  `int()` also accepts, are read as errors.
- pydantic validation of the returned objects is not modelled, apart from
  the `CarStatus` check in `get_car_info`. The service only builds them from
  values it has already converted.
- The print-and-continue handlers are not modelled as output. The message
  printed by `get_cars` and `top_models_by_sales` is dropped; only their
  effect, ending the scan, is kept.
- Exception classes are collapsed into the five `Error` cases. A `ValueError`
  and a `TypeError` for the same missing car are both `UnknownCar`.
- The `csv` and `re` imports and the `ModelIndex`/`CarIndex`/`SalesIndex`
  class names are not modelled. The three index classes are one generic
  `Entry<K>`.
