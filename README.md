# Cadastre contracts to KML, modelled in Dafny

The converter reads a list of real-estate sale contracts, each with:

- a sale date `datumU`, compared as text against the cutoff `"2023-06-01"`;
- a total price `cenaEUR` in euro cents;
- an embedded JSON list `n` of sub-parcels, each with a longitude/latitude pair, a name `pvNepNaziv` and an area `pov`.

For every contract it decodes the embedded list. Then, sub-parcel by sub-parcel:

- a contract dated strictly after the cutoff yields one KML placemark per sub-parcel;
- a contract dated on or before it has its date printed once per sub-parcel.

The first embedded list that fails to decode ends the run, and no document is written.

This project models that transform loop and the record shapes it works on:

- `wrappers.dfy`: `Option`.
- `lex_order.dfy`: Go's `>` on strings as lexicographic order on `seq<char>`. The first differing character decides, and a proper prefix is smaller. The file also proves that this is a strict total order.
- `go_format.dfy`: Go's `%d` for integers, a parser that reads such text back, and the small string searches the readers use.
- `records.dfy`:
  - the contract, sub-parcel, placemark, document and KML records;
  - the filter `Passes`;
  - the construction of one placemark (name, description text, coordinate text);
  - readers that take the description and coordinate texts apart again. These are the inverse partners of the construction.
- `convert.dfy`: the two nested loops as the methods `Transform` and `AddSubParcels`. Each is proved equal to a specification in two layers:
  - `Selecting`: which (contract, sub-parcel) pairs survive the filter, and which dates are echoed, in order;
  - `Render`: one placemark per surviving pair.

  Lemmas state filter, fan-out, order, counting, abort and append-only properties about that specification.

Calls into Go's standard library are not defined here; they arrive as the fields of a `Library` value:

- `json.Unmarshal` of an embedded list, which yields `None` on a decoding error;
- `%f` formatting of a float;
- `%.2f` formatting of `float64(cenaEUR)/100.0`.

Floats are kept as opaque 64-bit patterns.

Each line printed for a dropped contract is recorded in the `echoed` sequence of the result, which stays valid when the run aborts.

## Model

| member | source | states |
|---|---|---|
| `LexOrder.LessIffFirstDifference` | main.go:77 | `a < b` exactly when `a` is a proper prefix of `b`, or when `a` is smaller at the first index where they differ (both directions) |
| `LexOrder.LessIrreflexive` | main.go:77 | no string is greater than itself, so a date equal to the cutoff is excluded |
| `LexOrder.LessAsymmetric` | main.go:77 | `a < b` and `b < a` never both hold |
| `LexOrder.LessTransitive` | main.go:77 | the string order is transitive |
| `LexOrder.LessTotal` | main.go:77 | of two distinct strings one is smaller, so every date is either after the cutoff or equal to or before it |
| `GoFormat.ParseFormatInt` | main.go:81 | the `%d` rendering of any integer, negative included, parses back to that integer |
| `GoFormat.FormatIntHasNoComma` | main.go:81 | `%d` text contains no comma, so within a description the area ends at the next comma |
| `Records.MakePlacemark` | main.go:79-85 | the placemark's name is the sub-parcel's `pvNepNaziv`, verbatim (the empty name included) |
| `Records.DescriptionRoundTrip` | main.go:81 | the description of a comma-free date reads back as exactly that date, the area and the price text |
| `Records.AreaAndPriceRoundTrip` | main.go:81 | the area-and-price tail of a description reads back as the area and the price text |
| `Records.CoordinatesRoundTrip` | main.go:78 | a coordinate text reads back as the longitude text (which must be comma-free), then the latitude text, with a literal altitude `0` |
| `Records.PlacemarkFields` | main.go:78-85 | for a comma-free date and longitude text, a placemark carries the sub-parcel name, the contract date, the sub-parcel area and the contract's total-price text, plus the sub-parcel's longitude then latitude |
| `Records.CutoffBoundary` | main.go:10 | the cutoff date itself and the day before fail the filter; the day after and a later month pass |
| `Records.StringsNotDates` | main.go:77 | the comparison is on text, not dates: `"2023-2-01"` (February, with no leading zero) passes, and `"2023-06"`, a prefix of the cutoff, does not |
| `Convert.Transform` | main.go:59-91 | the outer loop returns exactly the run the specification `Conversion` gives for the input contracts |
| `Convert.AddSubParcels` | main.go:76-90 | the inner loop appends exactly the placemarks of the pairs `Kept` for the list, and exactly the echoes `Dropped` for it; the placemarks and echoes it was given are prefixes of those it returns |
| `Convert.RenderAt` | main.go:79-86 | rendering gives one placemark per kept pair, in the same order, built from that pair |
| `Convert.KeptWhenPassing` | main.go:76-77 | for a contract that passes, every sub-parcel is kept, in list order, and nothing is echoed |
| `Convert.EchoedWhenDropped` | main.go:87-89 | for a contract that fails the filter, nothing is kept and its date is echoed once per sub-parcel |
| `Convert.FailurePersists` | main.go:71-75 | once a decode has failed, later contracts do not change the outcome |
| `Convert.CompletesIffAllDecode` | main.go:71-77 | the run completes exactly when every embedded list decodes, the lists of contracts the filter would drop included (both directions) |
| `Convert.AbortsAtFirstBadPayload` | main.go:71-75 | the first list that fails to decode aborts the run: no document, and only the dates echoed before it |
| `Convert.Extends` | main.go:61-86 | on a completed run, the pairs and the echoes of every input prefix are prefixes of the final ones |
| `Convert.RenderPrefix` | main.go:86 | rendering a prefix of the pairs gives a prefix of the placemarks |
| `Convert.PlacemarksOnlyGrow` | main.go:61-86 | the loop only appends: the document and echoes after any prefix of the contracts are prefixes of the final ones |
| `Convert.SelectionCount` | main.go:76-89 | one kept pair per sub-parcel of each passing contract, and one echo per sub-parcel of each dropped contract |
| `Convert.PlacemarkCount` | main.go:76-89 | on success, the placemark count is the total number of sub-parcels of the passing contracts, and the echo count is the total for the dropped ones |
| `Convert.PickAt` | main.go:62-86 | sub-parcel `j` of passing contract `i` is the kept pair at index `j` past the pairs of the contracts before `i` |
| `Convert.PlacemarkAt` | main.go:62-86 | order and fan-out: sub-parcel `j` of passing contract `i` gives the placemark at index `j` past those of the contracts before `i` |
| `Convert.SomeOrigin` | main.go:62-86 | every index below the kept count belongs to one sub-parcel of one passing contract |
| `Convert.PlacemarkOrigin` | main.go:62-86 | nothing else is produced: every placemark is built from some sub-parcel of a passing contract, at that sub-parcel's index |
| `Convert.EchoesAreDroppedDates` | main.go:87-89 | every echoed line, on a completed or an aborted run, is the date of an input contract that fails the filter |
| `Convert.SelectionNeutral` | main.go:76 | removing a contract whose list decodes to the empty list leaves the selection unchanged |
| `Convert.EmptyListIsNeutral` | main.go:76 | a contract with an empty list contributes nothing and causes no error: removing it leaves the run unchanged |
| `Convert.NothingSelected` | main.go:61-89 | when no contract passes and all lists decode, the selection completes with no pairs |
| `Convert.NothingAfterCutoff` | main.go:61-89 | input whose dates are all on or before the cutoff gives an empty document, not an error |

## Left out

- Reading `input.json` and writing `output.kml` (main.go:45, main.go:101) are file I/O and are not modelled.
- Decoding the outer JSON document (main.go:53) is treated as already done: `Transform` receives the decoded `Input`.
- `json.Unmarshal` of an embedded list (main.go:71) is a library call. It is the `unmarshalN` function of `Library`, and the model assumes nothing about it beyond its type.
- `xml.MarshalIndent` (main.go:94) is a library call. The model ends with the `Kml` value that would be marshalled; its marshalling error path is not modelled.
- `%f` of the coordinates (main.go:78) and `%.2f` of `float64(CenaEUR)/100.0` (main.go:81) are floating-point formatting. They are the `fixed6` and `priceText` functions of `Library`.
  - The price passed in is the contract's total `CenaEUR`, never divided by the area `Pov`, even though the description labels it "cena/m2". The model follows the code.
- The error messages and the closing success message (main.go:47-107) are not modelled. Only the dropped-contract echo of main.go:88 is kept, as a recorded sequence. On an abort, the model records no error text.
- Go compares strings byte by byte in UTF-8; the model compares code points. The two orders agree because UTF-8 preserves code-point order, but that equivalence is not proved here.
- Go's `int` is 64 bits wide. The model uses unbounded integers for `pov` and `cenaEUR`, because a value outside 64 bits would already have been rejected by the JSON decoder.
- The `id` and `ppNaziv` fields of a contract are carried but never used, as in the code.
- `Records.DescriptionRoundTrip` requires a date without a comma, because the reader locates the date's end by the next comma. An ISO date has none.
- `Records.CoordinatesRoundTrip` requires a comma-free longitude text, for the same reason. Go's `%f` never produces a comma.
- `Records.PlacemarkFields` requires a comma-free date and a comma-free longitude text, for the same reasons as the two round trips above: an ISO date has no comma, and Go's `%f` never produces one. For a date such as `"2023-07-01,x"`, the description is still built as the code builds it, but the reader cannot take it apart, so the lemma says nothing about such a placemark.
