/**
  The record shapes of the converter (main.go:10-41) and the construction of
  one placemark from a contract and one of its sub-parcels (main.go:77-85),
  together with readers that take a placemark's texts apart again.
 */
module Records {

  import opened Wrappers
  import opened LexOrder
  import opened GoFormat

  /** A Go `float64`, kept as its IEEE 754 bit pattern: the model never computes with it. */
  datatype Float64 = Float64(bits: bv64)

  /** The `latlon` object of a sub-parcel. */
  datatype LatLon = LatLon(lon: Float64, lat: Float64)

  /** One element of the embedded `n` list. */
  datatype SubParcel = SubParcel(latLon: LatLon, pvNepNaziv: string, pov: int)

  /** One element of `data.contractsByOpstinaIDAndDatumU.items`; `n` is JSON text. */
  datatype Item = Item(id: string, datumU: string, ppNaziv: string, cenaEUR: int, n: string)

  /** The decoded outer document, reduced to its list of contracts. */
  datatype Input = Input(items: seq<Item>)

  datatype Point = Point(coordinates: string)

  datatype Placemark = Placemark(name: string, description: string, point: Point)

  datatype Document = Document(placemarks: seq<Placemark>)

  datatype Kml = Kml(document: Document)

  /**
    The calls the converter makes into Go's standard library, which the model
    does not define: `json.Unmarshal` of an embedded list (`None` on error),
    `%f` of a float and `%.2f` of `float64(cenaEUR)/100.0`.
   */
  datatype Library = Library(
    unmarshalN: string -> Option<seq<SubParcel>>,
    fixed6: Float64 -> string,
    priceText: int -> string)

  const Cutoff: string := "2023-06-01"

  /** The filter of main.go:77: `item.DatumU > cutoffDate` on strings. */
  predicate Passes(datumU: string)
  {
    Greater(datumU, Cutoff)
  }

  const DatePrefix: string := "Datum prodaje: "
  const AreaLabel: string := ", kvadrata: "
  const PriceLabel: string := ", cena/m2: "
  const PriceSuffix: string := "\U{2013}\U{00D1} "

  /** `fmt.Sprintf("Datum prodaje: %s, kvadrata: %d, cena/m2: %.2f–Ñ ", ...)`, the price already rendered. */
  function Description(datumU: string, pov: int, price: string): string
  {
    DatePrefix + (datumU + (AreaLabel + AreaAndPrice(pov, price)))
  }

  /** The part of a description after the date: `%d` area, label, price, currency text. */
  function AreaAndPrice(pov: int, price: string): string
  {
    FormatInt(pov) + (PriceLabel + (price + PriceSuffix))
  }

  /** `fmt.Sprintf("%f,%f,0", lon, lat)`, both floats already rendered. */
  function Coordinates(lon: string, lat: string): string
  {
    lon + "," + lat + ",0"
  }

  /** The placemark built for sub-parcel `sp` of contract `item`. */
  function MakePlacemark(lib: Library, item: Item, sp: SubParcel): (p: Placemark)
    ensures p.name == sp.pvNepNaziv
  {
    Placemark(
      sp.pvNepNaziv,
      Description(item.datumU, sp.pov, lib.priceText(item.cenaEUR)),
      Point(Coordinates(lib.fixed6(sp.latLon.lon), lib.fixed6(sp.latLon.lat))))
  }

  /** What a description says: the sale date, the area and the price text. */
  datatype DescriptionFields = DescriptionFields(saleDate: string, area: int, price: string)

  /**
    Reads a description back: the date runs to the first comma, the area is
    decimal text up to the next comma, and the price is what lies between its
    label and the closing currency text.
   */
  function ReadDescription(s: string): Option<DescriptionFields>
  {
    match StripPrefix(s, DatePrefix)
    case None => None
    case Some(r) =>
      var i := IndexOf(r, ',');
      match StripPrefix(r[i..], AreaLabel)
      case None => None
      case Some(rest) =>
        match ReadAreaAndPrice(rest)
        case None => None
        case Some((area, price)) => Some(DescriptionFields(r[..i], area, price))
  }

  /** Reads the `%d` area up to the next comma, then the labelled price. */
  function ReadAreaAndPrice(s: string): Option<(int, string)>
  {
    var j := IndexOf(s, ',');
    match ParseInt(s[..j])
    case None => None
    case Some(area) =>
      match StripPrefix(s[j..], PriceLabel)
      case None => None
      case Some(rest) =>
        match StripSuffix(rest, PriceSuffix)
        case None => None
        case Some(price) => Some((area, price))
  }

  /** Reads a coordinate triple back into its longitude and latitude texts. */
  function ReadCoordinates(s: string): Option<(string, string)>
  {
    var i := IndexOf(s, ',');
    match StripPrefix(s[i..], ",")
    case None => None
    case Some(r) =>
      match StripSuffix(r, ",0")
      case None => None
      case Some(lat) => Some((s[..i], lat))
  }

  /**
    A description holds the sale date verbatim, the area as `%d` text and the
    price text, and nothing else varies: for a date without a comma (an ISO
    date has none) all three read back unchanged. The price is whatever it is
    given; it is not divided by the area.
   */
  lemma DescriptionRoundTrip(datumU: string, pov: int, price: string)
    requires ',' !in datumU
    ensures ReadDescription(Description(datumU, pov, price)) == Some(DescriptionFields(datumU, pov, price))
  {
    var rest := AreaAndPrice(pov, price);
    var tail := AreaLabel + rest;
    var r := datumU + tail;
    StripPrefixOfConcat(DatePrefix, r);
    IndexOfAfter(datumU, tail, ',');
    assert r[|datumU|..] == tail && r[..|datumU|] == datumU;
    StripPrefixOfConcat(AreaLabel, rest);
    AreaAndPriceRoundTrip(pov, price);
  }

  lemma AreaAndPriceRoundTrip(pov: int, price: string)
    ensures ReadAreaAndPrice(AreaAndPrice(pov, price)) == Some((pov, price))
  {
    var area := FormatInt(pov);
    var tail := PriceLabel + (price + PriceSuffix);
    var s := area + tail;
    FormatIntHasNoComma(pov);
    IndexOfAfter(area, tail, ',');
    assert s[..|area|] == area && s[|area|..] == tail;
    ParseFormatInt(pov);
    StripPrefixOfConcat(PriceLabel, price + PriceSuffix);
    StripSuffixOfConcat(price, PriceSuffix);
  }

  /** Longitude comes first, then latitude, then the literal altitude 0. */
  lemma CoordinatesRoundTrip(lon: string, lat: string)
    requires ',' !in lon
    ensures ReadCoordinates(Coordinates(lon, lat)) == Some((lon, lat))
  {
    var s := Coordinates(lon, lat);
    var tail := "," + lat + ",0";
    assert s == lon + tail;
    IndexOfAfter(lon, tail, ',');
    assert s[|lon|..] == tail && s[..|lon|] == lon;
    assert tail == "," + (lat + ",0");
    assert StripSuffix(lat + ",0", ",0") == Some(lat);
  }

  /**
    A placemark is named after its sub-parcel, describes the contract's date,
    the sub-parcel's area and the contract's total price, and sits at the
    sub-parcel's longitude and latitude, in that order.
   */
  lemma PlacemarkFields(lib: Library, item: Item, sp: SubParcel)
    requires ',' !in item.datumU
    requires ',' !in lib.fixed6(sp.latLon.lon)
    ensures MakePlacemark(lib, item, sp).name == sp.pvNepNaziv
    ensures ReadDescription(MakePlacemark(lib, item, sp).description)
      == Some(DescriptionFields(item.datumU, sp.pov, lib.priceText(item.cenaEUR)))
    ensures ReadCoordinates(MakePlacemark(lib, item, sp).point.coordinates)
      == Some((lib.fixed6(sp.latLon.lon), lib.fixed6(sp.latLon.lat)))
  {
    DescriptionRoundTrip(item.datumU, sp.pov, lib.priceText(item.cenaEUR));
    CoordinatesRoundTrip(lib.fixed6(sp.latLon.lon), lib.fixed6(sp.latLon.lat));
  }

  /** The filter's boundary: the cutoff itself and the day before are out, the day after is in. */
  lemma CutoffBoundary()
    ensures !Passes("2023-06-01")
    ensures !Passes("2023-05-31")
    ensures Passes("2023-06-02")
    ensures Passes("2023-12-01")
  {
    LessIrreflexive(Cutoff);
  }

  /**
    The test compares strings, not dates: a month written without its leading
    zero ("2023-2-01", in February) passes, because '2' follows '0', and a
    date that is a proper prefix of the cutoff ("2023-06") does not.
   */
  lemma StringsNotDates()
    ensures Passes("2023-2-01")
    ensures !Passes("2023-06")
  {
    var d := "2023-2-01";
    assert Cutoff[..5] == d[..5] && Cutoff[5] < d[5];
    assert FirstDifferenceAt(Cutoff, d, 5);
    LessIffFirstDifference(Cutoff, d);
    var p := "2023-06";
    assert ProperPrefix(p, Cutoff);
    LessIffFirstDifference(p, Cutoff);
    LessAsymmetric(p, Cutoff);
  }
}
