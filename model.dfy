/**
 * The Zone record: its country and region-code columns, which hold either a JSON list
 * or a legacy single value, and the rule that fills in every region of the zone's
 * countries when it is saved with "all regions" ticked.
 */
module Model {
  import opened Wrappers
  import opened Text
  import opened Json
  import opened Helpers

  /**
   * The decode-or-promote rule of `getCountriesArray` and `getRegionCodesArray`: a column
   * holding a non-empty JSON list gives that list; any other set value gives itself as
   * the only element; an unset column gives nothing (PHP null).
   */
  function DecodeOrPromote(column: Option<string>): (r: Option<seq<string>>)
    ensures r.None? <==> column.None?
    ensures r.Some? ==> |r.value| > 0
  {
    match column
    case None => None
    case Some(s) =>
      match Decode(s)
      case Some(xs) => if xs != [] then Some(xs) else Some([s])
      case None => Some([s])
  }

  /** A legacy single value that is not a JSON list is promoted to a one-element list. */
  lemma LegacyPromoted(s: string)
    requires Decode(s).None?
    ensures DecodeOrPromote(Some(s)) == Some([s])
  {
  }

  /** A column holding the encoding of a non-empty list of plain strings reads back as that list. */
  lemma EncodedReadBack(xs: seq<string>)
    requires xs != [] && AllPlain(xs)
    ensures DecodeOrPromote(Some(Encode(xs))) == Some(xs)
  {
    DecodeEncode(xs);
  }

  /** Every encoding of a non-empty plain list that a column may hold reads back as that list. */
  lemma ReadBackAll(column: Option<string>)
    ensures forall xs :: column == Some(Encode(xs)) && xs != [] && AllPlain(xs) ==> DecodeOrPromote(column) == Some(xs)
  {
    forall xs | column == Some(Encode(xs)) && xs != [] && AllPlain(xs) ensures DecodeOrPromote(column) == Some(xs) {
      EncodedReadBack(xs);
    }
  }

  /** An encoded empty list is not a list of countries: the text `[]` is promoted like a legacy value. */
  lemma EmptyListPromoted()
    ensures DecodeOrPromote(Some("[]")) == Some(["[]"])
  {
  }

  /** The region codes of the records, in order. */
  function RegionCodesOf(rs: seq<RegionRecord>): seq<Option<string>> {
    seq(|rs|, k requires 0 <= k < |rs| => rs[k].regionCode)
  }

  /**
   * The value `RegionCodes` has after `onBeforeWrite`: with "all regions" ticked, a set
   * country column whose codes all validate, and at least one region found, the JSON list
   * of the region codes of every region of those countries; otherwise the prior value.
   */
  function RegionCodesOnWrite(
    iso: set<string>, catalogue: seq<RawRegion>, country: Option<string>, allRegions: bool, prior: Option<string>)
    : (r: Option<string>)
    ensures !allRegions || country.None? ==> r == prior
    ensures country.Some? && !AllValid(iso, DecodeOrPromote(country).value) ==> r == prior
    ensures country.Some? && RegionsFor(DecodeOrPromote(country).value, catalogue) == [] ==> r == prior
  {
    if allRegions && country.Some? && AllValid(iso, DecodeOrPromote(country).value) then
      var codes := RegionCodesOf(RegionsFor(DecodeOrPromote(country).value, catalogue));
      if |codes| > 0 then Some(EncodeNullable(codes)) else prior
    else prior
  }

  /** Saving twice gives the same region codes as saving once. */
  lemma OnWriteIdempotent(
    iso: set<string>, catalogue: seq<RawRegion>, country: Option<string>, allRegions: bool, prior: Option<string>)
    ensures var once := RegionCodesOnWrite(iso, catalogue, country, allRegions, prior);
      RegionCodesOnWrite(iso, catalogue, country, allRegions, once) == once
  {
  }

  /** When the rule fires, what it writes depends on the countries and the catalogue only. */
  lemma OnWriteIgnoresPrior(
    iso: set<string>, catalogue: seq<RawRegion>, country: Option<string>, allRegions: bool, p1: Option<string>, p2: Option<string>)
    requires RegionCodesOnWrite(iso, catalogue, country, allRegions, p1) != p1
    ensures RegionCodesOnWrite(iso, catalogue, country, allRegions, p2) ==
      RegionCodesOnWrite(iso, catalogue, country, allRegions, p1)
  {
  }

  /**
   * When every region found has a plain region code, the written column reads back
   * through `getRegionCodesArray` as exactly those codes, in catalogue order.
   */
  lemma OnWriteReadBack(
    iso: set<string>, catalogue: seq<RawRegion>, country: Option<string>, prior: Option<string>, codes: seq<string>)
    requires country.Some? && AllValid(iso, DecodeOrPromote(country).value)
    requires Lift(codes) == RegionCodesOf(RegionsFor(DecodeOrPromote(country).value, catalogue))
    requires codes != [] && AllPlain(codes)
    ensures DecodeOrPromote(RegionCodesOnWrite(iso, catalogue, country, true, prior)) == Some(codes)
  {
    EncodedReadBack(codes);
  }

  class Zone {
    var name: Option<string>
    /** A JSON list of country codes, or a legacy single code. */
    var country: Option<string>
    /** A JSON list of region codes, or a legacy single code. */
    var regionCodes: Option<string>
    var allRegions: bool
    var enabled: bool

    /** `Zone::create()`: every column at its default. */
    constructor()
      ensures name.None? && country.None? && regionCodes.None? && !allRegions && !enabled
    {
      name, country, regionCodes := None, None, None;
      allRegions, enabled := false, false;
    }

    /**
     * `getCountriesArray`: nothing for an unset column, the list itself for an encoded
     * non-empty list, and the one-element list of a legacy value.
     */
    function GetCountriesArray(): (r: Option<seq<string>>)
      reads this
      ensures r.None? <==> country.None?
      ensures country.Some? && Decode(country.value).None? ==> r == Some([country.value])
      ensures forall xs :: country == Some(Encode(xs)) && xs != [] && AllPlain(xs) ==> r == Some(xs)
    {
      ReadBackAll(country);
      DecodeOrPromote(country)
    }

    /** `getRegionCodesArray`: the same rule applied to the region-code column. */
    function GetRegionCodesArray(): (r: Option<seq<string>>)
      reads this
      ensures r.None? <==> regionCodes.None?
      ensures regionCodes.Some? && Decode(regionCodes.value).None? ==> r == Some([regionCodes.value])
      ensures forall xs :: regionCodes == Some(Encode(xs)) && xs != [] && AllPlain(xs) ==> r == Some(xs)
    {
      ReadBackAll(regionCodes);
      DecodeOrPromote(regionCodes)
    }

    /**
     * `getCountriesList`: the countries joined with commas. A legacy single value is
     * given back as it is. An unset column has no list (PHP's `implode` rejects null).
     */
    function GetCountriesList(): (r: Option<string>)
      reads this
      ensures r.None? <==> country.None?
      ensures country.Some? && Decode(country.value).None? ==> r == country
      ensures forall xs :: country == Some(Encode(xs)) && xs != [] && AllPlain(xs) ==> r == Some(Join(xs, ","))
    {
      match GetCountriesArray()
      case None => None
      case Some(xs) => Some(Join(xs, ","))
    }

    /**
     * `onBeforeWrite`: with "all regions" ticked and a country set, make a helper for the
     * zone's countries (which throws on an invalid code), collect the region code of every
     * region it returns, and store them as a JSON list unless there are none.
     */
    method OnBeforeWrite(iso: set<string>, catalogue: seq<RawRegion>) returns (res: Outcome<Error>)
      modifies this`regionCodes
      ensures res.Fail? <==> allRegions && country.Some? && !AllValid(iso, DecodeOrPromote(country).value)
      ensures regionCodes == RegionCodesOnWrite(iso, catalogue, country, allRegions, old(regionCodes))
    {
      if allRegions && country.Some? {
        var made := GeoZonesHelper.Create(iso, catalogue, DecodeOrPromote(country).value);
        if made.Failure? {
          return Fail(made.error);
        }
        var helper := made.value;
        var regions := helper.GetRegionArray();
        var codes: seq<Option<string>> := [];
        var i := 0;
        while i < |regions|
          invariant i <= |regions|
          invariant codes == RegionCodesOf(regions[..i])
        {
          codes := codes + [regions[i].regionCode];
          i := i + 1;
        }
        assert regions[..i] == regions;
        if |codes| > 0 {
          regionCodes := Some(EncodeNullable(codes));
        }
      }
      return Pass;
    }
  }
}
