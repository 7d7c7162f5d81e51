/**
 * The GeoZones helper: a list of ISO 3166-1 country codes to filter by, validated against
 * the country table, and the ISO 3166-2 region catalogue filtered by that list.
 *
 * The country table (`i18n::getData()->getCountries()`, taken by its keys) and the region
 * catalogue (the `iso_3166_regions` configuration) are framework data; here they are the
 * constant fields `isoCountries` and `isoRegions`, fixed when the helper is made.
 */
module Helpers {
  import opened Wrappers
  import opened Text

  /** The `LogicException` thrown for a code that is not an ISO 3166 two-character country code. */
  datatype Error = InvalidCountryCode

  /** One entry of the region catalogue, as configured: each key may be missing. */
  datatype RawRegion = RawRegion(code: Option<string>, name: Option<string>, regionType: Option<string>)

  /** One element of `getRegionArray`'s result; `regionCode` is PHP null when the code has no `-`. */
  datatype RegionRecord = RegionRecord(
    name: string, regionType: string, code: string, regionCode: Option<string>, countryCode: string)

  /** One element of `getRegionsAsObjects`'s result (an `ArrayData` with these keys). */
  datatype RegionObject = RegionObject(
    Name: string, Type: string, Code: string, RegionCode: Option<string>, CountryCode: string)

  // ---------------------------------------------------------------- country codes

  /**
   * `validCountryCode`: two bytes long and a key of the upper-cased country table.
   * For an ASCII code, two bytes means two characters.
   */
  function ValidCountryCode(iso: set<string>, code: string): (ok: bool)
    ensures ok ==> code in UpperKeys(iso) && 1 <= |code| <= 2
    ensures IsAscii(code) ==> (ok <==> |code| == 2 && code in UpperKeys(iso))
  {
    Utf8Length(code) == 2 && code in UpperKeys(iso)
  }

  predicate AllValid(iso: set<string>, codes: seq<string>) {
    forall i :: 0 <= i < |codes| ==> ValidCountryCode(iso, codes[i])
  }

  /** The position of the first invalid code in `codes`, or `|codes|` when all are valid. */
  function FirstInvalid(iso: set<string>, codes: seq<string>): (k: nat)
    ensures k <= |codes|
    ensures forall i :: 0 <= i < k ==> ValidCountryCode(iso, codes[i])
    ensures k < |codes| ==> !ValidCountryCode(iso, codes[k])
    ensures k == |codes| <==> AllValid(iso, codes)
  {
    if codes == [] || !ValidCountryCode(iso, codes[0]) then 0
    else 1 + FirstInvalid(iso, codes[1..])
  }

  /** PHP `array_search`: the position of the first occurrence of `x`, if any. */
  function Search(s: seq<string>, x: string): (r: Option<nat>)
    ensures r.None? <==> x !in s
    ensures r.Some? ==> r.value < |s| && s[r.value] == x && x !in s[..r.value]
  {
    if s == [] then None
    else if s[0] == x then Some(0)
    else match Search(s[1..], x)
      case None => None
      case Some(k) =>
        assert s[1..][..k] == s[1..k + 1];
        Some(k + 1)
  }

  /** The list with the first occurrence of `x` taken out, the rest in their order. */
  function RemoveFirst(s: seq<string>, x: string): (r: seq<string>)
    ensures x !in s ==> r == s
    ensures x in s ==> |r| == |s| - 1 && multiset(r) == multiset(s) - multiset{x}
    ensures x in s ==> exists k :: 0 <= k < |s| && s[k] == x && x !in s[..k] && r == s[..k] + s[k + 1..]
  {
    match Search(s, x)
    case None => s
    case Some(k) =>
      assert s == s[..k] + [s[k]] + s[k + 1..];
      s[..k] + s[k + 1..]
  }

  // ---------------------------------------------------------------- regions

  predicate HasCodeAndName(e: RawRegion) {
    e.code.Some? && e.name.Some?
  }

  /** The country part of a region code: the text before its first `-`. */
  function CountryPart(code: string): string {
    Explode(code, '-')[0]
  }

  /**
   * The record `getRegionArray` builds from a catalogue entry: `code` split on `-`
   * into the country part and the region part, `type` defaulting to "".
   */
  function ToRecord(e: RawRegion): (r: RegionRecord)
    requires HasCodeAndName(e)
    ensures r.name == e.name.value && r.code == e.code.value
    ensures r.regionType == match e.regionType case Some(t) => t case None => ""
    ensures r.countryCode == CountryPart(r.code)
    ensures '-' !in r.countryCode && |r.countryCode| <= |r.code| && r.code[..|r.countryCode|] == r.countryCode
    ensures r.regionCode.Some? <==> '-' in r.code
    ensures r.regionCode.Some? ==>
      var n := |r.countryCode| + 1 + |r.regionCode.value|;
      '-' !in r.regionCode.value && |r.code| >= n && r.code[..n] == r.countryCode + "-" + r.regionCode.value &&
      (n == |r.code| || r.code[n] == '-')
  {
    var code := e.code.value;
    var codes := Explode(code, '-');
    JoinPrefix(codes, "-");
    assert |codes| == 1 ==> code == codes[0];
    assert |codes| > 1 ==> code[|codes[0]|] == '-';
    RegionRecord(
      e.name.value,
      match e.regionType case Some(t) => t case None => "",
      code,
      if |codes| > 1 then Some(codes[1]) else None,
      codes[0])
  }

  /** Whether `getRegionArray` keeps an entry: it has a code and a name, and an empty list filters nothing. */
  predicate Passes(countries: seq<string>, e: RawRegion) {
    HasCodeAndName(e) && (|countries| == 0 || CountryPart(e.code.value) in countries)
  }

  /** What `getRegionArray` returns for a country list and a catalogue. */
  function RegionsFor(countries: seq<string>, entries: seq<RawRegion>): seq<RegionRecord>
    decreases |entries|
  {
    if entries == [] then []
    else
      var last := entries[|entries| - 1];
      RegionsFor(countries, entries[..|entries| - 1]) + (if Passes(countries, last) then [ToRecord(last)] else [])
  }

  /**
   * The catalogue position each record of `RegionsFor` comes from. The positions increase,
   * each names an entry that passes the filter, and every entry that passes is named: the
   * result lists exactly the passing entries, in catalogue order.
   */
  ghost function Origins(countries: seq<string>, entries: seq<RawRegion>): (idx: seq<nat>)
    ensures |idx| == |RegionsFor(countries, entries)|
    ensures forall k :: 0 <= k < |idx| ==>
      idx[k] < |entries| && Passes(countries, entries[idx[k]]) &&
      RegionsFor(countries, entries)[k] == ToRecord(entries[idx[k]])
    ensures forall k, l :: 0 <= k < l < |idx| ==> idx[k] < idx[l]
    ensures forall i :: 0 <= i < |entries| && Passes(countries, entries[i]) ==> i in idx
    decreases |entries|
  {
    if entries == [] then []
    else
      var n := |entries| - 1;
      var front := Origins(countries, entries[..n]);
      assert forall i :: 0 <= i < n ==> entries[..n][i] == entries[i];
      assert RegionsFor(countries, entries) ==
        RegionsFor(countries, entries[..n]) + (if Passes(countries, entries[n]) then [ToRecord(entries[n])] else []);
      front + (if Passes(countries, entries[n]) then [n] else [])
  }

  /** Keep the records whose country code is in `countries`. */
  function KeepCountries(countries: seq<string>, rs: seq<RegionRecord>): seq<RegionRecord>
    decreases |rs|
  {
    if rs == [] then []
    else
      var last := rs[|rs| - 1];
      KeepCountries(countries, rs[..|rs| - 1]) + (if last.countryCode in countries then [last] else [])
  }

  /**
   * Filtering by a non-empty country list is the same as building the unfiltered list
   * and then keeping the records of those countries.
   */
  lemma {:induction false} FilterAfterBuild(countries: seq<string>, entries: seq<RawRegion>)
    requires countries != []
    ensures RegionsFor(countries, entries) == KeepCountries(countries, RegionsFor([], entries))
    decreases |entries|
  {
    if entries != [] {
      var n := |entries| - 1;
      FilterAfterBuild(countries, entries[..n]);
      var all := RegionsFor([], entries);
      if HasCodeAndName(entries[n]) {
        assert all[..|all| - 1] == RegionsFor([], entries[..n]);
      } else {
        assert all == RegionsFor([], entries[..n]);
      }
    }
  }

  /** Without a country list, one record for every entry that has a code and a name. */
  lemma UnfilteredKeepsEveryNamedEntry(entries: seq<RawRegion>, i: nat)
    requires i < |entries| && HasCodeAndName(entries[i])
    ensures ToRecord(entries[i]) in RegionsFor([], entries)
  {
    var idx := Origins([], entries);
    assert i in idx;
  }

  /** A record is in the filtered list exactly when it comes from an entry of a listed country. */
  lemma FilteredMembership(countries: seq<string>, entries: seq<RawRegion>, r: RegionRecord)
    requires countries != []
    ensures r in RegionsFor(countries, entries) <==>
      exists i :: 0 <= i < |entries| && HasCodeAndName(entries[i]) && r == ToRecord(entries[i]) &&
        CountryPart(entries[i].code.value) in countries
  {
    var rs := RegionsFor(countries, entries);
    var idx := Origins(countries, entries);
    if r in rs {
      var k :| 0 <= k < |rs| && rs[k] == r;
      assert Passes(countries, entries[idx[k]]) && r == ToRecord(entries[idx[k]]);
    }
    if exists i :: 0 <= i < |entries| && HasCodeAndName(entries[i]) && r == ToRecord(entries[i]) &&
        CountryPart(entries[i].code.value) in countries {
      var i :| 0 <= i < |entries| && HasCodeAndName(entries[i]) && r == ToRecord(entries[i]) &&
        CountryPart(entries[i].code.value) in countries;
      assert Passes(countries, entries[i]);
      var k :| 0 <= k < |idx| && idx[k] == i;
      assert rs[k] == r;
    }
  }

  function ToObject(r: RegionRecord): RegionObject {
    RegionObject(r.name, r.regionType, r.code, r.regionCode, r.countryCode)
  }

  // ---------------------------------------------------------------- the helper

  class GeoZonesHelper {
    /** The keys of the country table, before upper-casing. */
    const isoCountries: set<string>
    /** The region catalogue. */
    const isoRegions: seq<RawRegion>
    /** The countries this helper filters by. */
    var countriesList: seq<string>

    /** Every code in the list has passed validation. */
    ghost predicate Valid()
      reads this
    {
      AllValid(isoCountries, countriesList)
    }

    /** `GeoZonesHelper::create()` with no countries. */
    constructor(isoCountries: set<string>, isoRegions: seq<RawRegion>)
      ensures this.isoCountries == isoCountries && this.isoRegions == isoRegions
      ensures countriesList == [] && Valid()
    {
      this.isoCountries := isoCountries;
      this.isoRegions := isoRegions;
      countriesList := [];
    }

    /** `GeoZonesHelper::create($countries)`: the constructor throws when `setCountriesList` does. */
    static method Create(isoCountries: set<string>, isoRegions: seq<RawRegion>, countries: seq<string>)
      returns (r: Result<GeoZonesHelper, Error>)
      ensures r.Success? <==> AllValid(isoCountries, countries)
      ensures r.Success? ==>
        fresh(r.value) && r.value.Valid() && r.value.countriesList == countries &&
        r.value.isoCountries == isoCountries && r.value.isoRegions == isoRegions
    {
      var h := new GeoZonesHelper(isoCountries, isoRegions);
      var res := h.SetCountriesList(countries);
      if res.Fail? {
        return Failure(res.error);
      }
      return Success(h);
    }

    /** `getCountriesList`: every code it returns has been validated. */
    function GetCountriesList(): (r: seq<string>)
      reads this
      requires Valid()
      ensures AllValid(isoCountries, r)
    {
      countriesList
    }

    /**
     * `setCountriesList`: the list is emptied first, then each code is validated and
     * appended; the first invalid code throws and leaves the codes before it in place.
     */
    method SetCountriesList(countries: seq<string>) returns (res: Outcome<Error>)
      modifies this
      ensures Valid()
      ensures res.Pass? <==> AllValid(isoCountries, countries)
      ensures countriesList == countries[..FirstInvalid(isoCountries, countries)]
      ensures res.Pass? ==> countriesList == countries
    {
      countriesList := [];
      var i := 0;
      while i < |countries|
        invariant i <= |countries|
        invariant countriesList == countries[..i]
        invariant forall j :: 0 <= j < i ==> ValidCountryCode(isoCountries, countries[j])
      {
        if !ValidCountryCode(isoCountries, countries[i]) {
          return Fail(InvalidCountryCode);
        }
        countriesList := countriesList + [countries[i]];
        i := i + 1;
      }
      assert countries[..i] == countries;
      return Pass;
    }

    /** `addCountryToList`: validate, then append; an invalid code throws and changes nothing. */
    method AddCountryToList(code: string) returns (res: Outcome<Error>)
      requires Valid()
      modifies this
      ensures Valid()
      ensures res.Pass? <==> ValidCountryCode(isoCountries, code)
      ensures countriesList == if res.Pass? then old(countriesList) + [code] else old(countriesList)
    {
      if !ValidCountryCode(isoCountries, code) {
        return Fail(InvalidCountryCode);
      }
      countriesList := countriesList + [code];
      return Pass;
    }

    /**
     * `removeCountryFromList`: validate, drop the first occurrence (if any) and set the
     * list again. An invalid code throws before anything changes.
     */
    method RemoveCountryFromList(code: string) returns (res: Outcome<Error>)
      requires Valid()
      modifies this
      ensures Valid()
      ensures res.Pass? <==> ValidCountryCode(isoCountries, code)
      ensures countriesList == if res.Pass? then RemoveFirst(old(countriesList), code) else old(countriesList)
    {
      if !ValidCountryCode(isoCountries, code) {
        return Fail(InvalidCountryCode);
      }
      var list := countriesList;
      var key := Search(list, code);
      if key.Some? {
        list := list[..key.value] + list[key.value + 1..];
      }
      assert list == RemoveFirst(countriesList, code);
      assert forall j :: 0 <= j < |list| ==> list[j] in multiset(countriesList);
      res := SetCountriesList(list);
    }

    /** `getRegionArray`: walk the catalogue and build the records of the listed countries. */
    method GetRegionArray() returns (results: seq<RegionRecord>)
      requires Valid()
      ensures results == RegionsFor(countriesList, isoRegions)
    {
      var countries := GetCountriesList();
      results := [];
      var i := 0;
      while i < |isoRegions|
        invariant i <= |isoRegions|
        invariant results == RegionsFor(countries, isoRegions[..i])
      {
        var item := isoRegions[i];
        assert isoRegions[..i + 1][..i] == isoRegions[..i];
        if item.code.Some? && item.name.Some? {
          var codes := Explode(item.code.value, '-');
          var regionCode := if |codes| > 1 then Some(codes[1]) else None;
          var countryCode := codes[0];
          var regionType := if item.regionType.Some? then item.regionType.value else "";
          if |countries| > 0 && countryCode !in countries {
            i := i + 1;
            continue;
          }
          results := results + [RegionRecord(item.name.value, regionType, item.code.value, regionCode, countryCode)];
        }
        i := i + 1;
      }
      assert isoRegions[..i] == isoRegions;
    }

    /** `getRegionsAsObjects`: the records of `getRegionArray`, field for field, in the same order. */
    method GetRegionsAsObjects() returns (results: seq<RegionObject>)
      requires Valid()
      ensures var rs := RegionsFor(countriesList, isoRegions);
        |results| == |rs| &&
        forall k :: 0 <= k < |rs| ==>
          results[k].Name == rs[k].name && results[k].Type == rs[k].regionType &&
          results[k].Code == rs[k].code && results[k].RegionCode == rs[k].regionCode &&
          results[k].CountryCode == rs[k].countryCode
    {
      var regions := GetRegionArray();
      results := [];
      var i := 0;
      while i < |regions|
        invariant i <= |regions|
        invariant results == seq(i, k requires 0 <= k < i => ToObject(regions[k]))
      {
        var item := regions[i];
        results := results + [RegionObject(item.name, item.regionType, item.code, item.regionCode, item.countryCode)];
        i := i + 1;
      }
    }
  }
}
