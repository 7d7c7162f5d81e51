/**
 * The zone migration task: `up` rewrites every legacy single-valued country column into a
 * one-element JSON list, `down` collapses every JSON list back to its first element. Both
 * report how many zones they changed.
 */
module Tasks {
  import opened Wrappers
  import opened Json
  import opened Model

  /** `up` rewrites a zone whose country is set but decodes to nothing or to an empty list. */
  predicate NeedsUp(c: Option<string>) {
    c.Some? && (Decode(c.value).None? || Decode(c.value) == Some([]))
  }

  /** `down` rewrites a zone whose country decodes to a list. */
  predicate NeedsDown(c: Option<string>) {
    c.Some? && Decode(c.value).Some?
  }

  /** The country column after `up`. */
  function UpCountry(c: Option<string>): Option<string> {
    if NeedsUp(c) then Some(Encode([c.value])) else c
  }

  /**
   * The country column after `down`: the first element of the list. An encoded empty list
   * has no first element; PHP reads a missing key as null, so the column is left unset.
   */
  function DownCountry(c: Option<string>): (r: Option<string>)
  {
    if NeedsDown(c) then
      var xs := Decode(c.value).value;
      if xs != [] then Some(xs[0]) else None
    else c
  }

  /** The values the restricted JSON model covers: unset, a plain legacy value, or a list encoding. */
  predicate InDomain(c: Option<string>) {
    c.None? || Plain(c.value) || Decode(c.value).Some?
  }

  /** How many columns `p` holds of. */
  function Count(cs: seq<Option<string>>, p: Option<string> -> bool): (n: nat)
    ensures n <= |cs|
  {
    if cs == [] then 0 else (if p(cs[0]) then 1 else 0) + Count(cs[1..], p)
  }

  function UpAll(cs: seq<Option<string>>): seq<Option<string>> {
    seq(|cs|, i requires 0 <= i < |cs| => UpCountry(cs[i]))
  }

  function DownAll(cs: seq<Option<string>>): seq<Option<string>> {
    seq(|cs|, i requires 0 <= i < |cs| => DownCountry(cs[i]))
  }

  /** After `up`, a column of the model's domain no longer needs migrating. */
  lemma UpSettles(c: Option<string>)
    requires InDomain(c)
    ensures !NeedsUp(UpCountry(c))
    ensures InDomain(UpCountry(c))
  {
    if NeedsUp(c) {
      if Decode(c.value) == Some([]) {
        EncodeDecode(c.value, []);
        assert c.value == "[]";
      }
      DecodeEncode([c.value]);
    }
  }

  /** `up` is idempotent on the columns of the model's domain. */
  lemma UpIdempotent(c: Option<string>)
    requires InDomain(c)
    ensures UpCountry(UpCountry(c)) == UpCountry(c)
  {
    UpSettles(c);
  }

  lemma {:induction false} CountNone(cs: seq<Option<string>>, p: Option<string> -> bool)
    requires forall i :: 0 <= i < |cs| ==> !p(cs[i])
    ensures Count(cs, p) == 0
  {
    if cs != [] {
      CountNone(cs[1..], p);
    }
  }

  /** A second `up` over the same zones changes nothing and reports zero. */
  lemma SecondUpIsNoOp(cs: seq<Option<string>>)
    requires forall i :: 0 <= i < |cs| ==> InDomain(cs[i])
    ensures UpAll(UpAll(cs)) == UpAll(cs)
    ensures Count(UpAll(cs), NeedsUp) == 0
  {
    forall i | 0 <= i < |cs| ensures !NeedsUp(UpAll(cs)[i]) && UpAll(UpAll(cs))[i] == UpAll(cs)[i] {
      UpSettles(cs[i]);
    }
    CountNone(UpAll(cs), NeedsUp);
  }

  /** `down` after `up` gives back a migrated legacy value. */
  lemma DownAfterUp(c: Option<string>)
    requires NeedsUp(c) && Plain(c.value)
    ensures DownCountry(UpCountry(c)) == c
  {
    DecodeEncode([c.value]);
  }

  /** `down` after `up` restores every zone: migrated ones get their legacy value back. */
  lemma DownAfterUpAll(cs: seq<Option<string>>)
    requires forall i :: 0 <= i < |cs| ==> cs[i].None? || Plain(cs[i].value)
    ensures DownAll(UpAll(cs)) == cs
  {
    forall i | 0 <= i < |cs| ensures DownAll(UpAll(cs))[i] == cs[i] {
      if NeedsUp(cs[i]) {
        DownAfterUp(cs[i]);
      } else if cs[i].Some? {
        PlainDecodesToNothingOrEmpty(cs[i].value);
      }
    }
  }

  /**
   * `down` keeps only the first country: `up` after `down` turns a zone of several
   * countries into the list of its first country, which is a different column.
   */
  lemma DownIsLossy(xs: seq<string>)
    requires xs != [] && AllPlain(xs)
    ensures DownCountry(Some(Encode(xs))) == Some(xs[0])
    ensures UpCountry(DownCountry(Some(Encode(xs)))) == Some(Encode([xs[0]]))
    ensures |xs| > 1 ==> UpCountry(DownCountry(Some(Encode(xs)))) != Some(Encode(xs))
  {
    DecodeEncode(xs);
    PlainDecodesToNothingOrEmpty(xs[0]);
    DecodeEncode([xs[0]]);
  }

  /** The country column of each zone, in order. */
  function Countries(zones: seq<Zone>): (cs: seq<Option<string>>)
    reads zones
    ensures |cs| == |zones| && forall i :: 0 <= i < |zones| ==> cs[i] == zones[i].country
  {
    if zones == [] then [] else [zones[0].country] + Countries(zones[1..])
  }

  /** No zone appears twice: the ORM lists each record once. */
  predicate Distinct(zones: seq<Zone>) {
    forall i, j :: 0 <= i < j < |zones| ==> zones[i] != zones[j]
  }

  lemma {:induction false} CountPrefix(cs: seq<Option<string>>, p: Option<string> -> bool, i: nat)
    requires i < |cs|
    ensures Count(cs[..i + 1], p) == Count(cs[..i], p) + (if p(cs[i]) then 1 else 0)
  {
    if i > 0 {
      assert cs[..i + 1][1..] == cs[1..][..i];
      assert cs[..i][1..] == cs[1..][..i - 1];
      CountPrefix(cs[1..], p, i - 1);
    }
  }

  /** The body of `up`'s loop for one zone. */
  method UpZone(zone: Zone) returns (changed: bool)
    modifies zone`country
    ensures zone.country == UpCountry(old(zone.country))
    ensures changed == NeedsUp(old(zone.country))
  {
    var countries := if zone.country.Some? then Decode(zone.country.value) else None;
    changed := zone.country.Some? && (countries.None? || countries == Some([]));
    if changed {
      zone.country := Some(Encode([zone.country.value]));
    }
  }

  /** The body of `down`'s loop for one zone. */
  method DownZone(zone: Zone) returns (changed: bool)
    modifies zone`country
    ensures zone.country == DownCountry(old(zone.country))
    ensures changed == NeedsDown(old(zone.country))
  {
    changed := false;
    if zone.country.Some? {
      var countries := Decode(zone.country.value);
      if countries.Some? {
        zone.country := if countries.value != [] then Some(countries.value[0]) else None;
        changed := true;
      }
    }
  }

  /**
   * `up`: rewrite each legacy zone in place and count them. Only the country column may
   * change; `write()` is persistence here.
   */
  method Up(zones: seq<Zone>) returns (migrated: nat)
    requires Distinct(zones)
    modifies (set z | z in zones)`country
    ensures Countries(zones) == UpAll(old(Countries(zones)))
    ensures migrated == Count(old(Countries(zones)), NeedsUp)
  {
    ghost var before := Countries(zones);
    migrated := 0;
    var i := 0;
    while i < |zones|
      invariant i <= |zones|
      invariant forall j :: 0 <= j < i ==> zones[j].country == UpCountry(before[j])
      invariant forall j :: i <= j < |zones| ==> zones[j].country == before[j]
      invariant migrated == Count(before[..i], NeedsUp)
    {
      CountPrefix(before, NeedsUp, i);
      var changed := UpZone(zones[i]);
      if changed {
        migrated := migrated + 1;
      }
      i := i + 1;
    }
    assert before[..i] == before;
  }

  /** `down`: collapse each encoded list in place to its first element and count them. Only the country column may change. */
  method Down(zones: seq<Zone>) returns (downgraded: nat)
    requires Distinct(zones)
    modifies (set z | z in zones)`country
    ensures Countries(zones) == DownAll(old(Countries(zones)))
    ensures downgraded == Count(old(Countries(zones)), NeedsDown)
  {
    ghost var before := Countries(zones);
    downgraded := 0;
    var i := 0;
    while i < |zones|
      invariant i <= |zones|
      invariant forall j :: 0 <= j < i ==> zones[j].country == DownCountry(before[j])
      invariant forall j :: i <= j < |zones| ==> zones[j].country == before[j]
      invariant downgraded == Count(before[..i], NeedsDown)
    {
      CountPrefix(before, NeedsDown, i);
      var changed := DownZone(zones[i]);
      if changed {
        downgraded := downgraded + 1;
      }
      i := i + 1;
    }
    assert before[..i] == before;
  }
}
