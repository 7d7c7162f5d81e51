/** The PHP string primitives the plugin relies on: `strlen`, ASCII upper-casing, `explode` and `implode`. */
module Text {

  /** True when every character is 7-bit ASCII. */
  predicate IsAscii(s: string) {
    forall i :: 0 <= i < |s| ==> s[i] as int < 0x80
  }

  /** The number of bytes a character occupies in UTF-8. */
  function CharBytes(c: char): nat {
    if c as int < 0x80 then 1
    else if c as int < 0x800 then 2
    else if c as int < 0x1_0000 then 3
    else 4
  }

  /** PHP `strlen`: the length of the string in bytes, here taken as its UTF-8 encoding. */
  function Utf8Length(s: string): (n: nat)
    ensures |s| <= n <= 4 * |s|
    ensures IsAscii(s) ==> n == |s|
  {
    if s == [] then 0 else CharBytes(s[0]) + Utf8Length(s[1..])
  }

  /** ASCII upper-casing of one character; every other character is left alone. */
  function UpperChar(c: char): char {
    if 'a' <= c <= 'z' then (c as int - 32) as char else c
  }

  /** ASCII upper-casing of a string, as `array_change_key_case(..., CASE_UPPER)` applies to keys. */
  function Upper(s: string): string {
    if s == [] then [] else [UpperChar(s[0])] + Upper(s[1..])
  }

  /** The keys of a table after `array_change_key_case(..., CASE_UPPER)`. */
  function UpperKeys(keys: set<string>): set<string> {
    set k | k in keys :: Upper(k)
  }

  /** PHP `implode(sep, parts)`. */
  function Join(parts: seq<string>, sep: string): string {
    if parts == [] then ""
    else if |parts| == 1 then parts[0]
    else parts[0] + sep + Join(parts[1..], sep)
  }

  /**
   * PHP `explode(d, s)` for a one-character delimiter: the pieces of `s` between
   * occurrences of `d`. There is always at least one piece, no piece contains `d`,
   * and gluing the pieces back together with `d` gives `s` again.
   */
  function Explode(s: string, d: char): (parts: seq<string>)
    ensures |parts| >= 1
    ensures forall i :: 0 <= i < |parts| ==> d !in parts[i]
    ensures Join(parts, [d]) == s
  {
    if s == [] then [""]
    else
      var rest := Explode(s[1..], d);
      if s[0] == d then
        assert Join([""] + rest, [d]) == [d] + Join(rest, [d]);
        [""] + rest
      else
        var parts := [[s[0]] + rest[0]] + rest[1..];
        assert |rest| > 1 ==> rest == [rest[0]] + rest[1..];
        assert Join(parts, [d]) == [s[0]] + Join(rest, [d]);
        parts
  }

  /** Exploding a prefix free of the delimiter extends the first piece only. */
  lemma {:induction false} ExplodePrefix(a: string, rest: string, d: char)
    requires d !in a
    ensures Explode(a + rest, d) == [a + Explode(rest, d)[0]] + Explode(rest, d)[1..]
  {
    if a != [] {
      ExplodePrefix(a[1..], rest, d);
      var e := Explode(rest, d);
      assert (a + rest)[0] == a[0] && (a + rest)[1..] == a[1..] + rest;
      var r := Explode(a[1..] + rest, d);
      assert r[0] == a[1..] + e[0] && r[1..] == e[1..];
      assert [a[0]] + (a[1..] + e[0]) == a + e[0];
      assert Explode(a + rest, d) == [[a[0]] + r[0]] + r[1..];
    } else {
      var e := Explode(rest, d);
      assert a + rest == rest && a + e[0] == e[0];
      assert e == [e[0]] + e[1..];
    }
  }

  /** A leading delimiter gives an empty first piece. */
  lemma ExplodeAtDelimiter(rest: string, d: char)
    ensures Explode([d] + rest, d) == [""] + Explode(rest, d)
  {
    assert ([d] + rest)[1..] == rest;
  }

  /** `explode` undoes `implode` when no piece contains the delimiter. */
  lemma {:induction false} ExplodeJoin(parts: seq<string>, d: char)
    requires parts != []
    requires forall i :: 0 <= i < |parts| ==> d !in parts[i]
    ensures Explode(Join(parts, [d]), d) == parts
  {
    var first := parts[0];
    if |parts| == 1 {
      ExplodePrefix(first, "", d);
      assert first + "" == first;
    } else {
      var tail := Join(parts[1..], [d]);
      assert Join(parts, [d]) == first + ([d] + tail);
      ExplodeJoin(parts[1..], d);
      ExplodeAtDelimiter(tail, d);
      var e := Explode([d] + tail, d);
      assert e == [""] + parts[1..];
      ExplodePrefix(first, [d] + tail, d);
      assert Explode(Join(parts, [d]), d) == [first + ""] + parts[1..];
      assert first + "" == first;
    }
  }

  /**
   * `implode` starts with its first piece, followed by the separator and the second piece,
   * which ends the text or is followed by the separator again.
   */
  lemma {:induction false} JoinPrefix(parts: seq<string>, sep: string)
    requires |parts| >= 1
    ensures |Join(parts, sep)| >= |parts[0]|
    ensures Join(parts, sep)[..|parts[0]|] == parts[0]
    ensures |parts| >= 2 ==>
      var n := |parts[0]| + |sep| + |parts[1]|;
      |Join(parts, sep)| >= n && Join(parts, sep)[..n] == parts[0] + sep + parts[1]
    ensures |parts| == 2 ==> |Join(parts, sep)| == |parts[0]| + |sep| + |parts[1]|
    ensures |parts| >= 3 && |sep| > 0 ==>
      var n := |parts[0]| + |sep| + |parts[1]|;
      |Join(parts, sep)| > n && Join(parts, sep)[n] == sep[0]
  {
    if |parts| >= 2 {
      JoinPrefix(parts[1..], sep);
      var tail := Join(parts[1..], sep);
      assert tail[..|parts[1]|] == parts[1];
      var whole := parts[0] + sep + tail;
      assert whole[..|parts[0]|] == parts[0];
      assert whole[..|parts[0]| + |sep| + |parts[1]|] == parts[0] + sep + tail[..|parts[1]|];
      if |parts| >= 3 && |sep| > 0 {
        assert whole[|parts[0]| + |sep| + |parts[1]|] == tail[|parts[1]|];
      }
    }
  }
}
