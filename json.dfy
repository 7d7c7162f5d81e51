/**
 * The part of PHP's `json_encode`/`json_decode` the plugin uses: a flat list of strings.
 * A string is "plain" when `json_encode` writes it without escapes: printable ASCII other
 * than the quote, the backslash and the slash. `Encode` is `json_encode` on lists of such
 * strings, and `Decode` recognises exactly the texts `Encode` produces; every other text
 * decodes to nothing (`None`), which is how a legacy single value behaves.
 */
module Json {
  import opened Wrappers

  predicate PlainChar(c: char) {
    ' ' <= c <= '~' && c != '"' && c != '\\' && c != '/'
  }

  predicate Plain(s: string) {
    forall i :: 0 <= i < |s| ==> PlainChar(s[i])
  }

  predicate AllPlain(xs: seq<string>) {
    forall i :: 0 <= i < |xs| ==> Plain(xs[i])
  }

  /** One list element: a quoted string, or the literal `null` for a PHP null. */
  function EncodeItem(v: Option<string>): string {
    match v
    case None => "null"
    case Some(t) => "\"" + t + "\""
  }

  /** The elements of a list, separated by commas. */
  function EncodeItems(vs: seq<Option<string>>): string {
    if vs == [] then ""
    else if |vs| == 1 then EncodeItem(vs[0])
    else EncodeItem(vs[0]) + "," + EncodeItems(vs[1..])
  }

  /** `json_encode` of a list whose elements are strings or nulls. */
  function EncodeNullable(vs: seq<Option<string>>): string {
    "[" + EncodeItems(vs) + "]"
  }

  /** Every element of a string list, as a present value. */
  function Lift(xs: seq<string>): (vs: seq<Option<string>>)
    ensures |vs| == |xs|
    ensures forall i :: 0 <= i < |xs| ==> vs[i] == Some(xs[i])
  {
    if xs == [] then [] else [Some(xs[0])] + Lift(xs[1..])
  }

  /** `json_encode` of a list of strings. */
  function Encode(xs: seq<string>): string {
    EncodeNullable(Lift(xs))
  }

  /** The first index at or after `i` holding a quote, or `|b|` when there is none. */
  function NextQuote(b: string, i: nat): (k: nat)
    requires i <= |b|
    ensures i <= k <= |b|
    ensures k < |b| ==> b[k] == '"'
    ensures forall j :: i <= j < k ==> b[j] != '"'
    decreases |b| - i
  {
    if i == |b| || b[i] == '"' then i else NextQuote(b, i + 1)
  }

  /**
   * One list element: a quote, a run of plain characters and the closing quote.
   * Gives the string read and the text after the closing quote.
   */
  function ReadItem(b: string): (r: Option<(string, string)>)
    ensures r.Some? ==> Plain(r.value.0) && b == "\"" + r.value.0 + "\"" + r.value.1
  {
    if |b| < 2 || b[0] != '"' then None
    else
      var k := NextQuote(b, 1);
      if k == |b| || !Plain(b[1..k]) then None
      else
        assert b == b[..k + 1] + b[k + 1..];
        assert b[..k + 1] == "\"" + b[1..k] + "\"";
        Some((b[1..k], b[k + 1..]))
  }

  /** The comma-separated quoted strings between the brackets of a non-empty list. */
  function DecodeItems(b: string): Option<seq<string>>
    decreases |b|
  {
    match ReadItem(b)
    case None => None
    case Some((t, after)) =>
      if after == "" then Some([t])
      else if after[0] != ',' then None
      else
        match DecodeItems(after[1..])
        case None => None
        case Some(rest) => Some([t] + rest)
  }

  /** `json_decode` restricted to lists of plain strings; `None` for every other text. */
  function Decode(s: string): Option<seq<string>> {
    if |s| < 2 || s[0] != '[' || s[|s| - 1] != ']' then None
    else if |s| == 2 then Some([])
    else DecodeItems(s[1..|s| - 1])
  }

  /** A quoted plain string is read back up to its closing quote. */
  lemma ReadQuoted(t: string, tail: string)
    requires Plain(t)
    ensures ReadItem("\"" + t + "\"" + tail) == Some((t, tail))
  {
    var b := "\"" + t + "\"" + tail;
    assert b[|t| + 1] == '"';
    forall j | 1 <= j < |t| + 1 ensures b[j] != '"' {
      assert b[j] == t[j - 1];
    }
    assert NextQuote(b, 1) == |t| + 1;
    assert b[1..|t| + 1] == t;
    assert b[|t| + 2..] == tail;
  }

  /** How the encoding of a list starts: its first element, then a comma if more follow. */
  lemma EncodeItemsCons(t: string, rest: seq<string>)
    ensures rest == [] ==> EncodeItems(Lift([t] + rest)) == "\"" + t + "\""
    ensures rest != [] ==> EncodeItems(Lift([t] + rest)) == "\"" + t + "\"" + "," + EncodeItems(Lift(rest))
  {
    assert ([t] + rest)[1..] == rest;
  }

  lemma ConsPlain(t: string, rest: seq<string>)
    requires Plain(t) && AllPlain(rest)
    ensures AllPlain([t] + rest)
  {
    assert forall j :: 1 <= j < |[t] + rest| ==> ([t] + rest)[j] == rest[j - 1];
  }

  lemma {:induction false} DecodeEncodeItems(xs: seq<string>)
    requires xs != [] && AllPlain(xs)
    ensures DecodeItems(EncodeItems(Lift(xs))) == Some(xs)
  {
    var t := xs[0];
    var rest := xs[1..];
    assert xs == [t] + rest;
    EncodeItemsCons(t, rest);
    if rest == [] {
      ReadQuoted(t, "");
      assert "\"" + t + "\"" + "" == "\"" + t + "\"";
      assert xs == [t];
    } else {
      var after := "," + EncodeItems(Lift(rest));
      ReadQuoted(t, after);
      assert "\"" + t + "\"" + "," + EncodeItems(Lift(rest)) == "\"" + t + "\"" + after;
      assert after[1..] == EncodeItems(Lift(rest));
      DecodeEncodeItems(rest);
    }
  }

  /** Decoding an encoded list of plain strings gives the list back. */
  lemma DecodeEncode(xs: seq<string>)
    requires AllPlain(xs)
    ensures Decode(Encode(xs)) == Some(xs)
  {
    var s := Encode(xs);
    if xs != [] {
      DecodeEncodeItems(xs);
      assert s[1..|s| - 1] == EncodeItems(Lift(xs));
    }
  }

  /** One step of a successful `DecodeItems`: an element, then the end or a comma and the rest. */
  lemma DecodeItemsStep(b: string)
    requires DecodeItems(b).Some?
    ensures ReadItem(b).Some?
    ensures var (t, after) := ReadItem(b).value;
      if after == "" then DecodeItems(b) == Some([t])
      else after[0] == ',' && DecodeItems(after[1..]).Some? && DecodeItems(b) == Some([t] + DecodeItems(after[1..]).value)
  {
  }

  lemma {:induction false} EncodeDecodeItems(b: string, xs: seq<string>)
    requires DecodeItems(b) == Some(xs)
    ensures xs != [] && AllPlain(xs)
    ensures EncodeItems(Lift(xs)) == b
    decreases |b|
  {
    DecodeItemsStep(b);
    var t := ReadItem(b).value.0;
    var after := ReadItem(b).value.1;
    if after == "" {
      assert xs == [t] + [];
      EncodeItemsCons(t, []);
    } else {
      var rest := DecodeItems(after[1..]).value;
      assert xs == [t] + rest;
      EncodeDecodeItems(after[1..], rest);
      ConsPlain(t, rest);
      EncodeItemsCons(t, rest);
      assert after == "," + after[1..];
    }
  }

  /** A bracketed text is its body between the brackets. */
  lemma Bracketed(s: string)
    requires |s| >= 2 && s[0] == '[' && s[|s| - 1] == ']'
    ensures s == "[" + s[1..|s| - 1] + "]"
  {
  }

  /** Whatever decodes is the encoding of what it decodes to: the list form is canonical. */
  lemma EncodeDecode(s: string, xs: seq<string>)
    requires Decode(s) == Some(xs)
    ensures AllPlain(xs)
    ensures Encode(xs) == s
  {
    Bracketed(s);
    if |s| > 2 {
      EncodeDecodeItems(s[1..|s| - 1], xs);
    } else {
      assert s == "[]";
    }
  }

  /** A plain string never decodes to a non-empty list: it has no quote in second position. */
  lemma PlainDecodesToNothingOrEmpty(s: string)
    requires Plain(s)
    ensures Decode(s) == None || Decode(s) == Some([])
  {
    if |s| > 2 {
      assert s[1..|s| - 1][0] == s[1];
    }
  }
}
