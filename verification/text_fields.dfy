/** The .NET string operations the province parser relies on: `Split` on one
    separator character, `int.TryParse`, `byte.TryParse` and `bool.TryParse`
    with their default number styles, and ordinal ignore-case comparison. */
module TextFields {
  import opened Wrappers

  const IntMin: int := -0x8000_0000
  const IntMax: int := 0x7fff_ffff

  /** Splits at every separator, keeping empty fields: `"a;;b"` gives three
      fields and the empty string gives one empty field. */
  function Split(s: string, sep: char): (r: seq<string>)
    ensures |r| >= 1
    decreases |s|
  {
    if |s| == 0 then [""]
    else
      var rest := Split(s[1..], sep);
      if s[0] == sep then [""] + rest
      else [[s[0]] + rest[0]] + rest[1..]
  }

  /** The fields hold no separator and join back to the split string. */
  lemma {:induction false} SplitJoinsBack(s: string, sep: char)
    ensures Join(Split(s, sep), sep) == s
    ensures forall i :: 0 <= i < |Split(s, sep)| ==> sep !in Split(s, sep)[i]
    decreases |s|
  {
    if |s| > 0 {
      SplitJoinsBack(s[1..], sep);
      var rest := Split(s[1..], sep);
      assert s == [s[0]] + s[1..];
      if s[0] != sep {
        var r := Split(s, sep);
        assert r[1..] == rest[1..];
        forall i | 0 <= i < |r|
          ensures sep !in r[i]
        {
          if i > 0 {
            assert r[i] == rest[i];
          }
        }
      } else {
        var r := Split(s, sep);
        forall i | 0 <= i < |r|
          ensures sep !in r[i]
        {
          if i > 0 {
            assert r[i] == rest[i - 1];
          }
        }
      }
    }
  }

  /** The fields joined back with the separator between them. */
  function Join(fields: seq<string>, sep: char): string
    requires |fields| >= 1
  {
    if |fields| == 1 then fields[0] else fields[0] + [sep] + Join(fields[1..], sep)
  }

  /** Splitting the join of separator-free fields gives the fields back. */
  lemma {:induction false} SplitJoin(fields: seq<string>, sep: char)
    requires |fields| >= 1
    requires forall i :: 0 <= i < |fields| ==> sep !in fields[i]
    ensures Split(Join(fields, sep), sep) == fields
    decreases |fields|, |fields[0]|
  {
    var s := Join(fields, sep);
    if |fields[0]| == 0 {
      if |fields| > 1 {
        assert s == [sep] + Join(fields[1..], sep);
        assert s[1..] == Join(fields[1..], sep);
        SplitJoin(fields[1..], sep);
        assert fields == [""] + fields[1..];
      }
    } else {
      var c := fields[0][0];
      assert fields[0] == [c] + fields[0][1..];
      var fields' := [fields[0][1..]] + fields[1..];
      assert forall i :: 0 <= i < |fields'| ==> sep !in fields'[i] by {
        forall i | 0 <= i < |fields'|
          ensures sep !in fields'[i]
        {
          if i == 0 {
            assert fields[0] == [c] + fields[0][1..];
          } else {
            assert fields'[i] == fields[i];
          }
        }
      }
      assert c != sep by {
        assert c == fields[0][0];
      }
      assert fields'[1..] == fields[1..];
      assert s == [c] + Join(fields', sep) by {
        if |fields| == 1 {
          assert fields[0] == [c] + fields[0][1..];
        } else {
          assert fields[0] == [c] + fields[0][1..];
          assert Join(fields', sep) == fields[0][1..] + [sep] + Join(fields[1..], sep);
        }
      }
      assert s[1..] == Join(fields', sep);
      SplitJoin(fields', sep);
      assert fields == [[c] + fields'[0]] + fields'[1..];
    }
  }

  /** The white-space characters the default number styles skip: tab, line
      feed, vertical tab, form feed, carriage return and space. */
  predicate IsWhite(c: char) {
    c == ' ' || '\t' <= c <= '\r'
  }

  predicate IsDigit(c: char) {
    '0' <= c <= '9'
  }

  predicate AllDigits(s: string) {
    forall i :: 0 <= i < |s| ==> IsDigit(s[i])
  }

  /** `s` without leading and trailing characters that satisfy `strip`. */
  function TrimStart(s: string, strip: char -> bool): (r: string)
    ensures |r| <= |s| && r == s[|s| - |r|..]
    ensures |r| > 0 ==> !strip(r[0])
    ensures forall i :: 0 <= i < |s| - |r| ==> strip(s[i])
    decreases |s|
  {
    if |s| > 0 && strip(s[0]) then
      var r := TrimStart(s[1..], strip);
      assert s[1..][|s| - 1 - |r|..] == s[|s| - |r|..];
      assert forall i :: 1 <= i < |s| - |r| ==> s[i] == s[1..][i - 1];
      r
    else s
  }

  function TrimEnd(s: string, strip: char -> bool): (r: string)
    ensures |r| <= |s| && r == s[..|r|]
    ensures |r| > 0 ==> !strip(r[|r| - 1])
    ensures forall i :: |r| <= i < |s| ==> strip(s[i])
    decreases |s|
  {
    if |s| > 0 && strip(s[|s| - 1]) then TrimEnd(s[..|s| - 1], strip) else s
  }

  function Trim(s: string, strip: char -> bool): string {
    TrimEnd(TrimStart(s, strip), strip)
  }

  /** The value of a string of decimal digits, most significant first. */
  function DigitsValue(s: string): nat
    requires AllDigits(s)
    decreases |s|
  {
    if |s| == 0 then 0 else DigitsValue(s[..|s| - 1]) * 10 + (s[|s| - 1] as int - '0' as int)
  }

  /** An optional sign followed by one or more digits. */
  function ParseSigned(s: string): Option<int> {
    if |s| > 0 && (s[0] == '-' || s[0] == '+') then
      if |s| > 1 && AllDigits(s[1..]) then
        var magnitude: int := DigitsValue(s[1..]);
        Some(if s[0] == '-' then -magnitude else magnitude)
      else None
    else if |s| > 0 && AllDigits(s) then Some(DigitsValue(s))
    else None
  }

  /** `int.TryParse`: surrounding white space, an optional sign and decimal
      digits, with the value inside the 32-bit range. */
  function TryParseInt(s: string): (r: Option<int>)
    ensures r.Some? ==> IntMin <= r.value <= IntMax
  {
    match ParseSigned(Trim(s, IsWhite))
    case Some(v) => if IntMin <= v <= IntMax then Some(v) else None
    case None => None
  }

  /** `byte.TryParse`: as `int.TryParse`, with the value in 0..255. */
  function TryParseByte(s: string): (r: Option<int>)
    ensures r.Some? ==> 0 <= r.value < 256
  {
    match ParseSigned(Trim(s, IsWhite))
    case Some(v) => if 0 <= v < 256 then Some(v) else None
    case None => None
  }

  /** The decimal digits of `n`, without leading zeros. */
  function Decimal(n: nat): (r: string)
    ensures |r| >= 1 && AllDigits(r)
    decreases n
  {
    var d := [('0' as int + n % 10) as char];
    if n < 10 then d else Decimal(n / 10) + d
  }

  lemma {:induction false} DecimalValue(n: nat)
    ensures DigitsValue(Decimal(n)) == n
    decreases n
  {
    var s := Decimal(n);
    if n >= 10 {
      DecimalValue(n / 10);
      assert s[..|s| - 1] == Decimal(n / 10);
    }
  }

  /** The decimal form of an integer, with a leading minus when negative. */
  function IntToString(v: int): string {
    if v < 0 then "-" + Decimal(-v) else Decimal(v)
  }

  /** A string with no white space at either end is its own trim. */
  lemma TrimKeeps(s: string)
    requires |s| > 0 && !IsWhite(s[0]) && !IsWhite(s[|s| - 1])
    ensures Trim(s, IsWhite) == s
  {
    assert TrimStart(s, IsWhite) == s;
  }

  lemma NoWhiteInDigits(s: string)
    requires AllDigits(s)
    ensures Trim(s, IsWhite) == s
  {
    if |s| > 0 {
      TrimKeeps(s);
    }
  }

  /** Round trip: every 32-bit value reads back from its decimal form. */
  lemma ParseIntRoundTrip(v: int)
    requires IntMin <= v <= IntMax
    ensures TryParseInt(IntToString(v)) == Some(v)
  {
    var s := IntToString(v);
    var n := if v < 0 then -v else v;
    var d := Decimal(n);
    DecimalValue(n);
    if v < 0 {
      assert s == "-" + d && s[1..] == d;
      TrimKeeps(s);
    } else {
      NoWhiteInDigits(s);
    }
    assert ParseSigned(s) == Some(v);
  }

  /** Upper-case mapping of the ASCII letters; other characters map to themselves. */
  function ToUpperAscii(c: char): char {
    if 'a' <= c <= 'z' then (c as int - 32) as char else c
  }

  /** Ordinal ignore-case equality over ASCII letters. */
  predicate EqualsIgnoreCase(s: string, t: string) {
    |s| == |t| && forall i :: 0 <= i < |s| ==> ToUpperAscii(s[i]) == ToUpperAscii(t[i])
  }

  lemma EqualsIgnoreCaseEquivalence(s: string, t: string, u: string)
    ensures EqualsIgnoreCase(s, s)
    ensures EqualsIgnoreCase(s, t) ==> EqualsIgnoreCase(t, s)
    ensures EqualsIgnoreCase(s, t) && EqualsIgnoreCase(t, u) ==> EqualsIgnoreCase(s, u)
  {
  }

  /** `char.IsWhiteSpace`: the Unicode space separators, the line and
      paragraph separators, and the control characters tab to carriage return,
      U+0085 and U+00A0. */
  predicate IsWhiteSpace(c: char) {
    c == ' ' || '\t' <= c <= '\r' || c == '\U{85}' || c == '\U{A0}' || c == '\U{1680}'
    || '\U{2000}' <= c <= '\U{200A}' || c == '\U{2028}' || c == '\U{2029}' || c == '\U{202F}'
    || c == '\U{205F}' || c == '\U{3000}'
  }

  /** What `bool.TryParse` strips from both ends: any `char.IsWhiteSpace`
      character and the null character. */
  predicate IsWhiteOrNull(c: char) {
    IsWhiteSpace(c) || c == '\0'
  }

  /** `bool.TryParse`: "true" or "false" in any letter case, with surrounding
      white space and null characters ignored. */
  function TryParseBool(s: string): (r: Option<bool>)
    ensures r == Some(true) <==> EqualsIgnoreCase(Trim(s, IsWhiteOrNull), "true")
    ensures r == Some(false) <==> EqualsIgnoreCase(Trim(s, IsWhiteOrNull), "false")
  {
    var t := Trim(s, IsWhiteOrNull);
    if EqualsIgnoreCase(t, "true") then Some(true)
    else if EqualsIgnoreCase(t, "false") then Some(false)
    else None
  }

  /** A no-break space is white space to `bool.TryParse`. */
  lemma NoBreakSpaceTrimmed()
    ensures TryParseBool("\U{A0}true\0") == Some(true)
  {
    var s := "\U{A0}true\0";
    var t := "true\0";
    assert s[1..] == t;
    assert t[0] == 't' && !IsWhiteOrNull(t[0]);
    assert TrimStart(t, IsWhiteOrNull) == t;
    assert TrimStart(s, IsWhiteOrNull) == t;
    assert t[..|t| - 1] == "true";
    assert !IsWhiteOrNull("true"[3]);
    assert TrimEnd("true", IsWhiteOrNull) == "true";
    assert Trim(s, IsWhiteOrNull) == "true";
  }
}
