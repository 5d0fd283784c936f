/**
 * String operations shared by the client (JavaScript) and the server (Go):
 * whitespace trimming, splitting on one separator character and joining back,
 * ASCII case folding, prefix/suffix tests, first-occurrence search and
 * replacement, encoded lengths, and URI component encoding.
 */
module Text {
  import opened Wrappers

  /** ECMAScript WhiteSpace and LineTerminator code points: what
      `String.prototype.trim` removes and what the regular-expression class `\s`
      matches. */
  predicate IsSpace(c: char)
  {
    || c == ' ' || c == '\t' || c == '\n' || c == '\r'
    || c as int == 0x0B || c as int == 0x0C || c as int == 0xA0
    || c as int == 0x1680 || (0x2000 <= c as int <= 0x200A)
    || c as int == 0x2028 || c as int == 0x2029 || c as int == 0x202F
    || c as int == 0x205F || c as int == 0x3000 || c as int == 0xFEFF
  }

  predicate AllSpace(s: string)
  {
    forall i :: 0 <= i < |s| ==> IsSpace(s[i])
  }

  /** Drops leading whitespace. */
  function TrimStart(s: string): (r: string)
    ensures |r| <= |s| && r == s[|s| - |r|..]
    ensures AllSpace(s[..|s| - |r|])
    ensures r == [] || !IsSpace(r[0])
    decreases |s|
  {
    if |s| > 0 && IsSpace(s[0]) then
      var r := TrimStart(s[1..]);
      SpaceCons(s[0], s[1..][..|s[1..]| - |r|]);
      assert s[..|s| - |r|] == [s[0]] + s[1..][..|s[1..]| - |r|];
      r
    else s
  }

  lemma SpaceCons(c: char, t: string)
    requires IsSpace(c) && AllSpace(t)
    ensures AllSpace([c] + t)
  {
    assert forall i :: 1 <= i < |[c] + t| ==> ([c] + t)[i] == t[i - 1];
  }

  /** Drops trailing whitespace. */
  function TrimEnd(s: string): (r: string)
    ensures |r| <= |s| && r == s[..|r|]
    ensures AllSpace(s[|r|..])
    ensures r == [] || !IsSpace(r[|r| - 1])
    decreases |s|
  {
    if |s| > 0 && IsSpace(s[|s| - 1]) then
      var init := s[..|s| - 1];
      var r := TrimEnd(init);
      SpaceSnoc(init[|r|..], s[|s| - 1]);
      assert s[|r|..] == init[|r|..] + [s[|s| - 1]];
      assert r == init[..|r|] == s[..|r|];
      r
    else s
  }

  lemma SpaceSnoc(t: string, c: char)
    requires AllSpace(t) && IsSpace(c)
    ensures AllSpace(t + [c])
  {
    assert forall i :: 0 <= i < |t| ==> (t + [c])[i] == t[i];
  }

  /** `String.prototype.trim`. */
  function Trim(s: string): string
  {
    TrimEnd(TrimStart(s))
  }

  lemma {:induction false} AllSpaceTrimStart(s: string)
    requires AllSpace(s)
    ensures TrimStart(s) == []
    decreases |s|
  {
    if |s| > 0 {
      AllSpaceTrimStart(s[1..]);
    }
  }

  /** A string is blank after trimming exactly when every character is whitespace. */
  lemma TrimEmptyIffAllSpace(s: string)
    ensures Trim(s) == [] <==> AllSpace(s)
  {
    var a := TrimStart(s);
    if Trim(s) == [] {
      assert a[0..] == a;
      assert a == [];
      assert s[..|s|] == s;
    }
    if AllSpace(s) {
      AllSpaceTrimStart(s);
    }
  }

  /** Neither begins nor ends with whitespace. */
  predicate Trimmed(s: string)
  {
    s != [] ==> !IsSpace(s[0]) && !IsSpace(s[|s| - 1])
  }

  /** A string that neither begins nor ends with whitespace is its own trim. */
  lemma TrimOfTrimmed(s: string)
    requires Trimmed(s)
    ensures Trim(s) == s
  {
  }

  /** Splits on every occurrence of `sep`: n separators give n + 1 parts.
      This is both JavaScript's `split(c)` and Go's `strings.Split(s, c)` for a
      one-character separator. */
  function Split(s: string, sep: char): (parts: seq<string>)
    ensures |parts| >= 1
    ensures forall i :: 0 <= i < |parts| ==> sep !in parts[i]
    decreases |s|
  {
    if |s| == 0 then [""]
    else
      var rest := Split(s[1..], sep);
      if s[0] == sep then [""] + rest
      else [[s[0]] + rest[0]] + rest[1..]
  }

  /** A string holding the separator splits into at least two parts. */
  lemma {:induction false} SeparatorSplits(s: string, sep: char)
    requires sep in s
    ensures |Split(s, sep)| >= 2
    decreases |s|
  {
    if s[0] != sep {
      assert sep in s[1..] by {
        var i :| 0 <= i < |s| && s[i] == sep;
        assert s[1..][i - 1] == sep;
      }
      SeparatorSplits(s[1..], sep);
    }
  }

  /** The parts separated by `sep` (JavaScript `join`, Go `strings.Join`). */
  function Join(parts: seq<string>, sep: char): string
  {
    if |parts| == 0 then ""
    else if |parts| == 1 then parts[0]
    else parts[0] + [sep] + Join(parts[1..], sep)
  }

  /** Joining the parts of a split gives back the original string. */
  lemma {:induction false} JoinSplit(s: string, sep: char)
    ensures Join(Split(s, sep), sep) == s
    decreases |s|
  {
    if |s| > 0 {
      var rest := Split(s[1..], sep);
      JoinSplit(s[1..], sep);
      if s[0] == sep {
        assert Split(s, sep) == [""] + rest;
        assert ([""] + rest)[1..] == rest;
        assert s == [sep] + s[1..];
      } else if |rest| == 1 {
        assert Join(rest, sep) == rest[0];
        assert s == [s[0]] + s[1..];
      } else {
        var p := Split(s, sep);
        assert p[0] == [s[0]] + rest[0];
        assert p[1..] == rest[1..];
        assert Join(rest, sep) == rest[0] + [sep] + Join(rest[1..], sep);
        assert s == [s[0]] + s[1..];
      }
    }
  }

  /** A prefix free of the separator sticks to the first part. */
  lemma {:induction false} SplitPrefix(p: string, t: string, sep: char)
    requires sep !in p
    ensures Split(p + t, sep) == [p + Split(t, sep)[0]] + Split(t, sep)[1..]
    decreases |p|
  {
    if |p| > 0 {
      SplitPrefix(p[1..], t, sep);
      assert (p + t)[1..] == p[1..] + t;
      assert (p + t)[0] == p[0];
      assert [p[0]] + (p[1..] + Split(t, sep)[0]) == p + Split(t, sep)[0];
    } else {
      assert p + t == t;
      assert p + Split(t, sep)[0] == Split(t, sep)[0];
      assert [Split(t, sep)[0]] + Split(t, sep)[1..] == Split(t, sep);
    }
  }

  /** Splitting the join of separator-free parts gives back the parts. */
  lemma {:induction false} SplitJoin(parts: seq<string>, sep: char)
    requires |parts| >= 1
    requires forall i :: 0 <= i < |parts| ==> sep !in parts[i]
    ensures Split(Join(parts, sep), sep) == parts
    decreases |parts|
  {
    if |parts| == 1 {
      SplitPrefix(parts[0], "", sep);
      assert parts[0] + "" == parts[0];
    } else {
      var t := Join(parts[1..], sep);
      SplitJoin(parts[1..], sep);
      SplitPrefix(parts[0], [sep] + t, sep);
      assert parts[0] + [sep] + t == parts[0] + ([sep] + t);
      assert ([sep] + t)[1..] == t;
      assert Split([sep] + t, sep) == [""] + Split(t, sep);
      assert Join(parts, sep) == parts[0] + ([sep] + t);
      assert parts[0] + "" == parts[0];
      assert ([""] + Split(t, sep))[1..] == parts[1..];
      assert [parts[0]] + parts[1..] == parts;
    }
  }

  function LowerChar(c: char): char
  {
    if 'A' <= c <= 'Z' then (c as int + 32) as char else c
  }

  /** ASCII lower-casing. */
  function ToLower(s: string): (r: string)
    ensures |r| == |s|
    ensures forall i :: 0 <= i < |s| ==> r[i] == LowerChar(s[i])
    ensures forall i :: 0 <= i < |r| ==> !('A' <= r[i] <= 'Z')
  {
    seq(|s|, i requires 0 <= i < |s| => LowerChar(s[i]))
  }

  lemma ToLowerAppend(a: string, b: string)
    ensures ToLower(a + b) == ToLower(a) + ToLower(b)
  {
  }

  /** Lower-casing a slice is slicing the lower-cased string. */
  lemma ToLowerSlice(s: string, i: int, j: int)
    requires 0 <= i <= j <= |s|
    ensures ToLower(s[i..j]) == ToLower(s)[i..j]
  {
  }

  lemma ToLowerIdempotent(s: string)
    ensures ToLower(ToLower(s)) == ToLower(s)
  {
  }

  predicate HasPrefix(s: string, p: string)
  {
    |p| <= |s| && s[..|p|] == p
  }

  predicate HasSuffix(s: string, p: string)
  {
    |p| <= |s| && s[|s| - |p|..] == p
  }

  /** `t` occurs in `s` starting at index `j`. */
  predicate OccursAt(s: string, t: string, j: int)
  {
    0 <= j && j + |t| <= |s| && s[j..j + |t|] == t
  }

  /** Index of the first occurrence of `t` in `s`. */
  function IndexOf(s: string, t: string): (r: Option<nat>)
    ensures r.Some? ==> OccursAt(s, t, r.value)
    ensures r.Some? ==> forall j :: 0 <= j < r.value ==> !OccursAt(s, t, j)
    ensures r.None? ==> forall j :: !OccursAt(s, t, j)
    decreases |s|
  {
    if HasPrefix(s, t) then Some(0)
    else if |s| == 0 then None
    else
      match IndexOf(s[1..], t)
      case None =>
        assert forall j :: 1 <= j && OccursAt(s, t, j) ==> OccursAt(s[1..], t, j - 1) by {
          forall j | 1 <= j && OccursAt(s, t, j) ensures OccursAt(s[1..], t, j - 1) {
            assert s[1..][j - 1..j - 1 + |t|] == s[j..j + |t|];
          }
        }
        None
      case Some(k) =>
        assert s[1..][k..k + |t|] == s[k + 1..k + 1 + |t|];
        assert forall j :: 1 <= j < k + 1 && OccursAt(s, t, j) ==> OccursAt(s[1..], t, j - 1) by {
          forall j | 1 <= j < k + 1 && OccursAt(s, t, j) ensures OccursAt(s[1..], t, j - 1) {
            assert s[1..][j - 1..j - 1 + |t|] == s[j..j + |t|];
          }
        }
        Some(k + 1)
  }

  /** JavaScript `s.replace(t, u)` with a string pattern: only the first
      occurrence is replaced. */
  function ReplaceFirst(s: string, t: string, u: string): (r: string)
    ensures IndexOf(s, t).None? ==> r == s
    ensures IndexOf(s, t).Some? ==>
              var k := IndexOf(s, t).value; r == s[..k] + u + s[k + |t|..]
  {
    match IndexOf(s, t)
    case None => s
    case Some(k) => s[..k] + u + s[k + |t|..]
  }

  /** Bytes of the UTF-8 encoding of one code point. */
  function Utf8Bytes(c: char): (b: seq<int>)
    ensures 1 <= |b| <= 4
    ensures forall i :: 0 <= i < |b| ==> 0 <= b[i] < 256
  {
    var cp := c as int;
    if cp < 0x80 then [cp]
    else if cp < 0x800 then [0xC0 + cp / 64, 0x80 + cp % 64]
    else if cp < 0x10000 then [0xE0 + cp / 4096, 0x80 + (cp / 64) % 64, 0x80 + cp % 64]
    else [0xF0 + cp / 262144, 0x80 + (cp / 4096) % 64, 0x80 + (cp / 64) % 64, 0x80 + cp % 64]
  }

  /** Length in bytes of the UTF-8 encoding (Go's `len` on a string). */
  function Utf8Len(s: string): (n: nat)
    ensures |s| <= n <= 4 * |s|
  {
    if |s| == 0 then 0 else |Utf8Bytes(s[0])| + Utf8Len(s[1..])
  }

  /** Length in UTF-16 code units (JavaScript's `length`). */
  function Utf16Len(s: string): (n: nat)
    ensures |s| <= n <= 2 * |s|
  {
    if |s| == 0 then 0 else (if s[0] as int < 0x10000 then 1 else 2) + Utf16Len(s[1..])
  }

  /** An ASCII string has as many UTF-8 bytes as characters. */
  lemma {:induction false} AsciiUtf8Len(s: string)
    requires forall i :: 0 <= i < |s| ==> s[i] as int < 0x80
    ensures Utf8Len(s) == |s|
  {
    if |s| > 0 {
      AsciiUtf8Len(s[1..]);
    }
  }

  /** Characters `encodeURIComponent` leaves as they are. */
  predicate IsUriUnreserved(c: char)
  {
    || 'A' <= c <= 'Z' || 'a' <= c <= 'z' || '0' <= c <= '9'
    || c == '-' || c == '_' || c == '.' || c == '!' || c == '~'
    || c == '*' || c == '\'' || c == '(' || c == ')'
  }

  function HexDigitUpper(n: int): (c: char)
    requires 0 <= n < 16
    ensures '0' <= c <= '9' || 'A' <= c <= 'F'
  {
    if n < 10 then ('0' as int + n) as char else ('A' as int + n - 10) as char
  }

  function PercentBytes(b: seq<int>): (r: string)
    requires forall i :: 0 <= i < |b| ==> 0 <= b[i] < 256
    ensures |r| == 3 * |b|
    ensures forall i :: 0 <= i < |r| ==> r[i] == '%' || '0' <= r[i] <= '9' || 'A' <= r[i] <= 'F'
  {
    if |b| == 0 then ""
    else ['%', HexDigitUpper(b[0] / 16), HexDigitUpper(b[0] % 16)] + PercentBytes(b[1..])
  }

  /** `encodeURIComponent`: unreserved characters pass through, every other
      character becomes the `%XX` escapes of its UTF-8 bytes. */
  function EncodeUriComponent(s: string): (r: string)
    ensures forall i :: 0 <= i < |r| ==> IsUriUnreserved(r[i]) || r[i] == '%'
    ensures (forall i :: 0 <= i < |s| ==> IsUriUnreserved(s[i])) ==> r == s
  {
    if |s| == 0 then ""
    else if IsUriUnreserved(s[0]) then [s[0]] + EncodeUriComponent(s[1..])
    else PercentBytes(Utf8Bytes(s[0])) + EncodeUriComponent(s[1..])
  }

  /** The UTF-8 bytes of a whole string. */
  function Utf8Encode(s: string): (b: seq<int>)
    ensures |b| == Utf8Len(s)
  {
    if |s| == 0 then [] else Utf8Bytes(s[0]) + Utf8Encode(s[1..])
  }

  /** The value of a hexadecimal digit of either case. */
  function HexValue(c: char): (v: Option<int>)
    ensures v.Some? ==> 0 <= v.value < 16
  {
    if '0' <= c <= '9' then Some(c as int - '0' as int)
    else if 'A' <= c <= 'F' then Some(c as int - 'A' as int + 10)
    else if 'a' <= c <= 'f' then Some(c as int - 'a' as int + 10)
    else None
  }

  /** Bytes put in front of a decoding that may have failed. */
  function Prepend(b: seq<int>, d: Option<seq<int>>): (r: Option<seq<int>>)
    ensures r.Some? <==> d.Some?
    ensures r.Some? ==> |r.value| == |b| + |d.value| && r.value[..|b|] == b && r.value[|b|..] == d.value
  {
    if d.None? then None else Some(b + d.value)
  }

  /** The byte layer of `decodeURIComponent`: each `%XX` is one byte, any
      other character stands for its own UTF-8 bytes, and a `%` not
      followed by two hexadecimal digits is malformed. */
  function PercentDecode(r: string): Option<seq<int>>
    decreases |r|
  {
    if |r| == 0 then Some([])
    else if r[0] == '%' then
      if |r| >= 3 && HexValue(r[1]).Some? && HexValue(r[2]).Some? then
        Prepend([HexValue(r[1]).value * 16 + HexValue(r[2]).value], PercentDecode(r[3..]))
      else None
    else Prepend(Utf8Bytes(r[0]), PercentDecode(r[1..]))
  }

  lemma HexDigitRoundTrip(n: int)
    requires 0 <= n < 16
    ensures HexValue(HexDigitUpper(n)) == Some(n)
  {
  }

  /** One `%XX` escape decodes to its byte. */
  lemma DecodeEscape(n: int, tail: string)
    requires 0 <= n < 256
    ensures PercentDecode(['%', HexDigitUpper(n / 16), HexDigitUpper(n % 16)] + tail) == Prepend([n], PercentDecode(tail))
  {
    var x := ['%', HexDigitUpper(n / 16), HexDigitUpper(n % 16)] + tail;
    assert x[3..] == tail;
    HexDigitRoundTrip(n / 16);
    HexDigitRoundTrip(n % 16);
  }

  lemma PrependTwice(a: seq<int>, b: seq<int>, d: Option<seq<int>>)
    ensures Prepend(a, Prepend(b, d)) == Prepend(a + b, d)
  {
    if d.Some? {
      assert a + (b + d.value) == (a + b) + d.value;
    }
  }

  /** Decoding `%XX` escapes followed by any text gives back the escaped
      bytes followed by the text's bytes. */
  lemma {:induction false} PercentBytesDecode(b: seq<int>, t: string)
    requires forall i :: 0 <= i < |b| ==> 0 <= b[i] < 256
    ensures PercentDecode(PercentBytes(b) + t) == Prepend(b, PercentDecode(t))
  {
    if |b| == 0 {
      assert PercentBytes(b) + t == t;
    } else {
      var tail := PercentBytes(b[1..]) + t;
      assert PercentBytes(b) + t == ['%', HexDigitUpper(b[0] / 16), HexDigitUpper(b[0] % 16)] + tail;
      DecodeEscape(b[0], tail);
      PercentBytesDecode(b[1..], t);
      PrependTwice([b[0]], b[1..], PercentDecode(t));
      assert [b[0]] + b[1..] == b;
    }
  }

  /** `decodeURIComponent` undoes `encodeURIComponent`: decoding the
      encoded string gives back exactly the UTF-8 bytes of the original. */
  lemma {:induction false} EncodeUriComponentRoundTrip(s: string)
    ensures PercentDecode(EncodeUriComponent(s)) == Some(Utf8Encode(s))
  {
    if |s| > 0 {
      EncodeUriComponentRoundTrip(s[1..]);
      var rest := EncodeUriComponent(s[1..]);
      if IsUriUnreserved(s[0]) {
        assert EncodeUriComponent(s) == [s[0]] + rest;
        assert ([s[0]] + rest)[1..] == rest;
      } else {
        PercentBytesDecode(Utf8Bytes(s[0]), rest);
      }
    }
  }

  /** Two strings with the same encoding have the same UTF-8 bytes: the
      encoding loses nothing. */
  lemma EncodeUriComponentInjective(s: string, t: string)
    requires EncodeUriComponent(s) == EncodeUriComponent(t)
    ensures Utf8Encode(s) == Utf8Encode(t)
  {
    EncodeUriComponentRoundTrip(s);
    EncodeUriComponentRoundTrip(t);
  }
}
