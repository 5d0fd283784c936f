/**
 * Newline framing of socket payloads. The server's write pump sends every
 * queued message in one frame, separated by '\n'; the client splits a frame
 * on '\n', trims each part and drops the empty ones.
 */
module Framing {
  import opened Text

  /** A trimmed, non-empty part with no line break: what the client keeps. */
  predicate Framable(m: string)
  {
    m != [] && NoNewline(m) && Trimmed(m)
  }

  predicate NoNewline(m: string)
  {
    forall k :: 0 <= k < |m| ==> m[k] != '\n'
  }

  /** Every part is non-empty and trimmed. */
  predicate AllKept(parts: seq<string>)
  {
    forall i :: 0 <= i < |parts| ==> parts[i] != [] && Trimmed(parts[i])
  }

  /** No part holds a line break. */
  predicate AllNoNewline(parts: seq<string>)
  {
    forall i :: 0 <= i < |parts| ==> NoNewline(parts[i])
  }

  /** `parts.map(p => p.trim()).filter(Boolean)`. */
  function TrimNonEmpty(parts: seq<string>): (kept: seq<string>)
    ensures |kept| <= |parts|
    ensures AllKept(kept)
    ensures AllNoNewline(parts) ==> AllNoNewline(kept)
  {
    if |parts| == 0 then []
    else
      var t := Trim(parts[0]);
      var rest := TrimNonEmpty(parts[1..]);
      TrimResultTrimmed(parts[0]);
      TrimNoNewline(parts[0]);
      ConsParts(parts[0], parts[1..], parts);
      if t == [] then rest
      else
        ConsKept(t, rest);
        [t] + rest
  }

  /** A list of parts is its head followed by its tail. */
  lemma ConsParts(p: string, ps: seq<string>, parts: seq<string>)
    requires parts == [p] + ps
    ensures AllNoNewline(parts) <==> NoNewline(p) && AllNoNewline(ps)
  {
    assert parts[0] == p;
    assert forall i :: 0 <= i < |ps| ==> ps[i] == parts[i + 1];
    if NoNewline(p) && AllNoNewline(ps) {
      forall i | 0 <= i < |parts|
        ensures NoNewline(parts[i])
      {
        if i > 0 {
          assert parts[i] == ps[i - 1];
        }
      }
    }
  }

  /** Putting a kept part in front keeps the list kept. */
  lemma ConsKept(t: string, rest: seq<string>)
    requires t != [] && Trimmed(t) && AllKept(rest)
    ensures AllKept([t] + rest)
    ensures NoNewline(t) && AllNoNewline(rest) ==> AllNoNewline([t] + rest)
  {
    ConsParts(t, rest, [t] + rest);
    forall i | 0 <= i < |[t] + rest|
      ensures ([t] + rest)[i] == if i == 0 then t else rest[i - 1]
    {
    }
  }

  /** The result of a trim neither begins nor ends with whitespace. */
  lemma TrimResultTrimmed(s: string)
    ensures Trimmed(Trim(s))
  {
    var a := TrimStart(s);
    var r := TrimEnd(a);
    assert r == [] || r[0] == a[0];
  }

  /** Trimming keeps a piece of the string, so it adds no line break. */
  lemma TrimNoNewline(s: string)
    ensures NoNewline(s) ==> NoNewline(Trim(s))
  {
    var a := TrimStart(s);
    var r := TrimEnd(a);
    if NoNewline(s) {
      forall k | 0 <= k < |r|
        ensures r[k] != '\n'
      {
        assert r[k] == a[k] == s[|s| - |a| + k];
      }
    }
  }

  /** The client's `raw.split('\n').map(p => p.trim()).filter(Boolean)`. */
  function Segments(raw: string): (segs: seq<string>)
    ensures forall i :: 0 <= i < |segs| ==> Framable(segs[i])
  {
    var parts := Split(raw, '\n');
    assert AllNoNewline(parts);
    TrimNonEmpty(parts)
  }

  /** Parts that are already framable pass through unchanged. */
  lemma {:induction false} TrimNonEmptyOfFramable(parts: seq<string>)
    requires forall i :: 0 <= i < |parts| ==> Framable(parts[i])
    ensures TrimNonEmpty(parts) == parts
  {
    if |parts| > 0 {
      var p0 := parts[0];
      var rest := parts[1..];
      assert parts == [p0] + rest;
      assert Trim(p0) == p0 by {
        assert Framable(p0);
        TrimOfTrimmed(p0);
      }
      TrimNonEmptyOfFramable(rest);
    }
  }

  /** The server's write-pump frame: the first pending message, then each
      message already queued behind it, each preceded by '\n'. */
  function Frame(queue: seq<string>): string
  {
    Join(queue, '\n')
  }

  /** The client's decoder undoes the server's framing: messages that are
      trimmed, non-empty and free of line breaks come back in order. */
  lemma SegmentsOfFrame(queue: seq<string>)
    requires |queue| >= 1
    requires forall i :: 0 <= i < |queue| ==> Framable(queue[i])
    ensures Segments(Frame(queue)) == queue
  {
    SplitJoin(queue, '\n');
    TrimNonEmptyOfFramable(queue);
  }

  /** Blank lines and surrounding whitespace in a payload never reach the
      parser: a payload that is all whitespace yields no segment. */
  lemma BlankPayload(raw: string)
    requires AllSpace(raw)
    ensures Segments(raw) == []
  {
    JoinSplit(raw, '\n');
    var parts := Split(raw, '\n');
    AllPartsBlank(raw, parts);
    BlankPartsDropped(parts);
  }

  lemma AllPartsBlank(raw: string, parts: seq<string>)
    requires AllSpace(raw) && parts == Split(raw, '\n')
    ensures forall i :: 0 <= i < |parts| ==> AllSpace(parts[i])
  {
    SplitChars(raw, '\n');
    forall i, k | 0 <= i < |parts| && 0 <= k < |parts[i]|
      ensures IsSpace(parts[i][k])
    {
      var c := parts[i][k];
      assert c in parts[i];
      assert c in raw;
      var j :| 0 <= j < |raw| && raw[j] == c;
    }
  }

  /** Splitting only removes separators. */
  lemma {:induction false} SplitChars(s: string, sep: char)
    ensures forall i, c :: 0 <= i < |Split(s, sep)| && c in Split(s, sep)[i] ==> c in s
    decreases |s|
  {
    if |s| > 0 {
      SplitChars(s[1..], sep);
      var rest := Split(s[1..], sep);
      var p := Split(s, sep);
      forall i, c | 0 <= i < |p| && c in p[i]
        ensures c in s
      {
        if s[0] == sep {
          assert p[i] == if i == 0 then "" else rest[i - 1];
          if i > 0 {
            assert c in s[1..];
          }
        } else if i == 0 {
          assert p[0] == [s[0]] + rest[0];
          if c != s[0] {
            assert c in rest[0];
            assert c in s[1..];
          }
        } else {
          assert p[i] == rest[i];
          assert c in s[1..];
        }
      }
    }
  }

  lemma {:induction false} BlankPartsDropped(parts: seq<string>)
    requires forall i :: 0 <= i < |parts| ==> AllSpace(parts[i])
    ensures TrimNonEmpty(parts) == []
  {
    if |parts| > 0 {
      TrimEmptyIffAllSpace(parts[0]);
      BlankPartsDropped(parts[1..]);
    }
  }
}
