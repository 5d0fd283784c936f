/**
 * The server's validators (`utils/validation.go`): the check that an
 * address belongs to an Ethiopian educational institution, the extraction
 * of the institution's name from it, and the password-strength rule. Each
 * regular expression is an explicit character-class predicate. Go's `len`
 * counts UTF-8 bytes.
 */
module Validation {
  import opened Wrappers
  import opened Text

  const InstitutionalSuffix := ".edu.et"

  /** `[a-zA-Z]`. */
  predicate Letter(c: char)
  {
    'a' <= c <= 'z' || 'A' <= c <= 'Z'
  }

  predicate Digit(c: char)
  {
    '0' <= c <= '9'
  }

  /** `[a-zA-Z0-9._%+-]`, the local part's class. */
  predicate LocalChar(c: char)
  {
    Letter(c) || Digit(c) || c == '.' || c == '_' || c == '%' || c == '+' || c == '-'
  }

  /** `[a-zA-Z0-9.-]`, the domain's class. */
  predicate DomainChar(c: char)
  {
    Letter(c) || Digit(c) || c == '.' || c == '-'
  }

  predicate AllLocal(s: string)
  {
    forall i :: 0 <= i < |s| ==> LocalChar(s[i])
  }

  predicate AllDomain(s: string)
  {
    forall i :: 0 <= i < |s| ==> DomainChar(s[i])
  }

  predicate AllLetters(s: string)
  {
    forall i :: 0 <= i < |s| ==> Letter(s[i])
  }

  /** `[a-zA-Z0-9.-]+\.[a-zA-Z]{2,}` matching the whole of `d`. */
  predicate DomainMatches(d: string)
  {
    exists j :: 1 <= j && j + 3 <= |d| && d[j] == '.' && AllDomain(d[..j]) && AllLetters(d[j + 1..])
  }

  /** `^[a-zA-Z0-9._%+-]+@[a-zA-Z0-9.-]+\.[a-zA-Z]{2,}$`. */
  predicate EmailMatches(e: string)
  {
    exists k :: 1 <= k < |e| && e[k] == '@' && AllLocal(e[..k]) && DomainMatches(e[k + 1..])
  }

  /** `IsInstitutionalEmail`: every check runs on the lower-cased address. */
  function IsInstitutionalEmail(email: string): bool
  {
    InstitutionalLower(ToLower(email))
  }

  /** The checks after lower-casing, in order: the suffix, the regular
      expression, two parts around '@', at least three domain labels, the
      last two `edu` and `et`, and the third from last at least 2 bytes. */
  function InstitutionalLower(l: string): bool
  {
    if !HasSuffix(l, InstitutionalSuffix) then false
    else if !EmailMatches(l) then false
    else
      var parts := Split(l, '@');
      if |parts| != 2 then false
      else
        var labels := Split(parts[1], '.');
        if |labels| < 3 then false
        else if labels[|labels| - 2] != "edu" || labels[|labels| - 1] != "et" then false
        else if Utf8Len(labels[|labels| - 3]) < 2 then false
        else true
  }

  /** `GetInstitutionFromEmail`: the labels of the original address's domain
      before `edu.et`, joined again with '.'. */
  function GetInstitutionFromEmail(email: string): string
  {
    if !IsInstitutionalEmail(email) then ""
    else
      var parts := Split(email, '@');
      if |parts| != 2 then ""
      else
        var labels := Split(parts[1], '.');
        if |labels| >= 3 then Join(labels[..|labels| - 2], '.') else ""
  }

  const PasswordTooShort := "Password must be at least 8 characters long"
  const PasswordNoUpper := "Password must contain at least one uppercase letter"
  const PasswordNoLower := "Password must contain at least one lowercase letter"
  const PasswordNoDigit := "Password must contain at least one number"

  predicate HasUpper(p: string)
  {
    exists i :: 0 <= i < |p| && 'A' <= p[i] <= 'Z'
  }

  predicate HasLower(p: string)
  {
    exists i :: 0 <= i < |p| && 'a' <= p[i] <= 'z'
  }

  predicate HasDigit(p: string)
  {
    exists i :: 0 <= i < |p| && Digit(p[i])
  }

  /** `ValidatePasswordStrength`: the checks in order, the first failure's
      message. */
  function ValidatePasswordStrength(p: string): (bool, string)
  {
    if Utf8Len(p) < 8 then (false, PasswordTooShort)
    else if !HasUpper(p) then (false, PasswordNoUpper)
    else if !HasLower(p) then (false, PasswordNoLower)
    else if !HasDigit(p) then (false, PasswordNoDigit)
    else (true, "")
  }

  // ---------------------------------------------------------------------
  // The shape of an institutional address
  // ---------------------------------------------------------------------

  /** The last '.'-separated label of `s`. */
  function LastLabel(s: string): string
  {
    var ps := Split(s, '.');
    ps[|ps| - 1]
  }

  /** A lower-cased address with its '@' at `k`: a local part of local
      characters, then a domain of domain characters that ends in
      ".edu.et", whose label before "edu" has at least two characters. */
  predicate InstitutionalAt(l: string, k: int)
  {
    && 1 <= k && k + 8 <= |l|
    && l[k] == '@'
    && AllLocal(l[..k])
    && AllDomain(l[k + 1..])
    && l[|l| - 7..] == InstitutionalSuffix
    && |LastLabel(l[k + 1..|l| - 7])| >= 2
  }

  // ---------------------------------------------------------------------
  // Properties
  // ---------------------------------------------------------------------

  lemma {:induction false} JoinAppend(ps: seq<string>, x: string, sep: char)
    requires |ps| >= 1
    ensures Join(ps + [x], sep) == Join(ps, sep) + [sep] + x
    decreases |ps|
  {
    if |ps| > 1 {
      JoinAppend(ps[1..], x, sep);
      assert (ps + [x])[1..] == ps[1..] + [x];
    }
  }

  /** Splitting `stem.a.b` on '.' adds `a` and `b` to the labels of `stem`. */
  lemma SplitTwoMore(stem: string, a: string, b: string, sep: char)
    requires sep !in a && sep !in b
    ensures Split(stem + [sep] + a + [sep] + b, sep) == Split(stem, sep) + [a, b]
  {
    var ps := Split(stem, sep);
    JoinSplit(stem, sep);
    JoinAppend(ps, a, sep);
    JoinAppend(ps + [a], b, sep);
    assert ps + [a] + [b] == ps + [a, b];
    SplitJoin(ps + [a, b], sep);
  }

  /** Splitting `a@b` with one separator gives the two sides. */
  lemma SplitOnce(a: string, b: string, sep: char)
    requires sep !in a && sep !in b
    ensures Split(a + [sep] + b, sep) == [a, b]
  {
    assert Join([a, b], sep) == a + [sep] + b;
    SplitJoin([a, b], sep);
  }

  lemma AsciiDomain(s: string)
    requires AllDomain(s)
    ensures Utf8Len(s) == |s|
  {
    AsciiUtf8Len(s);
  }


  lemma NoAtInLocal(s: string)
    requires AllLocal(s)
    ensures '@' !in s
  {
    forall i | 0 <= i < |s| ensures s[i] != '@' {
      assert LocalChar(s[i]);
    }
  }

  lemma NoAtInDomain(s: string)
    requires AllDomain(s)
    ensures '@' !in s
  {
    forall i | 0 <= i < |s| ensures s[i] != '@' {
      assert DomainChar(s[i]);
    }
  }

  lemma AllDomainPrefix(s: string, j: int)
    requires AllDomain(s) && 0 <= j <= |s|
    ensures AllDomain(s[..j])
  {
    assert forall t :: 0 <= t < j ==> s[..j][t] == s[t];
  }

  /** Every label of a string of domain characters is one too. */
  lemma {:induction false} LabelsOf(s: string)
    requires AllDomain(s)
    ensures forall i :: 0 <= i < |Split(s, '.')| ==> AllDomain(Split(s, '.')[i])
    decreases |s|
  {
    if |s| > 0 {
      assert AllDomain(s[1..]) by {
        assert forall t :: 0 <= t < |s| - 1 ==> s[1..][t] == s[t + 1];
      }
      LabelsOf(s[1..]);
      var rest := Split(s[1..], '.');
      if s[0] != '.' {
        var first := [s[0]] + rest[0];
        assert AllDomain(first) by {
          forall t | 0 <= t < |first| ensures DomainChar(first[t]) {
            if t > 0 { assert first[t] == rest[0][t - 1]; }
          }
        }
        assert Split(s, '.') == [first] + rest[1..];
        forall i | 0 <= i < |Split(s, '.')| ensures AllDomain(Split(s, '.')[i]) {
          if i > 0 { assert Split(s, '.')[i] == rest[i]; }
        }
      } else {
        assert Split(s, '.') == [""] + rest;
        forall i | 0 <= i < |Split(s, '.')| ensures AllDomain(Split(s, '.')[i]) {
          if i > 0 { assert Split(s, '.')[i] == rest[i - 1]; }
        }
      }
    }
  }

  /** The label before `edu` is ASCII, so its byte length is its length. */
  lemma StemLabelAscii(d: string)
    requires AllDomain(d) && |d| >= 7
    ensures Utf8Len(LastLabel(d[..|d| - 7])) == |LastLabel(d[..|d| - 7])|
  {
    AllDomainPrefix(d, |d| - 7);
    LabelsOf(d[..|d| - 7]);
    AsciiDomain(LastLabel(d[..|d| - 7]));
  }

  /** Splitting at the only separator gives the two sides. */
  lemma SplitAt(l: string, k: int, sep: char)
    requires 0 <= k < |l| && l[k] == sep && sep !in l[..k] && sep !in l[k + 1..]
    ensures Split(l, sep) == [l[..k], l[k + 1..]]
  {
    assert l == l[..k] + [sep] + l[k + 1..];
    SplitOnce(l[..k], l[k + 1..], sep);
  }

  /** Splitting a string that ends in `.xxx.yy` adds the last two labels to
      those of the rest. */
  lemma SplitTail(d: string, sep: char)
    requires |d| >= 7 && d[|d| - 7] == sep && d[|d| - 3] == sep
    requires sep !in d[|d| - 6..|d| - 3] && sep !in d[|d| - 2..]
    ensures Split(d, sep) == Split(d[..|d| - 7], sep) + [d[|d| - 6..|d| - 3], d[|d| - 2..]]
  {
    assert d == d[..|d| - 7] + [sep] + d[|d| - 6..|d| - 3] + [sep] + d[|d| - 2..];
    SplitTwoMore(d[..|d| - 7], d[|d| - 6..|d| - 3], d[|d| - 2..], sep);
  }

  lemma SuffixChars(d: string)
    requires HasSuffix(d, InstitutionalSuffix)
    ensures d[|d| - 7] == '.' && d[|d| - 3] == '.' && d[|d| - 6..|d| - 3] == "edu" && d[|d| - 2..] == "et"
  {
    var n := |d|;
    assert d[n - 7..] == InstitutionalSuffix;
    assert d[n - 7..][0] == d[n - 7] && d[n - 7..][4] == d[n - 3];
    assert d[n - 6..n - 3] == d[n - 7..][1..4];
    assert d[n - 2..] == d[n - 7..][5..];
  }

  /** The domain's labels end in `edu` and `et`. */
  lemma SuffixLabels(d: string)
    requires HasSuffix(d, InstitutionalSuffix)
    ensures Split(d, '.') == Split(d[..|d| - 7], '.') + ["edu", "et"]
  {
    SuffixChars(d);
    assert '.' !in "edu" && '.' !in "et";
    SplitTail(d, '.');
  }

  /** The pieces of a lower-cased address with the shape of an institutional
      one at `k`, as the checker's splits see them. */
  lemma Pieces(l: string, k: int)
    requires 1 <= k && k + 8 <= |l| && l[k] == '@'
    requires AllLocal(l[..k]) && AllDomain(l[k + 1..]) && l[|l| - 7..] == InstitutionalSuffix
    ensures Split(l, '@') == [l[..k], l[k + 1..]]
    ensures Split(l[k + 1..], '.') == Split(l[k + 1..|l| - 7], '.') + ["edu", "et"]
  {
    var d := l[k + 1..];
    assert '@' !in l[..k] by { NoAtInLocal(l[..k]); }
    assert '@' !in d by { NoAtInDomain(d); }
    SplitAt(l, k, '@');
    SliceOfSlice(l, k + 1, |d| - 7);
    assert k + 1 + (|d| - 7) == |l| - 7;
    var stem := d[..|d| - 7];
    assert stem == l[k + 1..|l| - 7];
    assert HasSuffix(d, InstitutionalSuffix);
    SuffixLabels(d);
  }

  /** Slicing a suffix is slicing the whole string at shifted positions. */
  lemma SliceOfSlice<T>(s: seq<T>, a: int, b: int)
    requires 0 <= a <= |s| && 0 <= b <= |s| - a
    ensures s[a..][b..] == s[a + b..] && s[a..][..b] == s[a..a + b]
  {
  }

  /** With the suffix present the regular expression's domain part reduces
      to its character class. */
  lemma MatchesWithSuffix(l: string, k: int)
    requires 1 <= k && k + 8 <= |l| && l[k] == '@' && l[|l| - 7..] == InstitutionalSuffix
    requires AllLocal(l[..k]) && AllDomain(l[k + 1..])
    ensures EmailMatches(l)
  {
    var d := l[k + 1..];
    var j := |d| - 3;
    assert d[j] == '.' && d[j + 1..] == "et" by {
      assert d[j..] == l[|l| - 3..] == InstitutionalSuffix[4..];
    }
    assert AllLetters(d[j + 1..]);
    AllDomainPrefix(d, j);
    assert DomainMatches(d);
  }

  /** A '.'-joined domain of domain characters and letters is all domain
      characters. */
  lemma DomainJoin(d: string, j: int)
    requires 0 <= j < |d| && d[j] == '.' && AllDomain(d[..j]) && AllLetters(d[j + 1..])
    ensures AllDomain(d)
  {
    forall i | 0 <= i < |d| ensures DomainChar(d[i]) {
      if i < j {
        assert d[..j][i] == d[i];
      } else if i > j {
        assert d[j + 1..][i - j - 1] == d[i];
      }
    }
  }

  /** No '@' lies inside the suffix. */
  lemma AtBeforeSuffix(l: string, k: int)
    requires HasSuffix(l, InstitutionalSuffix) && 0 <= k < |l| && l[k] == '@'
    ensures k + 8 <= |l|
  {
  }

  lemma PickAt(l: string) returns (k: int)
    requires EmailMatches(l)
    ensures 1 <= k < |l| && l[k] == '@' && AllLocal(l[..k]) && DomainMatches(l[k + 1..])
  {
    k :| 1 <= k < |l| && l[k] == '@' && AllLocal(l[..k]) && DomainMatches(l[k + 1..]);
  }

  lemma DomainAll(d: string)
    requires DomainMatches(d)
    ensures AllDomain(d)
  {
    var j :| 1 <= j && j + 3 <= |d| && d[j] == '.' && AllDomain(d[..j]) && AllLetters(d[j + 1..]);
    DomainJoin(d, j);
  }

  /** The '@' the regular expression matched lies before the suffix, and
      everything after it is domain characters. */
  lemma MatchedAt(l: string) returns (k: int)
    requires EmailMatches(l) && HasSuffix(l, InstitutionalSuffix)
    ensures 1 <= k && k + 8 <= |l| && l[k] == '@'
    ensures AllLocal(l[..k]) && AllDomain(l[k + 1..]) && l[|l| - 7..] == InstitutionalSuffix
  {
    k := PickAt(l);
    DomainAll(l[k + 1..]);
    AtBeforeSuffix(l, k);
  }

  /** An accepted lower-cased address has the shape at its '@'. */
  lemma AcceptedHasShape(l: string) returns (k: int)
    requires InstitutionalLower(l)
    ensures InstitutionalAt(l, k)
  {
    k := MatchedAt(l);
    Pieces(l, k);
    var labels := Split(l[k + 1..], '.');
    assert labels[|labels| - 3] == LastLabel(l[k + 1..|l| - 7]);
    assert l[k + 1..][..|l[k + 1..]| - 7] == l[k + 1..|l| - 7];
    StemLabelAscii(l[k + 1..]);
  }

  /** A lower-cased address with the shape is accepted. */
  lemma ShapeAccepted(l: string, k: int)
    requires InstitutionalAt(l, k)
    ensures InstitutionalLower(l)
  {
    MatchesWithSuffix(l, k);
    Pieces(l, k);
    var d := l[k + 1..];
    var stem := l[k + 1..|l| - 7];
    var labels := Split(d, '.');
    var front := Split(stem, '.');
    assert labels == front + ["edu", "et"];
    LastBeforePair(front, "edu", "et");
    assert labels[|labels| - 3] == LastLabel(stem);
    assert d[..|d| - 7] == stem;
    StemLabelAscii(d);
    AcceptedByParts(l, d, labels);
  }

  /** Two elements appended after a non-empty list leave its last element
      third from the end. */
  lemma LastBeforePair<T>(a: seq<T>, x: T, y: T)
    requires |a| >= 1
    ensures var b := a + [x, y]; |b| == |a| + 2 && b[|b| - 3] == a[|a| - 1]
  {
  }

  /** The checks pass once each of them is known to. */
  lemma AcceptedByParts(l: string, d: string, labels: seq<string>)
    requires |InstitutionalSuffix| <= |l| && l[|l| - 7..] == InstitutionalSuffix && EmailMatches(l)
    requires |Split(l, '@')| == 2 && Split(l, '@')[1] == d && labels == Split(d, '.')
    requires |labels| >= 3 && labels[|labels| - 2] == "edu" && labels[|labels| - 1] == "et"
    requires Utf8Len(labels[|labels| - 3]) >= 2
    ensures InstitutionalLower(l)
  {
    assert HasSuffix(l, InstitutionalSuffix);
  }

  /** An address is institutional exactly when its lower-cased form has the
      shape at some '@'. */
  lemma InstitutionalIff(email: string)
    ensures IsInstitutionalEmail(email) <==> exists k :: InstitutionalAt(ToLower(email), k)
  {
    var l := ToLower(email);
    if IsInstitutionalEmail(email) {
      var k := AcceptedHasShape(l);
    }
    if exists k :: InstitutionalAt(l, k) {
      var k :| InstitutionalAt(l, k);
      ShapeAccepted(l, k);
    }
  }

  /** The check ignores case. */
  lemma InstitutionalIgnoresCase(a: string, b: string)
    requires ToLower(a) == ToLower(b)
    ensures IsInstitutionalEmail(a) == IsInstitutionalEmail(b)
  {
  }

  /** A separator that is not a letter sits where lower-casing puts it. */
  lemma LowerKeepsSeparator(e: string, i: int, j: int, c: char)
    requires 0 <= i <= j <= |e| && !Letter(c)
    requires c !in ToLower(e)[i..j]
    ensures c !in e[i..j]
  {
    var r := ToLower(e)[i..j];
    forall t | i <= t < j ensures e[t] != c {
      assert r[t - i] in r;
      assert r[t - i] == LowerChar(e[t]);
    }
  }

  /** The domain's labels, from where its two '.' separators sit. */
  lemma DomainLabels(e: string, k: int)
    requires 0 <= k && k + 8 <= |e|
    requires var d := e[k + 1..];
             d[|d| - 7] == '.' && d[|d| - 3] == '.' && '.' !in d[|d| - 6..|d| - 3] && '.' !in d[|d| - 2..]
    ensures Split(e[k + 1..], '.') == Split(e[k + 1..|e| - 7], '.') + [e[|e| - 6..|e| - 3], e[|e| - 2..]]
  {
    var d := e[k + 1..];
    SplitTail(d, '.');
    assert d[..|d| - 7] == e[k + 1..|e| - 7];
    assert d[|d| - 6..|d| - 3] == e[|e| - 6..|e| - 3];
    assert d[|d| - 2..] == e[|e| - 2..];
  }

  lemma OriginalAt(email: string, k: int)
    requires InstitutionalAt(ToLower(email), k)
    ensures Split(email, '@') == [email[..k], email[k + 1..]]
  {
    var l := ToLower(email);
    assert LowerChar(email[k]) == '@';
    assert '@' !in email[..k] by {
      NoAtInLocal(l[..k]);
      LowerKeepsSeparator(email, 0, k, '@');
    }
    assert '@' !in email[k + 1..] by {
      NoAtInDomain(l[k + 1..]);
      LowerKeepsSeparator(email, k + 1, |email|, '@');
    }
    SplitAt(email, k, '@');
  }

  lemma OriginalDomainSuffix(email: string, k: int)
    requires InstitutionalAt(ToLower(email), k)
    ensures HasSuffix(ToLower(email[k + 1..]), InstitutionalSuffix)
  {
    var l := ToLower(email);
    LowerSlice(email, k + 1, |email|);
    assert l[k + 1..][|l| - k - 8..] == l[|l| - 7..];
  }

  lemma LowerSlice(e: string, i: int, j: int)
    requires 0 <= i <= j <= |e|
    ensures ToLower(e[i..j]) == ToLower(e)[i..j]
  {
  }

  lemma LowerDots(d: string)
    requires HasSuffix(ToLower(d), InstitutionalSuffix)
    ensures d[|d| - 7] == '.' && d[|d| - 3] == '.' && '.' !in d[|d| - 6..|d| - 3] && '.' !in d[|d| - 2..]
  {
    var ld := ToLower(d);
    var m := |d|;
    SuffixChars(ld);
    assert LowerChar(d[m - 7]) == '.' && LowerChar(d[m - 3]) == '.';
    assert '.' !in ld[m - 6..m - 3] && '.' !in ld[m - 2..];
    LowerKeepsSeparator(d, m - 6, m - 3, '.');
    LowerKeepsSeparator(d, m - 2, m, '.');
  }

  /** The extracted name is the original-case domain without ".edu.et", and
      lower-casing it with the suffix gives back the lower-cased domain; it
      is empty exactly for a non-institutional address. */
  lemma InstitutionIsDomainStem(email: string)
    ensures !IsInstitutionalEmail(email) <==> GetInstitutionFromEmail(email) == ""
    ensures IsInstitutionalEmail(email) ==>
              exists k :: InstitutionalAt(ToLower(email), k) &&
                GetInstitutionFromEmail(email) == email[k + 1..|email| - 7] &&
                ToLower(GetInstitutionFromEmail(email) + InstitutionalSuffix) == ToLower(email[k + 1..])
  {
    if IsInstitutionalEmail(email) {
      InstitutionalIff(email);
      var k :| InstitutionalAt(ToLower(email), k);
      InstitutionAt(email, k);
      StemNonEmpty(email, k);
      LowerDomain(email, k);
    }
  }

  /** An address whose lower-cased form has the shape at `k` is
      institutional, and its institution is the text between the '@' and the
      suffix, as written. */
  lemma InstitutionAt(email: string, k: int)
    requires InstitutionalAt(ToLower(email), k)
    ensures IsInstitutionalEmail(email)
    ensures GetInstitutionFromEmail(email) == email[k + 1..|email| - 7]
  {
    ShapeAccepted(ToLower(email), k);
    OriginalAt(email, k);
    OriginalDomainSuffix(email, k);
    LowerDots(email[k + 1..]);
    DomainLabels(email, k);
    ExtractedStem(email, k);
  }

  /** With the two splits known, the extraction rejoins the labels before
      the suffix: the stem as written. */
  lemma ExtractedStem(email: string, k: int)
    requires IsInstitutionalEmail(email) && 0 <= k && k + 8 <= |email|
    requires Split(email, '@') == [email[..k], email[k + 1..]]
    requires Split(email[k + 1..], '.') ==
               Split(email[k + 1..|email| - 7], '.') + [email[|email| - 6..|email| - 3], email[|email| - 2..]]
    ensures GetInstitutionFromEmail(email) == email[k + 1..|email| - 7]
  {
    var stem := email[k + 1..|email| - 7];
    var labels := Split(email[k + 1..], '.');
    assert labels[..|labels| - 2] == Split(stem, '.');
    JoinSplit(stem, '.');
  }

  lemma StemNonEmpty(email: string, k: int)
    requires InstitutionalAt(ToLower(email), k)
    ensures email[k + 1..|email| - 7] != ""
  {
  }

  lemma LowerDomain(email: string, k: int)
    requires InstitutionalAt(ToLower(email), k)
    ensures ToLower(email[k + 1..|email| - 7] + InstitutionalSuffix) == ToLower(email[k + 1..])
  {
    var l := ToLower(email);
    var stem := email[k + 1..|email| - 7];
    ToLowerAppend(stem, InstitutionalSuffix);
    assert ToLower(InstitutionalSuffix) == InstitutionalSuffix;
    ToLowerSlice(email, k + 1, |email| - 7);
    ToLowerSlice(email, k + 1, |email|);
    assert email[k + 1..|email|] == email[k + 1..];
    assert l[k + 1..] == l[k + 1..|l| - 7] + l[|l| - 7..];
  }

  /** The password is accepted exactly when all four conditions hold, and a
      rejection names the first one that fails. */
  lemma PasswordRules(p: string)
    ensures ValidatePasswordStrength(p).0 <==> Utf8Len(p) >= 8 && HasUpper(p) && HasLower(p) && HasDigit(p)
    ensures ValidatePasswordStrength(p).0 ==> ValidatePasswordStrength(p).1 == ""
    ensures Utf8Len(p) < 8 <==> ValidatePasswordStrength(p).1 == PasswordTooShort
    ensures Utf8Len(p) >= 8 && !HasUpper(p) <==> ValidatePasswordStrength(p).1 == PasswordNoUpper
    ensures Utf8Len(p) >= 8 && HasUpper(p) && !HasLower(p) <==> ValidatePasswordStrength(p).1 == PasswordNoLower
    ensures Utf8Len(p) >= 8 && HasUpper(p) && HasLower(p) && !HasDigit(p) <==> ValidatePasswordStrength(p).1 == PasswordNoDigit
  {
  }

  /** The length rule counts bytes: six characters, three of them outside
      ASCII, are long enough. */
  lemma PasswordLengthInBytes()
    ensures ValidatePasswordStrength("Ab1ééé").0
  {
    var p := "Ab1ééé";
    assert Utf8Bytes('é') == [0xC3, 0xA9];
    assert Utf8Len(p) == 9;
    assert 'A' <= p[0] <= 'Z' && 'a' <= p[1] <= 'z' && Digit(p[2]);
  }
}
