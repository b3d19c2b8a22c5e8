/**
 * utils/emailValidator.go: ValidateEmail (length limits, then a regular expression that
 * simplifies the addr-spec of section 3.4.1 of RFC 5322) and NormalizeEmail. The regular
 * expression is stated as the grammar it accepts (`EmailPattern`) and computed by a
 * split-based matcher that is proved to accept the same strings.
 */
module EmailValidator {
  import opened Wrappers
  import opened Text

  const MaxEmailLength := 254
  const MaxLabelLength := 63

  /** The non-alphanumeric characters the local-part class admits. */
  const LocalSpecials := ".!#$%&'*+/=?^_`{|}~-"

  predicate LocalChar(c: char) { IsAlnum(c) || c in LocalSpecials }
  predicate LabelChar(c: char) { IsAlnum(c) || c == '-' }

  /** `[a-zA-Z0-9.!#$%&'*+/=?^_`{|}~-]+` */
  predicate ValidLocal(s: string) {
    |s| >= 1 && forall i | 0 <= i < |s| :: LocalChar(s[i])
  }

  /** `[a-zA-Z0-9](?:[a-zA-Z0-9-]{0,61}[a-zA-Z0-9])?`: 1 to 63 characters, no hyphen at either end. */
  predicate ValidLabel(l: string) {
    && 1 <= |l| <= MaxLabelLength
    && (forall i | 0 <= i < |l| :: LabelChar(l[i]))
    && l[0] != '-' && l[|l| - 1] != '-'
  }

  /** The domain half of the expression: a label followed by any number of "." label. */
  ghost predicate DomainPattern(d: string)
    decreases |d|
  {
    || ValidLabel(d)
    || exists j | 0 < j < |d| :: d[j] == '.' && ValidLabel(d[..j]) && DomainPattern(d[j + 1..])
  }

  /** The whole expression, anchored at both ends: local part, '@', domain. */
  ghost predicate EmailPattern(e: string) {
    exists i | 0 <= i < |e| :: e[i] == '@' && ValidLocal(e[..i]) && DomainPattern(e[i + 1..])
  }

  /** Matcher for the domain: every dot-separated field is a label. */
  predicate DomainMatches(d: string) {
    var labels := Split(d, '.');
    forall k | 0 <= k < |labels| :: ValidLabel(labels[k])
  }

  /** Matcher for the address: the text before the first '@' is a local part, the rest a domain. */
  predicate MatchesEmail(e: string) {
    '@' in e && var i := IndexOf(e, '@'); ValidLocal(e[..i]) && DomainMatches(e[i + 1..])
  }

  /** A label, a dot and a domain make a domain. */
  lemma DomainJoin(d: string, j: nat)
    requires 0 < j < |d| && d[j] == '.'
    requires ValidLabel(d[..j]) && DomainPattern(d[j + 1..])
    ensures DomainPattern(d)
  {
  }

  /** Without a dot, the domain grammar accepts exactly the single labels. */
  lemma NoDotDomain(d: string)
    requires '.' !in d
    ensures DomainPattern(d) <==> ValidLabel(d)
  {
    if !ValidLabel(d) {
      forall j | 0 < j < |d| ensures d[j] != '.' {}
    }
  }

  /** With a first dot at `i`, the domain grammar must read the first label up to `i`. */
  lemma FirstDotDomain(d: string, i: nat)
    requires '.' in d && i == IndexOf(d, '.')
    ensures DomainPattern(d) <==> ValidLabel(d[..i]) && DomainPattern(d[i + 1..])
  {
    if ValidLabel(d[..i]) && DomainPattern(d[i + 1..]) {
      DomainJoin(d, i);
    }
    if DomainPattern(d) {
      FirstDotSplit(d, i);
    }
  }

  /** A domain splits at its first dot into a label and a domain. */
  lemma FirstDotSplit(d: string, i: nat)
    requires '.' in d && i == IndexOf(d, '.')
    requires DomainPattern(d)
    ensures ValidLabel(d[..i]) && DomainPattern(d[i + 1..])
  {
    assert !LabelChar(d[i]);
    var j :| 0 < j < |d| && d[j] == '.' && ValidLabel(d[..j]) && DomainPattern(d[j + 1..]);
    assert forall k | 0 <= k < i :: d[k] != '.' by {
      forall k | 0 <= k < i ensures d[k] != '.' {
        assert d[..i][k] == d[k];
      }
    }
    assert forall k | 0 <= k < j :: LabelChar(d[k]) by {
      forall k | 0 <= k < j ensures LabelChar(d[k]) {
        assert d[..j][k] == d[k];
      }
    }
    assert j == i;
  }

  /** The split-based matcher and the domain grammar accept the same strings. */
  lemma {:induction false} DomainMatchesPattern(d: string)
    ensures DomainMatches(d) <==> DomainPattern(d)
    decreases |d|
  {
    if '.' !in d {
      NoDotDomain(d);
      assert Split(d, '.') == [d];
    } else {
      var i := IndexOf(d, '.');
      FirstDotDomain(d, i);
      DomainMatchesFirst(d, i);
      DomainMatchesPattern(d[i + 1..]);
    }
  }

  /** The matcher checks the field before the first dot and then matches the rest. */
  lemma DomainMatchesFirst(d: string, i: nat)
    requires '.' in d && i == IndexOf(d, '.')
    ensures DomainMatches(d) <==> ValidLabel(d[..i]) && DomainMatches(d[i + 1..])
  {
    var labels := Split(d, '.');
    var tail := Split(d[i + 1..], '.');
    assert labels == [d[..i]] + tail;
    assert forall k | 1 <= k < |labels| :: labels[k] == tail[k - 1];
  }

  /** The matcher and the anchored expression accept the same strings. */
  lemma MatchesEmailPattern(e: string)
    ensures MatchesEmail(e) <==> EmailPattern(e)
  {
    if MatchesEmail(e) {
      var i := IndexOf(e, '@');
      DomainMatchesPattern(e[i + 1..]);
    }
    if EmailPattern(e) {
      var i :| 0 <= i < |e| && e[i] == '@' && ValidLocal(e[..i]) && DomainPattern(e[i + 1..]);
      var first := IndexOf(e, '@');
      AtIsNotLocal();
      assert forall k | 0 <= k < i :: e[..i][k] == e[k];
      assert forall k | 0 <= k < first :: e[..first][k] == e[k];
      assert first == i;
      DomainMatchesPattern(e[i + 1..]);
    }
  }

  lemma AtIsNotLocal()
    ensures !LocalChar('@')
  {
  }

  datatype EmailError = EmptyEmail | TooLong | BadFormat

  /** ValidateEmail: nil (None) exactly for non-empty addresses of at most 254 characters that match the expression. */
  function ValidateEmail(e: string): (r: Option<EmailError>)
    ensures e == "" ==> r == Some(EmptyEmail)
    ensures e != "" && |e| > MaxEmailLength ==> r == Some(TooLong)
    ensures r.None? <==> e != "" && |e| <= MaxEmailLength && EmailPattern(e)
  {
    MatchesEmailPattern(e);
    if e == "" then Some(EmptyEmail)
    else if |e| > MaxEmailLength then Some(TooLong)
    else if MatchesEmail(e) then None
    else Some(BadFormat)
  }

  /** Every character of a domain is a label character or a dot. */
  lemma {:induction false} DomainChars(d: string)
    requires DomainPattern(d)
    ensures forall k | 0 <= k < |d| :: LabelChar(d[k]) || d[k] == '.'
    decreases |d|
  {
    if !ValidLabel(d) {
      var j :| 0 < j < |d| && d[j] == '.' && ValidLabel(d[..j]) && DomainPattern(d[j + 1..]);
      DomainChars(d[j + 1..]);
      forall k | 0 <= k < |d| ensures LabelChar(d[k]) || d[k] == '.' {
        if k < j { assert d[k] == d[..j][k]; }
        else if k > j { assert d[k] == d[j + 1..][k - j - 1]; }
      }
    }
  }

  /** An accepted address contains exactly one '@'. */
  lemma AcceptedHasOneAt(e: string)
    requires ValidateEmail(e).None?
    ensures multiset(e)['@'] == 1
  {
    assert EmailPattern(e);
    var i :| 0 <= i < |e| && e[i] == '@' && ValidLocal(e[..i]) && DomainPattern(e[i + 1..]);
    var local, domain := e[..i], e[i + 1..];
    DomainChars(domain);
    AtIsNotLocal();
    assert '@' !in local by {
      forall k | 0 <= k < |local| ensures local[k] != '@' { assert LocalChar(local[k]); }
    }
    assert '@' !in domain by {
      forall k | 0 <= k < |domain| ensures domain[k] != '@' { assert LabelChar(domain[k]) || domain[k] == '.'; }
    }
    assert e == local + ['@'] + domain;
    assert multiset(e) == multiset(local) + multiset{'@'} + multiset(domain);
  }

  // ---------------------------------------------------------------------------
  // Normalisation
  // ---------------------------------------------------------------------------

  /** NormalizeEmail (via toLower): same length, 'A'..'Z' lowered, every other character kept. */
  function NormalizeEmail(e: string): (r: string)
    ensures |r| == |e|
    ensures forall i | 0 <= i < |e| :: IsUpper(e[i]) ==> IsLower(r[i]) && r[i] as int - e[i] as int == 32
    ensures forall i | 0 <= i < |e| :: !IsUpper(e[i]) ==> r[i] == e[i]
    ensures NoUpper(r)
  {
    ToLowerNoUpper(e);
    ToLower(e)
  }

  /** Normalising an already normalised address changes nothing. */
  lemma NormalizeIdempotent(e: string)
    ensures NormalizeEmail(NormalizeEmail(e)) == NormalizeEmail(e)
  {
    ToLowerIdempotent(e);
  }

  /** `t` is `s` lower-cased character by character. */
  predicate LoweredFrom(t: string, s: string) {
    |t| == |s| && forall i | 0 <= i < |s| :: t[i] == LowerChar(s[i])
  }

  lemma LabelLowered(l: string, ll: string)
    requires ValidLabel(l) && LoweredFrom(ll, l)
    ensures ValidLabel(ll)
  {
  }

  /** Lower-casing keeps a domain a domain: induction on the labels. */
  lemma {:induction false} DomainLowered(d: string, ld: string)
    requires DomainPattern(d) && LoweredFrom(ld, d)
    ensures DomainPattern(ld)
    decreases |d|
  {
    if ValidLabel(d) {
      LabelLowered(d, ld);
    } else {
      var j :| 0 < j < |d| && d[j] == '.' && ValidLabel(d[..j]) && DomainPattern(d[j + 1..]);
      LabelLowered(d[..j], ld[..j]);
      DomainLowered(d[j + 1..], ld[j + 1..]);
      DomainJoin(ld, j);
    }
  }

  lemma LocalLowered(l: string, ll: string)
    requires ValidLocal(l) && LoweredFrom(ll, l)
    ensures ValidLocal(ll)
  {
    forall k | 0 <= k < |ll| ensures LocalChar(ll[k]) {
      assert LocalChar(l[k]);
    }
  }

  lemma PatternLowered(e: string)
    requires EmailPattern(e)
    ensures EmailPattern(ToLower(e))
  {
    var le := ToLower(e);
    var i :| 0 <= i < |e| && e[i] == '@' && ValidLocal(e[..i]) && DomainPattern(e[i + 1..]);
    var local, domain := e[..i], e[i + 1..];
    LocalLowered(local, le[..i]);
    DomainLowered(domain, le[i + 1..]);
    assert le[i] == '@';
  }

  /** Normalising an accepted address yields an accepted address. */
  lemma NormalizeKeepsValid(e: string)
    requires ValidateEmail(e).None?
    ensures ValidateEmail(NormalizeEmail(e)).None?
  {
    PatternLowered(e);
  }
}
