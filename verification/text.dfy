/**
 * String helpers that the Go code takes from its standard library (strings.Split,
 * strings.TrimSpace, strings.Contains, strings.ContainsAny, strings.ToLower) or writes
 * by hand. A Go string is a byte sequence; here a string is a `seq<char>`, which
 * coincides with the byte view for ASCII input.
 */
module Text {

  predicate IsUpper(c: char) { 'A' <= c <= 'Z' }
  predicate IsLower(c: char) { 'a' <= c <= 'z' }
  predicate IsDigit(c: char) { '0' <= c <= '9' }
  predicate IsAlnum(c: char) { IsUpper(c) || IsLower(c) || IsDigit(c) }

  /** unicode.IsSpace restricted to the code points below U+0100. */
  predicate IsSpace(c: char) {
    c == ' ' || 9 <= c as int <= 13 || c as int == 0x85 || c as int == 0xA0
  }

  /** strings.ContainsAny: some character of `s` is one of `chars`. */
  predicate ContainsAny(s: string, chars: string) {
    exists i | 0 <= i < |s| :: s[i] in chars
  }

  /** No character of `s` is an upper-case ASCII letter. */
  predicate NoUpper(s: string) {
    forall i | 0 <= i < |s| :: !IsUpper(s[i])
  }

  // ---------------------------------------------------------------------------
  // Lower-casing
  // ---------------------------------------------------------------------------

  /** Maps 'A'..'Z' to 'a'..'z' and leaves every other character alone. */
  function LowerChar(c: char): (r: char)
    ensures IsUpper(c) ==> IsLower(r) && r as int - c as int == 'a' as int - 'A' as int
    ensures !IsUpper(c) ==> r == c
  {
    if IsUpper(c) then (c as int - 'A' as int + 'a' as int) as char else c
  }

  /** ASCII lower-casing, character by character. */
  function ToLower(s: string): (r: string)
    ensures |r| == |s|
    ensures forall i | 0 <= i < |s| :: r[i] == LowerChar(s[i])
  {
    if s == [] then [] else [LowerChar(s[0])] + ToLower(s[1..])
  }

  /** Lower-casing leaves no upper-case letter behind. */
  lemma ToLowerNoUpper(s: string)
    ensures NoUpper(ToLower(s))
  {
  }

  /** Lower-casing twice is lower-casing once. */
  lemma ToLowerIdempotent(s: string)
    ensures ToLower(ToLower(s)) == ToLower(s)
  {
    var once := ToLower(s);
    var twice := ToLower(once);
    assert |twice| == |once|;
    forall i | 0 <= i < |once|
      ensures twice[i] == once[i]
    {
      assert twice[i] == LowerChar(LowerChar(s[i]));
    }
  }

  /** A string without upper-case letters is its own lower-case form. */
  lemma ToLowerFixesLower(s: string)
    requires NoUpper(s)
    ensures ToLower(s) == s
  {
    var r := ToLower(s);
    forall i | 0 <= i < |s|
      ensures r[i] == s[i]
    {
      assert !IsUpper(s[i]);
    }
  }

  // ---------------------------------------------------------------------------
  // Substrings
  // ---------------------------------------------------------------------------

  /** `sub` occurs in `s` starting at offset `i`. */
  predicate OccursAt(s: string, sub: string, i: int) {
    0 <= i <= |s| - |sub| && s[i..i + |sub|] == sub
  }

  /** strings.Contains(s, sub). */
  predicate IsInfix(sub: string, s: string) {
    exists i | 0 <= i <= |s| - |sub| :: OccursAt(s, sub, i)
  }

  /** An occurrence inside a suffix is an occurrence in the whole string. */
  lemma InfixOfSuffix(sub: string, s: string, k: nat)
    requires k <= |s|
    requires IsInfix(sub, s[k..])
    ensures IsInfix(sub, s)
  {
    var i :| 0 <= i <= |s[k..]| - |sub| && OccursAt(s[k..], sub, i);
    assert s[k + i..k + i + |sub|] == s[k..][i..i + |sub|];
    assert OccursAt(s, sub, k + i);
  }

  // ---------------------------------------------------------------------------
  // Split and Join on a single separator character
  // ---------------------------------------------------------------------------

  /** Position of the first `c` in `s`. */
  function IndexOf(s: string, c: char): (i: nat)
    requires c in s
    ensures i < |s| && s[i] == c
    ensures c !in s[..i]
  {
    if s[0] == c then 0
    else
      var j := IndexOf(s[1..], c);
      assert s[..j + 1] == [s[0]] + s[1..][..j];
      j + 1
  }

  /** strings.Join(parts, string(sep)). */
  function Join(parts: seq<string>, sep: char): string
  {
    if |parts| == 0 then ""
    else if |parts| == 1 then parts[0]
    else parts[0] + [sep] + Join(parts[1..], sep)
  }

  /** strings.Split(s, string(sep)): the maximal separator-free fields, in order. */
  function Split(s: string, sep: char): (parts: seq<string>)
    ensures |parts| >= 1
    ensures forall k | 0 <= k < |parts| :: sep !in parts[k]
    ensures Join(parts, sep) == s
    decreases |s|
  {
    if sep !in s then [s]
    else
      var i := IndexOf(s, sep);
      var rest := Split(s[i + 1..], sep);
      var parts := [s[..i]] + rest;
      assert parts[1..] == rest;
      assert s == s[..i] + [sep] + s[i + 1..];
      parts
  }

  /** The first field of a split is the text up to the first separator. */
  lemma SplitFirst(s: string, sep: char)
    ensures sep !in s ==> Split(s, sep)[0] == s
    ensures sep in s ==> Split(s, sep)[0] == s[..IndexOf(s, sep)]
  {
  }

  /** Joining separator-free fields ends in an empty field exactly when the text is empty or ends in `sep`. */
  lemma {:induction false} JoinLastEmpty(parts: seq<string>, sep: char, s: string)
    requires |parts| >= 1
    requires forall k | 0 <= k < |parts| :: sep !in parts[k]
    requires Join(parts, sep) == s
    ensures parts[|parts| - 1] == [] <==> s == [] || s[|s| - 1] == sep
    decreases |parts|
  {
    if |parts| == 1 {
      if s != [] {
        assert s[|s| - 1] in parts[0];
      }
    } else {
      var rest := parts[1..];
      var r := Join(rest, sep);
      assert s == parts[0] + [sep] + r;
      assert rest[|rest| - 1] == parts[|parts| - 1];
      JoinLastEmpty(rest, sep, r);
      if r != [] {
        assert s[|s| - 1] == r[|r| - 1];
      }
    }
  }

  /** The last field of a split is empty exactly when the text is empty or ends in `sep`. */
  lemma SplitLastEmpty(s: string, sep: char)
    ensures var parts := Split(s, sep);
            parts[|parts| - 1] == [] <==> s == [] || s[|s| - 1] == sep
  {
    var parts := Split(s, sep);
    JoinLastEmpty(parts, sep, s);
  }

  /** Splitting a join of separator-free fields gives the fields back. */
  lemma {:induction false} SplitJoin(parts: seq<string>, sep: char)
    requires |parts| >= 1
    requires forall k | 0 <= k < |parts| :: sep !in parts[k]
    ensures Split(Join(parts, sep), sep) == parts
  {
    if |parts| > 1 {
      var s := Join(parts, sep);
      var p := parts[0];
      var tail := Join(parts[1..], sep);
      assert s == p + [sep] + tail;
      assert s[|p|] == sep;
      assert sep in s;
      var i := IndexOf(s, sep);
      assert i == |p| by {
        assert forall j | 0 <= j < |p| :: s[j] == p[j];
        assert s[..i] == p;
      }
      assert s[..i] == p;
      assert s[i + 1..] == tail;
      assert Split(s, sep) == [s[..i]] + Split(s[i + 1..], sep);
      SplitJoin(parts[1..], sep);
      assert parts == [p] + parts[1..];
    }
  }

  // ---------------------------------------------------------------------------
  // Trimming
  // ---------------------------------------------------------------------------

  /** Drops leading white space. */
  function TrimLeft(s: string): (r: string)
    ensures |r| <= |s| && r == s[|s| - |r|..]
    ensures forall k | 0 <= k < |s| - |r| :: IsSpace(s[k])
    ensures r == [] || !IsSpace(r[0])
  {
    if |s| > 0 && IsSpace(s[0]) then TrimLeft(s[1..]) else s
  }

  /** Drops trailing white space. */
  function TrimRight(s: string): (r: string)
    ensures |r| <= |s| && r == s[..|r|]
    ensures forall k | |r| <= k < |s| :: IsSpace(s[k])
    ensures r == [] || !IsSpace(r[|r| - 1])
  {
    if |s| > 0 && IsSpace(s[|s| - 1]) then TrimRight(s[..|s| - 1]) else s
  }

  /** `r` is the infix of `s` at offset `i`, and everything around it is white space. */
  predicate SpaceAround(s: string, r: string, i: int) {
    && 0 <= i <= |s| - |r|
    && r == s[i..i + |r|]
    && (forall k | 0 <= k < i :: IsSpace(s[k]))
    && (forall k | i + |r| <= k < |s| :: IsSpace(s[k]))
  }

  /** No white space at either end. */
  predicate Trimmed(s: string) {
    s == [] || (!IsSpace(s[0]) && !IsSpace(s[|s| - 1]))
  }

  /** strings.TrimSpace: the infix of `s` left after removing white space at both ends. */
  function TrimSpace(s: string): (r: string)
    ensures exists i | 0 <= i <= |s| - |r| :: SpaceAround(s, r, i)
    ensures Trimmed(r)
  {
    var l := TrimLeft(s);
    var r := TrimRight(l);
    TrimBothEnds(s, l, r);
    r
  }

  /** The two trimming passes, stated by what they guarantee, compose into a trim at both ends. */
  lemma TrimBothEnds(s: string, l: string, r: string)
    requires |l| <= |s| && l == s[|s| - |l|..]
    requires forall k | 0 <= k < |s| - |l| :: IsSpace(s[k])
    requires l == [] || !IsSpace(l[0])
    requires |r| <= |l| && r == l[..|r|]
    requires forall k | |r| <= k < |l| :: IsSpace(l[k])
    requires r == [] || !IsSpace(r[|r| - 1])
    ensures SpaceAround(s, r, |s| - |l|)
    ensures Trimmed(r)
  {
    var i := |s| - |l|;
    assert r == s[i..i + |r|];
    forall k | i + |r| <= k < |s| ensures IsSpace(s[k]) {
      assert s[k] == l[k - i];
    }
    if r != [] {
      assert r[0] == l[0];
    }
  }

  /** Trimming introduces no character that was not there. */
  lemma TrimSpaceKeepsOut(s: string, c: char)
    requires c !in s
    ensures c !in TrimSpace(s)
  {
    var r := TrimSpace(s);
    var i :| 0 <= i <= |s| - |r| && SpaceAround(s, r, i);
    forall k | 0 <= k < |r| ensures r[k] != c {
      assert r[k] == s[i + k];
    }
  }

  /** Trimming an already trimmed string changes nothing. */
  lemma TrimSpaceIdempotent(s: string)
    ensures TrimSpace(TrimSpace(s)) == TrimSpace(s)
  {
  }
}
