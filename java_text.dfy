/**
 * The java.lang.String operations the controller relies on: trim, toLowerCase
 * (restricted to ASCII), contains, and the ASCII digit class of the regular
 * expression \d.
 */
module JavaText {

  /** String.trim removes every leading and trailing char whose code is at most U+0020. */
  predicate IsTrimmable(c: char) {
    c <= ' '
  }

  /** The regular-expression class \d matches exactly the ASCII digits. */
  predicate IsDigit(c: char) {
    '0' <= c <= '9'
  }

  predicate AllDigits(s: string) {
    forall i :: 0 <= i < |s| ==> IsDigit(s[i])
  }

  /** Drops the leading trimmable chars: the result is the suffix starting at the first other char. */
  function TrimStart(s: string): (r: string)
    ensures |r| <= |s| && r == s[|s| - |r|..]
    ensures r != [] ==> !IsTrimmable(r[0])
    ensures forall i :: 0 <= i < |s| - |r| ==> IsTrimmable(s[i])
  {
    if s != [] && IsTrimmable(s[0]) then TrimStart(s[1..]) else s
  }

  /** Drops the trailing trimmable chars: the result is the prefix ending at the last other char. */
  function TrimEnd(s: string): (r: string)
    ensures |r| <= |s| && r == s[..|r|]
    ensures r != [] ==> !IsTrimmable(r[|r| - 1])
    ensures forall i :: |r| <= i < |s| ==> IsTrimmable(s[i])
  {
    if s != [] && IsTrimmable(s[|s| - 1]) then TrimEnd(s[..|s| - 1]) else s
  }

  /**
   * String.trim: a contiguous slice of s, with only trimmable chars outside
   * it and no trimmable char at either of its ends.
   */
  function Trim(s: string): (r: string)
    ensures |r| <= |s|
    ensures exists i, j :: TrimmedAt(s, r, i, j)
    ensures r != [] ==> !IsTrimmable(r[0]) && !IsTrimmable(r[|r| - 1])
    ensures r == [] <==> forall i :: 0 <= i < |s| ==> IsTrimmable(s[i])
  {
    var t := TrimStart(s);
    var r := TrimEnd(t);
    TrimSlice(s, t, r);
    r
  }

  /**
   * Dropping trimmable chars from the front of s to get t, then from the back
   * of t to get r, leaves r as one slice of s with only trimmable chars around
   * it; r is empty exactly when every char of s is trimmable.
   */
  lemma TrimSlice(s: string, t: string, r: string)
    requires |t| <= |s| && t == s[|s| - |t|..]
    requires forall i :: 0 <= i < |s| - |t| ==> IsTrimmable(s[i])
    requires t != [] ==> !IsTrimmable(t[0])
    requires |r| <= |t| && r == t[..|r|]
    requires forall i :: |r| <= i < |t| ==> IsTrimmable(t[i])
    requires r != [] ==> !IsTrimmable(r[|r| - 1])
    ensures TrimmedAt(s, r, |s| - |t|, |s| - |t| + |r|)
    ensures r != [] ==> !IsTrimmable(r[0]) && !IsTrimmable(r[|r| - 1])
    ensures r == [] <==> forall i :: 0 <= i < |s| ==> IsTrimmable(s[i])
  {
    var i := |s| - |t|;
    var j := i + |r|;
    assert r == s[i..j];
  }

  /** r is s[i..j], and every char of s outside that slice is trimmable. */
  predicate TrimmedAt(s: string, r: string, i: int, j: int) {
    && 0 <= i <= j <= |s| && r == s[i..j]
    && (forall k :: 0 <= k < i ==> IsTrimmable(s[k]))
    && (forall k :: j <= k < |s| ==> IsTrimmable(s[k]))
  }

  /** Character.toLowerCase restricted to ASCII: 'A'..'Z' become 'a'..'z', every other char is kept. */
  function LowerChar(c: char): char {
    if 'A' <= c <= 'Z' then (c as int + 32) as char else c
  }

  /** String.toLowerCase restricted to ASCII, char by char. */
  function Lower(s: string): (r: string)
    ensures |r| == |s|
    ensures forall i :: 0 <= i < |s| ==> r[i] == LowerChar(s[i])
    ensures forall i :: 0 <= i < |r| ==> !('A' <= r[i] <= 'Z')
  {
    if s == [] then [] else [LowerChar(s[0])] + Lower(s[1..])
  }

  /** Lower-casing twice is lower-casing once. */
  lemma LowerIdempotent(s: string)
    ensures Lower(Lower(s)) == Lower(s)
  {
    assert forall i :: 0 <= i < |s| ==> LowerChar(LowerChar(s[i])) == LowerChar(s[i]);
  }

  /** sub occurs in s starting at index k. */
  predicate OccursAt(s: string, sub: string, k: int) {
    0 <= k && k + |sub| <= |s| && forall i :: 0 <= i < |sub| ==> s[k + i] == sub[i]
  }

  /** String.contains: sub is a prefix of s or occurs in s without its first char. */
  function Contains(s: string, sub: string): bool {
    (|sub| <= |s| && s[..|sub|] == sub) || (s != [] && Contains(s[1..], sub))
  }

  /** Contains holds exactly when sub occurs at some index of s (the empty string occurs everywhere). */
  lemma {:induction false} ContainsIff(s: string, sub: string)
    ensures Contains(s, sub) <==> exists k :: OccursAt(s, sub, k)
  {
    if |sub| <= |s| && s[..|sub|] == sub {
      assert forall i :: 0 <= i < |sub| ==> s[i] == s[..|sub|][i];
      assert OccursAt(s, sub, 0);
    } else if s == [] {
      assert forall k :: !OccursAt(s, sub, k);
    } else {
      ContainsIff(s[1..], sub);
      if k :| OccursAt(s[1..], sub, k) {
        forall i | 0 <= i < |sub| ensures s[k + 1 + i] == sub[i] {
          assert s[1..][k + i] == sub[i];
        }
        assert OccursAt(s, sub, k + 1);
      }
      if k :| OccursAt(s, sub, k) {
        forall i | 0 <= i < |sub| ensures s[1..][k - 1 + i] == sub[i] {
          assert s[k + i] == sub[i];
        }
        assert OccursAt(s[1..], sub, k - 1);
      }
    }
  }
}
