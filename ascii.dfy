/** The byte-string helpers of nginx that the module relies on:
    ngx_tolower, ngx_strlow and ngx_strcasecmp. Bytes are modelled as
    characters; a string ends where its sequence ends, which plays the
    part of the terminating NUL byte. */
module Ascii {

  predicate IsUpper(c: char) {
    'A' <= c <= 'Z'
  }

  /** ngx_tolower: an upper-case ASCII letter becomes its lower-case
      letter, every other byte is left alone. */
  function ToLower(c: char): (r: char)
    ensures !IsUpper(r)
    ensures !IsUpper(c) ==> r == c
    ensures IsUpper(c) ==> 'a' <= r <= 'z' && r as int - 'a' as int == c as int - 'A' as int
  {
    if IsUpper(c) then (c as int + 32) as char else c
  }

  /** ngx_strlow: the byte-wise lower-casing of a string. */
  function Lower(s: string): (r: string)
    ensures |r| == |s|
    ensures forall i :: 0 <= i < |s| ==> r[i] == ToLower(s[i])
  {
    if |s| == 0 then "" else [ToLower(s[0])] + Lower(s[1..])
  }

  predicate NulFree(s: string) {
    forall i :: 0 <= i < |s| ==> s[i] != '\0'
  }

  /** ngx_strcasecmp: compares two NUL-terminated strings byte by byte
      after lower-casing both bytes; stops at the first difference or at
      the terminator, returning the difference of the two bytes. */
  function StrCaseCmp(s1: string, s2: string): int
    decreases |s1|
  {
    var c1 := if |s1| == 0 then 0 else ToLower(s1[0]) as int;
    var c2 := if |s2| == 0 then 0 else ToLower(s2[0]) as int;
    if c1 != c2 then c1 - c2
    else if c1 == 0 then 0
    else StrCaseCmp(s1[1..], s2[1..])
  }

  /** Every string compares equal to itself. */
  lemma {:induction false} StrCaseCmpRefl(s: string)
    ensures StrCaseCmp(s, s) == 0
  {
    if |s| > 0 && ToLower(s[0]) as int != 0 {
      StrCaseCmpRefl(s[1..]);
    }
  }

  /** For keys of the same length without NUL bytes, ngx_strcasecmp
      reports equality exactly when the lower-cased keys are equal. */
  lemma {:induction false} StrCaseCmpZeroIff(a: string, b: string)
    requires NulFree(a) && NulFree(b) && |a| == |b|
    ensures StrCaseCmp(a, b) == 0 <==> Lower(a) == Lower(b)
  {
    if |a| > 0 {
      assert a[0] != '\0' && b[0] != '\0';
      assert NulFree(a[1..]) by { forall i | 0 <= i < |a[1..]| ensures a[1..][i] != '\0' { assert a[1..][i] == a[i + 1]; } }
      assert NulFree(b[1..]) by { forall i | 0 <= i < |b[1..]| ensures b[1..][i] != '\0' { assert b[1..][i] == b[i + 1]; } }
      StrCaseCmpZeroIff(a[1..], b[1..]);
      assert Lower(a) == [ToLower(a[0])] + Lower(a[1..]);
      assert Lower(b) == [ToLower(b[0])] + Lower(b[1..]);
      if Lower(a) == Lower(b) {
        assert Lower(a)[0] == Lower(b)[0];
        assert Lower(a[1..]) == Lower(a)[1..] && Lower(b[1..]) == Lower(b)[1..];
      }
    }
  }
}
