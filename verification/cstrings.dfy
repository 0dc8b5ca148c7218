/**
 * NUL-terminated strings as the engine sees them through strlen, strncmp,
 * strdup and memcpy.
 */
module CStrings {

  /** True if `s` holds no NUL character, so strlen sees all of it. */
  predicate NoNul(s: string) {
    '\0' !in s
  }

  /** A C string: the characters before its terminating NUL. */
  type CString = s: string | NoNul(s)

  /** What strlen and strcmp see in a NUL-terminated copy of `s`: its text up to the first NUL. */
  function CStr(s: string): (r: CString)
    ensures |r| <= |s| && r == s[..|r|]
    ensures |r| < |s| ==> s[|r|] == '\0'
  {
    if s == [] || s[0] == '\0' then [] else [s[0]] + CStr(s[1..])
  }

  /** A string with no NUL is its own C string. */
  lemma CStrOfNoNul(s: string)
    requires NoNul(s)
    ensures CStr(s) == s
  {
  }

  /**
   * strncmp(a, b, n) == 0: compare at most `n` characters, stopping early at a
   * NUL common to both; a position past the end of either string reads as NUL.
   */
  function StrnEqual(a: string, b: string, n: nat): (r: bool)
    ensures n <= |a| && n <= |b| && a[..n] == b[..n] ==> r
    ensures r && NoNul(a) && NoNul(b) && n <= |a| && n <= |b| ==> a[..n] == b[..n]
    decreases n
  {
    if n == 0 then true
    else
      var ca := if a == [] then '\0' else a[0];
      var cb := if b == [] then '\0' else b[0];
      if ca != cb then false
      else if ca == '\0' then true
      else StrnEqual(a[1..], b[1..], n - 1)
  }

  /**
   * With `b` a C string as long as `a`, strncmp over all of `a` reports
   * equality exactly when the two strings are equal.
   */
  lemma {:induction false} StrnEqualIff(a: string, b: string)
    requires NoNul(b) && |a| == |b|
    ensures StrnEqual(a, b, |a|) <==> a == b
  {
    if a != [] {
      assert NoNul(b[1..]) by {
        assert forall i | 0 <= i < |b[1..]| :: b[1..][i] == b[i + 1];
      }
      StrnEqualIff(a[1..], b[1..]);
      if a[0] == b[0] {
        assert a == [a[0]] + a[1..] && b == [b[0]] + b[1..];
      }
    }
  }

}
