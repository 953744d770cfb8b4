/** The two string operations the handlers rely on: `String.IsNullOrEmpty`
    and `string.Contains` (an ordinal substring test). */
module Strings {
  import opened Wrappers

  /** `String.IsNullOrEmpty`: true for null and for "", false for every
      other string, whitespace-only ones included. */
  predicate IsNullOrEmpty(s: Option<string>)
    ensures IsNullOrEmpty(s) <==> s == None || s == Some("")
  {
    s.None? || |s.value| == 0
  }

  /** `p` is a prefix of `s`. */
  predicate IsPrefix(p: string, s: string) {
    |p| <= |s| && s[..|p|] == p
  }

  /** `s` contains `sub` at some position: the reference meaning of
      `Contains`. */
  ghost predicate OccursIn(sub: string, s: string) {
    exists i :: 0 <= i <= |s| && IsPrefix(sub, s[i..])
  }

  /** `s.Contains(sub)`, computed by trying every starting position. */
  function Contains(s: string, sub: string): (b: bool)
    ensures b <==> OccursIn(sub, s)
    decreases |s|
  {
    if IsPrefix(sub, s) then
      assert s[0..] == s;
      true
    else if |s| == 0 then
      false
    else
      var rest := Contains(s[1..], sub);
      assert forall i :: 1 <= i <= |s| ==> s[1..][i - 1..] == s[i..];
      assert OccursIn(sub, s) ==> OccursIn(sub, s[1..]) by {
        if OccursIn(sub, s) {
          var i :| 0 <= i <= |s| && IsPrefix(sub, s[i..]);
          assert i != 0 by { assert s[0..] == s; }
          assert IsPrefix(sub, s[1..][i - 1..]);
        }
      }
      rest
  }
}
