// The login page's `capitalize`, used to print role names.

module Login {
  import opened Text

  /** `s.charAt(0).toUpperCase() + s.slice(1)` on ASCII text. */
  function Capitalize(s: string): (r: string)
    ensures s == "" ==> r == ""
    ensures |r| == |s|
    ensures |s| > 0 ==> r[0] == UpperChar(s[0]) && r[1..] == s[1..]
    ensures |s| > 0 && !IsLowerAscii(s[0]) ==> r == s
  {
    if s == [] then "" else [UpperChar(s[0])] + s[1..]
  }

  /** Capitalising twice is capitalising once. */
  lemma CapitalizeIdempotent(s: string)
    ensures Capitalize(Capitalize(s)) == Capitalize(s)
  {
    if s != [] {
      assert !IsLowerAscii(Capitalize(s)[0]);
    }
  }
}
