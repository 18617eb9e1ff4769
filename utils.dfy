/** lib/utils.js: the two case helpers `toUpper` and `toLower`. */
module Utils {
  import opened Text
  import opened Js

  /** No ASCII lower-case letter occurs in `s`. */
  predicate NoLower(s: string) {
    forall i :: 0 <= i < |s| ==> !('a' <= s[i] <= 'z')
  }

  /** No ASCII upper-case letter occurs in `s`. */
  predicate NoUpper(s: string) {
    forall i :: 0 <= i < |s| ==> !('A' <= s[i] <= 'Z')
  }

  /** `toUpper(value)`: a falsy value comes back unchanged; anything else is
      turned into a string and upper-cased.  The result is the input's text
      up to case, with no lower-case letter left. */
  function ToUpper(v: Val): (r: Val)
    ensures !Truthy(v) ==> r == v
    ensures Truthy(v) ==> r.Str? && |r.s| == |ToString(v)| && NoLower(r.s)
    ensures Truthy(v) ==> Lower(r.s) == Lower(ToString(v))
  {
    if !Truthy(v) then v else Str(Upper(ToString(v)))
  }

  /** `toLower(value)`: the mirror image of `ToUpper`. */
  function ToLower(v: Val): (r: Val)
    ensures !Truthy(v) ==> r == v
    ensures Truthy(v) ==> r.Str? && |r.s| == |ToString(v)| && NoUpper(r.s)
    ensures Truthy(v) ==> Upper(r.s) == Upper(ToString(v))
  {
    if !Truthy(v) then v else Str(Lower(ToString(v)))
  }

  lemma UpperIdempotent(s: string)
    ensures Upper(Upper(s)) == Upper(s)
  {
  }

  lemma LowerIdempotent(s: string)
    ensures Lower(Lower(s)) == Lower(s)
  {
  }

  /** Applying `toUpper` twice is applying it once. */
  lemma ToUpperIdempotent(v: Val)
    ensures ToUpper(ToUpper(v)) == ToUpper(v)
  {
    if Truthy(v) {
      var u := Upper(ToString(v));
      assert u != "";
      UpperIdempotent(u);
    }
  }

  /** Applying `toLower` twice is applying it once. */
  lemma ToLowerIdempotent(v: Val)
    ensures ToLower(ToLower(v)) == ToLower(v)
  {
    if Truthy(v) {
      var l := Lower(ToString(v));
      assert l != "";
      LowerIdempotent(l);
    }
  }

  /** `toLower(s) === w` for a lower-case word `w` is a case-insensitive
      comparison: it holds exactly when `s` spells `w` in any mix of cases. */
  lemma ToLowerMatches(s: string, w: string)
    requires NoUpper(w) && w != ""
    ensures ToLower(Str(s)) == Str(w) <==> (|s| == |w| && forall i :: 0 <= i < |s| ==> LowerChar(s[i]) == w[i])
  {
    if |s| == |w| && forall i :: 0 <= i < |s| ==> LowerChar(s[i]) == w[i] {
      assert Lower(s) == w;
    }
  }
}
