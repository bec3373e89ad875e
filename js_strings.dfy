/** The JavaScript string built-ins the view code uses, over `string` (a `seq<char>`). */
module JsStrings {
  import opened Issues

  /** `s.startsWith(prefix)`. */
  predicate StartsWith(s: string, prefix: string) {
    |prefix| <= |s| && s[..|prefix|] == prefix
  }

  /** `pat` occurs in `s` at position `i`. */
  predicate MatchesAt(s: string, pat: string, i: nat) {
    i + |pat| <= |s| && s[i..i + |pat|] == pat
  }

  lemma MatchesAtTail(s: string, pat: string, i: nat)
    requires |s| > 0
    ensures MatchesAt(s, pat, i + 1) <==> MatchesAt(s[1..], pat, i)
  {
  }

  /** `s.indexOf(pat)`: the first position at which `pat` occurs, `None` for `-1`. */
  function IndexOf(s: string, pat: string): (r: Option<nat>)
    ensures r.Some? ==> MatchesAt(s, pat, r.value)
    ensures r.Some? ==> forall j: nat :: j < r.value ==> !MatchesAt(s, pat, j)
    ensures r.None? ==> forall j: nat :: !MatchesAt(s, pat, j)
    decreases |s|
  {
    if |s| < |pat| then None
    else if StartsWith(s, pat) then Some(0)
    else
      var rest := IndexOf(s[1..], pat);
      assert forall j: nat :: MatchesAt(s, pat, j + 1) <==> MatchesAt(s[1..], pat, j) by {
        forall j: nat ensures MatchesAt(s, pat, j + 1) <==> MatchesAt(s[1..], pat, j) {
          MatchesAtTail(s, pat, j);
        }
      }
      assert forall j: nat :: MatchesAt(s, pat, j) ==> j > 0 && MatchesAt(s[1..], pat, j - 1) by {
        forall j: nat | MatchesAt(s, pat, j) ensures j > 0 && MatchesAt(s[1..], pat, j - 1) {
          if j > 0 {
            MatchesAtTail(s, pat, j - 1);
          }
        }
      }
      match rest
      case None => None
      case Some(i) => Some(i + 1)
  }

  /** `s.replace(pat, rep)` with a string pattern: only the first occurrence is replaced,
      and `s` is returned unchanged when `pat` does not occur. */
  function ReplaceFirst(s: string, pat: string, rep: string): string {
    match IndexOf(s, pat)
    case None => s
    case Some(i) => s[..i] + rep + s[i + |pat|..]
  }

  /** Stripping a prefix the way the view code strips `radio-` from an element id. */
  lemma ReplacePrefix(pat: string, rest: string)
    ensures ReplaceFirst(pat + rest, pat, "") == rest
  {
  }

  /** `c.toUpperCase()` on one character; only the ASCII letters a-z are mapped. */
  function ToUpper(c: char): char {
    if 'a' <= c <= 'z' then (c as int - 32) as char else c
  }

  /** `s.charAt(0).toUpperCase() + s.slice(1)`: `charAt(0)` of the empty string is "". */
  function Capitalize(s: string): (r: string)
    ensures |r| == |s|
    ensures s != [] ==> r[0] == ToUpper(s[0]) && r[1..] == s[1..]
  {
    if s == [] then "" else [ToUpper(s[0])] + s[1..]
  }
}
