/** String helpers shared by the browser client and the server: the two
    whitespace sets (JavaScript's `trim`/`\s` and Python's `str.strip`),
    trimming, prefix and suffix tests, and ASCII case folding as the
    case-insensitive regular expressions of the client use it. */
module Text {

  datatype Option<T> = None | Some(value: T) {
    function GetOr(default: T): T {
      match this
      case Some(v) => v
      case None => default
    }
  }

  /** Which language's notion of whitespace applies. */
  datatype Flavor = Js | Py

  /** JavaScript: WhiteSpace and LineTerminator (used by `trim` and `\s`).
      Python: the characters `str.isspace` accepts (used by `strip`). */
  predicate IsSpace(f: Flavor, c: char) {
    || c == ' ' || ('\t' <= c <= '\r') || c == '\U{00A0}' || c == '\U{1680}'
    || ('\U{2000}' <= c <= '\U{200A}') || c == '\U{2028}' || c == '\U{2029}'
    || c == '\U{202F}' || c == '\U{205F}' || c == '\U{3000}'
    || (f == Js && c == '\U{FEFF}')
    || (f == Py && (('\U{001C}' <= c <= '\U{001F}') || c == '\U{0085}'))
  }

  predicate AllSpace(f: Flavor, s: string) {
    forall i :: 0 <= i < |s| ==> IsSpace(f, s[i])
  }

  /** Number of leading whitespace characters. */
  function LeadingSpaces(f: Flavor, s: string): (n: nat)
    ensures n <= |s|
  {
    if s != [] && IsSpace(f, s[0]) then 1 + LeadingSpaces(f, s[1..]) else 0
  }

  /** The leading run is all whitespace and stops at the first other
      character. */
  lemma {:induction false} LeadingSpacesRun(f: Flavor, s: string)
    ensures forall i :: 0 <= i < LeadingSpaces(f, s) ==> IsSpace(f, s[i])
    ensures LeadingSpaces(f, s) < |s| ==> !IsSpace(f, s[LeadingSpaces(f, s)])
  {
    if s != [] && IsSpace(f, s[0]) {
      LeadingSpacesRun(f, s[1..]);
      forall i | 1 <= i < LeadingSpaces(f, s) ensures IsSpace(f, s[i]) {
        assert s[i] == s[1..][i - 1];
      }
    }
  }

  function TrimStart(f: Flavor, s: string): (r: string)
    ensures |r| <= |s| && r == s[|s| - |r|..]
    ensures forall i :: 0 <= i < |s| - |r| ==> IsSpace(f, s[i])
    ensures r != [] ==> !IsSpace(f, r[0])
  {
    LeadingSpacesRun(f, s);
    s[LeadingSpaces(f, s)..]
  }

  function TrimEnd(f: Flavor, s: string): (r: string)
    ensures |r| <= |s| && r == s[..|r|]
    ensures forall i :: |r| <= i < |s| ==> IsSpace(f, s[i])
    ensures r != [] ==> !IsSpace(f, r[|r| - 1])
  {
    if s != [] && IsSpace(f, s[|s| - 1]) then TrimEnd(f, s[..|s| - 1]) else s
  }

  /** `s.trim()` for `Js`, `s.strip()` for `Py`. */
  function Trim(f: Flavor, s: string): string {
    TrimEnd(f, TrimStart(f, s))
  }

  /** Trimming leaves nothing exactly when every character is whitespace. */
  lemma TrimEmptyIff(f: Flavor, s: string)
    ensures Trim(f, s) == [] <==> AllSpace(f, s)
  {
  }

  /** Trimming keeps a non-blank string non-blank and does not change one
      whose ends are not whitespace. */
  lemma TrimKeepsInner(f: Flavor, s: string)
    requires s != [] && !IsSpace(f, s[0]) && !IsSpace(f, s[|s| - 1])
    ensures Trim(f, s) == s
  {
  }

  /** Trimming only removes characters. */
  lemma TrimKeepsChars(f: Flavor, s: string)
    ensures forall c :: c in Trim(f, s) ==> c in s
  {
    var u := TrimStart(f, s);
    var t := Trim(f, s);
    assert forall c :: c in t ==> c in u;
    assert forall c :: c in u ==> c in s;
  }

  lemma TrimIdempotent(f: Flavor, s: string)
    ensures Trim(f, Trim(f, s)) == Trim(f, s)
  {
    var t := Trim(f, s);
    if t != [] {
      var u := TrimStart(f, s);
      assert t[0] == u[0];
      TrimKeepsInner(f, t);
    }
  }

  predicate StartsWith(s: string, p: string) {
    |p| <= |s| && s[..|p|] == p
  }

  predicate EndsWith(s: string, p: string) {
    |p| <= |s| && s[|s| - |p|..] == p
  }

  /** Lower-casing of ASCII letters only: the case-insensitive matching of a
      JavaScript regular expression without the `u` flag never maps a
      non-ASCII character onto an ASCII one. */
  function LowerAscii(c: char): (d: char)
    ensures !('A' <= d <= 'Z')
    ensures d == c <==> !('A' <= c <= 'Z')
    ensures d != c ==> 'a' <= d <= 'z' && d as int - 'a' as int == c as int - 'A' as int
    ensures c as int >= 128 ==> d == c
  {
    if 'A' <= c <= 'Z' then (c as int + 32) as char else c
  }

  /** Folding is idempotent, and the folds of two characters agree exactly
      when they are equal or one is the capital of the other. */
  lemma LowerAsciiFolds(c: char, e: char)
    ensures LowerAscii(LowerAscii(c)) == LowerAscii(c)
    ensures LowerAscii(c) == LowerAscii(e) <==>
      c == e || (c as int - e as int == 32 && 'a' <= c <= 'z') || (e as int - c as int == 32 && 'a' <= e <= 'z')
  {
  }

  /** `a` matches the lower-case pattern `p` case-insensitively. */
  predicate MatchesIgnoreCase(a: string, p: string) {
    |a| == |p| && forall i :: 0 <= i < |a| ==> LowerAscii(a[i]) == p[i]
  }

  /** The first `n` characters of `s` (Python's `s[:n]`). */
  function Take(s: string, n: nat): (r: string)
    ensures |r| == if n < |s| then n else |s|
    ensures StartsWith(s, r)
  {
    if n < |s| then s[..n] else s
  }
}
