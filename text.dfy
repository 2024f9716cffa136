/**
 * Characters and strings as the content processor's string methods and
 * regular expressions see them. A string is a sequence of Unicode scalar
 * values; case mapping covers the ASCII letters only.
 */
module Text {

  /** The class `\s` of a JavaScript regular expression; `String.prototype.trim` strips the same set. */
  predicate IsSpace(c: char) {
    || c == ' '
    || '\t' <= c <= '\r'
    || c == '\U{A0}' || c == '\U{1680}'
    || '\U{2000}' <= c <= '\U{200A}'
    || c == '\U{2028}' || c == '\U{2029}' || c == '\U{202F}' || c == '\U{205F}'
    || c == '\U{3000}' || c == '\U{FEFF}'
  }

  /** The class `\d` of a regular expression without the `u` flag: ASCII digits only. */
  predicate IsDigit(c: char) { '0' <= c <= '9' }

  predicate IsLower(c: char) { 'a' <= c <= 'z' }

  predicate IsUpper(c: char) { 'A' <= c <= 'Z' }

  predicate IsHyphen(c: char) { c == '-' }

  predicate IsUnderscore(c: char) { c == '_' }

  /** `toLowerCase` on one character (ASCII letters only). */
  function LowerChar(c: char): (d: char)
    ensures !IsUpper(d)
    ensures IsLower(d) <==> IsLower(c) || IsUpper(c)
    ensures !IsUpper(c) ==> d == c
  {
    if IsUpper(c) then (c as int + 32) as char else c
  }

  /** `toUpperCase` on one character (ASCII letters only). */
  function UpperChar(c: char): (d: char)
    ensures !IsLower(d)
    ensures IsUpper(d) <==> IsLower(c) || IsUpper(c)
    ensures !IsLower(c) ==> d == c
  {
    if IsLower(c) then (c as int - 32) as char else c
  }

  /** Applies `f` to every character. */
  function MapChars(s: string, f: char -> char): (r: string)
    ensures |r| == |s|
    ensures forall i :: 0 <= i < |s| ==> r[i] == f(s[i])
  {
    if s == [] then [] else [f(s[0])] + MapChars(s[1..], f)
  }

  /** `toLowerCase` on a string. */
  function ToLower(s: string): (r: string)
    ensures |r| == |s|
    ensures forall i :: 0 <= i < |s| ==> r[i] == LowerChar(s[i])
  {
    MapChars(s, LowerChar)
  }

  /** The characters of `s` that satisfy `p`, in order: `replace(/[^…]/g, '')`. */
  function Keep(s: string, p: char -> bool): (r: string)
    ensures |r| <= |s|
    ensures (forall i :: 0 <= i < |s| ==> p(s[i])) ==> r == s
  {
    if s == [] then [] else (if p(s[0]) then [s[0]] else []) + Keep(s[1..], p)
  }

  /** The length of the leading run of `inRun` characters of `s`. */
  function RunLength(s: string, inRun: char -> bool): (n: nat)
    ensures n <= |s|
    ensures forall i :: 0 <= i < n ==> inRun(s[i])
    ensures n < |s| ==> !inRun(s[n])
  {
    if s != [] && inRun(s[0]) then 1 + RunLength(s[1..], inRun) else 0
  }

  /** The length of the trailing run of `inRun` characters of `s`. */
  function TrailLength(s: string, inRun: char -> bool): (n: nat)
    ensures n <= |s|
    ensures forall i :: |s| - n <= i < |s| ==> inRun(s[i])
    ensures n < |s| ==> !inRun(s[|s| - n - 1])
  {
    if s != [] && inRun(s[|s| - 1]) then 1 + TrailLength(s[..|s| - 1], inRun) else 0
  }

  /** What is left of `s` once its leading run of `inRun` characters is removed. */
  function DropRun(s: string, inRun: char -> bool): string {
    s[RunLength(s, inRun)..]
  }

  /**
   * `replace(/X+/g, rep)` where X is the class `inRun`: every maximal run of
   * `inRun` characters becomes the single character `rep`.
   */
  function SquashRuns(s: string, inRun: char -> bool, rep: char): (r: string)
    ensures |r| <= |s|
    ensures r == [] <==> s == []
    ensures s != [] ==> r[0] == (if inRun(s[0]) then rep else s[0])
    decreases |s|
  {
    if s == [] then []
    else if inRun(s[0]) then [rep] + SquashRuns(DropRun(s[1..], inRun), inRun, rep)
    else [s[0]] + SquashRuns(s[1..], inRun, rep)
  }

  /** No two neighbouring characters of `s` both belong to the class `p`. */
  ghost predicate NoAdjacent(s: string, p: char -> bool) {
    forall i, j :: 0 <= i < j < |s| && j == i + 1 ==> !(p(s[i]) && p(s[j]))
  }

  /** `String.prototype.trim`: strips leading and trailing whitespace. */
  function Trim(s: string): (r: string)
    ensures |r| <= |s|
    ensures r != [] ==> !IsSpace(r[0]) && !IsSpace(r[|r| - 1])
    ensures s == [] || (!IsSpace(s[0]) && !IsSpace(s[|s| - 1])) ==> r == s
  {
    var t := DropRun(s, IsSpace);
    t[..|t| - TrailLength(t, IsSpace)]
  }

  /** `s.includes(sub)`. */
  predicate Contains(s: string, sub: string)
    decreases |s|
  {
    |sub| <= |s| && (s[..|sub|] == sub || Contains(s[1..], sub))
  }

  /** The index of the first `c` in `s` (`indexOf`). */
  function IndexOf(s: string, c: char): (i: nat)
    requires c in s
    ensures i < |s| && s[i] == c && c !in s[..i]
  {
    if s[0] == c then 0 else 1 + IndexOf(s[1..], c)
  }

  /** The index of the last `c` in `s` (`lastIndexOf`), or -1. */
  function LastIndexOf(s: string, c: char): (i: int)
    ensures -1 <= i < |s|
  {
    if s == [] then -1
    else if s[|s| - 1] == c then |s| - 1
    else LastIndexOf(s[..|s| - 1], c)
  }

  /** `lastIndexOf` finds a `c` with none after it, and finds none only when there is none. */
  lemma {:induction false} LastIndexOfIsLast(s: string, c: char)
    ensures var i := LastIndexOf(s, c);
            && (i >= 0 ==> s[i] == c)
            && (forall j :: i < j < |s| ==> s[j] != c)
  {
    if s != [] && s[|s| - 1] != c {
      var t := s[..|s| - 1];
      LastIndexOfIsLast(t, c);
      assert forall j :: 0 <= j < |t| ==> t[j] == s[j];
    }
  }

  // ---------------------------------------------------------------------------
  // Lemmas about run squashing and filtering

  /** When `rep` is itself in the class, squashing leaves no two class characters side by side. */
  lemma {:induction false} SquashNoAdjacent(s: string, inRun: char -> bool, rep: char)
    requires inRun(rep)
    ensures NoAdjacent(SquashRuns(s, inRun, rep), inRun)
    decreases |s|
  {
    if s != [] {
      var rest := if inRun(s[0]) then DropRun(s[1..], inRun) else s[1..];
      var tail := SquashRuns(rest, inRun, rep);
      SquashNoAdjacent(rest, inRun, rep);
      var r := SquashRuns(s, inRun, rep);
      assert r == [r[0]] + tail;
      if inRun(r[0]) && tail != [] {
        assert inRun(s[0]);
        assert !inRun(tail[0]);
      }
      forall i | 0 <= i < |r| - 1
        ensures !(inRun(r[i]) && inRun(r[i + 1]))
      {
        if i > 0 {
          assert r[i] == tail[i - 1] && r[i + 1] == tail[i];
        }
      }
    }
  }

  /** A string whose class characters are all `rep` and never adjacent is left unchanged by squashing. */
  lemma {:induction false} SquashIdentity(s: string, inRun: char -> bool, rep: char)
    requires forall i :: 0 <= i < |s| && inRun(s[i]) ==> s[i] == rep
    requires NoAdjacent(s, inRun)
    ensures SquashRuns(s, inRun, rep) == s
    decreases |s|
  {
    if s != [] {
      if inRun(s[0]) && |s| > 1 {
        assert !inRun(s[1]);
      }
      var t := s[1..];
      assert forall i :: 0 <= i < |t| ==> t[i] == s[i + 1];
      SquashIdentity(t, inRun, rep);
    }
  }

  /** Filtering keeps only characters of `s` that the class accepts. */
  lemma {:induction false} KeepChars(s: string, p: char -> bool)
    ensures forall c :: c in Keep(s, p) ==> c in s && p(c)
  {
    if s != [] {
      KeepChars(s[1..], p);
      assert Keep(s, p) == (if p(s[0]) then [s[0]] else []) + Keep(s[1..], p);
    }
  }

  /** Squashing leaves only `rep` and characters of `s` outside the class. */
  lemma {:induction false} SquashChars(s: string, inRun: char -> bool, rep: char)
    ensures forall c :: c in SquashRuns(s, inRun, rep) ==> c == rep || (c in s && !inRun(c))
    decreases |s|
  {
    if s != [] {
      if inRun(s[0]) {
        var d := DropRun(s[1..], inRun);
        SquashChars(d, inRun, rep);
        assert forall c :: c in d ==> c in s;
      } else {
        SquashChars(s[1..], inRun, rep);
      }
    }
  }

  /** Dropping a run of characters that `q` rejects does not change what `q` keeps. */
  lemma {:induction false} KeepDropRun(s: string, inRun: char -> bool, q: char -> bool)
    requires forall c :: inRun(c) ==> !q(c)
    ensures Keep(DropRun(s, inRun), q) == Keep(s, q)
    decreases |s|
  {
    if s != [] && inRun(s[0]) {
      KeepDropRun(s[1..], inRun, q);
    }
  }

  /** Squashing runs of characters that `q` rejects into a character `q` rejects does not change what `q` keeps. */
  lemma {:induction false} KeepSquash(s: string, inRun: char -> bool, rep: char, q: char -> bool)
    requires !q(rep)
    requires forall c :: inRun(c) ==> !q(c)
    ensures Keep(SquashRuns(s, inRun, rep), q) == Keep(s, q)
    decreases |s|
  {
    if s != [] {
      var r := SquashRuns(s, inRun, rep);
      if inRun(s[0]) {
        var d := DropRun(s[1..], inRun);
        KeepSquash(d, inRun, rep, q);
        KeepDropRun(s[1..], inRun, q);
        assert r[1..] == SquashRuns(d, inRun, rep);
      } else {
        KeepSquash(s[1..], inRun, rep, q);
        assert r[1..] == SquashRuns(s[1..], inRun, rep);
      }
    }
  }

  /** Filtering by a class and then by a narrower one is filtering by the narrower one. */
  lemma {:induction false} KeepKeep(s: string, p: char -> bool, q: char -> bool)
    requires forall c :: q(c) ==> p(c)
    ensures Keep(Keep(s, p), q) == Keep(s, q)
  {
    if s != [] {
      KeepKeep(s[1..], p, q);
      var k := Keep(s, p);
      var k' := Keep(s[1..], p);
      if p(s[0]) {
        assert k == [s[0]] + k';
        assert k[1..] == k';
        assert Keep(k, q) == (if q(s[0]) then [s[0]] else []) + Keep(k', q);
      } else {
        assert !q(s[0]);
        assert k == k';
      }
    }
  }
}
