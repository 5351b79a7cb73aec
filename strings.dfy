/** The JavaScript string operations the core relies on, stated over `seq<char>`. */
module Strings {

  /** sub occurs in s starting at position i. */
  predicate OccursAt(s: string, sub: string, i: int)
  {
    0 <= i && i + |sub| <= |s| && s[i..i + |sub|] == sub
  }

  /** The first position at or after `from` where sub occurs, or -1. */
  function IndexFrom(s: string, sub: string, from: nat): (r: int)
    decreases |s| - from
    ensures r == -1 || (from <= r && OccursAt(s, sub, r))
    ensures r == -1 ==> forall i :: from <= i ==> !OccursAt(s, sub, i)
    ensures r != -1 ==> forall i :: from <= i < r ==> !OccursAt(s, sub, i)
  {
    if from + |sub| > |s| then -1
    else if s[from..from + |sub|] == sub then from
    else IndexFrom(s, sub, from + 1)
  }

  /** `s.indexOf(sub)`. */
  function IndexOf(s: string, sub: string): int
  {
    IndexFrom(s, sub, 0)
  }

  /** `s.includes(sub)`: sub occurs somewhere in s. */
  predicate Includes(s: string, sub: string)
  {
    IndexOf(s, sub) >= 0
  }

  lemma IncludesIff(s: string, sub: string)
    ensures Includes(s, sub) <==> exists i :: OccursAt(s, sub, i)
  {
  }

  /** `s.startsWith(p)`. */
  predicate StartsWith(s: string, p: string)
  {
    |p| <= |s| && s[..|p|] == p
  }

  /** `s.replace(pat, rep)` with a string pattern: only the first occurrence is replaced. */
  function ReplaceFirst(s: string, pat: string, rep: string): (r: string)
    ensures !Includes(s, pat) ==> r == s
    ensures Includes(s, pat) ==>
      var i := IndexOf(s, pat);
      r == s[..i] + rep + s[i + |pat|..] && forall j :: 0 <= j < i ==> !OccursAt(s, pat, j)
  {
    var i := IndexOf(s, pat);
    if i < 0 then s else s[..i] + rep + s[i + |pat|..]
  }

  /** `s.split(sep)` for a non-empty separator: the pieces between the occurrences of sep, found
      left to right without overlap. What the pieces are is proved in SplitJoin (joined with sep
      they give s back) and SplitPiecesFree (no piece contains sep). */
  function Split(s: string, sep: string): (parts: seq<string>)
    requires |sep| > 0
    decreases |s|
    ensures |parts| >= 1
  {
    var i := IndexOf(s, sep);
    if i < 0 then [s] else [s[..i]] + Split(s[i + |sep|..], sep)
  }

  /** `parts.join(sep)`. */
  function Join(parts: seq<string>, sep: string): string
    requires |parts| >= 1
  {
    if |parts| == 1 then parts[0] else parts[0] + sep + Join(parts[1..], sep)
  }

  /** Splitting loses nothing: joining the pieces with the separator gives the string back. */
  lemma {:induction false} SplitJoin(s: string, sep: string)
    requires |sep| > 0
    decreases |s|
    ensures Join(Split(s, sep), sep) == s
  {
    var i := IndexOf(s, sep);
    if i >= 0 {
      var head, tail := s[..i], s[i + |sep|..];
      var rest := Split(tail, sep);
      var parts := [head] + rest;
      assert Split(s, sep) == parts;
      assert parts[1..] == rest;
      assert Join(parts, sep) == head + sep + Join(rest, sep);
      SplitJoin(tail, sep);
      assert s[i..i + |sep|] == sep;
      assert s == head + s[i..i + |sep|] + tail;
    }
  }

  /** No piece of a split contains the separator. */
  lemma {:induction false} SplitPiecesFree(s: string, sep: string)
    requires |sep| > 0
    decreases |s|
    ensures forall k :: 0 <= k < |Split(s, sep)| ==> !Includes(Split(s, sep)[k], sep)
  {
    var i := IndexOf(s, sep);
    if i < 0 {
      assert Split(s, sep) == [s];
    } else {
      var head, tail := s[..i], s[i + |sep|..];
      SplitPiecesFree(tail, sep);
      assert Split(s, sep) == [head] + Split(tail, sep);
      forall j | OccursAt(head, sep, j) ensures false {
        assert head[j..j + |sep|] == s[j..j + |sep|];
        assert OccursAt(s, sep, j);
      }
      IncludesIff(head, sep);
    }
  }

  /** `s.split(" ")[1]` where an undefined element reads as "" (both are falsy). */
  function SecondWord(s: string): string
  {
    var parts := Split(s, " ");
    if |parts| >= 2 then parts[1] else ""
  }

  /** The second word is empty exactly when there is no space, or a space comes first after the
      first one (e.g. "Bearer" or "Bearer "). */
  lemma SecondWordEmptyIff(s: string)
    ensures SecondWord(s) == "" <==>
      !Includes(s, " ") || OccursAt(s, " ", IndexOf(s, " ") + 1) || IndexOf(s, " ") + 1 == |s|
  {
    var i := IndexOf(s, " ");
    if i >= 0 {
      var tail := s[i + 1..];
      var j := IndexOf(tail, " ");
      assert Split(s, " ") == [s[..i]] + Split(tail, " ");
      if j < 0 {
        assert Split(tail, " ") == [tail];
      } else {
        assert Split(tail, " ")[0] == tail[..j];
        if i + 1 < |s| && j != 0 {
          assert !OccursAt(tail, " ", 0);
          assert tail[0..1] == s[i + 1..i + 2];
        }
        if OccursAt(s, " ", i + 1) {
          assert tail[0..1] == s[i + 1..i + 2];
          assert OccursAt(tail, " ", 0);
        }
      }
    }
  }

  /** ASCII lowercasing of one character; every other character is left as it is. */
  function LowerChar(c: char): char
  {
    if 'A' <= c <= 'Z' then (c as int + 32) as char else c
  }

  /** `s.toLowerCase()` restricted to ASCII letters. */
  function ToLower(s: string): (r: string)
    ensures |r| == |s|
    ensures forall i :: 0 <= i < |s| ==> r[i] == LowerChar(s[i])
  {
    seq(|s|, i requires 0 <= i < |s| => LowerChar(s[i]))
  }

  /** Lowercasing is done character by character, so it distributes over concatenation. */
  lemma ToLowerAppend(a: string, b: string)
    ensures ToLower(a + b) == ToLower(a) + ToLower(b)
  {
    assert forall i :: 0 <= i < |a + b| ==> (a + b)[i] == if i < |a| then a[i] else b[i - |a|];
  }

  /** Text without ASCII upper-case letters is its own lowercase. */
  lemma ToLowerNoUpper(s: string)
    requires forall c :: c in s ==> !('A' <= c <= 'Z')
    ensures ToLower(s) == s
  {
    assert forall i :: 0 <= i < |s| ==> s[i] in s;
  }
}
