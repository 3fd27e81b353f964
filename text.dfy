// The string operations the search filter and the task form use:
// toLowerCase, includes and trim, restricted to ASCII.
module Text {

  /** toLowerCase on one character; only 'A'..'Z' are folded. */
  function LowerChar(c: char): char
  {
    if 'A' <= c <= 'Z' then (c as int + 32) as char else c
  }

  function Lower(s: string): (r: string)
    ensures |r| == |s|
    ensures forall i :: 0 <= i < |s| ==> r[i] == LowerChar(s[i])
  {
    seq(|s|, i requires 0 <= i < |s| => LowerChar(s[i]))
  }

  /** Lower-casing twice is lower-casing once. */
  lemma LowerIdempotent(s: string)
    ensures Lower(Lower(s)) == Lower(s)
  {
    var once := Lower(s);
    assert forall i :: 0 <= i < |s| ==> Lower(once)[i] == LowerChar(LowerChar(s[i])) == once[i];
  }

  /** `s.includes(sub)`: `sub` occurs in `s` at some position. */
  predicate Includes(s: string, sub: string)
    decreases |s|
  {
    if |sub| > |s| then false
    else if s[..|sub|] == sub then true
    else Includes(s[1..], sub)
  }

  ghost predicate OccursAt(s: string, sub: string, i: int)
  {
    0 <= i && i + |sub| <= |s| && s[i..i + |sub|] == sub
  }

  /** Includes holds exactly when there is a position where `sub` occurs. */
  lemma {:induction false} IncludesIffOccurs(s: string, sub: string)
    ensures Includes(s, sub) <==> exists i :: OccursAt(s, sub, i)
    decreases |s|
  {
    if |sub| > |s| {
    } else if s[..|sub|] == sub {
      assert OccursAt(s, sub, 0);
    } else {
      IncludesIffOccurs(s[1..], sub);
      forall i | OccursAt(s, sub, i)
        ensures OccursAt(s[1..], sub, i - 1)
      {
        assert s[1..][i - 1..i - 1 + |sub|] == s[i..i + |sub|];
      }
      if Includes(s, sub) {
        var i :| OccursAt(s[1..], sub, i);
        assert s[1..][i..i + |sub|] == s[i + 1..i + 1 + |sub|];
        assert OccursAt(s, sub, i + 1);
      }
    }
  }

  /** Every string includes the empty string. */
  lemma IncludesEmpty(s: string)
    ensures Includes(s, "")
  {
  }

  /** No non-empty string occurs in the empty string. */
  lemma {:induction false} EmptyIncludesOnlyEmpty(sub: string)
    ensures Includes("", sub) <==> sub == ""
  {
  }

  /** The characters `trim()` strips, restricted to ASCII. */
  predicate IsSpace(c: char)
  {
    c == ' ' || c == '\t' || c == '\n' || c == '\r' || c == '\U{000B}' || c == '\U{000C}'
  }

  /** `!s.trim()`: the string is empty once surrounding white space is removed. */
  predicate IsBlank(s: string)
  {
    forall i :: 0 <= i < |s| ==> IsSpace(s[i])
  }
}
