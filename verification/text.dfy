/** String helpers behind the buyer-name validator (Python's `str.strip`) and
    behind the case-insensitive `ILIKE '%...%'` filters of the repositories. */
module Text {

  /** The code points for which Python's `str.isspace` holds: exactly what `str.strip()` removes. */
  const Whitespace: set<char> := {
    ' ', '\t', '\n', '\U{B}', '\U{C}', '\r', '\U{1C}', '\U{1D}', '\U{1E}', '\U{1F}',
    '\U{85}', '\U{A0}', '\U{1680}',
    '\U{2000}', '\U{2001}', '\U{2002}', '\U{2003}', '\U{2004}', '\U{2005}',
    '\U{2006}', '\U{2007}', '\U{2008}', '\U{2009}', '\U{200A}',
    '\U{2028}', '\U{2029}', '\U{202F}', '\U{205F}', '\U{3000}'
  }

  predicate IsSpace(c: char)
  {
    c in Whitespace
  }

  predicate AllSpace(s: string)
  {
    forall i :: 0 <= i < |s| ==> IsSpace(s[i])
  }

  /** How many whitespace characters `s` starts with: the first index CPython's
      `strip` loop stops at. */
  function LeadingSpaces(s: string): (n: nat)
    ensures n <= |s|
    ensures forall k :: 0 <= k < n ==> IsSpace(s[k])
    ensures n < |s| ==> !IsSpace(s[n])
  {
    if |s| > 0 && IsSpace(s[0]) then 1 + LeadingSpaces(s[1..]) else 0
  }

  /** How many whitespace characters `s` ends with. */
  function TrailingSpaces(s: string): (n: nat)
    ensures n <= |s|
    ensures forall k :: |s| - n <= k < |s| ==> IsSpace(s[k])
    ensures n < |s| ==> !IsSpace(s[|s| - 1 - n])
  {
    if |s| > 0 && IsSpace(s[|s| - 1]) then 1 + TrailingSpaces(s[..|s| - 1]) else 0
  }

  /** `str.strip()`: the middle of `s` between its leading and its trailing whitespace. */
  function Strip(s: string): (r: string)
    ensures r == [] <==> AllSpace(s)
    ensures r != [] ==> !IsSpace(r[0]) && !IsSpace(r[|r| - 1])
    ensures LeadingSpaces(s) + |r| <= |s| && r == s[LeadingSpaces(s)..LeadingSpaces(s) + |r|]
    ensures forall k :: LeadingSpaces(s) + |r| <= k < |s| ==> IsSpace(s[k])
  {
    var i := LeadingSpaces(s);
    var rest := s[i..];
    var t := TrailingSpaces(rest);
    StripBounds(s, i, t);
    s[i..|s| - t]
  }

  lemma StripBounds(s: string, i: nat, t: nat)
    requires i == LeadingSpaces(s) && t == TrailingSpaces(s[i..])
    ensures i + t <= |s|
    ensures i + t == |s| <==> AllSpace(s)
    ensures i + t < |s| ==> !IsSpace(s[i]) && !IsSpace(s[|s| - 1 - t])
    ensures forall k :: |s| - t <= k < |s| ==> IsSpace(s[k])
  {
    TrailingInside(s, i, t);
    if i + t < |s| {
      LastKept(s, i, t);
    } else {
      AllSpaceWhenMet(s, i, t);
    }
  }

  /** The last character `strip` keeps is not whitespace. */
  lemma LastKept(s: string, i: nat, t: nat)
    requires i + t < |s| && t == TrailingSpaces(s[i..])
    ensures !IsSpace(s[|s| - 1 - t])
  {
    var rest := s[i..];
    var j := |rest| - 1 - t;
    assert !IsSpace(rest[j]);
    assert rest[j] == s[i + j];
  }

  /** The trailing whitespace of the rest is trailing whitespace of the whole string. */
  lemma TrailingInside(s: string, i: nat, t: nat)
    requires i <= |s| && t == TrailingSpaces(s[i..])
    ensures forall k :: |s| - t <= k < |s| ==> IsSpace(s[k])
  {
    var rest := s[i..];
    forall k | |s| - t <= k < |s|
      ensures IsSpace(s[k])
    {
      assert s[k] == rest[k - i];
    }
  }

  /** When the leading and the trailing run meet, the whole string is whitespace. */
  lemma AllSpaceWhenMet(s: string, i: nat, t: nat)
    requires i == LeadingSpaces(s) && i + t == |s|
    requires forall k :: |s| - t <= k < |s| ==> IsSpace(s[k])
    ensures AllSpace(s)
  {
    forall k | 0 <= k < |s|
      ensures IsSpace(s[k])
    {
      if k >= i {
        assert |s| - t <= k;
      }
    }
  }

  /** A name that is not blank keeps a character that is not whitespace. */
  lemma StripNotBlank(s: string)
    ensures !AllSpace(s) ==> !AllSpace(Strip(s))
  {
    if !AllSpace(s) {
      assert !IsSpace(Strip(s)[0]);
    }
  }

  lemma StripIdempotent(s: string)
    ensures Strip(Strip(s)) == Strip(s)
  {
  }

  /** ASCII lower-casing, the case folding the filters are modelled with. */
  function LowerChar(c: char): char
  {
    if 'A' <= c <= 'Z' then (c as int + 32) as char else c
  }

  function Lower(s: string): (r: string)
    ensures |r| == |s|
  {
    seq(|s|, i requires 0 <= i < |s| => LowerChar(s[i]))
  }

  /** `sub` occurs in `s` starting at position `i`. */
  predicate OccursAt(s: string, sub: string, i: int)
  {
    0 <= i && i + |sub| <= |s| && s[i..i + |sub|] == sub
  }

  /** The left-to-right scan a `LIKE '%sub%'` match performs: it finds `sub`
      exactly when `sub` occurs somewhere in `s`. */
  function Contains(s: string, sub: string): (r: bool)
    ensures r <==> exists i :: OccursAt(s, sub, i)
    decreases |s|
  {
    if |sub| > |s| then false
    else if s[..|sub|] == sub then assert OccursAt(s, sub, 0); true
    else
      OccursAfterFirst(s, sub);
      Contains(s[1..], sub)
  }

  /** When `sub` is not a prefix of `s`, its occurrences in `s` are those in `s[1..]`,
      shifted by one. */
  lemma OccursAfterFirst(s: string, sub: string)
    requires |sub| <= |s| && s[..|sub|] != sub
    ensures (exists i :: OccursAt(s, sub, i)) <==> exists i :: OccursAt(s[1..], sub, i)
  {
    forall i | OccursAt(s[1..], sub, i)
      ensures OccursAt(s, sub, i + 1)
    {
      assert s[1..][i..i + |sub|] == s[i + 1..i + 1 + |sub|];
    }
    forall i | OccursAt(s, sub, i)
      ensures OccursAt(s[1..], sub, i - 1)
    {
      assert i != 0;
      assert s[1..][i - 1..i - 1 + |sub|] == s[i..i + |sub|];
    }
  }

  /** `column ILIKE '%sub%'`, with case folding restricted to ASCII. */
  function ContainsIgnoreCase(s: string, sub: string): (r: bool)
    ensures r <==> exists i :: OccursAt(Lower(s), Lower(sub), i)
  {
    Contains(Lower(s), Lower(sub))
  }

  /** The case-insensitive match ignores the case of both the column and the pattern. */
  lemma {:induction false} ContainsIgnoreCaseSpec(s: string, sub: string)
    ensures ContainsIgnoreCase(s, sub) <==> ContainsIgnoreCase(Lower(s), sub)
    ensures ContainsIgnoreCase(s, sub) <==> ContainsIgnoreCase(s, Lower(sub))
  {
    LowerIdempotent(s);
    LowerIdempotent(sub);
  }

  /** The case-insensitive match succeeds whenever the column holds, at some
      position, a text equal to the pattern up to ASCII case. */
  lemma MatchUpToCase(s: string, sub: string, t: string, i: int)
    requires OccursAt(s, t, i) && Lower(t) == Lower(sub)
    ensures ContainsIgnoreCase(s, sub)
  {
    assert Lower(s)[i..i + |t|] == Lower(t) by {
      forall k | 0 <= k < |t|
        ensures Lower(s)[i..i + |t|][k] == Lower(t)[k]
      {
        assert s[i + k] == t[k];
      }
    }
    assert OccursAt(Lower(s), Lower(sub), i);
  }

  lemma LowerIdempotent(s: string)
    ensures Lower(Lower(s)) == Lower(s)
  {
  }
}
