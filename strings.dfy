/** JavaScript's `String.prototype.trim` and `startsWith`, which every handler
    uses to normalise its input. */
module Strings {
  import opened Values

  /** The code points `trim` removes: ECMAScript WhiteSpace (tab, vertical tab,
      form feed, space, no-break space, byte order mark and the Zs category)
      and LineTerminator (line feed, carriage return, U+2028, U+2029). */
  predicate IsSpace(c: char)
  {
    || c == '\t' || c == '\n' || c == '\U{B}' || c == '\U{C}' || c == '\r'
    || c == ' ' || c == '\U{A0}' || c == '\U{1680}'
    || ('\U{2000}' <= c <= '\U{200A}')
    || c == '\U{2028}' || c == '\U{2029}' || c == '\U{202F}' || c == '\U{205F}'
    || c == '\U{3000}' || c == '\U{FEFF}'
  }

  predicate AllSpace(s: string)
  {
    forall i :: 0 <= i < |s| ==> IsSpace(s[i])
  }

  /** A string that `trim` leaves alone: empty, or neither starting nor ending
      with whitespace. */
  predicate Trimmed(s: string)
  {
    s == [] || (!IsSpace(s[0]) && !IsSpace(s[|s| - 1]))
  }

  /** The number of whitespace characters at the start of `s`. */
  function Leading(s: string): (n: nat)
    ensures n <= |s|
    ensures AllSpace(s[..n])
    ensures n == |s| || !IsSpace(s[n])
  {
    if s == [] || !IsSpace(s[0]) then 0 else 1 + Leading(s[1..])
  }

  /** The number of whitespace characters at the end of `s`. */
  function Trailing(s: string): (n: nat)
    ensures n <= |s|
    ensures AllSpace(s[|s| - n..])
    ensures n == |s| || !IsSpace(s[|s| - 1 - n])
  {
    if s == [] || !IsSpace(s[|s| - 1]) then 0 else 1 + Trailing(s[..|s| - 1])
  }

  /** `s.trim()`: `s` without its leading and trailing whitespace. */
  function Trim(s: string): string
  {
    var t := s[Leading(s)..];
    t[..|t| - Trailing(t)]
  }

  /** What `trim` returns: the slice of `s` that starts after its leading
      whitespace, with only whitespace cut off on either side, itself
      trimmed, and empty exactly when `s` is all whitespace. */
  lemma TrimSpec(s: string)
    ensures Leading(s) + |Trim(s)| <= |s|
    ensures Trim(s) == s[Leading(s)..Leading(s) + |Trim(s)|]
    ensures AllSpace(s[..Leading(s)]) && AllSpace(s[Leading(s) + |Trim(s)|..])
    ensures Trimmed(Trim(s))
    ensures Trim(s) == [] <==> AllSpace(s)
  {
    assert AllSpace(s) ==> Leading(s) == |s|;
  }

  /** `trim` is determined by its contract: whenever `s` is a whitespace prefix,
      a trimmed middle and a whitespace suffix, `Trim(s)` is that middle. */
  lemma {:induction false} TrimOfPadded(p: string, m: string, q: string)
    requires AllSpace(p) && AllSpace(q) && Trimmed(m)
    ensures Trim(p + m + q) == m
  {
    var s := p + m + q;
    if m == [] {
      assert AllSpace(s) by {
        forall i | 0 <= i < |s| ensures IsSpace(s[i]) {
          if i < |p| { assert s[i] == p[i]; } else { assert s[i] == q[i - |p|]; }
        }
      }
    } else {
      LeadingOfPadded(p, m + q);
      assert s == p + (m + q);
      var t := s[|p|..];
      assert t == m + q;
      TrailingOfPadded(m, q);
      assert Trim(s) == t[..|t| - |q|];
      assert t[..|t| - |q|] == m;
    }
  }

  lemma {:induction false} LeadingOfPadded(p: string, u: string)
    requires AllSpace(p) && u != [] && !IsSpace(u[0])
    ensures Leading(p + u) == |p|
  {
    if p != [] {
      assert (p + u)[1..] == p[1..] + u;
      LeadingOfPadded(p[1..], u);
    } else {
      assert p + u == u;
    }
  }

  lemma {:induction false} TrailingOfPadded(u: string, q: string)
    requires AllSpace(q) && u != [] && !IsSpace(u[|u| - 1])
    ensures Trailing(u + q) == |q|
  {
    if q != [] {
      assert (u + q)[..|u + q| - 1] == u + q[..|q| - 1];
      TrailingOfPadded(u, q[..|q| - 1]);
    } else {
      assert u + q == u;
    }
  }

  /** `trim` is idempotent. */
  lemma TrimIdempotent(s: string)
    ensures Trim(Trim(s)) == Trim(s)
  {
    var r := Trim(s);
    TrimSpec(s);
    TrimOfPadded([], r, []);
    assert [] + r + [] == r;
  }

  /** `s.trim() === ""`. */
  predicate Blank(s: string)
  {
    Trim(s) == ""
  }

  /** `s.trim() === "" ? undefined : s.trim()`: how an update sets an
      optional text field, clearing it when blank. */
  function TrimOrClear(s: string): (r: Option<string>)
    ensures r.None? <==> Blank(s)
    ensures r.Some? ==> r.value == Trim(s) && r.value != ""
  {
    if Blank(s) then None else Some(Trim(s))
  }

  /** `s ? s.trim() : undefined`: a given, non-empty value trimmed. */
  function TrimIfGiven(s: Option<string>): (r: Option<string>)
    ensures r.Some? <==> Given(s)
    ensures r.Some? ==> r.value == Trim(s.value)
  {
    if Given(s) then Some(Trim(s.value)) else None
  }

  /** `s.startsWith(prefix)`. */
  predicate StartsWith(s: string, prefix: string)
  {
    |prefix| <= |s| && s[..|prefix|] == prefix
  }
}
