/**
 * The JavaScript string primitives the scripts rely on: `trim`, `indexOf`,
 * `startsWith`, `endsWith`, `split`/`join` on one separator character, and
 * replacing every occurrence of one character.
 */
module Strings {
  import Seqs

  /** A character that `String.prototype.trim` removes (WhiteSpace or LineTerminator). */
  predicate IsSpace(c: char) {
    || c == '\t' || c == '\n' || c == '\U{000B}' || c == '\U{000C}' || c == '\r' || c == ' '
    || c == '\U{00A0}' || c == '\U{1680}' || ('\U{2000}' <= c <= '\U{200A}')
    || c == '\U{2028}' || c == '\U{2029}' || c == '\U{202F}' || c == '\U{205F}'
    || c == '\U{3000}' || c == '\U{FEFF}'
  }

  predicate AllSpace(s: string) {
    forall i :: 0 <= i < |s| ==> IsSpace(s[i])
  }

  /** Number of characters `trimStart` removes. */
  function LeadingSpaces(s: string): (k: nat)
    ensures k <= |s|
  {
    if s == [] || !IsSpace(s[0]) then 0
    else
      var k' := LeadingSpaces(s[1..]);
      1 + k'
  }

  /** `trimStart` removes only whitespace, and all of it. */
  lemma {:induction false} LeadingFacts(s: string)
    ensures AllSpace(s[..LeadingSpaces(s)])
    ensures LeadingSpaces(s) < |s| ==> !IsSpace(s[LeadingSpaces(s)])
  {
    if s != [] && IsSpace(s[0]) {
      LeadingFacts(s[1..]);
      var k := LeadingSpaces(s);
      forall i | 0 <= i < k ensures IsSpace(s[..k][i]) {
        if i > 0 {
          assert s[..k][i] == s[1..][..k - 1][i - 1];
        }
      }
      if k < |s| {
        assert s[k] == s[1..][k - 1];
      }
    }
  }

  /** Number of characters `trimEnd` removes. */
  function TrailingSpaces(s: string): (k: nat)
    ensures k <= |s|
  {
    if s == [] || !IsSpace(s[|s| - 1]) then 0
    else
      var k' := TrailingSpaces(s[..|s| - 1]);
      1 + k'
  }

  /** `trimEnd` removes only whitespace, and all of it. */
  lemma {:induction false} TrailingFacts(s: string)
    ensures AllSpace(s[|s| - TrailingSpaces(s)..])
    ensures TrailingSpaces(s) < |s| ==> !IsSpace(s[|s| - 1 - TrailingSpaces(s)])
  {
    if s != [] && IsSpace(s[|s| - 1]) {
      var t := s[..|s| - 1];
      TrailingFacts(t);
      var k := TrailingSpaces(s);
      var u := s[|s| - k..];
      forall i | 0 <= i < |u| ensures IsSpace(u[i]) {
        if i < k - 1 {
          assert u[i] == t[|t| - (k - 1)..][i];
        }
      }
      if k < |s| {
        assert s[|s| - 1 - k] == t[|t| - 1 - (k - 1)];
      }
    }
  }

  /**
   * Where the trimmed string ends: before the trailing whitespace, or at the
   * end of a string that is whitespace only.
   */
  function TrimEnd(s: string): (e: nat)
    ensures LeadingSpaces(s) <= e <= |s|
    ensures LeadingSpaces(s) < |s| ==> LeadingSpaces(s) < e && e == |s| - TrailingSpaces(s)
  {
    var a := LeadingSpaces(s);
    if a == |s| then |s|
    else
      var k := TrailingSpaces(s);
      LeadingFacts(s);
      TrailingFacts(s);
      assert forall j :: |s| - k <= j < |s| ==> IsSpace(s[j]) by {
        forall j | |s| - k <= j < |s| ensures IsSpace(s[j]) {
          assert s[|s| - k..][j - (|s| - k)] == s[j];
        }
      }
      assert !IsSpace(s[a]);
      |s| - k
  }

  /** The trimmed string ends on a non-space character and only whitespace follows it. */
  lemma TrimEndFacts(s: string)
    ensures LeadingSpaces(s) < |s| ==> LeadingSpaces(s) < TrimEnd(s) && !IsSpace(s[TrimEnd(s) - 1])
    ensures AllSpace(s[TrimEnd(s)..])
  {
    var e := TrimEnd(s);
    if LeadingSpaces(s) == |s| {
      assert s[e..] == [];
    } else {
      TrailingFacts(s);
    }
  }

  /** `String.prototype.trim`: the longest slice with no surrounding whitespace. */
  function Trim(s: string): (r: string)
    ensures |r| <= |s|
  {
    s[LeadingSpaces(s)..TrimEnd(s)]
  }

  /** The trimmed string is the slice of `s` after its leading whitespace, followed only by whitespace. */
  lemma TrimSlice(s: string)
    ensures LeadingSpaces(s) + |Trim(s)| <= |s|
    ensures Trim(s) == s[LeadingSpaces(s)..LeadingSpaces(s) + |Trim(s)|]
    ensures AllSpace(s[..LeadingSpaces(s)]) && AllSpace(s[LeadingSpaces(s) + |Trim(s)|..])
  {
    LeadingFacts(s);
    TrimEndFacts(s);
  }

  /** Only whitespace trims to the empty string, and a non-empty result has no whitespace at its ends. */
  lemma TrimEnds(s: string)
    ensures Trim(s) == [] <==> AllSpace(s)
    ensures Trim(s) != [] ==> !IsSpace(Trim(s)[0]) && !IsSpace(Trim(s)[|Trim(s)| - 1])
  {
    var a := LeadingSpaces(s);
    LeadingFacts(s);
    TrimEndFacts(s);
    if Trim(s) == [] {
      assert a == |s|;
      assert s[..a] == s;
    } else {
      assert Trim(s)[0] == s[a] && Trim(s)[|Trim(s)| - 1] == s[TrimEnd(s) - 1];
    }
  }

  /** A string with no whitespace at either end is its own trim. */
  lemma TrimUnpadded(s: string)
    requires s != [] ==> !IsSpace(s[0]) && !IsSpace(s[|s| - 1])
    ensures Trim(s) == s
  {
    if s != [] {
      assert !IsSpace(s[0]);
      assert LeadingSpaces(s) == 0;
      assert TrailingSpaces(s) == 0;
    }
  }

  lemma TrimIdempotent(s: string)
    ensures Trim(Trim(s)) == Trim(s)
  {
    TrimEnds(s);
    TrimUnpadded(Trim(s));
  }

  /** Trimming never introduces a character. */
  lemma TrimKeepsOut(s: string, c: char)
    requires c !in s
    ensures c !in Trim(s)
  {
    var r := Trim(s);
    var a := LeadingSpaces(s);
    TrimSlice(s);
    forall j | 0 <= j < |r| ensures r[j] != c {
      assert r[j] == s[a + j];
    }
  }

  lemma {:induction false} LeadingPad(p: string, t: string)
    requires AllSpace(p) && t != [] && !IsSpace(t[0])
    ensures LeadingSpaces(p + t) == |p|
  {
    if p != [] {
      assert (p + t)[1..] == p[1..] + t;
      LeadingPad(p[1..], t);
    } else {
      assert p + t == t;
    }
  }

  lemma {:induction false} TrailingPad(t: string, q: string)
    requires AllSpace(q) && t != [] && !IsSpace(t[|t| - 1])
    ensures TrailingSpaces(t + q) == |q|
  {
    if q != [] {
      assert (t + q)[..|t + q| - 1] == t + q[..|q| - 1];
      TrailingPad(t, q[..|q| - 1]);
    } else {
      assert t + q == t;
    }
  }

  /** Trimming removes whitespace padding and nothing else. */
  lemma TrimPadded(p: string, s: string, q: string)
    requires AllSpace(p) && AllSpace(q)
    requires s != [] ==> !IsSpace(s[0]) && !IsSpace(s[|s| - 1])
    ensures Trim(p + s + q) == s
  {
    if s == [] {
      assert p + s + q == p + q;
      TrimEnds(p + q);
    } else {
      var t := p + s + q;
      assert t == p + (s + q);
      LeadingPad(p, s + q);
      assert (p + s)[|p + s| - 1] == s[|s| - 1];
      TrailingPad(p + s, q);
      assert TrimEnd(t) == |p| + |s|;
      assert t[|p|..|p| + |s|] == s;
    }
  }

  /** A string that starts with a non-space character trims to a non-empty one. */
  lemma TrimNonEmpty(s: string)
    requires s != [] && !IsSpace(s[0])
    ensures Trim(s) != []
  {
    TrimEnds(s);
  }

  /** `String.prototype.indexOf` for one character: the first position, or -1. */
  function IndexOf(s: string, c: char): (i: int)
    ensures -1 <= i < |s|
    ensures i == -1 <==> c !in s
    ensures 0 <= i ==> s[i] == c && c !in s[..i]
  {
    if s == [] then -1
    else if s[0] == c then 0
    else
      var j := IndexOf(s[1..], c);
      assert s == [s[0]] + s[1..];
      if j == -1 then -1
      else
        assert s[..j + 1] == [s[0]] + s[1..][..j];
        j + 1
  }

  predicate StartsWith(s: string, prefix: string) {
    |prefix| <= |s| && s[..|prefix|] == prefix
  }

  predicate EndsWith(s: string, suffix: string) {
    |suffix| <= |s| && s[|s| - |suffix|..] == suffix
  }

  /** `Array.prototype.join(sep)`. */
  function Join(parts: seq<string>, sep: char): string {
    if |parts| == 0 then ""
    else if |parts| == 1 then parts[0]
    else parts[0] + [sep] + Join(parts[1..], sep)
  }

  /** `String.prototype.split(sep)` for a one-character separator. */
  function Split(s: string, sep: char): (parts: seq<string>)
    ensures |parts| >= 1
    decreases |s|
  {
    var i := IndexOf(s, sep);
    if i < 0 then [s] else [s[..i]] + Split(s[i + 1..], sep)
  }

  lemma JoinCons(head: string, rest: seq<string>, sep: char)
    requires |rest| >= 1
    ensures Join([head] + rest, sep) == head + [sep] + Join(rest, sep)
  {
    assert ([head] + rest)[1..] == rest;
  }

  /** Joining the pieces with the separator gives back the string. */
  lemma {:induction false} SplitJoin(s: string, sep: char)
    ensures Join(Split(s, sep), sep) == s
    decreases |s|
  {
    var i := IndexOf(s, sep);
    if i >= 0 {
      var rest := Split(s[i + 1..], sep);
      SplitJoin(s[i + 1..], sep);
      JoinCons(s[..i], rest, sep);
      Seqs.Around(s, i);
    }
  }

  /** No piece holds the separator, and there is one piece exactly when the separator is absent. */
  lemma {:induction false} SplitPieces(s: string, sep: char)
    ensures forall i :: 0 <= i < |Split(s, sep)| ==> sep !in Split(s, sep)[i]
    ensures |Split(s, sep)| == 1 <==> sep !in s
    decreases |s|
  {
    var i := IndexOf(s, sep);
    if i >= 0 {
      SplitPieces(s[i + 1..], sep);
    }
  }

  /** The first piece of a split is the text before the first separator. */
  lemma SplitHead(s: string, sep: char)
    ensures Split(s, sep)[0] == if sep in s then s[..IndexOf(s, sep)] else s
    ensures Join(Split(s, sep)[1..], sep) == if sep in s then s[IndexOf(s, sep) + 1..] else ""
  {
    if sep in s {
      SplitJoin(s[IndexOf(s, sep) + 1..], sep);
    }
  }

  /** `s.replace(/<c>/g, r)`: every occurrence of `c` becomes `r`. */
  function ReplaceChar(s: string, c: char, r: string): (t: string)
    ensures c !in r ==> c !in t
  {
    if s == [] then ""
    else (if s[0] == c then r else [s[0]]) + ReplaceChar(s[1..], c, r)
  }

  /** Each occurrence of `c` grows the text by `|r| - 1`. */
  lemma {:induction false} ReplaceLength(s: string, c: char, r: string)
    ensures |ReplaceChar(s, c, r)| == |s| + Count(s, c) * (|r| - 1)
  {
    if s != [] {
      ReplaceLength(s[1..], c, r);
      var n := Count(s[1..], c);
      assert ReplaceChar(s, c, r) == (if s[0] == c then r else [s[0]]) + ReplaceChar(s[1..], c, r);
      assert (n + 1) * (|r| - 1) == n * (|r| - 1) + (|r| - 1);
    }
  }

  /** Number of occurrences of `c` in `s`. */
  function Count(s: string, c: char): nat {
    if s == [] then 0 else (if s[0] == c then 1 else 0) + Count(s[1..], c)
  }

  lemma CountConcat(a: string, b: string, c: char)
    ensures Count(a + b, c) == Count(a, c) + Count(b, c)
  {
    if a != [] {
      assert (a + b)[0] == a[0] && (a + b)[1..] == a[1..] + b;
      CountConcat(a[1..], b, c);
    } else {
      assert a + b == b;
    }
  }
}

/** Decimal rendering of naturals, as template literals print integers. */
module Decimal {
  function Digit(d: nat): char
    requires d < 10
  {
    "0123456789"[d]
  }

  function NatToString(n: nat): (s: string)
    ensures s != []
    ensures forall i :: 0 <= i < |s| ==> '0' <= s[i] <= '9'
  {
    if n < 10 then [Digit(n)] else NatToString(n / 10) + [Digit(n % 10)]
  }
}
