/**
 * The functions of Go's `strings` package that the WHOIS client calls,
 * restricted to ASCII: `Index`, `Contains`, `TrimSpace`, `Trim` with a
 * one-character cut set, `Replace(s, old, "", -1)` for a one-character `old`,
 * `Count` of a one-character pattern and `ToUpper`. A Go string is a byte
 * sequence; here one `char` stands for one byte of ASCII text.
 */
module Strings {

  /** The ASCII characters `strings.TrimSpace` removes. */
  const Spaces: set<char> := {' ', '\t', '\n', '\U{B}', '\U{C}', '\r'}

  /** Neither end of `s` is a space character. */
  predicate Trimmed(s: string) {
    s == [] || (s[0] !in Spaces && s[|s| - 1] !in Spaces)
  }

  /** The number of leading characters of `s` that are in `cut` (see `LeadingCutChars`). */
  function LeadingCut(s: string, cut: set<char>): (n: nat)
    ensures n <= |s|
  {
    if s != [] && s[0] in cut then 1 + LeadingCut(s[1..], cut) else 0
  }

  /** `LeadingCut` counts the longest prefix of `cut` characters. */
  lemma {:induction false} LeadingCutChars(s: string, cut: set<char>)
    ensures forall k :: 0 <= k < LeadingCut(s, cut) ==> s[k] in cut
    ensures LeadingCut(s, cut) < |s| ==> s[LeadingCut(s, cut)] !in cut
  {
    if s != [] && s[0] in cut {
      LeadingCutChars(s[1..], cut);
    }
  }

  /** The number of trailing characters of `s` that are in `cut` (see `TrailingCutChars`). */
  function TrailingCut(s: string, cut: set<char>): (n: nat)
    ensures n <= |s|
  {
    if s != [] && s[|s| - 1] in cut then 1 + TrailingCut(s[..|s| - 1], cut) else 0
  }

  /** `TrailingCut` counts the longest suffix of `cut` characters. */
  lemma {:induction false} TrailingCutChars(s: string, cut: set<char>)
    ensures forall k :: |s| - TrailingCut(s, cut) <= k < |s| ==> s[k] in cut
    ensures TrailingCut(s, cut) < |s| ==> s[|s| - 1 - TrailingCut(s, cut)] !in cut
  {
    if s != [] && s[|s| - 1] in cut {
      TrailingCutChars(s[..|s| - 1], cut);
    }
  }

  /**
   * `r` is the slice of `s` that starts at `i`, and everything of `s` outside
   * that slice is in `cut`.
   */
  predicate SliceWithin(s: string, cut: set<char>, i: int, r: string) {
    0 <= i <= |s| - |r| && r == s[i..i + |r|]
    && (forall k :: 0 <= k < i ==> s[k] in cut)
    && (forall k :: i + |r| <= k < |s| ==> s[k] in cut)
  }

  /**
   * `strings.Trim` with cut set `cut`: the leading `cut` characters go, then
   * the trailing ones of what is left (see `TrimSlice`, `TrimEnds` and
   * `TrimKeeps`).
   */
  function Trim(s: string, cut: set<char>): (r: string)
    ensures |r| <= |s|
  {
    var t := s[LeadingCut(s, cut)..];
    t[..|t| - TrailingCut(t, cut)]
  }

  /** What `Trim` leaves is a slice of `s` with only `cut` characters outside it. */
  lemma TrimSlice(s: string, cut: set<char>)
    ensures SliceWithin(s, cut, LeadingCut(s, cut), Trim(s, cut))
  {
    LeadingCutChars(s, cut);
    TrimAsSlice(s, cut);
    TrimDropsTrailing(s, cut);
  }

  /** `Trim` is the slice between the leading cut and the trailing cut of the rest. */
  lemma TrimAsSlice(s: string, cut: set<char>)
    ensures var a := LeadingCut(s, cut);
            a + |Trim(s, cut)| <= |s| && Trim(s, cut) == s[a..a + |Trim(s, cut)|]
  {
  }

  /** What follows the slice `Trim` leaves is all `cut`. */
  lemma TrimDropsTrailing(s: string, cut: set<char>)
    ensures forall k :: LeadingCut(s, cut) + |Trim(s, cut)| <= k < |s| ==> s[k] in cut
  {
    var a := LeadingCut(s, cut);
    var t := s[a..];
    TrailingCutChars(t, cut);
    assert |Trim(s, cut)| == |t| - TrailingCut(t, cut);
    forall k | a + |Trim(s, cut)| <= k < |s|
      ensures s[k] in cut
    {
      assert s[k] == t[k - a];
    }
  }

  /** What `Trim` leaves starts and ends outside `cut`. */
  lemma TrimEnds(s: string, cut: set<char>)
    ensures Trim(s, cut) != [] ==> Trim(s, cut)[0] !in cut && Trim(s, cut)[|Trim(s, cut)| - 1] !in cut
  {
    var t := s[LeadingCut(s, cut)..];
    LeadingCutChars(s, cut);
    TrailingCutChars(t, cut);
  }

  /** A string that starts and ends outside `cut` is left alone. */
  lemma TrimKeeps(s: string, cut: set<char>)
    ensures (s == [] || (s[0] !in cut && s[|s| - 1] !in cut)) ==> Trim(s, cut) == s
  {
    if s != [] && s[0] !in cut && s[|s| - 1] !in cut {
      assert LeadingCut(s, cut) == 0;
      assert s[0..] == s;
      assert TrailingCut(s, cut) == 0;
    }
  }

  /** One leading `cut` character before a string with no `cut` character at either end goes. */
  lemma TrimOneLeading(c: char, w: string, cut: set<char>)
    requires c in cut
    requires w == [] || (w[0] !in cut && w[|w| - 1] !in cut)
    ensures Trim([c] + w, cut) == w
  {
    var s := [c] + w;
    assert s[1..] == w;
    assert LeadingCut(s, cut) == 1 + LeadingCut(w, cut);
    if w != [] {
      assert LeadingCut(w, cut) == 0;
      assert TrailingCut(w, cut) == 0;
    }
  }

  /** `strings.TrimSpace`. */
  function TrimSpace(s: string): (r: string)
    ensures Trimmed(r)
  {
    TrimEnds(s, Spaces);
    Trim(s, Spaces)
  }

  /** `strings.Replace(s, string(x), "", -1)`: every `x` removed (see `RemoveChars`). */
  function Remove(s: string, x: char): (r: string)
    ensures |r| <= |s|
  {
    if s == [] then []
    else (if s[0] == x then [] else [s[0]]) + Remove(s[1..], x)
  }

  /** `Remove` keeps every character but `x`, and leaves a string without `x` alone. */
  lemma {:induction false} RemoveChars(s: string, x: char)
    ensures forall c :: c in Remove(s, x) <==> c in s && c != x
    ensures x !in s ==> Remove(s, x) == s
  {
    if s != [] {
      RemoveChars(s[1..], x);
      assert s == [s[0]] + s[1..];
    }
  }

  /** Removing a character distributes over concatenation. */
  lemma {:induction false} RemoveAppend(a: string, b: string, x: char)
    ensures Remove(a + b, x) == Remove(a, x) + Remove(b, x)
  {
    if a != [] {
      var h := if a[0] == x then [] else [a[0]];
      assert (a + b)[1..] == a[1..] + b;
      assert (a + b)[0] == a[0];
      assert Remove(a + b, x) == h + Remove(a[1..] + b, x);
      assert Remove(a, x) == h + Remove(a[1..], x);
      RemoveAppend(a[1..], b, x);
      assert h + (Remove(a[1..], x) + Remove(b, x)) == h + Remove(a[1..], x) + Remove(b, x);
    } else {
      assert a + b == b;
    }
  }

  /** An occurrence of the removed character drops out. */
  lemma RemoveSkip(a: string, b: string, x: char)
    ensures Remove(a + [x] + b, x) == Remove(a + b, x)
  {
    assert a + [x] + b == a + ([x] + b);
    RemoveAppend(a, [x] + b, x);
    RemoveAppend(a, b, x);
    assert ([x] + b)[1..] == b;
  }

  /** `strings.Count(s, string(c))`: the number of occurrences of `c` (see `CountCharOccurrences`). */
  function CountChar(s: string, c: char): (n: nat)
    ensures n <= |s|
  {
    if s == [] then 0 else (if s[0] == c then 1 else 0) + CountChar(s[1..], c)
  }

  /** `CountChar` is the multiplicity of `c` in `s`. */
  lemma {:induction false} CountCharOccurrences(s: string, c: char)
    ensures CountChar(s, c) == multiset(s)[c]
  {
    if s != [] {
      CountCharOccurrences(s[1..], c);
      assert s == [s[0]] + s[1..];
    }
  }

  /**
   * Length of the first line (what `.*` matches) of `s`, not counting its
   * `\n` (see `LineLengthStops`).
   */
  function LineLength(s: string): (n: nat)
    ensures n <= |s|
    ensures n < |s| ==> s[n] == '\n'
  {
    if s != [] && s[0] != '\n' then 1 + LineLength(s[1..]) else 0
  }

  /** The first line holds no `\n`: `LineLength` stops at the first one. */
  lemma {:induction false} LineLengthStops(s: string)
    ensures '\n' !in s[..LineLength(s)]
  {
    if s != [] && s[0] != '\n' {
      LineLengthStops(s[1..]);
      assert s[..LineLength(s)] == [s[0]] + s[1..][..LineLength(s[1..])];
    }
  }

  /** A line without `\n`, followed by a newline or by the end of the text. */
  lemma {:induction false} LineLengthOf(v: string, t: string)
    requires '\n' !in v
    requires t == [] || t[0] == '\n'
    ensures LineLength(v + t) == |v|
  {
    if v != [] {
      assert (v + t)[1..] == v[1..] + t;
      LineLengthOf(v[1..], t);
    }
  }

  /** `p` occurs in `s` at index `i`. */
  predicate OccursAt(s: string, p: string, i: int) {
    0 <= i && i + |p| <= |s| && s[i..i + |p|] == p
  }

  /** `strings.Index`: the first index at which `p` occurs, or -1 (see `IndexOfFirst`). */
  function IndexOf(s: string, p: string): (i: int)
    ensures -1 <= i
    ensures i >= 0 ==> i + |p| <= |s|
  {
    if |s| < |p| then -1
    else if s[..|p|] == p then 0
    else
      var k := IndexOf(s[1..], p);
      if k < 0 then -1 else k + 1
  }

  /** `IndexOf` finds the first occurrence, and -1 means there is none. */
  lemma {:induction false} IndexOfFirst(s: string, p: string)
    ensures IndexOf(s, p) == -1 <==> forall j :: !OccursAt(s, p, j)
    ensures IndexOf(s, p) >= 0 ==>
              OccursAt(s, p, IndexOf(s, p)) && forall j :: 0 <= j < IndexOf(s, p) ==> !OccursAt(s, p, j)
    decreases |s|
  {
    if |s| < |p| {
    } else if s[..|p|] == p {
      assert OccursAt(s, p, 0);
    } else {
      IndexOfFirst(s[1..], p);
      forall j | 1 <= j
        ensures OccursAt(s, p, j) <==> OccursAt(s[1..], p, j - 1)
      {
        OccursTail(s, p, j);
      }
      assert !OccursAt(s, p, 0);
      var k := IndexOf(s[1..], p);
      if k >= 0 {
        assert OccursAt(s, p, k + 1);
      }
    }
  }

  /** An occurrence past the first character is one in the tail. */
  lemma OccursTail(s: string, p: string, j: int)
    requires s != [] && 1 <= j
    ensures OccursAt(s, p, j) <==> OccursAt(s[1..], p, j - 1)
  {
  }

  /** `strings.Contains`. */
  function Contains(s: string, p: string): bool {
    IndexOf(s, p) >= 0
  }

  /** `Contains` holds exactly when `p` occurs somewhere in `s`. */
  lemma ContainsOccurs(s: string, p: string)
    ensures Contains(s, p) <==> exists j :: OccursAt(s, p, j)
  {
    IndexOfFirst(s, p);
  }

  /** ASCII upper case of one character. */
  function UpperChar(c: char): char {
    if 'a' <= c <= 'z' then (c as int - 32) as char else c
  }

  /** `strings.ToUpper` on ASCII text. */
  function ToUpper(s: string): (r: string)
    ensures |r| == |s|
    ensures forall k :: 0 <= k < |r| ==> !('a' <= r[k] <= 'z')
    ensures forall k :: 0 <= k < |s| && !('a' <= s[k] <= 'z') ==> r[k] == s[k]
    ensures forall k :: 0 <= k < |s| && 'a' <= s[k] <= 'z' ==>
              'A' <= r[k] <= 'Z' && r[k] as int - 'A' as int == s[k] as int - 'a' as int
  {
    seq(|s|, k requires 0 <= k < |s| => UpperChar(s[k]))
  }
}
