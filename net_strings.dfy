/**
 * The .NET string primitives that the authentication startup relies on:
 * `String.EndsWith(_, StringComparison.Ordinal)`, `Char.IsWhiteSpace`,
 * `String.Trim()`, `String.Split(char[])` with and without
 * `StringSplitOptions.RemoveEmptyEntries`, and `StringComparer.OrdinalIgnoreCase`.
 * A .NET string is a sequence of UTF-16 code units; here it is a `seq<char>`.
 */
module NetStrings {

  // ---------------------------------------------------------------------------
  // Ordinal suffix test
  // ---------------------------------------------------------------------------

  /** `s.EndsWith(suffix, StringComparison.Ordinal)`: code-unit comparison of the tail. */
  predicate EndsWith(s: string, suffix: string)
    ensures EndsWith(s, suffix) <==>
      |suffix| <= |s| && forall i :: 0 <= i < |suffix| ==> s[|s| - |suffix| + i] == suffix[i]
  {
    |suffix| <= |s| && s[|s| - |suffix|..] == suffix
  }

  // ---------------------------------------------------------------------------
  // White space and trimming
  // ---------------------------------------------------------------------------

  /**
   * `Char.IsWhiteSpace`: the members of the Unicode categories SpaceSeparator,
   * LineSeparator and ParagraphSeparator, plus U+0009..U+000D and U+0085.
   */
  predicate IsWhiteSpace(c: char)
    ensures c == ' ' || c == '\t' || c == '\n' || c == '\r' ==> IsWhiteSpace(c)
    ensures IsWhiteSpace(c) ==>
      !('a' <= c <= 'z') && !('A' <= c <= 'Z') && !('0' <= c <= '9') && c != ';' && c != '@' && c != '.'
  {
    var n := c as int;
    (0x09 <= n <= 0x0D) || n == 0x20 || n == 0x85 || n == 0xA0 || n == 0x1680
    || (0x2000 <= n <= 0x200A) || n == 0x2028 || n == 0x2029 || n == 0x202F
    || n == 0x205F || n == 0x3000
  }

  /** Neither the first nor the last character of `s` is white space. */
  predicate NoOuterWhiteSpace(s: string) {
    |s| > 0 ==> !IsWhiteSpace(s[0]) && !IsWhiteSpace(s[|s| - 1])
  }

  predicate AllWhiteSpace(s: string) {
    forall i :: 0 <= i < |s| ==> IsWhiteSpace(s[i])
  }

  /** Removes the longest all-white-space prefix. */
  function TrimStart(s: string): (r: string)
    ensures |r| <= |s| && r == s[|s| - |r|..]
    ensures forall i :: 0 <= i < |s| - |r| ==> IsWhiteSpace(s[i])
    ensures |r| > 0 ==> !IsWhiteSpace(r[0])
  {
    if |s| > 0 && IsWhiteSpace(s[0]) then TrimStart(s[1..]) else s
  }

  /** Removes the longest all-white-space suffix. */
  function TrimEnd(s: string): (r: string)
    ensures |r| <= |s| && r == s[..|r|]
    ensures forall i :: |r| <= i < |s| ==> IsWhiteSpace(s[i])
    ensures |r| > 0 ==> !IsWhiteSpace(r[|r| - 1])
  {
    if |s| > 0 && IsWhiteSpace(s[|s| - 1]) then TrimEnd(s[..|s| - 1]) else s
  }

  /**
   * `r` is what is left of `s` once white space is stripped from both ends:
   * a contiguous part of `s`, everything around it white space, and nothing
   * at its own ends white space.
   */
  ghost predicate IsTrimOf(r: string, s: string) {
    NoOuterWhiteSpace(r)
    && exists start :: 0 <= start <= |s| - |r| && IsTrimAt(r, s, start)
  }

  ghost predicate IsTrimAt(r: string, s: string, start: int)
    requires 0 <= start <= |s| - |r|
  {
    s[start..start + |r|] == r
    && (forall i :: 0 <= i < start ==> IsWhiteSpace(s[i]))
    && (forall i :: start + |r| <= i < |s| ==> IsWhiteSpace(s[i]))
  }

  /**
   * A middle part `r` of `s`, starting at `k`, with white space only before
   * and after it, is what `IsTrimAt` describes.
   */
  lemma SliceIsTrimAt(s: string, t: string, r: string, k: int)
    requires 0 <= k <= |s| && t == s[k..]
    requires |r| <= |t| && r == t[..|r|]
    requires forall i :: 0 <= i < k ==> IsWhiteSpace(s[i])
    requires forall i :: |r| <= i < |t| ==> IsWhiteSpace(t[i])
    ensures k <= |s| - |r| && IsTrimAt(r, s, k)
  {
    assert s[k..k + |r|] == r;
    forall i | k + |r| <= i < |s| ensures IsWhiteSpace(s[i]) {
      assert s[i] == t[i - k];
    }
  }

  /** Trimming the start and then the end leaves the part of `s` that `IsTrimAt` describes. */
  lemma {:induction false} TrimStartThenEnd(s: string)
    ensures var t := TrimStart(s); var r := TrimEnd(t);
      |s| - |t| <= |s| - |r| && IsTrimAt(r, s, |s| - |t|)
  {
    var t := TrimStart(s);
    SliceIsTrimAt(s, t, TrimEnd(t), |s| - |t|);
  }

  /** `s.Trim()`. */
  function Trim(s: string): (r: string)
    ensures NoOuterWhiteSpace(r)
    ensures IsTrimOf(r, s)
  {
    TrimStartThenEnd(s);
    TrimEnd(TrimStart(s))
  }

  /** The trimmed part is empty exactly when the whole string is white space. */
  lemma TrimAtEmptyIff(r: string, s: string, start: int)
    requires NoOuterWhiteSpace(r)
    requires 0 <= start <= |s| - |r| && IsTrimAt(r, s, start)
    ensures |r| == 0 <==> AllWhiteSpace(s)
  {
    if |r| > 0 {
      assert r[0] == s[start];
    }
  }

  /** Whatever satisfies the trimming description is the result of `Trim`. */
  lemma {:induction false} TrimUnique(s: string, r1: string, r2: string)
    requires IsTrimOf(r1, s) && IsTrimOf(r2, s)
    ensures r1 == r2
  {
    var a :| 0 <= a <= |s| - |r1| && IsTrimAt(r1, s, a);
    var b :| 0 <= b <= |s| - |r2| && IsTrimAt(r2, s, b);
    TrimAtEmptyIff(r1, s, a);
    TrimAtEmptyIff(r2, s, b);
    if |r1| > 0 && |r2| > 0 {
      // both start at the first non-white-space character of s
      assert r1[0] == s[a] && r2[0] == s[b];
      assert a == b;
      // and both end at the last one
      var e1, e2 := a + |r1| - 1, b + |r2| - 1;
      assert r1[|r1| - 1] == s[e1] && r2[|r2| - 1] == s[e2];
      assert e1 == e2;
    }
  }

  /** Trimming a string that holds only white space leaves the empty string. */
  lemma TrimAllWhiteSpace(s: string)
    requires AllWhiteSpace(s)
    ensures Trim(s) == ""
  {
    var r := Trim(s);
    var a :| 0 <= a <= |s| - |r| && IsTrimAt(r, s, a);
    TrimAtEmptyIff(r, s, a);
  }

  /** Trimming removes exactly the white space around a core that has none at its ends. */
  lemma TrimAround(w1: string, core: string, w2: string)
    requires AllWhiteSpace(w1) && AllWhiteSpace(w2) && NoOuterWhiteSpace(core)
    ensures Trim(w1 + core + w2) == core
  {
    var s := w1 + core + w2;
    assert s[|w1|..|w1| + |core|] == core;
    forall i | |w1| + |core| <= i < |s| ensures IsWhiteSpace(s[i]) {
      assert s[i] == w2[i - |w1| - |core|];
    }
    assert IsTrimAt(core, s, |w1|);
    TrimUnique(s, Trim(s), core);
  }

  /** `Trim` is idempotent. */
  lemma TrimIdempotent(s: string)
    ensures Trim(Trim(s)) == Trim(s)
  {
    var r := Trim(s);
    assert IsTrimAt(r, r, 0);
    TrimUnique(r, Trim(r), r);
  }

  /** Trimming never introduces a character: a character absent from `s` is absent from `Trim(s)`. */
  lemma TrimKeepsOut(s: string, c: char)
    ensures c !in s ==> c !in Trim(s)
  {
    var r := Trim(s);
    var a :| 0 <= a <= |s| - |r| && IsTrimAt(r, s, a);
    forall k | 0 <= k < |r| ensures r[k] in s {
      assert r[k] == s[a + k];
    }
  }

  // ---------------------------------------------------------------------------
  // Splitting on one separator character
  // ---------------------------------------------------------------------------

  /**
   * `s.Split(new char[] { sep })`: the pieces between occurrences of `sep`,
   * in order; `k` separators give `k + 1` pieces, some of them possibly empty.
   */
  function Split(s: string, sep: char): (pieces: seq<string>)
    ensures |pieces| >= 1
  {
    if |s| == 0 then [""]
    else
      var rest := Split(s[1..], sep);
      if s[0] == sep then [""] + rest
      else [[s[0]] + rest[0]] + rest[1..]
  }

  /** No piece contains the separator. */
  lemma {:induction false} SplitPiecesExcludeSeparator(s: string, sep: char)
    ensures forall i :: 0 <= i < |Split(s, sep)| ==> sep !in Split(s, sep)[i]
  {
    if |s| > 0 {
      SplitPiecesExcludeSeparator(s[1..], sep);
      var rest := Split(s[1..], sep);
      var pieces := Split(s, sep);
      if s[0] == sep {
        assert forall i :: 0 < i < |pieces| ==> pieces[i] == rest[i - 1];
      } else {
        assert sep !in [s[0]] + rest[0];
        assert forall i :: 0 < i < |pieces| ==> pieces[i] == rest[i];
      }
    }
  }

  /** `String.Join(sep, pieces)`: the reference that `Split` inverts. */
  function Join(pieces: seq<string>, sep: char): (s: string)
    requires |pieces| >= 1
  {
    if |pieces| == 1 then pieces[0] else pieces[0] + [sep] + Join(pieces[1..], sep)
  }

  /** Joining the pieces back with the separator gives the original string. */
  lemma {:induction false} JoinSplit(s: string, sep: char)
    ensures Join(Split(s, sep), sep) == s
  {
    if |s| > 0 {
      var rest := Split(s[1..], sep);
      JoinSplit(s[1..], sep);
      if s[0] != sep {
        if |rest| == 1 {
          assert Split(s, sep) == [[s[0]] + rest[0]];
        } else {
          assert Split(s, sep)[1..] == rest[1..];
          assert [s[0]] + rest[0] + [sep] + Join(rest[1..], sep) == [s[0]] + Join(rest, sep);
        }
      } else {
        assert Split(s, sep)[1..] == rest;
      }
    }
  }

  /** A string with no separator is a single piece. */
  lemma {:induction false} SplitNoSeparator(p: string, sep: char)
    requires sep !in p
    ensures Split(p, sep) == [p]
  {
    if |p| > 0 {
      SplitNoSeparator(p[1..], sep);
      assert [p[0]] + p[1..] == p;
    }
  }

  /** Splitting a string that starts with `c`, in terms of splitting the rest. */
  lemma SplitCons(c: char, t: string, sep: char)
    ensures Split([c] + t, sep)
         == if c == sep then [""] + Split(t, sep) else [[c] + Split(t, sep)[0]] + Split(t, sep)[1..]
  {
    assert ([c] + t)[0] == c && ([c] + t)[1..] == t;
  }

  /** Regrouping `a + sep + b` around the first character of `a`. */
  lemma ConsRegroup(a: string, sep: char, b: string)
    requires |a| > 0
    ensures a + [sep] + b == [a[0]] + (a[1..] + [sep] + b)
  {
  }

  /** Head and tail of a concatenation whose left part is non-empty. */
  lemma HeadTailOfAppend<T>(x: seq<T>, y: seq<T>)
    requires |x| > 0
    ensures (x + y)[0] == x[0] && (x + y)[1..] == x[1..] + y
  {
  }

  /** Prepending distributes over concatenation. */
  lemma ConsAssoc<T>(h: T, x: seq<T>, y: seq<T>)
    ensures [h] + (x + y) == [h] + x + y
  {
  }

  /** A separator between two strings splits them apart: pieces are kept in order. */
  lemma {:induction false} SplitConcat(a: string, b: string, sep: char)
    ensures Split(a + [sep] + b, sep) == Split(a, sep) + Split(b, sep)
  {
    if |a| == 0 {
      assert a + [sep] + b == [sep] + b;
      SplitCons(sep, b, sep);
    } else {
      var t := a[1..];
      ConsRegroup(a, sep, b);
      assert a == [a[0]] + t;
      SplitCons(a[0], t + [sep] + b, sep);
      SplitCons(a[0], t, sep);
      SplitConcat(t, b, sep);
      var ra, rb := Split(t, sep), Split(b, sep);
      if a[0] == sep {
        ConsAssoc("", ra, rb);
      } else {
        HeadTailOfAppend(ra, rb);
        ConsAssoc([a[0]] + ra[0], ra[1..], rb);
      }
    }
  }

  /** Splitting a join of separator-free pieces gives the pieces back. */
  lemma {:induction false} SplitJoin(pieces: seq<string>, sep: char)
    requires |pieces| >= 1
    requires forall i :: 0 <= i < |pieces| ==> sep !in pieces[i]
    ensures Split(Join(pieces, sep), sep) == pieces
  {
    SplitNoSeparator(pieces[0], sep);
    if |pieces| > 1 {
      SplitJoin(pieces[1..], sep);
      SplitConcat(pieces[0], Join(pieces[1..], sep), sep);
      assert [pieces[0]] + pieces[1..] == pieces;
    }
  }

  /** `StringSplitOptions.RemoveEmptyEntries`: drops the zero-length pieces, keeping the others in order. */
  function RemoveEmpty(pieces: seq<string>): (r: seq<string>)
    ensures |r| <= |pieces|
    ensures forall i :: 0 <= i < |r| ==> r[i] != "" && r[i] in pieces
    ensures forall p :: p in pieces && p != "" ==> p in r
  {
    if |pieces| == 0 then []
    else if pieces[0] == "" then RemoveEmpty(pieces[1..])
    else [pieces[0]] + RemoveEmpty(pieces[1..])
  }

  /** Removing empty pieces distributes over concatenation: the relative order of pieces is kept. */
  lemma {:induction false} RemoveEmptyAppend(a: seq<string>, b: seq<string>)
    ensures RemoveEmpty(a + b) == RemoveEmpty(a) + RemoveEmpty(b)
  {
    if |a| > 0 {
      assert (a + b)[1..] == a[1..] + b;
      RemoveEmptyAppend(a[1..], b);
    } else {
      assert a + b == b;
    }
  }

  // ---------------------------------------------------------------------------
  // StringComparer.OrdinalIgnoreCase, restricted to ASCII case mapping
  // ---------------------------------------------------------------------------

  /** The upper-case form of an ASCII letter; every other character is its own upper-case form. */
  function ToUpperAscii(c: char): char {
    if 'a' <= c <= 'z' then (c as int - 32) as char else c
  }

  /** Upper-cases every character of `s`. */
  function ToUpper(s: string): string {
    seq(|s|, i requires 0 <= i < |s| => ToUpperAscii(s[i]))
  }

  /**
   * Two characters have the same upper-case form exactly when they are equal
   * or one is the lower-case ASCII letter of the other.
   */
  lemma SameUpperIff(c: char, d: char)
    ensures ToUpperAscii(c) == ToUpperAscii(d) <==>
      c == d || ('a' <= c <= 'z' && d as int == c as int - 32) || ('a' <= d <= 'z' && c as int == d as int - 32)
  {
  }

  /** `StringComparer.OrdinalIgnoreCase.Equals(a, b)`: same length, and code units equal after upper-casing. */
  predicate EqualsIgnoreCase(a: string, b: string)
    ensures EqualsIgnoreCase(a, b) ==> |a| == |b|
    ensures a == b ==> EqualsIgnoreCase(a, b)
  {
    |a| == |b| && forall i :: 0 <= i < |a| ==> ToUpperAscii(a[i]) == ToUpperAscii(b[i])
  }

  /** Two strings are equal ignoring case exactly when their upper-case forms are equal. */
  lemma EqualsIgnoreCaseIffSameUpper(a: string, b: string)
    ensures EqualsIgnoreCase(a, b) <==> ToUpper(a) == ToUpper(b)
  {
    if ToUpper(a) == ToUpper(b) {
      assert |a| == |b|;
      forall i | 0 <= i < |a| ensures ToUpperAscii(a[i]) == ToUpperAscii(b[i]) {
        assert ToUpper(a)[i] == ToUpper(b)[i];
      }
    }
  }

  /** The comparison is an equivalence relation. */
  lemma EqualsIgnoreCaseEquivalence(a: string, b: string, c: string)
    ensures EqualsIgnoreCase(a, a)
    ensures EqualsIgnoreCase(a, b) ==> EqualsIgnoreCase(b, a)
    ensures EqualsIgnoreCase(a, b) && EqualsIgnoreCase(b, c) ==> EqualsIgnoreCase(a, c)
  {
  }

  /**
   * `list.Contains(value, StringComparer.OrdinalIgnoreCase)`: some element
   * equals `value` ignoring case.
   */
  function ContainsIgnoreCase(list: seq<string>, value: string): (b: bool)
    ensures b <==> exists i :: 0 <= i < |list| && EqualsIgnoreCase(list[i], value)
  {
    if |list| == 0 then false
    else if EqualsIgnoreCase(list[0], value) then true
    else
      var b := ContainsIgnoreCase(list[1..], value);
      assert b ==> exists i :: 0 <= i < |list| && EqualsIgnoreCase(list[i], value) by {
        if b {
          var j :| 0 <= j < |list| - 1 && EqualsIgnoreCase(list[1..][j], value);
          assert list[j + 1] == list[1..][j];
        }
      }
      assert (exists i :: 0 <= i < |list| && EqualsIgnoreCase(list[i], value)) ==> b by {
        if exists i :: 0 <= i < |list| && EqualsIgnoreCase(list[i], value) {
          var i :| 0 <= i < |list| && EqualsIgnoreCase(list[i], value);
          assert i > 0 && list[1..][i - 1] == list[i];
        }
      }
      b
  }
}
