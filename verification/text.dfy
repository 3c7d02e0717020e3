/**
 * The JavaScript string primitives the exporter relies on: `trim`, `split` on a
 * one-character separator, `includes` and `startsWith`. Strings are sequences of
 * code points; every separator involved is ASCII, so UTF-16 code units make no
 * difference here.
 */
module Text {

  /**
   * The code points `String.prototype.trim` strips: the ECMAScript WhiteSpace
   * and LineTerminator productions (tab, vertical tab, form feed, space,
   * no-break space, byte-order mark, the Unicode space separators, LF, CR,
   * line separator and paragraph separator).
   */
  predicate IsSpace(c: char) {
    || c == ' ' || c == '\t' || c == '\n' || c == '\r'
    || c == '\U{000B}' || c == '\U{000C}' || c == '\U{00A0}' || c == '\U{1680}'
    || ('\U{2000}' <= c <= '\U{200A}')
    || c == '\U{2028}' || c == '\U{2029}' || c == '\U{202F}' || c == '\U{205F}'
    || c == '\U{3000}' || c == '\U{FEFF}'
  }

  /** Every character is white space (vacuously true of ""). */
  predicate Blank(s: string) {
    forall i :: 0 <= i < |s| ==> IsSpace(s[i])
  }

  /** Neither starts nor ends with white space: the shape of a trimmed string. */
  predicate Unpadded(s: string) {
    s == [] || (!IsSpace(s[0]) && !IsSpace(s[|s| - 1]))
  }

  /** The length of the longest all-space prefix. */
  function LeadingSpaces(s: string): (n: nat)
    ensures n <= |s| && Blank(s[..n])
    ensures n < |s| ==> !IsSpace(s[n])
  {
    if |s| > 0 && IsSpace(s[0]) then 1 + LeadingSpaces(s[1..]) else 0
  }

  /** `String.prototype.trimStart`: drops the all-space prefix. */
  function TrimStart(s: string): (r: string)
    ensures |r| <= |s| && r == s[|s| - |r|..]
    ensures Blank(s[..|s| - |r|])
    ensures r != [] ==> !IsSpace(r[0])
  {
    s[LeadingSpaces(s)..]
  }

  /** `String.prototype.trimEnd`: drops the all-space suffix. */
  function TrimEnd(s: string): (r: string)
    ensures |r| <= |s| && r == s[..|r|]
    ensures Blank(s[|r|..])
    ensures r != [] ==> !IsSpace(r[|r| - 1])
  {
    if |s| > 0 && IsSpace(s[|s| - 1]) then
      var r := TrimEnd(s[..|s| - 1]);
      assert s[|r|..] == s[..|s| - 1][|r|..] + [s[|s| - 1]];
      r
    else s
  }

  /**
   * `String.prototype.trim`: strips white space at both ends, leaving a
   * string that neither starts nor ends with white space, and that is empty
   * exactly when `s` is blank. `TrimSlice` says which slice of `s` it is.
   */
  function Trim(s: string): (r: string)
    ensures r == [] <==> Blank(s)
    ensures Unpadded(r)
  {
    TrimBlank(s);
    TrimEnd(TrimStart(s))
  }

  lemma TrimBlank(s: string)
    ensures TrimEnd(TrimStart(s)) == [] <==> Blank(s)
  {
    var k := LeadingSpaces(s);
    var t := TrimStart(s);
    var r := TrimEnd(t);
    if r == [] {
      assert t[|r|..] == t;
      BlankAround(s, k);
    }
    if Blank(s) {
      assert k == |s|;
    }
  }

  /**
   * The trimmed string is the slice of `s` starting at its first non-space
   * character and followed only by white space.
   */
  lemma {:induction false} TrimSlice(s: string)
    ensures LeadingSpaces(s) + |Trim(s)| <= |s|
    ensures Trim(s) == s[LeadingSpaces(s)..LeadingSpaces(s) + |Trim(s)|]
    ensures Blank(s[LeadingSpaces(s) + |Trim(s)|..])
  {
    var k := LeadingSpaces(s);
    var t := TrimStart(s);
    assert t == s[k..];
    var r := TrimEnd(t);
    assert Trim(s) == r;
    assert r == t[..|r|] == s[k..k + |r|];
    assert t[|r|..] == s[k + |r|..];
  }

  /** A blank prefix followed by a blank rest makes a blank string. */
  lemma BlankAround(s: string, k: nat)
    requires k <= |s| && Blank(s[..k]) && Blank(s[k..])
    ensures Blank(s)
  {
    forall i | 0 <= i < |s|
      ensures IsSpace(s[i])
    {
      if i < k {
        assert s[i] == s[..k][i];
      } else {
        assert s[i] == s[k..][i - k];
      }
    }
  }

  /** Trimming is idempotent: an unpadded string is its own trim. */
  lemma TrimUnpadded(s: string)
    requires Unpadded(s)
    ensures Trim(s) == s
  {
    if s != [] {
      assert LeadingSpaces(s) == 0;
      assert TrimEnd(s) == s;
    }
  }

  lemma TrimIdempotent(s: string)
    ensures Trim(Trim(s)) == Trim(s)
  {
    TrimUnpadded(Trim(s));
  }

  /** Trimming never introduces a character. */
  lemma TrimKeeps(s: string, c: char)
    requires c !in s
    ensures c !in Trim(s)
  {
    var k := LeadingSpaces(s);
    var r := Trim(s);
    TrimSlice(s);
    forall i | 0 <= i < |r|
      ensures r[i] != c
    {
      assert r[i] == s[k + i];
    }
  }

  /** A string that already starts with a non-space keeps its first character. */
  lemma TrimKeepsHead(s: string)
    requires |s| > 0 && !IsSpace(s[0])
    ensures Trim(s) != [] && Trim(s)[0] == s[0]
  {
    assert !Blank(s);
    TrimSlice(s);
  }

  /** `s.startsWith(c)` for a one-character `c`. */
  predicate StartsWith(s: string, c: char) {
    |s| > 0 && s[0] == c
  }

  /** The number of occurrences of `c` in `s`. */
  function Occurrences(s: string, c: char): (n: nat)
    ensures n == 0 <==> c !in s
    ensures n <= |s|
  {
    if |s| == 0 then 0 else (if s[0] == c then 1 else 0) + Occurrences(s[1..], c)
  }

  /** The inverse of `Split`: the pieces glued back together with `sep`. */
  function Join(pieces: seq<string>, sep: char): string
    requires |pieces| >= 1
  {
    if |pieces| == 1 then pieces[0] else pieces[0] + [sep] + Join(pieces[1..], sep)
  }

  /**
   * `s.split(sep)` for a one-character separator: the maximal sep-free runs,
   * one more than there are separators (so `""` splits into `[""]`), which
   * `Join` glues back into `s`.
   */
  function Split(s: string, sep: char): (r: seq<string>)
    ensures |r| == Occurrences(s, sep) + 1
    ensures forall i :: 0 <= i < |r| ==> sep !in r[i]
    ensures Join(r, sep) == s
  {
    if |s| == 0 then [""]
    else
      var rest := Split(s[1..], sep);
      assert [s[0]] + s[1..] == s;
      if s[0] == sep then
        NewPiece(rest, sep);
        [""] + rest
      else
        GrowPiece(s[0], rest, sep);
        [[s[0]] + rest[0]] + rest[1..]
  }

  /** A separator in front starts a new, empty first piece. */
  lemma NewPiece(rest: seq<string>, sep: char)
    requires |rest| >= 1
    ensures Join([""] + rest, sep) == [sep] + Join(rest, sep)
  {
    assert ([""] + rest)[1..] == rest;
  }

  /** A non-separator in front joins the first piece. */
  lemma GrowPiece(c: char, rest: seq<string>, sep: char)
    requires |rest| >= 1 && c != sep
    requires forall i :: 0 <= i < |rest| ==> sep !in rest[i]
    ensures var r := [[c] + rest[0]] + rest[1..];
      && (forall i :: 0 <= i < |r| ==> sep !in r[i])
      && Join(r, sep) == [c] + Join(rest, sep)
  {
    var r := [[c] + rest[0]] + rest[1..];
    assert r[1..] == rest[1..];
    forall i | 0 <= i < |r|
      ensures sep !in r[i]
    {
      if i > 0 {
        assert r[i] == rest[i];
      }
    }
  }

  lemma {:induction false} SplitSepFree(s: string, sep: char)
    requires sep !in s
    ensures Split(s, sep) == [s]
  {
    if |s| > 0 {
      SplitSepFree(s[1..], sep);
      assert [s[0]] + s[1..] == s;
    }
  }

  /** Splitting at a separator that follows a sep-free prefix. */
  lemma {:induction false} SplitAfterPiece(a: string, sep: char, b: string)
    requires sep !in a
    ensures Split(a + [sep] + b, sep) == [a] + Split(b, sep)
  {
    var s := a + [sep] + b;
    if |a| == 0 {
      assert s[0] == sep && s[1..] == b;
    } else {
      assert s[0] == a[0] && s[1..] == a[1..] + [sep] + b;
      SplitAfterPiece(a[1..], sep, b);
      var rest := Split(s[1..], sep);
      assert rest[0] == a[1..] && rest[1..] == Split(b, sep);
      assert [a[0]] + a[1..] == a;
    }
  }

  /** `Split` is a left inverse of `Join` on sep-free pieces. */
  lemma {:induction false} SplitJoin(pieces: seq<string>, sep: char)
    requires |pieces| >= 1
    requires forall i :: 0 <= i < |pieces| ==> sep !in pieces[i]
    ensures Split(Join(pieces, sep), sep) == pieces
  {
    if |pieces| == 1 {
      SplitSepFree(pieces[0], sep);
    } else {
      SplitJoin(pieces[1..], sep);
      SplitAfterPiece(pieces[0], sep, Join(pieces[1..], sep));
      assert [pieces[0]] + pieces[1..] == pieces;
    }
  }

  /** The first piece of a string that does not start with the separator is not empty. */
  lemma SplitFirstPiece(s: string, sep: char)
    requires |s| > 0 && s[0] != sep
    ensures Split(s, sep)[0] != [] && Split(s, sep)[0][0] == s[0]
  {
  }

  /** The last piece of a string that does not end with the separator is not empty. */
  lemma SplitLastPiece(s: string, sep: char)
    requires |s| > 0 && s[|s| - 1] != sep
    ensures var r := Split(s, sep); r[|r| - 1] != []
  {
    var r := Split(s, sep);
    if |r| > 1 && r[|r| - 1] == [] {
      JoinEmptyLast(r, sep);
    }
  }

  /** Gluing pieces whose last one is empty ends with the separator. */
  lemma {:induction false} JoinEmptyLast(pieces: seq<string>, sep: char)
    requires |pieces| > 1 && pieces[|pieces| - 1] == []
    ensures var j := Join(pieces, sep); |j| > 0 && j[|j| - 1] == sep
  {
    if |pieces| > 2 {
      JoinEmptyLast(pieces[1..], sep);
    }
  }

  /** `s` holds `t` at position `i`. */
  predicate OccursAt(s: string, t: string, i: int) {
    0 <= i && i + |t| <= |s| && s[i..i + |t|] == t
  }

  /** `s.includes(t)`: `t` occurs somewhere in `s`. */
  predicate Contains(s: string, t: string)
    decreases |s|
  {
    |t| <= |s| && (s[..|t|] == t || Contains(s[1..], t))
  }

  lemma {:induction false} ContainsIff(s: string, t: string)
    ensures Contains(s, t) <==> exists i :: OccursAt(s, t, i)
    decreases |s|
  {
    if |t| <= |s| {
      if s[..|t|] == t {
        assert OccursAt(s, t, 0);
      } else {
        ContainsIff(s[1..], t);
        if Contains(s[1..], t) {
          var i :| OccursAt(s[1..], t, i);
          assert s[1..][i..i + |t|] == s[i + 1..i + 1 + |t|];
          assert OccursAt(s, t, i + 1);
        } else {
          assert s[0..|t|] == s[..|t|];
          assert !OccursAt(s, t, 0);
          forall i | 0 < i && OccursAt(s, t, i)
            ensures OccursAt(s[1..], t, i - 1)
          {
            assert s[1..][i - 1..i - 1 + |t|] == s[i..i + |t|];
          }
        }
      }
    }
  }
}
