/** The Python string primitives that the device-data generator and the
    migration report are built from, over Dafny strings (sequences of
    Unicode scalar values, which is what a Python `str` holds). */
module Text {

  /** `str.isspace()` for one character: the whitespace set Python's
      `strip()` and `split()` use. */
  predicate IsSpace(c: char)
  {
    c == ' ' || ('\t' <= c <= '\r') || ('\U{1c}' <= c <= '\U{1f}')
    || c == '\U{85}' || c == '\U{a0}' || c == '\U{1680}'
    || ('\U{2000}' <= c <= '\U{200a}') || c == '\U{2028}' || c == '\U{2029}'
    || c == '\U{202f}' || c == '\U{205f}' || c == '\U{3000}'
  }

  /** The line boundaries `str.splitlines()` recognises. Every one of them is
      whitespace, so `strip()` removes a line's terminator. */
  predicate IsLineBreak(c: char)
    ensures IsLineBreak(c) ==> IsSpace(c)
  {
    ('\n' <= c <= '\r') || ('\U{1c}' <= c <= '\U{1e}')
    || c == '\U{85}' || c == '\U{2028}' || c == '\U{2029}'
  }

  // ---------------------------------------------------------------------
  // strip() and split()
  // ---------------------------------------------------------------------

  /** `s.lstrip()`: what is left of `s` after its leading whitespace. */
  function TrimLeft(s: string): (r: string)
    ensures |r| <= |s|
  {
    if s != [] && IsSpace(s[0]) then TrimLeft(s[1..]) else s
  }

  /** `s.rstrip()`: what is left of `s` before its trailing whitespace. */
  function TrimRight(s: string): (r: string)
    ensures |r| <= |s|
  {
    if s != [] && IsSpace(s[|s| - 1]) then TrimRight(s[..|s| - 1]) else s
  }

  /** `s.strip()`. */
  function Strip(s: string): string
  {
    TrimRight(TrimLeft(s))
  }

  /** `lstrip()` removes exactly the leading whitespace: the result is a
      suffix of `s`, everything before it is whitespace, and it does not
      start with whitespace. */
  lemma {:induction false} TrimLeftSpec(s: string)
    ensures var r := TrimLeft(s);
      && r == s[|s| - |r|..]
      && (forall i :: 0 <= i < |s| - |r| ==> IsSpace(s[i]))
      && (r == [] || !IsSpace(r[0]))
  {
    if s != [] && IsSpace(s[0]) {
      TrimLeftSpec(s[1..]);
      var r := TrimLeft(s);
      forall i | 0 < i < |s| - |r| ensures IsSpace(s[i]) {
        assert s[i] == s[1..][i - 1];
      }
    }
  }

  /** `rstrip()` removes exactly the trailing whitespace. */
  lemma {:induction false} TrimRightSpec(s: string)
    ensures var r := TrimRight(s);
      && r == s[..|r|]
      && (forall i :: |r| <= i < |s| ==> IsSpace(s[i]))
      && (r == [] || !IsSpace(r[|r| - 1]))
  {
    if s != [] && IsSpace(s[|s| - 1]) {
      TrimRightSpec(s[..|s| - 1]);
    }
  }

  /** `strip()` gives the empty string exactly for an all-whitespace string,
      and otherwise a string that neither starts nor ends with whitespace. */
  lemma StripSpec(s: string)
    ensures Strip(s) == [] <==> forall i :: 0 <= i < |s| ==> IsSpace(s[i])
    ensures Strip(s) == [] || (!IsSpace(Strip(s)[0]) && !IsSpace(Strip(s)[|Strip(s)| - 1]))
  {
    var l := TrimLeft(s);
    TrimLeftSpec(s);
    TrimRightSpec(l);
    if Strip(s) == [] {
      assert l == [];
    } else {
      assert Strip(s)[0] == l[0];
    }
  }

  /** The number of leading characters of `s` that are not whitespace. */
  function WordEnd(s: string): (k: nat)
    ensures k <= |s|
    ensures s != [] && !IsSpace(s[0]) ==> k > 0
  {
    if s == [] || IsSpace(s[0]) then 0 else 1 + WordEnd(s[1..])
  }

  /** `WordEnd` stops at the first whitespace character. */
  lemma {:induction false} WordEndSpec(s: string)
    ensures forall i :: 0 <= i < WordEnd(s) ==> !IsSpace(s[i])
    ensures WordEnd(s) == |s| || IsSpace(s[WordEnd(s)])
  {
    if s != [] && !IsSpace(s[0]) {
      WordEndSpec(s[1..]);
    }
  }

  /** A field produced by `split()`: non-empty and free of whitespace. */
  predicate IsField(w: string)
  {
    w != [] && forall i :: 0 <= i < |w| ==> !IsSpace(w[i])
  }

  /** `s.split()` with no separator: the maximal runs of non-whitespace
      characters, in order. */
  function Fields(s: string): seq<string>
    decreases |s|
  {
    var t := TrimLeft(s);
    if t == [] then []
    else
      var k := WordEnd(t);
      [t[..k]] + Fields(t[k..])
  }

  /** Every piece `split()` returns is a field. */
  lemma {:induction false} FieldsAreFields(s: string)
    ensures forall k :: 0 <= k < |Fields(s)| ==> IsField(Fields(s)[k])
    decreases |s|
  {
    var t := TrimLeft(s);
    if t != [] {
      TrimLeftSpec(s);
      WordEndSpec(t);
      var k := WordEnd(t);
      FieldsAreFields(t[k..]);
      var w := t[..k];
      assert IsField(w) by {
        forall i | 0 <= i < |w| ensures !IsSpace(w[i]) {
          assert w[i] == t[i];
        }
      }
      assert Fields(s) == [w] + Fields(t[k..]);
    }
  }

  /** `sep.join(parts)`. */
  function Join(parts: seq<string>, sep: string): string
  {
    if |parts| == 0 then ""
    else if |parts| == 1 then parts[0]
    else parts[0] + sep + Join(parts[1..], sep)
  }

  /** `"".join(parts)`. */
  function Concat(parts: seq<string>): string
  {
    if parts == [] then "" else parts[0] + Concat(parts[1..])
  }

  lemma WordEndOfField(w: string, rest: string)
    requires IsField(w)
    requires rest == [] || IsSpace(rest[0])
    ensures WordEnd(w + rest) == |w|
  {
    WordEndSpec(w + rest);
    assert forall i :: 0 <= i < |w| ==> (w + rest)[i] == w[i];
    assert rest != [] ==> (w + rest)[|w|] == rest[0];
  }

  lemma FieldsOfField(w: string)
    requires IsField(w)
    ensures Fields(w) == [w]
  {
    WordEndOfField(w, "");
    assert w + "" == w;
    assert w[|w|..] == [];
  }

  lemma FieldsOfFieldThenRest(w: string, j: string)
    requires IsField(w)
    requires j == [] || !IsSpace(j[0])
    ensures Fields(w + " " + j) == [w] + Fields(j)
  {
    var s := w + " " + j;
    assert s == w + (" " + j);
    assert s[0] == w[0];
    WordEndOfField(w, " " + j);
    assert s[..|w|] == w;
    assert s[|w|..] == " " + j;
    assert (" " + j)[1..] == j;
    assert TrimLeft(" " + j) == TrimLeft(j);
  }

  /** Splitting fields joined by single spaces gives the fields back: `split()`
      loses nothing but the separators. */
  lemma {:induction false} FieldsOfJoin(ws: seq<string>)
    requires forall k :: 0 <= k < |ws| ==> IsField(ws[k])
    ensures Fields(Join(ws, " ")) == ws
  {
    if |ws| == 1 {
      FieldsOfField(ws[0]);
    } else if |ws| > 1 {
      var j := Join(ws[1..], " ");
      FieldsOfJoin(ws[1..]);
      assert j == [] || !IsSpace(j[0]) by {
        assert IsField(ws[1]);
        if |ws| == 2 { assert j == ws[1]; }
        else { assert j == ws[1] + " " + Join(ws[2..], " "); }
      }
      FieldsOfFieldThenRest(ws[0], j);
    }
  }

  /** `s` with every whitespace character removed. */
  function NonSpace(s: string): string
  {
    if s == [] then "" else (if IsSpace(s[0]) then "" else [s[0]]) + NonSpace(s[1..])
  }

  /** `lstrip()` removes only whitespace. */
  lemma {:induction false} NonSpaceTrimLeft(s: string)
    ensures NonSpace(TrimLeft(s)) == NonSpace(s)
  {
    if s != [] && IsSpace(s[0]) {
      NonSpaceTrimLeft(s[1..]);
    }
  }

  /** The word at the front of `s` is kept whole. */
  lemma {:induction false} NonSpaceWord(s: string)
    ensures NonSpace(s) == s[..WordEnd(s)] + NonSpace(s[WordEnd(s)..])
  {
    if s != [] && !IsSpace(s[0]) {
      NonSpaceWord(s[1..]);
      var k := WordEnd(s);
      assert s[1..][..k - 1] == s[1..k];
      assert s[1..][k - 1..] == s[k..];
      assert s[..k] == [s[0]] + s[1..k];
    }
  }

  /** `split()` removes nothing but whitespace: its fields, concatenated,
      are `s` with its whitespace taken out. */
  lemma {:induction false} FieldsConcat(s: string)
    ensures Concat(Fields(s)) == NonSpace(s)
    decreases |s|
  {
    var t := TrimLeft(s);
    NonSpaceTrimLeft(s);
    if t != [] {
      TrimLeftSpec(s);
      var k := WordEnd(t);
      NonSpaceWord(t);
      FieldsConcat(t[k..]);
    }
  }

  // ---------------------------------------------------------------------
  // splitlines(keepends=True)
  // ---------------------------------------------------------------------

  /** The index of the first line boundary in `s`, or `|s|`. */
  function BreakIndex(s: string): (k: nat)
    ensures k <= |s|
  {
    if s == [] || IsLineBreak(s[0]) then 0 else 1 + BreakIndex(s[1..])
  }

  /** The length of the first line of a non-empty `s`, its terminator included;
      `\r\n` is one terminator. */
  function FirstLineLength(s: string): (k: nat)
    requires s != []
    ensures 0 < k <= |s|
  {
    var b := BreakIndex(s);
    if b == |s| then |s|
    else if s[b] == '\r' && b + 1 < |s| && s[b + 1] == '\n' then b + 2
    else b + 1
  }

  /** `s.splitlines(keepends=True)`: the lines of `s`, each with its terminator. */
  function SplitLines(s: string): seq<string>
    decreases |s|
  {
    if s == [] then []
    else
      var k := FirstLineLength(s);
      [s[..k]] + SplitLines(s[k..])
  }

  /** `splitlines(keepends=True)` loses nothing: its lines, each non-empty,
      concatenate back to `s`. */
  lemma {:induction false} SplitLinesConcat(s: string)
    ensures Concat(SplitLines(s)) == s
    ensures forall k :: 0 <= k < |SplitLines(s)| ==> SplitLines(s)[k] != []
    decreases |s|
  {
    if s != [] {
      var k := FirstLineLength(s);
      SplitLinesConcat(s[k..]);
      assert s == s[..k] + s[k..];
    }
  }

  /** `BreakIndex` stops at the first line boundary. */
  lemma {:induction false} BreakIndexSpec(s: string)
    ensures forall i :: 0 <= i < BreakIndex(s) ==> !IsLineBreak(s[i])
    ensures BreakIndex(s) < |s| ==> IsLineBreak(s[BreakIndex(s)])
  {
    if s != [] && !IsLineBreak(s[0]) {
      BreakIndexSpec(s[1..]);
      forall i | 1 <= i < BreakIndex(s) ensures !IsLineBreak(s[i]) {
        assert s[i] == s[1..][i - 1];
      }
    }
  }

  /** A line as `splitlines(keepends=True)` returns it: non-empty, with no
      boundary before its terminator (`\r\n` counting as one), and ending
      with a boundary unless it is the last line. */
  predicate TerminatedLine(l: string, last: bool)
  {
    && l != []
    && (forall i :: 0 <= i < |l| - 1 ==>
          !IsLineBreak(l[i]) || (i == |l| - 2 && l[i] == '\r' && l[i + 1] == '\n'))
    && (!last ==> IsLineBreak(l[|l| - 1]))
  }

  /** The first line of `s` is a terminated line, and a `\r` ending it is
      not followed by `\n` (that pair would be one terminator). */
  lemma FirstLineShape(s: string)
    requires s != []
    ensures var k := FirstLineLength(s);
            && TerminatedLine(s[..k], k == |s|)
            && (k < |s| && s[k - 1] == '\r' ==> s[k] != '\n')
  {
    var k := FirstLineLength(s);
    var b := BreakIndex(s);
    BreakIndexSpec(s);
    var l := s[..k];
    forall i | 0 <= i < |l| - 1
      ensures !IsLineBreak(l[i]) || (i == |l| - 2 && l[i] == '\r' && l[i + 1] == '\n')
    {
      assert l[i] == s[i];
      if i >= b {
        assert i == b && k == b + 2;
      }
    }
  }

  /** Consecutive lines `a`, `b`: a `\r` ending `a` is not followed by a
      `\n` opening `b`. */
  predicate CrLfKept(a: string, b: string)
  {
    a != [] && b != [] && (a[|a| - 1] == '\r' ==> b[0] != '\n')
  }

  /** `splitlines(keepends=True)` cuts exactly at line boundaries: every
      line but possibly the last ends with a boundary, no line holds a
      boundary before its terminator, and a `\r\n` pair is never split
      between two lines. */
  lemma {:induction false} SplitLinesBoundaries(s: string)
    ensures forall k :: 0 <= k < |SplitLines(s)| ==> TerminatedLine(SplitLines(s)[k], k == |SplitLines(s)| - 1)
    ensures forall j, k :: 0 <= j && k == j + 1 && k < |SplitLines(s)| ==> CrLfKept(SplitLines(s)[j], SplitLines(s)[k])
    decreases |s|
  {
    if s != [] {
      var n := FirstLineLength(s);
      var rest := s[n..];
      var ls, tail := SplitLines(s), SplitLines(rest);
      FirstLineShape(s);
      SplitLinesBoundaries(rest);
      assert ls == [s[..n]] + tail;
      if rest != [] {
        assert tail[0] == rest[..FirstLineLength(rest)];
        assert tail[0][0] == s[n];
        assert CrLfKept(ls[0], ls[1]);
      }
      forall k | 1 <= k < |ls| ensures TerminatedLine(ls[k], k == |ls| - 1) {
        assert ls[k] == tail[k - 1];
        assert TerminatedLine(tail[k - 1], k - 1 == |tail| - 1);
      }
      forall j, k | 1 <= j && k == j + 1 && k < |ls| ensures CrLfKept(ls[j], ls[k]) {
        assert ls[j] == tail[j - 1] && ls[k] == tail[k - 1];
        assert CrLfKept(tail[j - 1], tail[k - 1]);
      }
    }
  }

  /** A string with no line boundary in it. */
  predicate NoLineBreak(s: string)
  {
    forall i :: 0 <= i < |s| ==> !IsLineBreak(s[i])
  }

  /** The first boundary of `a + "\n" + rest` is the newline after `a`. */
  lemma {:induction false} BreakIndexAt(a: string, rest: string)
    requires NoLineBreak(a)
    ensures BreakIndex(a + "\n" + rest) == |a|
    decreases |a|
  {
    if a != [] {
      assert (a + "\n" + rest)[1..] == a[1..] + "\n" + rest;
      BreakIndexAt(a[1..], rest);
    }
  }

  /** A line without boundaries, ended by a newline, is read back as one
      line. */
  lemma SplitLinesOfLine(a: string, rest: string)
    requires NoLineBreak(a)
    ensures SplitLines(a + "\n" + rest) == [a + "\n"] + SplitLines(rest)
  {
    var s := a + "\n" + rest;
    BreakIndexAt(a, rest);
    assert s[|a|] == '\n';
    assert s[..|a| + 1] == a + "\n";
    assert s[|a| + 1..] == rest;
  }

  // ---------------------------------------------------------------------
  // Substrings, ordering, decimal text, padding
  // ---------------------------------------------------------------------

  /** `sub in s` for strings. */
  predicate Contains(s: string, sub: string)
    decreases |s|
  {
    sub <= s || (s != [] && Contains(s[1..], sub))
  }

  /** `Contains` finds `sub` exactly when it occurs at some position of `s`. */
  lemma {:induction false} ContainsIffOccurs(s: string, sub: string)
    ensures Contains(s, sub) <==> exists i :: 0 <= i <= |s| && sub <= s[i..]
    decreases |s|
  {
    if sub <= s {
      assert s[0..] == s;
    } else if s == [] {
    } else {
      ContainsIffOccurs(s[1..], sub);
      if Contains(s[1..], sub) {
        var i :| 0 <= i <= |s| - 1 && sub <= s[1..][i..];
        assert s[i + 1..] == s[1..][i..];
      } else {
        forall i | 0 <= i <= |s| ensures !(sub <= s[i..]) {
          if i > 0 {
            assert s[i..] == s[1..][i - 1..];
          }
        }
      }
    }
  }

  /** Python's `<` on strings: lexicographic by code point. */
  predicate StrLess(a: string, b: string)
    decreases |a|
  {
    if a == [] then b != []
    else if b == [] then false
    else if a[0] != b[0] then a[0] < b[0]
    else StrLess(a[1..], b[1..])
  }

  lemma {:induction false} StrLessIrreflexive(a: string)
    ensures !StrLess(a, a)
  {
    if a != [] { StrLessIrreflexive(a[1..]); }
  }

  lemma {:induction false} StrLessTransitive(a: string, b: string, c: string)
    requires StrLess(a, b) && StrLess(b, c)
    ensures StrLess(a, c)
    decreases |a|
  {
    if a != [] && b != [] && c != [] && a[0] == b[0] && b[0] == c[0] {
      StrLessTransitive(a[1..], b[1..], c[1..]);
    }
  }

  lemma {:induction false} StrLessTotal(a: string, b: string)
    requires a != b
    ensures StrLess(a, b) || StrLess(b, a)
    decreases |a|
  {
    if a != [] && b != [] && a[0] == b[0] {
      assert a == [a[0]] + a[1..] && b == [b[0]] + b[1..];
      StrLessTotal(a[1..], b[1..]);
    }
  }

  /** Every non-empty finite set of strings has a least element, which is what
      `sorted()` picks first. */
  lemma {:induction false} LeastExists(s: set<string>)
    requires s != {}
    ensures exists m :: m in s && forall x :: x in s && x != m ==> StrLess(m, x)
    decreases |s|
  {
    var y :| y in s;
    if s == {y} {
      assert forall x :: x in s && x != y ==> StrLess(y, x);
    } else {
      var rest := s - {y};
      LeastExists(rest);
      var m :| m in rest && forall x :: x in rest && x != m ==> StrLess(m, x);
      if StrLess(m, y) {
        forall x | x in s && x != m ensures StrLess(m, x) {
          if x == y {} else { assert x in rest; }
        }
      } else {
        StrLessTotal(m, y);
        forall x | x in s && x != y ensures StrLess(y, x) {
          if x != m {
            assert x in rest;
            StrLessTransitive(y, m, x);
          }
        }
      }
    }
  }

  predicate IsDigit(c: char) { '0' <= c <= '9' }

  function DigitChar(d: nat): (c: char)
    requires d < 10
    ensures IsDigit(c)
  {
    (48 + d) as char
  }

  /** `str(n)` for a natural number: its decimal digits, no leading zero. */
  function NatToString(n: nat): (s: string)
    ensures s != [] && forall i :: 0 <= i < |s| ==> IsDigit(s[i])
  {
    if n < 10 then [DigitChar(n)] else NatToString(n / 10) + [DigitChar(n % 10)]
  }

  /** `int(s)` for a string of decimal digits. */
  function ParseNat(s: string): nat
    requires forall i :: 0 <= i < |s| ==> IsDigit(s[i])
  {
    if s == [] then 0
    else
      var d := s[|s| - 1];
      assert IsDigit(d);
      ParseNat(s[..|s| - 1]) * 10 + (d as int - 48)
  }

  /** Decimal text reads back as the number it was made from, so distinct
      numbers give distinct text. */
  lemma {:induction false} ParseNatToString(n: nat)
    ensures ParseNat(NatToString(n)) == n
  {
    var s := NatToString(n);
    if n >= 10 {
      ParseNatToString(n / 10);
      assert s[..|s| - 1] == NatToString(n / 10);
    }
  }

  /** `c * n` for a one-character string `c`. */
  function Repeat(c: char, n: nat): (r: string)
    ensures |r| == n && forall i :: 0 <= i < n ==> r[i] == c
  {
    if n == 0 then [] else Repeat(c, n - 1) + [c]
  }

  /** `s.ljust(w)`: `s` followed by spaces up to width `w`; never truncates. */
  function Pad(s: string, w: nat): (r: string)
    ensures |r| == if |s| < w then w else |s|
    ensures r[..|s|] == s && forall i :: |s| <= i < |r| ==> r[i] == ' '
  {
    if |s| < w then s + Repeat(' ', w - |s|) else s
  }

  /** The number of occurrences of `c` in `s`. */
  function Count(s: string, c: char): nat
  {
    if s == [] then 0 else Count(s[1..], c) + (if s[0] == c then 1 else 0)
  }

  /** The index of the first `c` in `s`, or `|s|`. */
  function IndexOf(s: string, c: char): (k: nat)
    ensures k <= |s|
    ensures forall i :: 0 <= i < k ==> s[i] != c
    ensures k == |s| || s[k] == c
  {
    if s == [] || s[0] == c then 0 else 1 + IndexOf(s[1..], c)
  }

  /** `s.split(sep, maxsplit)` for a one-character separator. */
  function SplitAtMost(s: string, sep: char, maxsplit: nat): (parts: seq<string>)
    ensures 1 <= |parts| <= maxsplit + 1
    ensures forall k :: 0 <= k < |parts| - 1 ==> sep !in parts[k]
    decreases |s|
  {
    var i := IndexOf(s, sep);
    if maxsplit == 0 || i == |s| then [s]
    else [s[..i]] + SplitAtMost(s[i + 1..], sep, maxsplit - 1)
  }

  lemma CountSplit(s: string, c: char, i: nat)
    requires i <= |s|
    ensures Count(s, c) == Count(s[..i], c) + Count(s[i..], c)
  {
    if i > 0 {
      CountSplit(s[1..], c, i - 1);
      assert s[1..][..i - 1] == s[..i][1..];
      assert s[1..][i - 1..] == s[i..];
    } else {
      assert s[i..] == s;
    }
  }

  lemma CountNone(s: string, c: char)
    requires c !in s
    ensures Count(s, c) == 0
  {
    if s != [] {
      assert c !in s[1..] by {
        forall x | x in s[1..] ensures x != c {
          var j :| 0 <= j < |s[1..]| && s[1..][j] == x;
          assert s[j + 1] == x;
        }
      }
      CountNone(s[1..], c);
    }
  }

  /** `split(sep, maxsplit)` cuts at separators only: the parts joined by
      the separator give `s` back. */
  lemma {:induction false} SplitAtMostJoin(s: string, sep: char, maxsplit: nat)
    ensures Join(SplitAtMost(s, sep, maxsplit), [sep]) == s
    decreases |s|
  {
    var i := IndexOf(s, sep);
    if maxsplit > 0 && i < |s| {
      var rest := SplitAtMost(s[i + 1..], sep, maxsplit - 1);
      SplitAtMostJoin(s[i + 1..], sep, maxsplit - 1);
      assert SplitAtMost(s, sep, maxsplit) == [s[..i]] + rest;
      assert ([s[..i]] + rest)[1..] == rest;
      assert s == s[..i] + [sep] + s[i + 1..];
    }
  }

  /** `split(sep, maxsplit)` makes one part more than there are separators,
      up to `maxsplit + 1` parts. */
  lemma {:induction false} SplitAtMostCount(s: string, sep: char, maxsplit: nat)
    ensures |SplitAtMost(s, sep, maxsplit)| ==
              if Count(s, sep) < maxsplit then Count(s, sep) + 1 else maxsplit + 1
    decreases |s|
  {
    var i := IndexOf(s, sep);
    if i == |s| {
      assert sep !in s;
      CountNone(s, sep);
    } else {
      CountSplit(s, sep, i);
      assert sep !in s[..i];
      CountNone(s[..i], sep);
      assert Count(s[i..], sep) == 1 + Count(s[i + 1..], sep) by {
        assert s[i..][1..] == s[i + 1..];
      }
      if maxsplit > 0 {
        SplitAtMostCount(s[i + 1..], sep, maxsplit - 1);
      }
    }
  }
}
