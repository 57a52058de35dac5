/** String helpers shared by the models: whitespace classes, trimming, joining,
    splitting, ASCII case mapping, searching and decimal rendering. */
module Strings {
  import Seqs

  /** Python's `str.isspace` character class (what `str.strip()` removes). */
  predicate IsPySpace(c: char) {
    IsDotNetSpace(c) || ('\U{1C}' <= c <= '\U{1F}')
  }

  /** .NET's `char.IsWhiteSpace` (what `string.Trim()` removes): the space,
      line and paragraph separators, U+0009..U+000D and U+0085. */
  predicate IsDotNetSpace(c: char) {
    || c == ' ' || ('\t' <= c <= '\r') || c == '\U{85}' || c == '\U{A0}'
    || c == '\U{1680}' || ('\U{2000}' <= c <= '\U{200A}') || c == '\U{2028}'
    || c == '\U{2029}' || c == '\U{202F}' || c == '\U{205F}' || c == '\U{3000}'
  }

  predicate AllIn(s: string, ws: char -> bool) {
    forall i :: 0 <= i < |s| ==> ws(s[i])
  }

  /** Drops leading `ws` characters. Its shape is stated by `TrimStartShape`
      rather than by an `ensures`, so that strings that are only passed
      around do not drag slicing facts into every proof. */
  function TrimStart(s: string, ws: char -> bool): string
    decreases |s|
  {
    if s != [] && ws(s[0]) then TrimStart(s[1..], ws) else s
  }

  /** Drops trailing `ws` characters. */
  function TrimEnd(s: string, ws: char -> bool): string
    decreases |s|
  {
    if s != [] && ws(s[|s| - 1]) then TrimEnd(s[..|s| - 1], ws) else s
  }

  /** What `TrimStart` keeps is a suffix that does not start with `ws`, and
      what it drops is all `ws`. */
  lemma {:induction false} TrimStartShape(s: string, ws: char -> bool)
    ensures var r := TrimStart(s, ws);
      && |r| <= |s| && r == s[|s| - |r|..]
      && (r != [] ==> !ws(r[0]))
      && forall i :: 0 <= i < |s| - |r| ==> ws(s[i])
    decreases |s|
  {
    if s != [] && ws(s[0]) {
      TrimStartShape(s[1..], ws);
    }
  }

  /** What `TrimEnd` keeps is a prefix that does not end with `ws`, and what
      it drops is all `ws`. */
  lemma {:induction false} TrimEndShape(s: string, ws: char -> bool)
    ensures var r := TrimEnd(s, ws);
      && |r| <= |s| && r == s[..|r|]
      && (r != [] ==> !ws(r[|r| - 1]))
      && forall i :: |r| <= i < |s| ==> ws(s[i])
    decreases |s|
  {
    if s != [] && ws(s[|s| - 1]) {
      TrimEndShape(s[..|s| - 1], ws);
    }
  }

  /** Removes the longest prefix and suffix made of `ws` characters. */
  function Trim(s: string, ws: char -> bool): string {
    TrimEnd(TrimStart(s, ws), ws)
  }

  /** The trimmed string neither starts nor ends with a `ws` character, and it
      is the piece of `s` that starts after the removed prefix. */
  lemma TrimIsSlice(s: string, ws: char -> bool)
    ensures var k := |s| - |TrimStart(s, ws)|; var r := Trim(s, ws);
      && 0 <= k && k + |r| <= |s| && r == s[k..k + |r|]
      && (r != [] ==> !ws(r[0]) && !ws(r[|r| - 1]))
  {
    var t := TrimStart(s, ws);
    TrimStartShape(s, ws);
    TrimEndShape(t, ws);
  }

  /** A string trims to "" exactly when it consists of `ws` characters only. */
  lemma TrimEmptyIff(s: string, ws: char -> bool)
    ensures Trim(s, ws) == "" <==> AllIn(s, ws)
  {
    var t := TrimStart(s, ws);
    TrimStartShape(s, ws);
    TrimEndShape(t, ws);
    if Trim(s, ws) != "" {
      var r := Trim(s, ws);
      TrimIsSlice(s, ws);
      assert s[|s| - |t|] == r[0];
    }
  }

  /** Trimming introduces no character that was not there. */
  lemma TrimKeepsAbsent(s: string, ws: char -> bool, bad: char -> bool)
    requires forall i :: 0 <= i < |s| ==> !bad(s[i])
    ensures forall i :: 0 <= i < |Trim(s, ws)| ==> !bad(Trim(s, ws)[i])
  {
    TrimIsSlice(s, ws);
    var k := |s| - |TrimStart(s, ws)|;
    var r := Trim(s, ws);
    forall i | 0 <= i < |r| ensures !bad(r[i]) {
      assert r[i] == s[k + i];
    }
  }

  /** `ws`-only strings are closed under concatenation, and only they. */
  lemma AllInAppend(a: string, b: string, ws: char -> bool)
    ensures AllIn(a + b, ws) <==> AllIn(a, ws) && AllIn(b, ws)
  {
    if AllIn(a + b, ws) {
      forall i | 0 <= i < |a| ensures ws(a[i]) {
        assert a[i] == (a + b)[i];
      }
      forall i | 0 <= i < |b| ensures ws(b[i]) {
        assert b[i] == (a + b)[|a| + i];
      }
    }
  }

  /** Python `str.strip()` with no argument. */
  function PyStrip(s: string): string { Trim(s, IsPySpace) }

  /** .NET `string.Trim()` with no argument. */
  function DotNetTrim(s: string): string { Trim(s, IsDotNetSpace) }

  /** `sep.join(parts)`. */
  function Join(sep: string, parts: seq<string>): string
    decreases |parts|
  {
    if |parts| == 0 then ""
    else if |parts| == 1 then parts[0]
    else Join(sep, parts[..|parts| - 1]) + sep + parts[|parts| - 1]
  }

  /** `"".join(parts)`. */
  function Concat(parts: seq<string>): string
    decreases |parts|
  {
    if parts == [] then "" else Concat(parts[..|parts| - 1]) + parts[|parts| - 1]
  }

  lemma ConcatSnoc(parts: seq<string>, last: string)
    ensures Concat(parts + [last]) == Concat(parts) + last
  {
    assert (parts + [last])[..|parts|] == parts;
  }

  /** A join is empty when there is nothing to join; it is non-empty as soon as
      one part is. */
  lemma {:induction false} JoinNonEmpty(sep: string, parts: seq<string>, k: nat)
    requires k < |parts| && parts[k] != ""
    ensures Join(sep, parts) != ""
    decreases |parts|
  {
    if |parts| > 1 && k < |parts| - 1 {
      JoinNonEmpty(sep, parts[..|parts| - 1], k);
    }
  }

  /** A join begins with its first part. */
  lemma {:induction false} JoinStartsWith(sep: string, parts: seq<string>)
    requires parts != []
    ensures StartsWith(Join(sep, parts), parts[0])
    decreases |parts|
  {
    if |parts| > 1 {
      var init := parts[..|parts| - 1];
      JoinStartsWith(sep, init);
      assert Join(sep, parts)[..|parts[0]|] == Join(sep, init)[..|parts[0]|];
    }
  }

  /** The pieces of `s` between separator characters, empty pieces included
      (C# `Split` without options, Python `split` with a separator). */
  function SplitOn(s: string, isSep: char -> bool): (r: seq<string>)
    ensures |r| >= 1
    decreases |s|
  {
    if s == [] then [""] else SplitStep(SplitOn(s[..|s| - 1], isSep), s[|s| - 1], isSep)
  }

  /** Extends the pieces of a prefix by one more character. */
  function SplitStep(pieces: seq<string>, c: char, isSep: char -> bool): (r: seq<string>)
    requires |pieces| >= 1
    ensures |r| >= 1
  {
    if isSep(c) then pieces + [""]
    else pieces[..|pieces| - 1] + [pieces[|pieces| - 1] + [c]]
  }

  lemma SplitSnoc(s: string, x: char, isSep: char -> bool)
    ensures SplitOn(s + [x], isSep) == SplitStep(SplitOn(s, isSep), x, isSep)
  {
    assert (s + [x])[..|s|] == s;
  }

  lemma StepAppend(a: seq<string>, b: seq<string>, x: char, isSep: char -> bool)
    requires |b| >= 1
    ensures SplitStep(a + b, x, isSep) == a + SplitStep(b, x, isSep)
  {
    if !isSep(x) {
      assert (a + b)[..|a + b| - 1] == a + b[..|b| - 1];
    }
  }

  /** No piece holds a separator. */
  lemma {:induction false} SplitPiecesHaveNoSep(s: string, isSep: char -> bool, p: string)
    requires p in SplitOn(s, isSep)
    ensures forall j :: 0 <= j < |p| ==> !isSep(p[j])
    decreases |s|
  {
    if s != [] {
      var rest := SplitOn(s[..|s| - 1], isSep);
      var x := s[|s| - 1];
      if p in rest {
        SplitPiecesHaveNoSep(s[..|s| - 1], isSep, p);
      } else if p != "" {
        var last := rest[|rest| - 1];
        assert !isSep(x) && p == last + [x] by {
          assert p in SplitStep(rest, x, isSep);
          if !isSep(x) {
            assert p !in rest[..|rest| - 1];
          }
        }
        SplitPiecesHaveNoSep(s[..|s| - 1], isSep, last);
      }
    }
  }

  lemma {:induction false} SplitNoSep(s: string, isSep: char -> bool)
    requires forall i :: 0 <= i < |s| ==> !isSep(s[i])
    ensures SplitOn(s, isSep) == [s]
    decreases |s|
  {
    if s != [] {
      var s' := s[..|s| - 1];
      SplitNoSep(s', isSep);
      assert s' + [s[|s| - 1]] == s;
    }
  }

  /** Splitting distributes over a separator character. */
  lemma {:induction false} SplitAtSep(a: string, c: char, b: string, isSep: char -> bool)
    requires isSep(c)
    ensures SplitOn(a + [c] + b, isSep) == SplitOn(a, isSep) + SplitOn(b, isSep)
    decreases |b|
  {
    if b == [] {
      assert a + [c] + b == a + [c];
      SplitSnoc(a, c, isSep);
    } else {
      var b' := b[..|b| - 1];
      var x := b[|b| - 1];
      assert a + [c] + b == (a + [c] + b') + [x];
      assert b == b' + [x];
      SplitSnoc(a + [c] + b', x, isSep);
      SplitSnoc(b', x, isSep);
      SplitAtSep(a, c, b', isSep);
      StepAppend(SplitOn(a, isSep), SplitOn(b', isSep), x, isSep);
    }
  }

  /** A separator followed by separator-free text adds that text as a piece. */
  lemma SplitThenPiece(s: string, c: char, piece: string, isSep: char -> bool)
    requires isSep(c)
    requires forall i :: 0 <= i < |piece| ==> !isSep(piece[i])
    ensures SplitOn(s + [c] + piece, isSep) == SplitOn(s, isSep) + [piece]
  {
    SplitAtSep(s, c, piece, isSep);
    SplitNoSep(piece, isSep);
  }

  /** One piece more than there are separators. */
  lemma {:induction false} SplitCount(s: string, isSep: char -> bool)
    ensures |SplitOn(s, isSep)| == 1 + |Seqs.Filter(s, isSep)|
    decreases |s|
  {
    if s != [] {
      SplitCount(s[..|s| - 1], isSep);
    }
  }

  /** Splitting a join of separator-free pieces gives the pieces back. */
  lemma {:induction false} SplitJoin(parts: seq<string>, c: char, isSep: char -> bool)
    requires |parts| >= 1 && isSep(c)
    requires forall i, j :: 0 <= i < |parts| && 0 <= j < |parts[i]| ==> !isSep(parts[i][j])
    ensures SplitOn(Join([c], parts), isSep) == parts
    decreases |parts|
  {
    var n := |parts|;
    if n == 1 {
      SplitNoSep(parts[0], isSep);
    } else {
      var init := parts[..n - 1];
      SplitJoin(init, c, isSep);
      SplitThenPiece(Join([c], init), c, parts[n - 1], isSep);
      assert init + [parts[n - 1]] == parts;
    }
  }

  /** `t` occurs in `s` (Python `t in s`, C# `s.Contains(t)`). */
  predicate Contains(s: string, t: string) {
    exists i :: 0 <= i <= |s| - |t| && OccursAt(s, t, i)
  }

  predicate OccursAt(s: string, t: string, i: int) {
    0 <= i <= |s| - |t| && s[i..i + |t|] == t
  }

  lemma ContainsMiddle(x: string, t: string, y: string)
    ensures Contains(x + t + y, t)
  {
    assert (x + t + y)[|x|..|x| + |t|] == t;
    assert OccursAt(x + t + y, t, |x|);
  }

  lemma ContainsExtend(s: string, t: string, y: string)
    requires Contains(s, t)
    ensures Contains(s + y, t)
  {
    var i :| 0 <= i <= |s| - |t| && OccursAt(s, t, i);
    assert (s + y)[i..i + |t|] == s[i..i + |t|];
    assert OccursAt(s + y, t, i);
  }

  lemma ContainsPrefixOf(s: string, t: string, u: string)
    requires Contains(s, t) && StartsWith(t, u)
    ensures Contains(s, u)
  {
    var i :| 0 <= i <= |s| - |t| && OccursAt(s, t, i);
    assert s[i..i + |u|] == t[..|u|];
    assert OccursAt(s, u, i);
  }

  predicate StartsWith(s: string, prefix: string) {
    |prefix| <= |s| && s[..|prefix|] == prefix
  }

  predicate EndsWith(s: string, suffix: string) {
    |suffix| <= |s| && s[|s| - |suffix|..] == suffix
  }

  function AsciiLowerChar(c: char): char {
    if 'A' <= c <= 'Z' then (c as int - 'A' as int + 'a' as int) as char else c
  }

  /** `str.lower()` restricted to ASCII letters. */
  function AsciiLower(s: string): (r: string)
    ensures |r| == |s|
    ensures forall i :: 0 <= i < |s| ==> r[i] == AsciiLowerChar(s[i])
  {
    seq(|s|, i requires 0 <= i < |s| => AsciiLowerChar(s[i]))
  }

  /** Index of the first `c` in `s`, or -1 (Python `str.find`). */
  function IndexOf(s: string, c: char): (r: int)
    ensures -1 <= r < |s|
    ensures r == -1 <==> c !in s
    ensures r >= 0 ==> s[r] == c && c !in s[..r]
    decreases |s|
  {
    if s == [] then -1
    else if s[0] == c then 0
    else
      var k := IndexOf(s[1..], c);
      assert forall i :: 0 <= i < |s| - 1 ==> s[1..][i] == s[i + 1];
      if k == -1 then -1
      else
        assert s[..k + 1] == [s[0]] + s[1..][..k];
        k + 1
  }

  /** Index of the last `c` in `s`, or -1 (Python `str.rfind`). */
  function LastIndexOf(s: string, c: char): (r: int)
    ensures -1 <= r < |s|
    ensures r == -1 <==> c !in s
    ensures r >= 0 ==> s[r] == c && c !in s[r + 1..]
    decreases |s|
  {
    if s == [] then -1
    else if s[|s| - 1] == c then |s| - 1
    else
      var k := LastIndexOf(s[..|s| - 1], c);
      assert k >= 0 ==> s[k + 1..] == s[..|s| - 1][k + 1..] + [s[|s| - 1]];
      k
  }

  /** `os.path.basename` on POSIX paths: what follows the last '/'. */
  function Basename(p: string): (r: string)
    ensures '/' !in r && EndsWith(p, r)
    ensures '/' !in p ==> r == p
  {
    p[LastIndexOf(p, '/') + 1..]
  }

  /** The first piece of `SplitOn` is the text before the first separator. */
  lemma {:induction false} SplitFirstPiece(s: string, c: char, isSep: char -> bool)
    requires isSep(c) && forall x :: isSep(x) ==> x == c
    ensures SplitOn(s, isSep)[0] == if c in s then s[..IndexOf(s, c)] else s
    decreases |s|
  {
    if c !in s {
      SplitNoSep(s, isSep);
    } else {
      var s' := s[..|s| - 1];
      var x := s[|s| - 1];
      assert s == s' + [x];
      SplitSnoc(s', x, isSep);
      var rest := SplitOn(s', isSep);
      if c in s' {
        SplitFirstPiece(s', c, isSep);
        var k := IndexOf(s', c);
        assert s[k] == c && s[..k] == s'[..k];
        IndexIsFirst(s, c, k);
        SplitCount(s', isSep);
        Seqs.FilterMembership(s', isSep, c);
        assert |rest| >= 2;
        assert SplitStep(rest, x, isSep)[0] == rest[0];
      } else {
        IndexIsFirst(s, c, |s| - 1);
        SplitNoSep(s', isSep);
      }
    }
  }

  lemma IndexIsFirst(s: string, c: char, k: nat)
    requires k < |s| && s[k] == c && c !in s[..k]
    ensures IndexOf(s, c) == k
  {
  }

  /** Replaces every occurrence of character `c` by `rep` (Python `str.replace`
      with a one-character pattern). */
  function ReplaceChar(s: string, c: char, rep: string): (r: string)
    ensures c !in rep ==> c !in r
    decreases |s|
  {
    if s == [] then ""
    else ReplaceChar(s[..|s| - 1], c, rep) + (if s[|s| - 1] == c then rep else [s[|s| - 1]])
  }

  /** What one character of `s` becomes under `ReplaceChar`. */
  function CharImage(x: char, c: char, rep: string): string {
    if x == c then rep else [x]
  }

  /** The images of the characters of `s`, in order. */
  function CharImages(s: string, c: char, rep: string): (r: seq<string>)
    ensures |r| == |s|
    ensures forall i :: 0 <= i < |s| ==> r[i] == CharImage(s[i], c, rep)
  {
    seq(|s|, i requires 0 <= i < |s| => CharImage(s[i], c, rep))
  }

  /** `ReplaceChar` is the character-wise image: each occurrence of `c`
      becomes `rep`, every other character stays, and the order is kept. */
  lemma {:induction false} ReplaceCharIsImages(s: string, c: char, rep: string)
    ensures ReplaceChar(s, c, rep) == Concat(CharImages(s, c, rep))
    decreases |s|
  {
    if s != [] {
      var init := s[..|s| - 1];
      ReplaceCharIsImages(init, c, rep);
      assert CharImages(s, c, rep) == CharImages(init, c, rep) + [CharImage(s[|s| - 1], c, rep)];
      ConcatSnoc(CharImages(init, c, rep), CharImage(s[|s| - 1], c, rep));
    }
  }

  /** A string without `c` is left as it is. */
  lemma {:induction false} ReplaceCharAbsent(s: string, c: char, rep: string)
    requires c !in s
    ensures ReplaceChar(s, c, rep) == s
    decreases |s|
  {
    if s != [] {
      var init := s[..|s| - 1];
      assert c !in init by {
        forall i | 0 <= i < |init| ensures init[i] != c {
          assert init[i] == s[i];
        }
      }
      ReplaceCharAbsent(init, c, rep);
      assert s == init + [s[|s| - 1]];
    }
  }

  /** The length of `s` in UTF-16 code units (C# `string.Length`): a character
      above U+FFFF takes a surrogate pair. */
  function Utf16Length(s: string): nat
    decreases |s|
  {
    if s == [] then 0
    else Utf16Length(s[..|s| - 1]) + (if s[|s| - 1] as int > 0xFFFF then 2 else 1)
  }

  /** Between one and two code units per character; exactly one per character
      when every character is in the Basic Multilingual Plane. */
  lemma {:induction false} Utf16LengthBounds(s: string)
    ensures |s| <= Utf16Length(s) <= 2 * |s|
    ensures (forall i :: 0 <= i < |s| ==> s[i] as int <= 0xFFFF) ==> Utf16Length(s) == |s|
    decreases |s|
  {
    if s != [] {
      var init := s[..|s| - 1];
      Utf16LengthBounds(init);
      if forall i :: 0 <= i < |s| ==> s[i] as int <= 0xFFFF {
        assert forall i :: 0 <= i < |init| ==> init[i] == s[i];
      }
    }
  }

  /** A string made only of characters above U+FFFF takes two code units per character. */
  lemma {:induction false} Utf16LengthAstral(s: string)
    requires forall i :: 0 <= i < |s| ==> s[i] as int > 0xFFFF
    ensures Utf16Length(s) == 2 * |s|
    decreases |s|
  {
    if s != [] {
      var init := s[..|s| - 1];
      assert forall i :: 0 <= i < |init| ==> init[i] == s[i];
      Utf16LengthAstral(init);
    }
  }

  /** Python `str(n)` for a non-negative integer. */
  function NatToString(n: nat): (r: string)
    ensures |r| >= 1
    ensures forall i :: 0 <= i < |r| ==> '0' <= r[i] <= '9'
    ensures r[0] == '0' ==> n == 0 && r == "0"
    decreases n
  {
    if n < 10 then [DigitChar(n)] else NatToString(n / 10) + [DigitChar(n % 10)]
  }

  function DigitChar(d: nat): (c: char)
    requires d < 10
    ensures '0' <= c <= '9' && c as int - '0' as int == d
  {
    ('0' as int + d) as char
  }

  /** Reads a string of decimal digits back as a number. */
  function ParseDecimal(s: string): nat
    requires forall i :: 0 <= i < |s| ==> '0' <= s[i] <= '9'
    decreases |s|
  {
    if s == [] then 0
    else ParseDecimal(s[..|s| - 1]) * 10 + (s[|s| - 1] as int - '0' as int)
  }

  /** Rendering is invertible: no two naturals print alike. */
  lemma {:induction false} ParseNatToString(n: nat)
    ensures ParseDecimal(NatToString(n)) == n
    decreases n
  {
    if n >= 10 {
      ParseNatToString(n / 10);
      var r := NatToString(n);
      assert r[..|r| - 1] == NatToString(n / 10);
    }
  }
}
