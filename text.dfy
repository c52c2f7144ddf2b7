/**
 * The JavaScript string operations the application relies on, over `string`
 * (a sequence of UTF-16 code units in JavaScript, of chars here).
 */
module Text {

  /** The characters JavaScript's `\s` class matches, which are also the ones `trim` strips. */
  predicate IsSpace(c: char) {
    c == ' ' || c == '\t' || c == '\n' || c == '\r' || c == '\U{000B}' || c == '\U{000C}'
    || c == '\U{00A0}' || c == '\U{1680}' || (0x2000 <= c as int <= 0x200A)
    || c == '\U{2028}' || c == '\U{2029}' || c == '\U{202F}' || c == '\U{205F}'
    || c == '\U{3000}' || c == '\U{FEFF}'
  }

  predicate NoSpace(s: string) {
    forall k :: 0 <= k < |s| ==> !IsSpace(s[k])
  }

  /** Neither the first nor the last character is white space. */
  predicate IsTrimmed(s: string) {
    s == [] || (!IsSpace(s[0]) && !IsSpace(s[|s| - 1]))
  }

  /** `s.trimStart()`: the longest suffix of `s` that does not start with white space. */
  function TrimStart(s: string): (r: string)
    ensures |r| <= |s|
    ensures r == [] || !IsSpace(r[0])
  {
    if s != [] && IsSpace(s[0]) then TrimStart(s[1..]) else s
  }

  /** `s.trimEnd()`: the longest prefix of `s` that does not end with white space. */
  function TrimEnd(s: string): (r: string)
    ensures |r| <= |s|
    ensures r == [] || !IsSpace(r[|r| - 1])
    ensures r != [] ==> r[0] == s[0]
  {
    if s != [] && IsSpace(s[|s| - 1]) then TrimEnd(s[..|s| - 1]) else s
  }

  /** `trimStart` keeps a suffix. */
  lemma {:induction false} TrimStartIsSuffix(s: string)
    ensures TrimStart(s) == s[|s| - |TrimStart(s)|..]
    decreases |s|
  {
    if s != [] && IsSpace(s[0]) {
      TrimStartIsSuffix(s[1..]);
      assert s[1..][|s| - 1 - |TrimStart(s[1..])|..] == s[|s| - |TrimStart(s)|..];
    }
  }

  /** `trimEnd` keeps a prefix. */
  lemma {:induction false} TrimEndIsPrefix(s: string)
    ensures TrimEnd(s) == s[..|TrimEnd(s)|]
    decreases |s|
  {
    if s != [] && IsSpace(s[|s| - 1]) {
      TrimEndIsPrefix(s[..|s| - 1]);
      assert s[..|s| - 1][..|TrimEnd(s)|] == s[..|TrimEnd(s)|];
    }
  }

  /** `s.trim()`: `s` without its leading and trailing white space. */
  function Trim(s: string): (r: string)
    ensures IsTrimmed(r)
    ensures |r| <= |s|
  {
    TrimEnd(TrimStart(s))
  }

  lemma TrimStartOfNonSpace(s: string)
    requires s == [] || !IsSpace(s[0])
    ensures TrimStart(s) == s
  {
  }

  /** Trimming text that is already trimmed changes nothing; so `Trim` is idempotent. */
  lemma TrimOfTrimmed(s: string)
    requires IsTrimmed(s)
    ensures Trim(s) == s
  {
    TrimStartOfNonSpace(s);
  }

  lemma TrimIdempotent(s: string)
    ensures Trim(Trim(s)) == Trim(s)
  {
    TrimOfTrimmed(Trim(s));
  }

  predicate AllSpace(s: string) {
    forall k :: 0 <= k < |s| ==> IsSpace(s[k])
  }

  /** What `trimStart` drops is white space. */
  lemma {:induction false} TrimStartDropsSpace(s: string)
    ensures AllSpace(s[..|s| - |TrimStart(s)|])
    decreases |s|
  {
    if s != [] && IsSpace(s[0]) {
      TrimStartDropsSpace(s[1..]);
      assert s[..|s| - |TrimStart(s)|] == [s[0]] + s[1..][..|s| - 1 - |TrimStart(s[1..])|];
    }
  }

  /** What `trimEnd` drops is white space. */
  lemma {:induction false} TrimEndDropsSpace(s: string)
    ensures AllSpace(s[|TrimEnd(s)|..])
    decreases |s|
  {
    if s != [] && IsSpace(s[|s| - 1]) {
      var s' := s[..|s| - 1];
      TrimEndDropsSpace(s');
      assert s[|TrimEnd(s)|..] == s'[|TrimEnd(s')|..] + [s[|s| - 1]];
    }
  }

  /** `TrimStart(s)` is the only suffix of `s` that starts with a non-space after dropping only white space. */
  lemma {:induction false} TrimStartUnique(s: string, r: string)
    requires |r| <= |s| && r == s[|s| - |r|..]
    requires r == [] || !IsSpace(r[0])
    requires AllSpace(s[..|s| - |r|])
    ensures TrimStart(s) == r
  {
    if |r| < |s| {
      assert IsSpace(s[..|s| - |r|][0]);
      assert s[1..][|s| - 1 - |r|..] == r;
      assert s[1..][..|s| - 1 - |r|] == s[..|s| - |r|][1..];
      TrimStartUnique(s[1..], r);
    }
  }

  /** `TrimEnd(s)` is the only prefix of `s` that ends with a non-space after dropping only white space. */
  lemma {:induction false} TrimEndUnique(s: string, r: string)
    requires |r| <= |s| && r == s[..|r|]
    requires r == [] || !IsSpace(r[|r| - 1])
    requires AllSpace(s[|r|..])
    ensures TrimEnd(s) == r
  {
    if |r| < |s| {
      assert IsSpace(s[|r|..][|s| - 1 - |r|]);
      var s' := s[..|s| - 1];
      assert s'[..|r|] == r;
      assert s'[|r|..] == s[|r|..][..|s| - 1 - |r|];
      TrimEndUnique(s', r);
    }
  }

  /** A trimmed middle part surrounded by white space is what `Trim` returns. */
  lemma TrimUnique(s: string, i: nat, j: nat)
    requires i <= j <= |s|
    requires AllSpace(s[..i]) && AllSpace(s[j..])
    requires IsTrimmed(s[i..j])
    ensures Trim(s) == s[i..j]
  {
    if i == j {
      TrimAllSpace(s, i);
    } else {
      var t := s[i..];
      TrimStartAt(s, i, j);
      assert t[..j - i] == s[i..j];
      assert t[j - i..] == s[j..];
      TrimEndUnique(t, s[i..j]);
    }
  }

  /** Text made only of white space trims to nothing. */
  lemma TrimAllSpace(s: string, i: nat)
    requires i <= |s| && AllSpace(s[..i]) && AllSpace(s[i..])
    ensures Trim(s) == []
  {
    assert s[..i] + s[i..] == s;
    AllSpaceConcat(s[..i], s[i..]);
    assert s[..|s| - 0] == s;
    TrimStartUnique(s, []);
  }

  /** Trimming the start stops at the first non-space, here at `i`. */
  lemma TrimStartAt(s: string, i: nat, j: nat)
    requires i < j <= |s| && AllSpace(s[..i]) && IsTrimmed(s[i..j])
    ensures TrimStart(s) == s[i..]
  {
    var t := s[i..];
    assert t[0] == s[i..j][0];
    assert s[..|s| - |t|] == s[..i];
    TrimStartUnique(s, t);
  }

  /** Where, inside `s`, the text `Trim(s)` sits. */
  lemma TrimBounds(s: string) returns (i: nat, j: nat)
    ensures i <= j <= |s| && Trim(s) == s[i..j]
    ensures AllSpace(s[..i]) && AllSpace(s[j..])
  {
    var t := TrimStart(s);
    i := |s| - |t|;
    j := i + |TrimEnd(t)|;
    TrimStartIsSuffix(s);
    TrimEndIsPrefix(t);
    TrimStartDropsSpace(s);
    TrimEndDropsSpace(t);
    assert t == s[i..];
    assert s[j..] == t[|TrimEnd(t)|..];
  }

  /** Padding with white space on either side does not change the trimmed text. */
  lemma TrimOfPadded(ws: string, s: string, ws': string)
    requires AllSpace(ws) && AllSpace(ws')
    ensures Trim(ws + s + ws') == Trim(s)
  {
    var i, j := TrimBounds(s);
    var p := ws + s + ws';
    assert AllSpace(p[..|ws| + i]) && AllSpace(p[|ws| + j..]) && p[|ws| + i..|ws| + j] == s[i..j] by {
      PaddedSlices(ws, s, ws', i, j);
      AllSpaceConcat(ws, s[..i]);
      AllSpaceConcat(s[j..], ws');
    }
    TrimUnique(p, |ws| + i, |ws| + j);
  }

  lemma PaddedSlices(ws: string, s: string, ws': string, i: nat, j: nat)
    requires i <= j <= |s|
    ensures (ws + s + ws')[|ws| + i..|ws| + j] == s[i..j]
    ensures (ws + s + ws')[..|ws| + i] == ws + s[..i]
    ensures (ws + s + ws')[|ws| + j..] == s[j..] + ws'
  {
    var q := ws + s;
    var p := q + ws';
    assert q[|ws|..] == s;
    assert p[..|q|] == q;
    assert p[|ws| + i..|ws| + j] == q[|ws| + i..|ws| + j];
    assert p[..|ws| + i] == q[..|ws| + i];
    assert q[|ws| + j..] == s[j..];
    assert p[|ws| + j..] == q[|ws| + j..] + ws';
  }

  lemma AllSpaceConcat(a: string, b: string)
    requires AllSpace(a) && AllSpace(b)
    ensures AllSpace(a + b)
  {
    assert forall k :: |a| <= k < |a + b| ==> (a + b)[k] == b[k - |a|];
  }

  function LowerChar(c: char): char {
    if 'A' <= c <= 'Z' then (c as int + 32) as char else c
  }

  function UpperChar(c: char): char {
    if 'a' <= c <= 'z' then (c as int - 32) as char else c
  }

  /** `s.toLowerCase()`, restricted to the ASCII letters. */
  function ToLower(s: string): (r: string)
    ensures |r| == |s|
    ensures forall k :: 0 <= k < |s| ==> r[k] == LowerChar(s[k])
  {
    seq(|s|, k requires 0 <= k < |s| => LowerChar(s[k]))
  }

  /** `s.toUpperCase()`, restricted to the ASCII letters. */
  function ToUpper(s: string): (r: string)
    ensures |r| == |s|
    ensures forall k :: 0 <= k < |s| ==> r[k] == UpperChar(s[k])
  {
    seq(|s|, k requires 0 <= k < |s| => UpperChar(s[k]))
  }

  lemma LowerCharKeepsSpace(c: char)
    ensures IsSpace(LowerChar(c)) <==> IsSpace(c)
  {
  }

  /** Lower-casing the three pieces around a middle part is slicing the lower-cased text. */
  lemma ToLowerPieces(s: string, i: nat, j: nat)
    requires i <= j <= |s|
    ensures ToLower(s)[..i] == ToLower(s[..i])
    ensures ToLower(s)[i..j] == ToLower(s[i..j])
    ensures ToLower(s)[j..] == ToLower(s[j..])
  {
  }

  lemma ToLowerAllSpace(s: string)
    requires AllSpace(s)
    ensures AllSpace(ToLower(s))
  {
    forall k | 0 <= k < |s|
      ensures IsSpace(ToLower(s)[k])
    {
      LowerCharKeepsSpace(s[k]);
    }
  }

  lemma ToLowerTrimmed(s: string)
    requires IsTrimmed(s)
    ensures IsTrimmed(ToLower(s))
  {
    if s != [] {
      LowerCharKeepsSpace(s[0]);
      LowerCharKeepsSpace(s[|s| - 1]);
    }
  }

  /** Lower-casing and trimming commute. */
  lemma TrimToLower(s: string)
    ensures Trim(ToLower(s)) == ToLower(Trim(s))
  {
    var i, j := TrimBounds(s);
    ToLowerPieces(s, i, j);
    ToLowerAllSpace(s[..i]);
    ToLowerAllSpace(s[j..]);
    ToLowerTrimmed(s[i..j]);
    TrimUnique(ToLower(s), i, j);
  }

  /** `s.startsWith(p)` */
  predicate StartsWith(s: string, p: string) {
    |p| <= |s| && s[..|p|] == p
  }

  lemma PrefixStartsWith(p: string, s: string)
    ensures StartsWith(p + s, p)
  {
    assert (p + s)[..|p|] == p;
  }

  /** `s.includes(p)` */
  predicate Contains(s: string, p: string)
    decreases |s|
  {
    StartsWith(s, p) || (s != [] && Contains(s[1..], p))
  }

  lemma {:induction false} ContainsAt(s: string, p: string, i: nat)
    requires i + |p| <= |s| && s[i..i + |p|] == p
    ensures Contains(s, p)
  {
    if i > 0 {
      assert s[1..][i - 1..i - 1 + |p|] == p;
      ContainsAt(s[1..], p, i - 1);
    }
  }

  lemma MismatchNotStart(s: string, p: string, k: nat)
    requires k < |p| && k < |s| && s[k] != p[k]
    ensures !StartsWith(s, p)
  {
    if |p| <= |s| {
      assert s[..|p|][k] == s[k];
    }
  }

  /** A needle without the separator cannot straddle it. */
  lemma {:induction false} ContainsAcrossSeparator(a: string, sep: char, b: string, p: string)
    requires sep !in p
    requires Contains(a + [sep] + b, p)
    ensures Contains(a, p) || Contains(b, p)
  {
    var s := a + [sep] + b;
    if p == [] {
      assert StartsWith(b, p);
    } else if a == [] {
      assert s[0] == sep && s[1..] == b;
      MismatchNotStart(s, p, 0);
    } else {
      if |p| > |a| {
        assert s[|a|] == sep;
        MismatchNotStart(s, p, |a|);
      }
      if StartsWith(s, p) {
        assert a[..|p|] == s[..|p|];
      } else {
        assert s[1..] == a[1..] + [sep] + b;
        ContainsAcrossSeparator(a[1..], sep, b, p);
      }
    }
  }

  /** `s.split(sep)` for a one-character separator: never empty, and no part holds the separator. */
  function Split(s: string, sep: char): (parts: seq<string>)
    ensures |parts| >= 1
    ensures forall k :: 0 <= k < |parts| ==> sep !in parts[k]
    ensures |parts[0]| <= |s| && parts[0] == s[..|parts[0]|]
    decreases |s|
  {
    if s == [] then [[]]
    else
      var rest := Split(s[1..], sep);
      if s[0] == sep then [[]] + rest
      else [[s[0]] + rest[0]] + rest[1..]
  }

  /** `parts.join(sep)` */
  function Join(parts: seq<string>, sep: char): string
    decreases |parts|
  {
    if |parts| == 0 then []
    else if |parts| == 1 then parts[0]
    else parts[0] + [sep] + Join(parts[1..], sep)
  }

  /** Joining the parts of a split gives the text back. */
  lemma {:induction false} JoinSplit(s: string, sep: char)
    ensures Join(Split(s, sep), sep) == s
    decreases |s|
  {
    if s != [] {
      var rest := Split(s[1..], sep);
      JoinSplit(s[1..], sep);
      if s[0] == sep {
        assert Split(s, sep)[1..] == rest;
      } else if |rest| > 1 {
        assert Split(s, sep)[1..] == rest[1..];
        assert Join(rest, sep) == rest[0] + [sep] + Join(rest[1..], sep);
      }
    }
  }

  lemma {:induction false} SplitWithoutSeparator(s: string, sep: char)
    requires sep !in s
    ensures Split(s, sep) == [s]
    decreases |s|
  {
    if s != [] {
      assert sep !in s[1..] by {
        forall k | 0 <= k < |s| - 1 ensures s[1..][k] != sep { assert s[1..][k] == s[k + 1]; }
      }
      SplitWithoutSeparator(s[1..], sep);
      assert s == [s[0]] + s[1..];
    }
  }

  lemma {:induction false} SplitAtSeparator(a: string, sep: char, b: string)
    requires sep !in a
    ensures Split(a + [sep] + b, sep) == [a] + Split(b, sep)
    decreases |a|
  {
    var s := a + [sep] + b;
    if a == [] {
      assert s[0] == sep && s[1..] == b;
    } else {
      assert s[0] == a[0] != sep;
      assert s[1..] == a[1..] + [sep] + b;
      assert sep !in a[1..] by {
        forall k | 0 <= k < |a| - 1 ensures a[1..][k] != sep { assert a[1..][k] == a[k + 1]; }
      }
      SplitAtSeparator(a[1..], sep, b);
      assert a == [a[0]] + a[1..];
    }
  }

  /** Splitting a join of separator-free parts gives the parts back. */
  lemma {:induction false} SplitJoin(parts: seq<string>, sep: char)
    requires |parts| >= 1
    requires forall k :: 0 <= k < |parts| ==> sep !in parts[k]
    ensures Split(Join(parts, sep), sep) == parts
    decreases |parts|
  {
    if |parts| == 1 {
      SplitWithoutSeparator(parts[0], sep);
    } else {
      SplitJoin(parts[1..], sep);
      SplitAtSeparator(parts[0], sep, Join(parts[1..], sep));
    }
  }

  /** A part of a split is a piece of the text, so it holds a needle only if the text does. */
  lemma {:induction false} SplitPartContains(s: string, sep: char, k: nat, p: string)
    requires k < |Split(s, sep)| && Contains(Split(s, sep)[k], p)
    ensures Contains(s, p)
    decreases |s|
  {
    var parts := Split(s, sep);
    if s == [] {
    } else {
      var rest := Split(s[1..], sep);
      if s[0] == sep {
        if k == 0 {
          assert StartsWith(s, p) by { assert StartsWith(parts[0], p); }
        } else {
          SplitPartContains(s[1..], sep, k - 1, p);
        }
      } else if k == 0 {
        var first := [s[0]] + rest[0];
        if StartsWith(first, p) {
          assert s[..|first|] == first;
          assert s[..|p|] == first[..|p|];
        } else {
          assert first[1..] == rest[0];
          SplitPartContains(s[1..], sep, 0, p);
        }
      } else {
        assert parts[k] == rest[k];
        SplitPartContains(s[1..], sep, k, p);
      }
    }
  }

  /** A join contains a separator-free needle only if one of its parts does. */
  lemma {:induction false} JoinContains(parts: seq<string>, sep: char, p: string)
    requires p != [] && sep !in p
    requires Contains(Join(parts, sep), p)
    ensures exists k :: 0 <= k < |parts| && Contains(parts[k], p)
    decreases |parts|
  {
    if |parts| > 1 {
      ContainsAcrossSeparator(parts[0], sep, Join(parts[1..], sep), p);
      if !Contains(parts[0], p) {
        JoinContains(parts[1..], sep, p);
        var k :| 0 <= k < |parts[1..]| && Contains(parts[1..][k], p);
        assert Contains(parts[k + 1], p);
      }
    }
  }

  /** `s.indexOf(c)`: the first position of `c`, or -1. */
  function IndexOf(s: string, c: char): (i: int)
    ensures -1 <= i < |s|
    ensures i == -1 <==> c !in s
    ensures i >= 0 ==> s[i] == c && c !in s[..i]
    decreases |s|
  {
    if s == [] then -1
    else if s[0] == c then 0
    else
      var i := IndexOf(s[1..], c);
      assert s[1..] == s[1..] && (i >= 0 ==> s[..i + 1] == [s[0]] + s[1..][..i]);
      if i < 0 then -1 else i + 1
  }

  /** `s.lastIndexOf(c)`: the last position of `c`, or -1. */
  function LastIndexOf(s: string, c: char): (i: int)
    ensures -1 <= i < |s|
    ensures i == -1 <==> c !in s
    ensures i >= 0 ==> s[i] == c && c !in s[i + 1..]
    decreases |s|
  {
    if s == [] then -1
    else if s[|s| - 1] == c then |s| - 1
    else
      var init := s[..|s| - 1];
      var i := LastIndexOf(init, c);
      assert s == init + [s[|s| - 1]];
      assert i >= 0 ==> s[i + 1..] == init[i + 1..] + [s[|s| - 1]];
      i
  }

  function Clamp(x: int, n: nat): (r: nat)
    ensures r <= n
  {
    if x < 0 then 0 else if x > n then n else x
  }

  /**
   * `s.substring(a, b)`: both bounds are clamped to the text, and swapped when
   * the first exceeds the second.
   */
  function Substring(s: string, a: int, b: int): (r: string)
    ensures var x, y := Clamp(a, |s|), Clamp(b, |s|);
            r == if x <= y then s[x..y] else s[y..x]
  {
    var x, y := Clamp(a, |s|), Clamp(b, |s|);
    if x <= y then s[x..y] else s[y..x]
  }

  /** `s.substring(0, n)` for a non-negative `n`: the first `n` characters. */
  function Prefix(s: string, n: nat): (r: string)
    ensures |r| == if n < |s| then n else |s|
    ensures r == s[..|r|]
  {
    Substring(s, 0, n)
  }

  /** `s.replace(/p/g, "")` for a literal `p`: every occurrence, found left to right, removed. */
  function RemoveAll(s: string, p: string): (r: string)
    requires p != []
    ensures |r| <= |s|
    decreases |s|
  {
    if StartsWith(s, p) then RemoveAll(s[|p|..], p)
    else if s == [] then []
    else [s[0]] + RemoveAll(s[1..], p)
  }

  /** `k` copies of `c`. */
  function Repeat(c: char, k: nat): (r: string)
    ensures |r| == k && forall i :: 0 <= i < k ==> r[i] == c
  {
    seq(k, _ => c)
  }

  lemma RepeatStart(s: string, c: char, m: nat)
    requires m > 0
    ensures StartsWith(s, Repeat(c, m)) <==> s != [] && s[0] == c && StartsWith(s[1..], Repeat(c, m - 1))
  {
    var p := Repeat(c, m);
    assert p[1..] == Repeat(c, m - 1);
    if s != [] && |p| <= |s| {
      assert s[..|p|] == [s[0]] + s[1..][..|p| - 1];
    }
  }

  /**
   * When `s` does not open with the run `c^k`, the leading run of `c` that
   * survives removal of `c^k` is one `s` itself opened with.
   */
  lemma {:induction false} RemoveAllLeadingRun(s: string, c: char, k: nat, m: nat)
    requires 1 <= k && m <= k
    requires !StartsWith(s, Repeat(c, k))
    requires StartsWith(RemoveAll(s, Repeat(c, k)), Repeat(c, m))
    ensures StartsWith(s, Repeat(c, m))
    decreases m
  {
    var p := Repeat(c, k);
    if m == 0 {
      assert Repeat(c, 0) == [];
      assert s[..0] == [];
    } else {
      var r := RemoveAll(s, p);
      RepeatStart(r, c, m);
      assert s != [];
      assert r == [s[0]] + RemoveAll(s[1..], p);
      assert r[1..] == RemoveAll(s[1..], p);
      RepeatStart(s, c, k);
      RemoveAllLeadingRun(s[1..], c, k, m - 1);
      RepeatStart(s, c, m);
    }
  }

  /** Removing every `c^k` leaves none behind: a run of one character cannot re-form. */
  lemma {:induction false} RemoveAllRepeated(s: string, c: char, k: nat)
    requires k >= 1
    ensures !Contains(RemoveAll(s, Repeat(c, k)), Repeat(c, k))
    decreases |s|
  {
    var p := Repeat(c, k);
    if StartsWith(s, p) {
      RemoveAllRepeated(s[k..], c, k);
    } else if s != [] {
      var r := RemoveAll(s, p);
      RemoveAllRepeated(s[1..], c, k);
      assert r[1..] == RemoveAll(s[1..], p);
      if StartsWith(r, p) {
        RemoveAllLeadingRun(s, c, k, k);
      }
    }
  }

  /** A `p` found inside a slice is found in the whole text. */
  lemma {:induction false} ContainsSlice(s: string, i: nat, j: nat, p: string)
    requires i <= j <= |s|
    requires Contains(s[i..j], p)
    ensures Contains(s, p)
    decreases j - i
  {
    var t := s[i..j];
    if StartsWith(t, p) {
      assert s[i..i + |p|] == t[..|p|];
      ContainsAt(s, p, i);
    } else {
      assert t[1..] == s[i + 1..j];
      ContainsSlice(s, i + 1, j, p);
    }
  }

  /** Trimming cannot create an occurrence. */
  lemma TrimContains(s: string, p: string)
    requires Contains(Trim(s), p)
    ensures Contains(s, p)
  {
    var i, j := TrimBounds(s);
    ContainsSlice(s, i, j, p);
  }

  /** `RemoveAll` changes nothing in text that does not contain the pattern. */
  lemma {:induction false} RemoveAllAbsent(s: string, p: string)
    requires p != [] && !Contains(s, p)
    ensures RemoveAll(s, p) == s
    decreases |s|
  {
    if s != [] {
      RemoveAllAbsent(s[1..], p);
    }
  }
}
