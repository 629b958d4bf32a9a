/**
 * The string operations of JavaScript that the form generator relies on:
 * `trim`, `split("\n")`, `join`, ASCII `toLowerCase`/`toUpperCase`, and the
 * split before every capital letter used for the component heading.
 * Strings are sequences of Unicode scalar values.
 */
module Text {

  // ---------------------------------------------------------------------
  // Character classes
  // ---------------------------------------------------------------------

  /** ECMAScript LineTerminator: the characters a regular-expression `.` does not match. */
  predicate IsLineTerminator(c: char) {
    c == '\n' || c == '\r' || c == '\U{2028}' || c == '\U{2029}'
  }

  /**
   * ECMAScript WhiteSpace and LineTerminator: what `\s` matches and what
   * `String.prototype.trim` removes.
   */
  predicate IsSpace(c: char) {
    || c == '\t' || c == '\U{000B}' || c == '\U{000C}' || c == ' '
    || c == '\U{00A0}' || c == '\U{1680}' || ('\U{2000}' <= c <= '\U{200A}')
    || c == '\U{202F}' || c == '\U{205F}' || c == '\U{3000}' || c == '\U{FEFF}'
    || IsLineTerminator(c)
  }

  predicate AllSpace(s: string) {
    forall k :: 0 <= k < |s| ==> IsSpace(s[k])
  }

  predicate NoLineTerminator(s: string) {
    forall k :: 0 <= k < |s| ==> !IsLineTerminator(s[k])
  }

  /** A string that `trim` leaves unchanged. */
  predicate IsTrimmed(s: string) {
    s == [] || (!IsSpace(s[0]) && !IsSpace(s[|s| - 1]))
  }

  predicate IsUpper(c: char) { 'A' <= c <= 'Z' }

  predicate IsLower(c: char) { 'a' <= c <= 'z' }

  /** The position of the first `ch` in `s`, or `|s|` when there is none. */
  function IndexOf(s: string, ch: char): (k: nat)
    ensures k <= |s| && ch !in s[..k]
    ensures k < |s| <==> ch in s
    ensures k < |s| ==> s[k] == ch
  {
    if s == [] then 0
    else if s[0] == ch then 0
    else
      var k := 1 + IndexOf(s[1..], ch);
      assert s[..k] == [s[0]] + s[1..][..k - 1];
      k
  }

  /** Indexing into a slice; stated as an implication so it can be used where the slice may be out of range. */
  lemma SliceAt(s: string, a: int, b: int, j: int)
    ensures 0 <= a <= j < b <= |s| ==> s[a..b][j - a] == s[j]
  {
  }

  // ---------------------------------------------------------------------
  // trim
  // ---------------------------------------------------------------------

  /** Removes leading white space. */
  function TrimStart(s: string): (r: string)
    ensures |r| <= |s|
    ensures |r| == |s| ==> r == s
    ensures AfterLeadingSpace(s, r)
  {
    if s == [] || !IsSpace(s[0]) then
      assert s[..0] == [];
      s
    else
      var r := TrimStart(s[1..]);
      AfterLeadingSpaceStep(s, r);
      r
  }

  /** Removing one more leading space keeps the shape. */
  lemma AfterLeadingSpaceStep(s: string, r: string)
    requires s != [] && IsSpace(s[0]) && AfterLeadingSpace(s[1..], r)
    ensures AfterLeadingSpace(s, r)
  {
    var n := |s| - |r|;
    forall k | 0 <= k < |r|
      ensures r[k] == s[n + k]
    {
      assert r[k] == s[1..][n - 1 + k];
    }
    forall k | 0 <= k < n
      ensures IsSpace(s[..n][k])
    {
      if k > 0 {
        assert s[..n][k] == s[1..][..n - 1][k - 1];
      }
    }
  }

  /** Removes trailing white space. */
  function TrimEnd(s: string): (r: string)
    ensures |r| <= |s| && r == s[..|r|]
    ensures forall k :: |r| <= k < |s| ==> IsSpace(s[k])
    ensures r == [] || !IsSpace(r[|r| - 1])
  {
    if s == [] || !IsSpace(s[|s| - 1]) then s else TrimEnd(s[..|s| - 1])
  }

  /** `String.prototype.trim`: removes white space at both ends. */
  function Trim(s: string): (r: string)
    ensures IsTrimmed(r)
  {
    TrimStart(TrimEnd(s))
  }

  /** The three postconditions of TrimEnd determine its result. */
  lemma TrimEndUnique(s: string, r: string)
    requires |r| <= |s| && r == s[..|r|] && AllSpace(s[|r|..])
    requires r == [] || !IsSpace(r[|r| - 1])
    ensures TrimEnd(s) == r
  {
    var t := TrimEnd(s);
    if |t| < |r| {
      assert false;
    } else if |r| < |t| {
      assert false;
    }
  }

  /** The three postconditions of TrimStart determine its result. */
  lemma TrimStartUnique(s: string, r: string)
    requires AfterLeadingSpace(s, r)
    ensures TrimStart(s) == r
  {
    AfterLeadingSpaceUnique(s, r, TrimStart(s));
  }

  /** `r` is what is left of `s` once a run of leading white space is removed, and it starts with something else. */
  predicate AfterLeadingSpace(s: string, r: string)
  {
    && |r| <= |s|
    && (forall k :: 0 <= k < |r| ==> r[k] == s[|s| - |r| + k])
    && AllSpace(s[..|s| - |r|])
    && (r == [] || !IsSpace(r[0]))
  }

  lemma AfterLeadingSpaceUnique(s: string, r: string, t: string)
    requires AfterLeadingSpace(s, r) && AfterLeadingSpace(s, t)
    ensures r == t
  {
    if |t| < |r| {
      SpaceAt(s, |s| - |t|, |s| - |r|);
    } else if |r| < |t| {
      SpaceAt(s, |s| - |r|, |s| - |t|);
    } else {
      assert forall k :: 0 <= k < |r| ==> t[k] == s[|s| - |r| + k] == r[k];
    }
  }

  lemma SpaceAt(s: string, n: int, j: int)
    ensures 0 <= j < n <= |s| && AllSpace(s[..n]) ==> IsSpace(s[j])
  {
    if 0 <= j < n <= |s| && AllSpace(s[..n]) {
      assert s[..n][j] == s[j];
    }
  }

  lemma SingleSpace()
    ensures AllSpace(" ")
  {
    assert " "[0] == ' ';
  }

  lemma NoLineTerminatorAppend(a: string, b: string)
    requires NoLineTerminator(a) && NoLineTerminator(b)
    ensures NoLineTerminator(a + b)
  {
    assert forall k :: 0 <= k < |a + b| ==> (a + b)[k] == if k < |a| then a[k] else b[k - |a|];
  }

  /** Trailing white space does not change what `trim` keeps. */
  lemma TrimAppendSpaces(a: string, w: string)
    requires AllSpace(w)
    ensures TrimEnd(a + w) == TrimEnd(a)
    ensures Trim(a + w) == Trim(a)
  {
    var t := TrimEnd(a);
    assert (a + w)[..|t|] == t;
    assert (a + w)[|t|..] == a[|t|..] + w;
    TrimEndUnique(a + w, t);
  }

  /** Leading white space does not change what `trim` keeps, once something else follows. */
  lemma TrimStartPrependSpaces(w: string, a: string)
    requires AllSpace(w) && (a == [] || !IsSpace(a[0]))
    ensures TrimStart(w + a) == a
  {
    assert forall k :: 0 <= k < |a| ==> a[k] == (w + a)[|w| + k];
    assert (w + a)[..|w|] == w;
    TrimStartUnique(w + a, a);
  }

  lemma SpaceAfter(s: string, n: int, j: int)
    ensures 0 <= n <= j < |s| && AllSpace(s[n..]) ==> IsSpace(s[j])
  {
    if 0 <= n <= j < |s| && AllSpace(s[n..]) {
      assert s[n..][j - n] == s[j];
    }
  }

  /** Text after a string that is not all white space survives `trimStart` unchanged. */
  lemma TrimStartAppend(a: string, b: string)
    requires TrimStart(a) != []
    ensures TrimStart(a + b) == TrimStart(a) + b
  {
    var t := TrimStart(a);
    assert AfterLeadingSpace(a, t);
    AfterLeadingSpaceAppend(a, t, b);
    TrimStartUnique(a + b, t + b);
  }

  lemma AfterLeadingSpaceAppend(a: string, t: string, b: string)
    requires AfterLeadingSpace(a, t) && t != []
    ensures AfterLeadingSpace(a + b, t + b)
  {
    var n := |a| - |t|;
    forall k | 0 <= k < |t + b|
      ensures (t + b)[k] == (a + b)[|a + b| - |t + b| + k]
    {
      if k < |t| {
        assert (t + b)[k] == t[k] == a[n + k];
      }
    }
    assert (a + b)[..n] == a[..n];
  }

  /** `trimStart` stops at the first character that is not white space, wherever it is. */
  lemma TrimStartBeforeNonSpace(u: string, v: string)
    requires v != [] && !IsSpace(v[0])
    ensures TrimStart(u + v) == TrimStart(u) + v
  {
    if TrimStart(u) == [] {
      assert u[..|u|] == u;
      TrimStartPrependSpaces(u, v);
    } else {
      TrimStartAppend(u, v);
    }
  }

  /** A string without line terminators has no `\n`, and neither has any suffix of it. */
  lemma NoNewlineInSuffix(s: string, n: nat)
    requires NoLineTerminator(s) && n <= |s|
    ensures NoLineTerminator(s[n..]) && '\n' !in s && '\n' !in s[n..]
  {
    assert forall k :: 0 <= k < |s| - n ==> s[n..][k] == s[n + k];
  }

  /** Removing leading white space first does not change what `trim` keeps. */
  lemma TrimOfTrimStart(x: string)
    ensures Trim(TrimStart(x)) == Trim(x)
  {
    var y := TrimStart(x);
    var w := x[..|x| - |y|];
    assert x == w + y;
    if y == [] {
      assert x[0..] == x;
      TrimEndUnique(x, []);
    } else {
      TrimOfSpacesThen(w, y);
    }
  }

  /** `trim` of white space followed by text that starts with something else. */
  lemma TrimOfSpacesThen(w: string, y: string)
    requires AllSpace(w) && y != [] && !IsSpace(y[0])
    ensures Trim(w + y) == TrimEnd(y) == Trim(y)
  {
    var e := TrimEnd(y);
    TrimEndAfterSpaces(w, y);
    assert e[0] == y[0];
    TrimStartPrependSpaces(w, e);
  }

  /** Leading white space is kept by `trimEnd` when something else follows it. */
  lemma TrimEndAfterSpaces(w: string, y: string)
    requires y != [] && !IsSpace(y[0])
    ensures TrimEnd(y) != [] && TrimEnd(w + y) == w + TrimEnd(y)
  {
    var x := w + y;
    var e := TrimEnd(y);
    SpaceAfter(y, |e|, 0);
    assert x[..|w + e|] == w + e;
    assert x[|w + e|..] == y[|e|..];
    TrimEndUnique(x, w + e);
  }

  /** `trim` leaves a trimmed string unchanged. */
  lemma TrimOfTrimmed(s: string)
    requires IsTrimmed(s)
    ensures TrimEnd(s) == s && TrimStart(s) == s && Trim(s) == s
  {
  }

  /** `trim` is idempotent. */
  lemma TrimIdempotent(s: string)
    ensures Trim(Trim(s)) == Trim(s)
  {
    TrimOfTrimmed(Trim(s));
  }

  // ---------------------------------------------------------------------
  // join and split
  // ---------------------------------------------------------------------

  /** `Array.prototype.join(sep)` on an array of strings. */
  function Join(sep: string, parts: seq<string>): string
  {
    if |parts| == 0 then []
    else if |parts| == 1 then parts[0]
    else parts[0] + sep + Join(sep, parts[1..])
  }

  /** Joining two non-empty lists puts one separator between their joins. */
  lemma {:induction false} JoinAppend(sep: string, a: seq<string>, b: seq<string>)
    requires |a| > 0 && |b| > 0
    ensures Join(sep, a + b) == Join(sep, a) + sep + Join(sep, b)
  {
    if |a| == 1 {
      assert (a + b)[1..] == b;
    } else {
      assert (a + b)[1..] == a[1..] + b;
      JoinAppend(sep, a[1..], b);
    }
  }

  /** Joining pieces that are all non-empty yields the empty string only for no pieces. */
  lemma {:induction false} JoinEmptyIff(sep: string, parts: seq<string>)
    requires forall k :: 0 <= k < |parts| ==> parts[k] != []
    ensures Join(sep, parts) == [] <==> parts == []
  {
    if |parts| > 0 {
      assert parts[0] != [];
      assert Join(sep, parts)[..|parts[0]|] == parts[0];
    }
  }

  /**
   * Every piece of a join occurs in it, in order: the join is the join of the
   * pieces before it, the piece, and the join of the pieces after it.
   */
  lemma {:induction false} JoinAt(sep: string, parts: seq<string>, k: nat)
    requires k < |parts|
    ensures Join(sep, parts) ==
            (if k == 0 then [] else Join(sep, parts[..k]) + sep)
            + parts[k]
            + (if k == |parts| - 1 then [] else sep + Join(sep, parts[k + 1..]))
  {
    if 0 < k {
      assert parts == parts[..k] + parts[k..];
      JoinAppend(sep, parts[..k], parts[k..]);
    }
    if k < |parts| - 1 {
      assert parts[k..] == [parts[k]] + parts[k + 1..];
      assert parts[k..][1..] == parts[k + 1..];
    } else {
      assert parts[k..] == [parts[k]];
    }
  }

  /** Only the first piece of a join can lose leading white space to `trimStart`. */
  lemma TrimStartOfJoin(sep: string, parts: seq<string>)
    requires |parts| > 0 && TrimStart(parts[0]) != []
    ensures TrimStart(Join(sep, parts)) == Join(sep, [TrimStart(parts[0])] + parts[1..])
  {
    var lines := [TrimStart(parts[0])] + parts[1..];
    assert lines[1..] == parts[1..];
    if |parts| > 1 {
      var j := Join(sep, parts[1..]);
      Assoc(parts[0], sep, j);
      TrimStartAppend(parts[0], sep + j);
      Assoc(TrimStart(parts[0]), sep, j);
    }
  }

  /** `String.prototype.split(sep)` for a one-character separator. */
  function Split(s: string, sep: char): (r: seq<string>)
    ensures |r| >= 1
  {
    if s == [] then [[]]
    else
      var rest := Split(s[1..], sep);
      if s[0] == sep then [[]] + rest
      else [[s[0]] + rest[0]] + rest[1..]
  }

  /** No piece of a split holds the separator. */
  lemma {:induction false} SplitPiecesFree(s: string, sep: char)
    ensures forall k :: 0 <= k < |Split(s, sep)| ==> sep !in Split(s, sep)[k]
  {
    if s != [] {
      SplitPiecesFree(s[1..], sep);
    }
  }

  /** Joining the pieces of a split with the separator gives the text back. */
  lemma {:induction false} JoinOfSplit(s: string, sep: char)
    ensures Join([sep], Split(s, sep)) == s
  {
    if s != [] {
      var rest := Split(s[1..], sep);
      JoinOfSplit(s[1..], sep);
      var r := Split(s, sep);
      if s[0] == sep {
        assert r[1..] == rest;
      } else if |rest| == 1 {
        assert r == [[s[0]] + rest[0]];
      } else {
        assert r[1..] == rest[1..];
        assert Join([sep], rest) == rest[0] + [sep] + Join([sep], rest[1..]);
        assert Join([sep], r) == [s[0]] + rest[0] + [sep] + Join([sep], rest[1..]);
      }
      assert s == [s[0]] + s[1..];
    }
  }

  /** Splitting text that begins with a piece free of the separator. */
  lemma {:induction false} SplitPrefix(x: string, y: string, sep: char)
    requires sep !in x
    ensures Split(x + y, sep) == [x + Split(y, sep)[0]] + Split(y, sep)[1..]
  {
    if x != [] {
      assert (x + y)[1..] == x[1..] + y;
      SplitPrefix(x[1..], y, sep);
      assert [x[0]] + (x[1..] + Split(y, sep)[0]) == x + Split(y, sep)[0];
    } else {
      var r := Split(y, sep);
      assert x + y == y && x + r[0] == r[0];
      assert r == [r[0]] + r[1..];
    }
  }

  /** Splitting undoes joining, when no piece contains the separator. */
  lemma {:induction false} SplitJoin(parts: seq<string>, sep: char)
    requires |parts| >= 1
    requires forall k :: 0 <= k < |parts| ==> sep !in parts[k]
    ensures Split(Join([sep], parts), sep) == parts
  {
    if |parts| == 1 {
      SplitPrefix(parts[0], [], sep);
      assert parts[0] + [] == parts[0];
      assert Split([], sep) == [[]];
      assert [parts[0] + []] + [[]][1..] == parts;
    } else {
      var tail := Join([sep], parts[1..]);
      assert Join([sep], parts) == parts[0] + ([sep] + tail);
      SplitPrefix(parts[0], [sep] + tail, sep);
      assert ([sep] + tail)[1..] == tail;
      SplitJoin(parts[1..], sep);
      assert Split([sep] + tail, sep) == [[]] + parts[1..];
      assert Split(Join([sep], parts), sep) == [parts[0] + []] + parts[1..];
      assert parts[0] + [] == parts[0];
      assert parts == [parts[0]] + parts[1..];
    }
  }

  /** Splitting text without the separator gives the text itself. */
  lemma SplitWithoutSeparator(x: string, sep: char)
    requires sep !in x
    ensures Split(x, sep) == [x]
  {
    SplitPrefix(x, [], sep);
    assert x + [] == x;
  }

  /** Splitting a first line, ended by the separator, off the rest of the text. */
  lemma SplitFirstLine(x: string, y: string, sep: char)
    requires sep !in x
    ensures Split(x + [sep] + y, sep) == [x] + Split(y, sep)
  {
    assert x + [sep] + y == x + ([sep] + y);
    SplitPrefix(x, [sep] + y, sep);
    assert ([sep] + y)[1..] == y;
    var r := Split([sep] + y, sep);
    assert r == [[]] + Split(y, sep);
    assert x + r[0] == x;
  }

  /** Concatenation of a list of strings, piece after piece. */
  function Concat(parts: seq<string>): string
  {
    if parts == [] then [] else parts[0] + Concat(parts[1..])
  }

  /** Joining with the empty separator concatenates. */
  lemma {:induction false} JoinWithoutSeparator(parts: seq<string>)
    ensures Join("", parts) == Concat(parts)
  {
    if |parts| > 1 {
      JoinWithoutSeparator(parts[1..]);
      assert parts[0] + "" + Join("", parts[1..]) == parts[0] + Join("", parts[1..]);
    } else if |parts| == 1 {
      assert parts[1..] == [];
      assert parts[0] + [] == parts[0];
    }
  }

  /** Every piece of a join without separator sits between the pieces before and after it. */
  lemma JoinWithoutSeparatorAt(parts: seq<string>, k: nat)
    requires k < |parts|
    ensures Join("", parts) == Join("", parts[..k]) + parts[k] + Join("", parts[k + 1..])
  {
    JoinWithoutSeparator(parts);
    JoinWithoutSeparator(parts[..k]);
    JoinWithoutSeparator(parts[k + 1..]);
    ConcatAt(parts, k);
  }

  lemma {:induction false} ConcatAt(parts: seq<string>, k: nat)
    requires k < |parts|
    ensures Concat(parts) == Concat(parts[..k]) + parts[k] + Concat(parts[k + 1..])
  {
    if k == 0 {
      assert parts[..0] == [];
    } else {
      var tail := parts[1..];
      ConcatAt(tail, k - 1);
      assert tail[..k - 1] == parts[..k][1..];
      assert tail[k..] == parts[k + 1..];
      Assoc4(parts[0], Concat(tail[..k - 1]) + parts[k], [], Concat(tail[k..]));
      Assoc(parts[0], Concat(tail[..k - 1]), parts[k]);
    }
  }

  lemma Assoc(a: string, b: string, c: string)
    ensures (a + b) + c == a + (b + c)
  {
  }

  lemma Assoc4(a: string, b: string, c: string, d: string)
    ensures (a + b) + (c + d) == a + ((b + c) + d)
  {
  }

  lemma ConcatCons(p: string, rest: seq<string>)
    ensures Concat([p] + rest) == p + Concat(rest)
  {
    assert ([p] + rest)[1..] == rest;
  }

  // ---------------------------------------------------------------------
  // map, filter and flatten over lists of strings
  // ---------------------------------------------------------------------

  /** `parts.filter(p => p)`: the empty string is the only falsy string. */
  function NonEmpty(parts: seq<string>): (r: seq<string>)
    ensures forall k :: 0 <= k < |r| ==> r[k] != []
  {
    if parts == [] then []
    else (if parts[0] == [] then [] else [parts[0]]) + NonEmpty(parts[1..])
  }

  /** Every group joined on its own. */
  function JoinEach(sep: string, groups: seq<seq<string>>): (r: seq<string>)
    ensures |r| == |groups| && forall k :: 0 <= k < |groups| ==> r[k] == Join(sep, groups[k])
  {
    if groups == [] then [] else [Join(sep, groups[0])] + JoinEach(sep, groups[1..])
  }

  /** All groups, one after the other. */
  function Flatten(groups: seq<seq<string>>): seq<string>
  {
    if groups == [] then [] else groups[0] + Flatten(groups[1..])
  }

  predicate AllNonEmpty(parts: seq<string>)
  {
    forall k :: 0 <= k < |parts| ==> parts[k] != []
  }

  lemma {:induction false} FlattenNonEmpty(groups: seq<seq<string>>)
    requires forall i :: 0 <= i < |groups| ==> AllNonEmpty(groups[i])
    ensures AllNonEmpty(Flatten(groups))
  {
    if groups != [] {
      FlattenNonEmpty(groups[1..]);
      var f := Flatten(groups);
      assert f == groups[0] + Flatten(groups[1..]);
      assert AllNonEmpty(groups[0]);
      forall k | 0 <= k < |f|
        ensures f[k] != []
      {
        if k >= |groups[0]| {
          assert f[k] == Flatten(groups[1..])[k - |groups[0]|];
        }
      }
    }
  }

  /**
   * Joining the groups, dropping the empty results and joining again with
   * the same separator is joining all pieces at once, when no piece is
   * empty: the filter removes exactly the empty groups.
   */
  lemma {:induction false} JoinOfJoins(sep: string, groups: seq<seq<string>>)
    requires forall i :: 0 <= i < |groups| ==> AllNonEmpty(groups[i])
    ensures Join(sep, NonEmpty(JoinEach(sep, groups))) == Join(sep, Flatten(groups))
  {
    if groups != [] {
      var g, rest := groups[0], groups[1..];
      JoinOfJoins(sep, rest);
      assert JoinEach(sep, groups)[1..] == JoinEach(sep, rest);
      assert AllNonEmpty(g);
      JoinEmptyIff(sep, g);
      var x := NonEmpty(JoinEach(sep, rest));
      var f := Flatten(rest);
      FlattenNonEmpty(rest);
      JoinEmptyIff(sep, x);
      JoinEmptyIff(sep, f);
      assert x == [] <==> f == [];
      var each := JoinEach(sep, groups);
      assert each == [each[0]] + each[1..];
      if g == [] {
        assert each[0] == [];
        assert NonEmpty(each) == x;
        assert Flatten(groups) == f;
      } else {
        assert NonEmpty(JoinEach(sep, groups)) == [Join(sep, g)] + x;
        assert Flatten(groups) == g + f;
        if x != [] {
          JoinAppend(sep, [Join(sep, g)], x);
          JoinAppend(sep, g, f);
        } else {
          assert g + f == g;
        }
      }
    }
  }

  /** Joining groups that are none of them empty, then joining the results, is joining all pieces at once. */
  lemma {:induction false} JoinOfGroups(sep: string, groups: seq<seq<string>>)
    requires forall i :: 0 <= i < |groups| ==> groups[i] != []
    ensures Join(sep, JoinEach(sep, groups)) == Join(sep, Flatten(groups))
  {
    if |groups| > 1 {
      var g, rest := groups[0], groups[1..];
      JoinOfGroups(sep, rest);
      var each := JoinEach(sep, groups);
      assert each == [Join(sep, g)] + JoinEach(sep, rest);
      assert Flatten(groups) == g + Flatten(rest);
      assert Flatten(rest) == rest[0] + Flatten(rest[1..]);
      JoinAppend(sep, [Join(sep, g)], JoinEach(sep, rest));
      JoinAppend(sep, g, Flatten(rest));
    } else if |groups| == 1 {
      assert JoinEach(sep, groups) == [Join(sep, groups[0])];
      assert groups[1..] == [];
      assert Flatten(groups) == groups[0] + [];
      assert groups[0] + [] == groups[0];
    }
  }

  /** A join of pieces that are each the join of a non-empty group is the join of all groups' pieces. */
  lemma JoinOfGroupJoins(sep: string, parts: seq<string>, groups: seq<seq<string>>)
    requires |parts| == |groups|
    requires forall i :: 0 <= i < |groups| ==> groups[i] != [] && parts[i] == Join(sep, groups[i])
    ensures Join(sep, parts) == Join(sep, Flatten(groups))
  {
    assert parts == JoinEach(sep, groups);
    JoinOfGroups(sep, groups);
  }

  /** A prefix put in front of a join goes in front of its first piece. */
  lemma PrefixJoin(pad: string, sep: string, xs: seq<string>)
    requires |xs| >= 1
    ensures pad + Join(sep, xs) == Join(sep, [pad + xs[0]] + xs[1..])
  {
    var ys := [pad + xs[0]] + xs[1..];
    assert ys[1..] == xs[1..];
  }

  /** The pieces after the first, each with `pad` in front. */
  function Padded(pad: string, parts: seq<string>): (r: seq<string>)
    requires |parts| >= 1
    ensures |r| == |parts| && r[0] == parts[0]
    ensures forall k :: 1 <= k < |parts| ==> r[k] == pad + parts[k]
  {
    [parts[0]] + seq(|parts| - 1, k requires 0 <= k < |parts| - 1 => pad + parts[k + 1])
  }

  /** Joining with `sep + pad` is joining with `sep` the pieces padded after the first. */
  lemma {:induction false} JoinPadded(sep: string, pad: string, parts: seq<string>)
    requires |parts| >= 1
    ensures Join(sep + pad, parts) == Join(sep, Padded(pad, parts))
  {
    if |parts| > 1 {
      var tail := parts[1..];
      JoinPadded(sep, pad, tail);
      var pt := Padded(pad, tail);
      PrefixJoin(pad, sep, pt);
      var ys := [pad + pt[0]] + pt[1..];
      assert ys == Padded(pad, parts)[1..];
      assert Join(sep + pad, parts) == parts[0] + sep + (pad + Join(sep + pad, tail));
    }
  }

  /**
   * `pad + parts.join(sep + pad)` splits at `sep` into the pieces, each with
   * `pad` in front, when neither holds the separator.
   */
  lemma SplitPaddedJoin(sep: char, pad: string, parts: seq<string>)
    requires |parts| >= 1 && sep !in pad
    requires forall k :: 0 <= k < |parts| ==> sep !in parts[k]
    ensures Split(pad + Join([sep] + pad, parts), sep) == seq(|parts|, k requires 0 <= k < |parts| => pad + parts[k])
  {
    JoinPadded([sep], pad, parts);
    var ps := Padded(pad, parts);
    PrefixJoin(pad, [sep], ps);
    var qs := [pad + ps[0]] + ps[1..];
    PaddedFront(pad, parts);
    SplitJoin(qs, sep);
  }

  lemma PaddedFront(pad: string, parts: seq<string>)
    requires |parts| >= 1
    ensures var ps := Padded(pad, parts);
            [pad + ps[0]] + ps[1..] == seq(|parts|, k requires 0 <= k < |parts| => pad + parts[k])
  {
  }

  lemma {:induction false} FlattenEmpty(groups: seq<seq<string>>)
    ensures Flatten(groups) == [] <==> forall i :: 0 <= i < |groups| ==> groups[i] == []
  {
    if groups != [] {
      FlattenEmpty(groups[1..]);
      assert forall i :: 1 <= i < |groups| ==> groups[i] == groups[1..][i - 1];
    }
  }

  /** Every line followed by the separator. */
  function Terminated(lines: seq<string>, sep: char): (r: seq<string>)
    ensures |r| == |lines| && forall k :: 0 <= k < |lines| ==> r[k] == lines[k] + [sep]
  {
    seq(|lines|, k requires 0 <= k < |lines| => lines[k] + [sep])
  }

  lemma TerminatedHead(t: seq<string>, line: string, sep: char, tail: string)
    requires |t| > 0 && t[0] == line + [sep]
    ensures Concat(t) + tail == line + [sep] + (Concat(t[1..]) + tail)
  {
    ConcatCons(t[0], t[1..]);
    assert [t[0]] + t[1..] == t;
  }

  /** Lines each ended by the separator, then a tail, split back into the lines and the tail's pieces. */
  lemma {:induction false} SplitTerminated(lines: seq<string>, tail: string, sep: char)
    requires forall k :: 0 <= k < |lines| ==> sep !in lines[k]
    ensures Split(Concat(Terminated(lines, sep)) + tail, sep) == lines + Split(tail, sep)
  {
    if lines != [] {
      var t := Terminated(lines, sep);
      assert t[1..] == Terminated(lines[1..], sep);
      SplitTerminated(lines[1..], tail, sep);
      var rest := Concat(t[1..]) + tail;
      TerminatedHead(t, lines[0], sep, tail);
      SplitFirstLine(lines[0], rest, sep);
      assert lines == [lines[0]] + lines[1..];
    } else {
      assert Concat(Terminated(lines, sep)) + tail == tail;
    }
  }

  /**
   * An opening line, lines each ended by the separator, and two closing
   * lines split back into those lines, when none holds the separator.
   */
  lemma SplitFramed(first: string, lines: seq<string>, last1: string, last2: string, sep: char)
    requires sep !in first && sep !in last1 && sep !in last2
    requires forall k :: 0 <= k < |lines| ==> sep !in lines[k]
    ensures Split(first + [sep] + Concat(Terminated(lines, sep)) + last1 + [sep] + last2, sep)
            == [first] + lines + [last1, last2]
  {
    var tail := last1 + [sep] + last2;
    var c := Concat(Terminated(lines, sep));
    SplitFirstLine(last1, last2, sep);
    SplitWithoutSeparator(last2, sep);
    SplitTerminated(lines, tail, sep);
    FramedRegroup(first, [sep], c, last1, last2);
    SplitFirstLine(first, c + tail, sep);
  }

  lemma FramedRegroup(a: string, s: string, c: string, l1: string, l2: string)
    ensures a + s + c + l1 + s + l2 == a + s + (c + (l1 + s + l2))
  {
  }

  // ---------------------------------------------------------------------
  // ASCII case mapping
  // ---------------------------------------------------------------------

  function LowerChar(c: char): char {
    if IsUpper(c) then (c as int + 32) as char else c
  }

  function UpperChar(c: char): char {
    if IsLower(c) then (c as int - 32) as char else c
  }

  /** `toLowerCase`, restricted to the ASCII letters. */
  function Lower(s: string): (r: string)
    ensures |r| == |s|
    ensures forall k :: 0 <= k < |s| ==> r[k] == LowerChar(s[k])
  {
    seq(|s|, k requires 0 <= k < |s| => LowerChar(s[k]))
  }

  /** A lowered string holds no capital letter, lowers to itself, and differs from its input only in case. */
  lemma LowerProperties(s: string)
    ensures forall k :: 0 <= k < |s| ==> !IsUpper(Lower(s)[k])
    ensures Lower(Lower(s)) == Lower(s)
    ensures forall k :: 0 <= k < |s| ==> UpperChar(Lower(s)[k]) == UpperChar(s[k])
    ensures (forall k :: 0 <= k < |s| ==> !IsUpper(s[k])) ==> Lower(s) == s
  {
  }

  /** `s.charAt(0).toUpperCase() + s.slice(1)`. */
  function Capitalize(s: string): (r: string)
    ensures |r| == |s|
    ensures s != [] ==> r[0] == UpperChar(s[0]) && r[1..] == s[1..]
  {
    if s == [] then [] else [UpperChar(s[0])] + s[1..]
  }

  /**
   * A capitalized string starts with no lower-case letter, capitalizes to
   * itself, differs from its input only in case, and equals its input when
   * that starts with no lower-case letter.
   */
  lemma CapitalizeProperties(s: string)
    ensures s != [] ==> !IsLower(Capitalize(s)[0])
    ensures Capitalize(Capitalize(s)) == Capitalize(s)
    ensures Lower(Capitalize(s)) == Lower(s)
    ensures (s == [] || !IsLower(s[0])) ==> Capitalize(s) == s
  {
    var c := Capitalize(s);
    if s != [] {
      assert c[1..] == s[1..];
      forall k | 0 <= k < |s|
        ensures LowerChar(c[k]) == LowerChar(s[k])
      {
        if k > 0 {
          assert c[k] == c[1..][k - 1] == s[1..][k - 1] == s[k];
        }
      }
      assert Capitalize(c) == [UpperChar(c[0])] + c[1..];
      if !IsLower(s[0]) {
        assert s == [s[0]] + s[1..];
      }
    }
  }

  // ---------------------------------------------------------------------
  // split(/(?=[A-Z])/)
  // ---------------------------------------------------------------------

  /**
   * The pieces of `cur + t` when the current piece is `cur` and a new piece
   * starts before every capital letter of `t`.
   */
  function SplitBeforeCapitals(cur: string, t: string): (r: seq<string>)
    ensures |r| >= 1
    decreases |t|
  {
    if t == [] then [cur]
    else if IsUpper(t[0]) then [cur] + SplitBeforeCapitals([t[0]], t[1..])
    else SplitBeforeCapitals(cur + [t[0]], t[1..])
  }

  /**
   * `s.split(/(?=[A-Z])/)`: the lookahead matches the empty string in front
   * of every ASCII capital, and a match at position 0 does not split.
   * The empty string has no match and splits into one empty piece.
   */
  function SplitAtCapitals(s: string): (r: seq<string>)
  {
    if s == [] then [[]] else SplitBeforeCapitals([s[0]], s[1..])
  }

  /** A non-empty piece with no capital letter after its first character. */
  predicate PieceShape(p: string) {
    p != [] && forall j :: 1 <= j < |p| ==> !IsUpper(p[j])
  }

  predicate StartsWithCapital(p: string) {
    p != [] && IsUpper(p[0])
  }

  /** Reference definition: a space in front of every capital letter except the first character. */
  function SpaceBeforeCapitals(t: string): string
  {
    if t == [] then []
    else (if IsUpper(t[0]) then " " + [t[0]] else [t[0]]) + SpaceBeforeCapitals(t[1..])
  }

  lemma {:induction false} SplitBeforeCapitalsSpaced(cur: string, t: string)
    ensures Join(" ", SplitBeforeCapitals(cur, t)) == cur + SpaceBeforeCapitals(t)
    decreases |t|
  {
    if t == [] {
    } else if IsUpper(t[0]) {
      SplitBeforeCapitalsSpaced([t[0]], t[1..]);
      var rest := SplitBeforeCapitals([t[0]], t[1..]);
      JoinAppend(" ", [cur], rest);
      Assoc4(cur, " ", [t[0]], SpaceBeforeCapitals(t[1..]));
    } else {
      SplitBeforeCapitalsSpaced(cur + [t[0]], t[1..]);
      Assoc(cur, [t[0]], SpaceBeforeCapitals(t[1..]));
    }
  }

  lemma {:induction false} SplitBeforeCapitalsConcat(cur: string, t: string)
    ensures Join("", SplitBeforeCapitals(cur, t)) == cur + t
    decreases |t|
  {
    if t == [] {
    } else if IsUpper(t[0]) {
      SplitBeforeCapitalsConcat([t[0]], t[1..]);
      var rest := SplitBeforeCapitals([t[0]], t[1..]);
      JoinAppend("", [cur], rest);
      assert cur + "" + ([t[0]] + t[1..]) == cur + t;
    } else {
      SplitBeforeCapitalsConcat(cur + [t[0]], t[1..]);
      assert cur + [t[0]] + t[1..] == cur + t;
    }
  }

  /** After the first, every piece starts with a capital and no piece holds a capital after its start. */
  lemma {:induction false} SplitBeforeCapitalsPieces(cur: string, t: string)
    requires cur != [] && forall j :: 1 <= j < |cur| ==> !IsUpper(cur[j])
    ensures |SplitBeforeCapitals(cur, t)[0]| >= |cur| && SplitBeforeCapitals(cur, t)[0][..|cur|] == cur
    ensures forall k :: 0 <= k < |SplitBeforeCapitals(cur, t)| ==> PieceShape(SplitBeforeCapitals(cur, t)[k])
    ensures forall k :: 1 <= k < |SplitBeforeCapitals(cur, t)| ==> StartsWithCapital(SplitBeforeCapitals(cur, t)[k])
    decreases |t|
  {
    if t == [] {
    } else if IsUpper(t[0]) {
      SplitBeforeCapitalsPieces([t[0]], t[1..]);
      var rest := SplitBeforeCapitals([t[0]], t[1..]);
      assert SplitBeforeCapitals(cur, t) == [cur] + rest;
      assert forall k :: 1 <= k < |[cur] + rest| ==> ([cur] + rest)[k] == rest[k - 1];
    } else {
      SplitBeforeCapitalsPieces(cur + [t[0]], t[1..]);
    }
  }

  /**
   * `s.split(/(?=[A-Z])/).join(" ")` inserts a space before every capital
   * letter that is not the first character, and the pieces concatenate back
   * to `s`.
   */
  lemma SplitAtCapitalsJoin(s: string)
    ensures Join(" ", SplitAtCapitals(s)) == (if s == [] then [] else [s[0]] + SpaceBeforeCapitals(s[1..]))
    ensures Join("", SplitAtCapitals(s)) == s
    ensures s != [] ==> forall k :: 0 <= k < |SplitAtCapitals(s)| ==> PieceShape(SplitAtCapitals(s)[k])
    ensures forall k :: 1 <= k < |SplitAtCapitals(s)| ==> StartsWithCapital(SplitAtCapitals(s)[k])
  {
    if s != [] {
      SplitBeforeCapitalsSpaced([s[0]], s[1..]);
      SplitBeforeCapitalsConcat([s[0]], s[1..]);
      SplitBeforeCapitalsPieces([s[0]], s[1..]);
      assert [s[0]] + s[1..] == s;
    }
  }
}
