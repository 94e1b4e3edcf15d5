/**
 * The Kotlin string operations the launcher relies on, over `seq<char>`.
 * Case folding and whitespace are those of the ASCII range.
 */
module Text {

  import opened Wrappers

  /** `Char.lowercaseChar()` on ASCII letters. */
  function LowerChar(c: char): char {
    if 'A' <= c <= 'Z' then (c as int - 'A' as int + 'a' as int) as char else c
  }

  /** `String.lowercase()`. */
  function Lower(s: string): (r: string)
    ensures |r| == |s|
    ensures forall i :: 0 <= i < |s| ==> r[i] == LowerChar(s[i])
  {
    if s == [] then [] else [LowerChar(s[0])] + Lower(s[1..])
  }

  /** Lowering twice is lowering once. */
  lemma LowerIdempotent(s: string)
    ensures Lower(Lower(s)) == Lower(s)
  {
    assert forall i :: 0 <= i < |s| ==> LowerChar(LowerChar(s[i])) == LowerChar(s[i]);
  }

  /** `Char.isWhitespace()` on the ASCII range: HT, LF, VT, FF, CR, the four separators and space. */
  predicate IsWhitespace(c: char) {
    '\t' <= c <= '\r' || '\U{1C}' <= c <= ' '
  }

  /** The regular-expression class `\s`: space, HT, LF, VT, FF, CR. */
  predicate IsRegexSpace(c: char) {
    '\t' <= c <= '\r' || c == ' '
  }

  /** The regular-expression class `\d`. */
  predicate IsDigit(c: char) {
    '0' <= c <= '9'
  }

  /** `CharSequence.isBlank()`: empty or whitespace only. */
  predicate IsBlank(s: string) {
    forall i :: 0 <= i < |s| ==> IsWhitespace(s[i])
  }

  /** `String.startsWith(prefix)`. */
  predicate StartsWith(s: string, prefix: string) {
    |prefix| <= |s| && s[..|prefix|] == prefix
  }

  /** `String.endsWith(suffix)`. */
  predicate EndsWith(s: string, suffix: string) {
    |suffix| <= |s| && s[|s| - |suffix|..] == suffix
  }

  /** `String.contains(other)`: `other` occurs at some offset of `s`. */
  predicate Contains(s: string, t: string)
    decreases |s|
  {
    StartsWith(s, t) || (|s| > 0 && Contains(s[1..], t))
  }

  /** `t` occurs in `s` starting at offset `k`. */
  ghost predicate OccursAt(s: string, t: string, k: int) {
    0 <= k && k + |t| <= |s| && s[k..k + |t|] == t
  }

  /** An occurrence past offset 0 is an occurrence in the tail, one offset earlier. */
  lemma OccursInTail(s: string, t: string, k: int)
    requires |s| > 0 && 1 <= k
    ensures OccursAt(s, t, k) <==> OccursAt(s[1..], t, k - 1)
  {
    if k + |t| <= |s| {
      assert s[1..][k - 1..k - 1 + |t|] == s[k..k + |t|];
    }
  }

  /** `Contains` is exactly "occurs at some offset". */
  lemma {:induction false} ContainsIffOccurs(s: string, t: string)
    ensures Contains(s, t) <==> exists k :: OccursAt(s, t, k)
    decreases |s|
  {
    if StartsWith(s, t) {
      assert OccursAt(s, t, 0);
    } else if |s| > 0 {
      ContainsIffOccurs(s[1..], t);
      if Contains(s[1..], t) {
        var k :| OccursAt(s[1..], t, k);
        OccursInTail(s, t, k + 1);
      } else {
        forall k | OccursAt(s, t, k) ensures false {
          if k > 0 {
            OccursInTail(s, t, k);
          }
        }
      }
    }
  }

  /** A string contains itself. */
  lemma ContainsSelf(s: string)
    ensures Contains(s, s)
  {
    assert s[..|s|] == s;
  }

  /** A prefix is contained. */
  lemma PrefixIsContained(s: string, t: string)
    requires StartsWith(s, t)
    ensures Contains(s, t)
  {
  }

  /** Drops leading whitespace. */
  function TrimStart(s: string): (r: string)
    ensures |r| <= |s| && r == s[|s| - |r|..]
    ensures r == [] || !IsWhitespace(r[0])
    ensures forall i :: 0 <= i < |s| - |r| ==> IsWhitespace(s[i])
  {
    if s != [] && IsWhitespace(s[0]) then
      var r := TrimStart(s[1..]);
      assert s[1..][|s| - 1 - |r|..] == s[|s| - |r|..];
      assert forall i :: 1 <= i < |s| - |r| ==> s[i] == s[1..][i - 1];
      r
    else s
  }

  /** Drops trailing whitespace. */
  function TrimEnd(s: string): (r: string)
    ensures |r| <= |s| && r == s[..|r|]
    ensures r == [] || !IsWhitespace(r[|r| - 1])
    ensures forall i :: |r| <= i < |s| ==> IsWhitespace(s[i])
  {
    if s != [] && IsWhitespace(s[|s| - 1]) then
      var r := TrimEnd(s[..|s| - 1]);
      assert s[..|s| - 1][..|r|] == s[..|r|];
      assert forall i :: |r| <= i < |s| - 1 ==> s[i] == s[..|s| - 1][i];
      r
    else s
  }

  /** `r` occurs in `s` at `i` with only whitespace before and after it. */
  ghost predicate Surrounded(s: string, r: string, i: int) {
    && OccursAt(s, r, i)
    && (forall k :: 0 <= k < i ==> IsWhitespace(s[k]))
    && (forall k :: i + |r| <= k < |s| ==> IsWhitespace(s[k]))
  }

  /** `String.trim()`: what lies between the leading and the trailing whitespace. */
  function Trim(s: string): (r: string)
    ensures r == [] || (!IsWhitespace(r[0]) && !IsWhitespace(r[|r| - 1]))
    ensures exists i :: OccursAt(s, r, i)
  {
    var t := TrimStart(s);
    var r := TrimEnd(t);
    SurroundedInSuffix(s, t, r);
    r
  }

  /**
   * Trimming drops only whitespace: the trimmed string occurs in `s` with
   * nothing but whitespace before and after it.
   */
  lemma TrimIsSurrounded(s: string)
    ensures exists i :: Surrounded(s, Trim(s), i)
  {
    var t := TrimStart(s);
    assert Trim(s) == TrimEnd(t);
    SurroundedInSuffix(s, t, TrimEnd(t));
    assert Surrounded(s, Trim(s), |s| - |t|);
  }

  /** A prefix `r` of a suffix `t` of `s`, each cut off at whitespace only, is surrounded by whitespace in `s`. */
  lemma SurroundedInSuffix(s: string, t: string, r: string)
    requires |t| <= |s| && t == s[|s| - |t|..] && forall k :: 0 <= k < |s| - |t| ==> IsWhitespace(s[k])
    requires |r| <= |t| && r == t[..|r|] && forall k :: |r| <= k < |t| ==> IsWhitespace(t[k])
    ensures Surrounded(s, r, |s| - |t|)
  {
    var i := |s| - |t|;
    assert s[i..i + |r|] == t[..|r|];
    forall k | i + |r| <= k < |s| ensures IsWhitespace(s[k]) {
      assert s[k] == t[k - i];
    }
  }

  /** The index of the first `c` in `s`. */
  function IndexOf(s: string, c: char): (r: Option<nat>)
    ensures r.Some? ==> r.value < |s| && s[r.value] == c && c !in s[..r.value]
    ensures r.None? ==> c !in s
  {
    if s == [] then None
    else if s[0] == c then Some(0)
    else match IndexOf(s[1..], c)
      case None => None
      case Some(k) => Some(k + 1)
  }

  /** The index of the last `c` in `s`. */
  function LastIndexOf(s: string, c: char): (r: Option<nat>)
    ensures r.Some? ==> r.value < |s| && s[r.value] == c && c !in s[r.value + 1..]
    ensures r.None? ==> c !in s
  {
    if s == [] then None
    else if s[|s| - 1] == c then Some(|s| - 1)
    else LastIndexOf(s[..|s| - 1], c)
  }

  /** `String.substringAfter(delimiter)`: what follows the first `c`, or all of `s` without one. */
  function SubstringAfter(s: string, c: char): string {
    match IndexOf(s, c)
    case None => s
    case Some(k) => s[k + 1..]
  }

  /** `String.substringBeforeLast(delimiter)`: what precedes the last `c`, or all of `s` without one. */
  function SubstringBeforeLast(s: string, c: char): string {
    match LastIndexOf(s, c)
    case None => s
    case Some(k) => s[..k]
  }

  /** `String.substringAfterLast(delimiter, "")`: what follows the last `c`, or "" without one. */
  function SubstringAfterLast(s: string, c: char): string {
    match LastIndexOf(s, c)
    case None => ""
    case Some(k) => s[k + 1..]
  }

  /**
   * `split` around every character `isSep` accepts (a one-character delimiter, or a
   * character-class regex): the pieces between separators, empty pieces kept.
   */
  function Split(s: string, isSep: char -> bool): (r: seq<string>)
    ensures |r| >= 1
  {
    if s == [] then [""]
    else if isSep(s[0]) then [""] + Split(s[1..], isSep)
    else
      var rest := Split(s[1..], isSep);
      [[s[0]] + rest[0]] + rest[1..]
  }

  /** Without a separator there is one piece, the whole string. */
  lemma {:induction false} SplitWithoutSeparator(s: string, isSep: char -> bool)
    requires forall k :: 0 <= k < |s| ==> !isSep(s[k])
    ensures Split(s, isSep) == [s]
  {
    if s != [] {
      SplitWithoutSeparator(s[1..], isSep);
      assert [s[0]] + s[1..] == s;
    }
  }

  /** With exactly one separator, at `m`, there are two pieces: before it and after it. */
  lemma {:induction false} SplitAtOneSeparator(s: string, isSep: char -> bool, m: nat)
    requires m < |s| && isSep(s[m])
    requires forall k :: 0 <= k < |s| && k != m ==> !isSep(s[k])
    ensures Split(s, isSep) == [s[..m], s[m + 1..]]
  {
    if m == 0 {
      SplitWithoutSeparator(s[1..], isSep);
    } else {
      SplitAtOneSeparator(s[1..], isSep, m - 1);
      assert [s[0]] + s[1..][..m - 1] == s[..m];
    }
  }

  /** Splitting at a separator character `c` splits the two sides independently. */
  lemma {:induction false} SplitAtSeparator(a: string, c: char, b: string, isSep: char -> bool)
    requires isSep(c)
    ensures Split(a + [c] + b, isSep) == Split(a, isSep) + Split(b, isSep)
  {
    if a == [] {
      assert a + [c] + b == [c] + b;
      SplitCons(c, b, isSep);
    } else {
      SplitAtSeparator(a[1..], c, b, isSep);
      SplitAtSeparatorStep(a, c, b, isSep);
    }
  }

  /** The inductive step of `SplitAtSeparator`: one more character in front. */
  lemma SplitAtSeparatorStep(a: string, c: char, b: string, isSep: char -> bool)
    requires a != []
    requires Split(a[1..] + [c] + b, isSep) == Split(a[1..], isSep) + Split(b, isSep)
    ensures Split(a + [c] + b, isSep) == Split(a, isSep) + Split(b, isSep)
  {
    var t := a + [c] + b;
    assert t[1..] == a[1..] + [c] + b;
    SplitConsOnto(a, t, Split(b, isSep), isSep);
  }

  /**
   * Two strings with the same first character: when the split of the rest of
   * `t` is the split of the rest of `s` followed by `right`, the same holds
   * for the whole strings.
   */
  lemma SplitConsOnto(s: string, t: string, right: seq<string>, isSep: char -> bool)
    requires s != [] && t != [] && s[0] == t[0]
    requires Split(t[1..], isSep) == Split(s[1..], isSep) + right
    ensures Split(t, isSep) == Split(s, isSep) + right
  {
    var pieces := Split(s[1..], isSep);
    if isSep(s[0]) {
      assert [""] + (pieces + right) == ([""] + pieces) + right;
    } else {
      ConsOntoFirst([s[0]], pieces, right);
    }
  }

  /** Prefixing the first piece of `rest + right` is prefixing the first piece of `rest`, then appending `right`. */
  lemma ConsOntoFirst(x: string, rest: seq<string>, right: seq<string>)
    requires rest != []
    ensures [x + (rest + right)[0]] + (rest + right)[1..] == ([x + rest[0]] + rest[1..]) + right
  {
    assert (rest + right)[0] == rest[0];
    assert (rest + right)[1..] == rest[1..] + right;
  }

  /** Splitting a string by its first character. */
  lemma SplitCons(x: char, rest: string, isSep: char -> bool)
    ensures var r := Split(rest, isSep);
      Split([x] + rest, isSep) == if isSep(x) then [""] + r else [[x] + r[0]] + r[1..]
  {
    assert ([x] + rest)[0] == x && ([x] + rest)[1..] == rest;
  }

  /** No piece of a split contains a separator. */
  lemma {:induction false} SplitPiecesHaveNoSeparator(s: string, isSep: char -> bool)
    ensures forall j, k :: 0 <= j < |Split(s, isSep)| && 0 <= k < |Split(s, isSep)[j]| ==> !isSep(Split(s, isSep)[j][k])
  {
    if s != [] {
      SplitPiecesHaveNoSeparator(s[1..], isSep);
      assert s == [s[0]] + s[1..];
      SplitCons(s[0], s[1..], isSep);
      var rest, r := Split(s[1..], isSep), Split(s, isSep);
      forall j, k | 0 <= j < |r| && 0 <= k < |r[j]| ensures !isSep(r[j][k]) {
        if isSep(s[0]) {
          assert r[j][k] == rest[j - 1][k];
        } else if j > 0 {
          assert r[j][k] == rest[j][k];
        } else if k > 0 {
          assert r[0][k] == rest[0][k - 1];
        }
      }
    }
  }

  /** `joinToString(sep)`. */
  function Join(ss: seq<string>, sep: string): string {
    if ss == [] then ""
    else if |ss| == 1 then ss[0]
    else ss[0] + sep + Join(ss[1..], sep)
  }

  /** Joining one more piece appends the separator and that piece. */
  lemma {:induction false} JoinSnoc(ss: seq<string>, x: string, sep: string)
    requires ss != []
    ensures Join(ss + [x], sep) == Join(ss, sep) + sep + x
  {
    if |ss| > 1 {
      JoinSnoc(ss[1..], x, sep);
      assert (ss + [x])[1..] == ss[1..] + [x];
    }
  }

  /** Splitting at a character and joining the pieces with that character gives back the string. */
  lemma JoinSplit(s: string, d: char)
    ensures Join(Split(s, (c: char) => c == d), [d]) == s
  {
    JoinSplitBy(s, d, (c: char) => c == d);
  }

  lemma {:induction false} JoinSplitBy(s: string, d: char, isSep: char -> bool)
    requires forall c :: isSep(c) <==> c == d
    ensures Join(Split(s, isSep), [d]) == s
  {
    if s != [] {
      JoinSplitBy(s[1..], d, isSep);
      assert s == [s[0]] + s[1..];
      JoinSplitCons(s[0], s[1..], d, isSep);
    }
  }

  /** One more character in front of a string that splits and joins back to itself. */
  lemma JoinSplitCons(x: char, rest: string, d: char, isSep: char -> bool)
    requires forall c :: isSep(c) <==> c == d
    requires Join(Split(rest, isSep), [d]) == rest
    ensures Join(Split([x] + rest, isSep), [d]) == [x] + rest
  {
    SplitCons(x, rest, isSep);
    var pieces := Split(rest, isSep);
    if isSep(x) {
      assert ([""] + pieces)[1..] == pieces;
    } else {
      JoinOntoFirst([x], pieces, [d]);
    }
  }

  /** Prefixing the first piece prefixes the joined string. */
  lemma JoinOntoFirst(x: string, pieces: seq<string>, sep: string)
    requires pieces != []
    ensures Join([x + pieces[0]] + pieces[1..], sep) == x + Join(pieces, sep)
  {
    var r := [x + pieces[0]] + pieces[1..];
    assert r[0] == x + pieces[0];
    if |pieces| > 1 {
      assert r[1..] == pieces[1..];
    }
  }
}
