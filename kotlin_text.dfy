/**
 * The Kotlin standard-library text functions the EvoSuite adapter relies on,
 * with the semantics they have on the JVM: `indexOf`, `substringBefore`,
 * `substringAfterLast`, `removePrefix`, `removeSuffix`, `trim`, `isBlank`,
 * `split` on a string delimiter, `joinToString`, `replace` (character and
 * string forms), `endsWith`, and the decimal rendering of integers used by
 * string templates.
 */
module KotlinText {
  import opened Wrappers
  import opened Sequences

  /** `d` occurs in `s` starting at index `i`. */
  predicate MatchesAt(s: string, d: string, i: nat) {
    i + |d| <= |s| && s[i..i + |d|] == d
  }

  /** `s.indexOf(d, from)`: the first occurrence of `d` at or after `from`. */
  function IndexOf(s: string, d: string, from: nat): (r: Option<nat>)
    decreases |s| - from
    ensures r.Some? ==> from <= r.value && MatchesAt(s, d, r.value)
    ensures r.Some? ==> forall j :: from <= j < r.value ==> !MatchesAt(s, d, j)
    ensures r.None? ==> forall j :: from <= j ==> !MatchesAt(s, d, j)
  {
    if from + |d| > |s| then None
    else if MatchesAt(s, d, from) then Some(from)
    else IndexOf(s, d, from + 1)
  }

  predicate Contains(s: string, d: string) {
    exists i: nat | i <= |s| :: MatchesAt(s, d, i)
  }

  predicate StartsWith(s: string, p: string) {
    |p| <= |s| && s[..|p|] == p
  }

  predicate EndsWith(s: string, p: string) {
    |p| <= |s| && s[|s| - |p|..] == p
  }

  /** `s.substringBefore(d)`: everything before the first `d`, or all of `s` when there is none. */
  function SubstringBefore(s: string, d: string): (r: string)
    ensures StartsWith(s, r)
    ensures Contains(s, d) ==> MatchesAt(s, d, |r|)
    ensures forall j :: 0 <= j < |r| ==> !MatchesAt(s, d, j)
    ensures !Contains(s, d) ==> r == s
  {
    match IndexOf(s, d, 0)
    case None => s
    case Some(i) => s[..i]
  }

  /** `s.removePrefix(p)`. */
  function RemovePrefix(s: string, p: string): (r: string)
    ensures StartsWith(s, p) ==> p + r == s
    ensures !StartsWith(s, p) ==> r == s
  {
    if StartsWith(s, p) then s[|p|..] else s
  }

  /** `s.removeSuffix(p)`. */
  function RemoveSuffix(s: string, p: string): (r: string)
    ensures EndsWith(s, p) ==> r + p == s
    ensures !EndsWith(s, p) ==> r == s
  {
    if EndsWith(s, p) then s[..|s| - |p|] else s
  }

  /** The last index of character `c` in `s`, as `lastIndexOf`. */
  function LastIndexOf(s: string, c: char): (r: Option<nat>)
    ensures r.Some? ==> r.value < |s| && s[r.value] == c
    ensures r.Some? ==> forall j :: r.value < j < |s| ==> s[j] != c
    ensures r.None? ==> forall j :: 0 <= j < |s| ==> s[j] != c
  {
    if |s| == 0 then None
    else if s[|s| - 1] == c then Some(|s| - 1)
    else LastIndexOf(s[..|s| - 1], c)
  }

  /** `s.substringAfterLast(c)`: everything after the last `c`, or all of `s` when there is none. */
  function SubstringAfterLast(s: string, c: char): (r: string)
    ensures EndsWith(s, r)
    ensures c !in r
    ensures |r| < |s| ==> s[|s| - |r| - 1] == c
  {
    match LastIndexOf(s, c)
    case None => s
    case Some(i) => s[i + 1..]
  }

  /**
   * `Char.isWhitespace()` on the JVM: `Character.isWhitespace(c) ||
   * Character.isSpaceChar(c)`, i.e. the ASCII controls 9-13 and 28-31 and every
   * Unicode space, line or paragraph separator.
   */
  predicate IsWhitespace(c: char) {
    var n := c as int;
    || 0x09 <= n <= 0x0D
    || 0x1C <= n <= 0x20
    || n == 0xA0 || n == 0x1680
    || 0x2000 <= n <= 0x200A
    || n == 0x2028 || n == 0x2029 || n == 0x202F || n == 0x205F || n == 0x3000
  }

  /** `s.isBlank()`. */
  predicate IsBlank(s: string) {
    forall i :: 0 <= i < |s| ==> IsWhitespace(s[i])
  }

  function TrimStart(s: string): (r: string)
    ensures EndsWith(s, r)
    ensures IsBlank(s[..|s| - |r|])
    ensures |r| > 0 ==> !IsWhitespace(r[0])
  {
    if |s| > 0 && IsWhitespace(s[0]) then TrimStart(s[1..]) else s
  }

  function TrimEnd(s: string): (r: string)
    ensures StartsWith(s, r)
    ensures IsBlank(s[|r|..])
    ensures |r| > 0 ==> !IsWhitespace(r[|r| - 1])
  {
    if |s| > 0 && IsWhitespace(s[|s| - 1]) then TrimEnd(s[..|s| - 1]) else s
  }

  /** `s.trim()`: drops whitespace from both ends. */
  function Trim(s: string): string {
    TrimEnd(TrimStart(s))
  }

  /** A string is blank exactly when trimming it leaves nothing. */
  lemma {:induction false} TrimEmptyIffBlank(s: string)
    ensures Trim(s) == "" <==> IsBlank(s)
  {
    var t := TrimStart(s);
    if Trim(s) == "" {
      assert IsBlank(t[|Trim(s)|..]);
      assert s == s[..|s| - |t|] + t;
    } else {
      var k := |s| - |t|;
      assert !IsWhitespace(t[0]) by {
        assert |TrimEnd(t)| > 0;
      }
      assert s[k] == t[0];
    }
  }

  /**
   * `s.split(d)` for a non-empty delimiter: the pieces between successive
   * non-overlapping occurrences of `d`, left to right, empty pieces included.
   */
  function Split(s: string, d: string): (r: seq<string>)
    requires |d| > 0
    decreases |s|
    ensures |r| >= 1
  {
    match IndexOf(s, d, 0)
    case None => [s]
    case Some(i) => [s[..i]] + Split(s[i + |d|..], d)
  }

  /** `parts.joinToString(sep)`. */
  function Join(parts: seq<string>, sep: string): string {
    if |parts| == 0 then ""
    else if |parts| == 1 then parts[0]
    else parts[0] + sep + Join(parts[1..], sep)
  }

  /** Joining the pieces of a split with the delimiter gives back the original string. */
  lemma {:induction false} JoinSplit(s: string, d: string)
    requires |d| > 0
    decreases |s|
    ensures Join(Split(s, d), d) == s
  {
    match IndexOf(s, d, 0)
    case None =>
    case Some(i) =>
      var rest := s[i + |d|..];
      SplitAtFirst(s, d, i);
      JoinSplit(rest, d);
      JoinCons(s[..i], Split(rest, d), d);
      assert s == s[..i] + d + rest by {
        assert s[i..i + |d|] == d;
      }
  }

  lemma {:induction false} JoinCons(p: string, parts: seq<string>, sep: string)
    requires |parts| > 0
    ensures Join([p] + parts, sep) == p + sep + Join(parts, sep)
  {
    assert ([p] + parts)[1..] == parts;
  }

  /** No piece of a split contains the delimiter. */
  lemma {:induction false} SplitPiecesAvoidDelimiter(s: string, d: string)
    requires |d| > 0
    decreases |s|
    ensures forall k :: 0 <= k < |Split(s, d)| ==> !Contains(Split(s, d)[k], d)
  {
    match IndexOf(s, d, 0)
    case None =>
    case Some(i) =>
      var rest := s[i + |d|..];
      SplitPiecesAvoidDelimiter(rest, d);
      var head := s[..i];
      forall j: nat | j <= |head| && MatchesAt(head, d, j)
        ensures false
      {
        assert s[j..j + |d|] == head[j..j + |d|];
        assert MatchesAt(s, d, j);
      }
      assert Split(s, d) == [head] + Split(rest, d);
  }

  /** Every character of the rendering of a number is a decimal digit. */
  predicate AllDigits(s: string) {
    forall i :: 0 <= i < |s| ==> '0' <= s[i] <= '9'
  }

  function DigitChar(n: nat): (c: char)
    requires n < 10
  {
    ['0', '1', '2', '3', '4', '5', '6', '7', '8', '9'][n]
  }

  /** The decimal rendering of a natural number, as a string template prints it. */
  function NatToString(n: nat): (r: string)
    ensures |r| > 0 && AllDigits(r)
  {
    if n < 10 then [DigitChar(n)] else NatToString(n / 10) + [DigitChar(n % 10)]
  }

  /** The decimal rendering of a (possibly negative) integer, as `Long.toString` gives it. */
  function IntToString(n: int): (r: string)
    ensures |r| > 0
    ensures n >= 0 <==> r[0] != '-'
  {
    if n < 0 then "-" + NatToString(-n) else NatToString(n)
  }

  /** Reads back a string of decimal digits. */
  function DecimalValue(s: string): nat
    requires AllDigits(s)
  {
    if |s| == 0 then 0 else 10 * DecimalValue(s[..|s| - 1]) + (s[|s| - 1] as int - '0' as int)
  }

  lemma {:induction false} DecimalRoundTrip(n: nat)
    ensures DecimalValue(NatToString(n)) == n
  {
    var s := NatToString(n);
    if n >= 10 {
      DecimalRoundTrip(n / 10);
      assert s[..|s| - 1] == NatToString(n / 10);
    }
  }

  /** Distinct numbers render as distinct strings, so `name + index` names never repeat within one file. */
  lemma {:induction false} NatToStringInjective(m: nat, n: nat)
    requires m != n
    ensures NatToString(m) != NatToString(n)
  {
    DecimalRoundTrip(m);
    DecimalRoundTrip(n);
  }

  /** `s.replace(a, b)` on characters. */
  function ReplaceChar(s: string, a: char, b: char): (r: string)
    ensures |r| == |s|
    ensures forall i :: 0 <= i < |s| ==> r[i] == if s[i] == a then b else s[i]
  {
    seq(|s|, i requires 0 <= i < |s| => if s[i] == a then b else s[i])
  }

  /** Replacing a character in a concatenation whose tail lacks it changes only the head. */
  lemma ReplaceCharAppend(x: string, y: string, a: char, b: char)
    requires a !in y
    ensures ReplaceChar(x + y, a, b) == ReplaceChar(x, a, b) + y
  {
    var whole, parts := ReplaceChar(x + y, a, b), ReplaceChar(x, a, b) + y;
    assert forall i :: 0 <= i < |whole| ==> whole[i] == parts[i];
  }

  /** `s.replace(pattern, replacement)` on a non-empty string: every non-overlapping occurrence, left to right. */
  function ReplaceAll(s: string, pattern: string, replacement: string): (r: string)
    requires |pattern| > 0
    decreases |s|
  {
    match IndexOf(s, pattern, 0)
    case None => s
    case Some(i) => s[..i] + replacement + ReplaceAll(s[i + |pattern|..], pattern, replacement)
  }

  /** A string without the pattern is returned unchanged. */
  lemma ReplaceWithoutMatch(s: string, pattern: string, replacement: string)
    requires |pattern| > 0 && !Contains(s, pattern)
    ensures ReplaceAll(s, pattern, replacement) == s
  {
  }

  /** A match and no match before it make the first match. */
  lemma {:induction false} FirstMatchIs(s: string, d: string, i: nat)
    requires MatchesAt(s, d, i)
    requires forall j :: 0 <= j < i ==> !MatchesAt(s, d, j)
    ensures IndexOf(s, d, 0) == Some(i)
  {
  }

  /** A character that differs from the pattern's rules out a match there. */
  lemma {:induction false} Mismatch(s: string, d: string, j: nat, k: nat)
    requires k < |d| && j + k < |s| && s[j + k] != d[k]
    ensures !MatchesAt(s, d, j)
  {
    if j + |d| <= |s| {
      assert s[j..j + |d|][k] == s[j + k];
    }
  }


  /** Replacing from the first match of `pattern` on. */
  lemma {:induction false} ReplaceAtFirst(s: string, pattern: string, replacement: string, i: nat)
    requires |pattern| > 0 && IndexOf(s, pattern, 0) == Some(i)
    ensures i + |pattern| <= |s|
    ensures ReplaceAll(s, pattern, replacement) == s[..i] + replacement + ReplaceAll(s[i + |pattern|..], pattern, replacement)
  {
  }

  /** Appending one more piece to a non-empty list adds the separator and the piece. */
  lemma {:induction false} JoinSnoc(parts: seq<string>, x: string, sep: string)
    requires |parts| > 0
    decreases |parts|
    ensures Join(parts + [x], sep) == Join(parts, sep) + sep + x
  {
    if |parts| > 1 {
      JoinSnoc(parts[1..], x, sep);
      assert (parts + [x])[1..] == parts[1..] + [x];
    }
  }

  /** A one-character delimiter between two strings splits them independently. */
  lemma {:induction false} SplitAround(x: string, c: char, y: string)
    decreases |x|
    ensures Split(x + [c] + y, [c]) == Split(x, [c]) + Split(y, [c])
  {
    match IndexOf(x, [c], 0)
    case Some(i) =>
      SplitAround(x[i + 1..], c, y);
      SplitAroundFirst(x, c, y, i);
    case None =>
      SplitAroundNone(x, c, y);
  }

  /** The step of `SplitAround` when `x` holds a `c`. */
  lemma {:induction false} SplitAroundFirst(x: string, c: char, y: string, i: nat)
    requires IndexOf(x, [c], 0) == Some(i)
    requires Split(x[i + 1..] + [c] + y, [c]) == Split(x[i + 1..], [c]) + Split(y, [c])
    ensures Split(x + [c] + y, [c]) == Split(x, [c]) + Split(y, [c])
  {
    var xs := x[i + 1..];
    SplitExtended(x, [c], i, [c] + y);
    AppendAssoc(x, [c], y);
    AppendAssoc(xs, [c], y);
    SplitAtFirst(x, [c], i);
    AppendAssoc([x[..i]], Split(xs, [c]), Split(y, [c]));
  }




  /** Text after the first match of `d` in `x` does not change the first piece. */
  lemma {:induction false} SplitExtended(x: string, d: string, i: nat, z: string)
    requires |d| > 0 && IndexOf(x, d, 0) == Some(i)
    ensures Split(x + z, d) == [x[..i]] + Split(x[i + |d|..] + z, d)
  {
    var s := x + z;
    ExtendFirstMatch(x, d, i, z);
    SplitAtFirst(s, d, i);
    assert s[i + |d|..] == x[i + |d|..] + z;
    assert s[..i] == x[..i];
  }


  /** The step of `SplitAround` when `x` holds no `c`. */
  lemma {:induction false} SplitAroundNone(x: string, c: char, y: string)
    requires IndexOf(x, [c], 0) == None
    ensures Split(x + [c] + y, [c]) == Split(x, [c]) + Split(y, [c])
  {
    var s := x + [c] + y;
    NoMatchThenChar(x, c, y);
    assert s[|x| + 1..] == y && s[..|x|] == x;
    SplitAtFirst(s, [c], |x|);
  }



  lemma {:induction false} SplitAtFirst(s: string, d: string, i: nat)
    requires |d| > 0 && IndexOf(s, d, 0) == Some(i)
    ensures i + |d| <= |s|
    ensures Split(s, d) == [s[..i]] + Split(s[i + |d|..], d)
  {
  }

  /** The first match in `x` stays the first match once more text follows. */
  lemma {:induction false} ExtendFirstMatch(x: string, d: string, i: nat, z: string)
    requires IndexOf(x, d, 0) == Some(i)
    ensures IndexOf(x + z, d, 0) == Some(i)
  {
    var s := x + z;
    assert s[i..i + |d|] == x[i..i + |d|];
    assert MatchesAt(s, d, i);
    var r := IndexOf(s, d, 0);
    if r.value < i {
      assert s[r.value..r.value + |d|] == x[r.value..r.value + |d|];
      assert MatchesAt(x, d, r.value);
      assert false;
    }
  }

  lemma {:induction false} NoMatchThenChar(x: string, c: char, y: string)
    requires IndexOf(x, [c], 0) == None
    ensures IndexOf(x + [c] + y, [c], 0) == Some(|x|)
  {
    var s := x + [c] + y;
    assert s[|x|..|x| + 1] == [c];
    assert MatchesAt(s, [c], |x|);
    var r := IndexOf(s, [c], 0);
    if r.value < |x| {
      CharMatch(s, c, r.value);
      MatchChar(x, c, r.value);
      assert false;
    }
  }

  lemma {:induction false} MatchChar(s: string, c: char, i: nat)
    requires i < |s| && s[i] == c
    ensures MatchesAt(s, [c], i)
  {
    assert s[i..i + 1] == [s[i]];
  }

  lemma {:induction false} NoCharMatch(s: string, c: char)
    requires c !in s
    ensures IndexOf(s, [c], 0) == None
  {
    var r := IndexOf(s, [c], 0);
    if r.Some? {
      CharMatch(s, c, r.value);
      assert false;
    }
  }

  lemma {:induction false} CharMatch(s: string, c: char, i: nat)
    requires MatchesAt(s, [c], i)
    ensures i < |s| && s[i] == c
  {
    assert s[i..i + 1][0] == s[i];
  }

  /** Splitting a string free of a one-character delimiter yields it whole. */
  lemma {:induction false} SplitWithoutDelimiter(s: string, c: char)
    requires c !in s
    ensures Split(s, [c]) == [s]
  {
    NoCharMatch(s, c);
  }

  /** A string free of a one-character pattern does not contain that character. */
  lemma {:induction false} CharFree(s: string, c: char)
    requires !Contains(s, [c])
    ensures c !in s
  {
    if c in s {
      var i :| 0 <= i < |s| && s[i] == c;
      MatchChar(s, c, i);
      assert false;
    }
  }

  /** Splitting the join of separator-free parts on the separator gives the parts back. */
  lemma {:induction false} SplitJoin(parts: seq<string>, c: char)
    requires |parts| > 0
    requires forall k :: 0 <= k < |parts| ==> c !in parts[k]
    decreases |parts|
    ensures Split(Join(parts, [c]), [c]) == parts
  {
    SplitWithoutDelimiter(parts[0], c);
    if |parts| > 1 {
      SplitJoin(parts[1..], c);
      SplitAround(parts[0], c, Join(parts[1..], [c]));
    }
  }

  /**
   * The last piece of a split on a one-character delimiter is free of it and
   * ends the string, and either is the whole string or follows a delimiter.
   */
  lemma {:induction false} LastPiece(s: string, c: char)
    ensures var parts := Split(s, [c]);
      var last := parts[|parts| - 1];
      && c !in last
      && EndsWith(s, last)
      && (last == s || (|last| < |s| && s[|s| - |last| - 1] == c))
  {
    var parts := Split(s, [c]);
    var last := parts[|parts| - 1];
    SplitPiecesAvoidDelimiter(s, [c]);
    CharFree(last, c);
    JoinSplit(s, [c]);
    if |parts| > 1 {
      var init := parts[..|parts| - 1];
      assert parts == init + [last];
      JoinSnoc(init, last, [c]);
      assert s == Join(init, [c]) + [c] + last;
    }
  }

  /** A match that fits inside `a` does not depend on what follows `a`. */
  lemma {:induction false} MatchesAtPrefix(a: string, b: string, d: string, j: nat)
    requires j + |d| <= |a|
    ensures MatchesAt(a + b, d, j) == MatchesAt(a, d, j)
  {
    assert (a + b)[j..j + |d|] == a[j..j + |d|];
  }

  lemma {:induction false} LastIndexOfIs(s: string, c: char, i: nat)
    requires i < |s| && s[i] == c
    requires forall j :: i < j < |s| ==> s[j] != c
    ensures LastIndexOf(s, c) == Some(i)
  {
  }

  /** Text without `c` appended after the last `c` joins the part after it. */
  lemma {:induction false} SubstringAfterLastAppend(x: string, y: string, c: char)
    requires c !in y
    ensures SubstringAfterLast(x + y, c) == SubstringAfterLast(x, c) + y
  {
    var b := SubstringAfterLast(x, c);
    var s, a := x + y, b + y;
    assert s[|s| - |a|..] == x[|x| - |b|..] + y;
    if |a| < |s| {
      assert s[|s| - |a| - 1] == x[|x| - |b| - 1];
    }
    FreeSuffixIsAfterLast(s, c, a);
  }


  /** A suffix free of `c` that is all of `s` or follows a `c` is unique: it is what follows the last `c`. */
  lemma {:induction false} FreeSuffixIsAfterLast(s: string, c: char, a: string)
    requires EndsWith(s, a) && c !in a
    requires |a| < |s| ==> s[|s| - |a| - 1] == c
    ensures a == SubstringAfterLast(s, c)
  {
    var b := SubstringAfterLast(s, c);
    assert forall k :: |s| - |b| <= k < |s| ==> s[k] == b[k - (|s| - |b|)];
    assert forall k :: |s| - |a| <= k < |s| ==> s[k] == a[k - (|s| - |a|)];
    assert |a| == |b|;
  }

  /** The last piece of a split on one character is what follows the last occurrence of it. */
  lemma {:induction false} LastPieceIsAfterLast(s: string, c: char)
    ensures var parts := Split(s, [c]); parts[|parts| - 1] == SubstringAfterLast(s, c)
  {
    var parts := Split(s, [c]);
    LastPiece(s, c);
    FreeSuffixIsAfterLast(s, c, parts[|parts| - 1]);
  }
}
