/**
 * The java.lang.String operations the label parser is built from, on Dafny strings.
 * Each function follows the Java method it is named after, including its edge cases:
 * searches answer -1 when nothing is found, substring fails on a bad range, split
 * drops trailing empty pieces, trim strips every character up to U+0020.
 */
module JavaStrings {
  import opened Outcomes

  /** `p` occurs in `s` starting at index `i`. */
  predicate Occurs(s: string, p: string, i: int) {
    0 <= i && i + |p| <= |s| && s[i..i + |p|] == p
  }

  /** String.indexOf(p, from): the first occurrence of `p` at or after `from`, or -1. */
  function IndexOfFrom(s: string, p: string, from: nat): (r: int)
    ensures r == -1 || (from <= r && Occurs(s, p, r))
    ensures forall j :: from <= j && (r == -1 || j < r) ==> !Occurs(s, p, j)
    decreases |s| - from
  {
    if from + |p| > |s| then -1
    else if s[from..from + |p|] == p then from
    else IndexOfFrom(s, p, from + 1)
  }

  /** String.indexOf(p). */
  function IndexOf(s: string, p: string): (r: int)
    ensures r == -1 || Occurs(s, p, r)
    ensures forall j :: 0 <= j && (r == -1 || j < r) ==> !Occurs(s, p, j)
  {
    IndexOfFrom(s, p, 0)
  }

  /** String.lastIndexOf(p, from): the last occurrence of `p` at or before `from`, or -1. */
  function LastIndexOfFrom(s: string, p: string, from: int): (r: int)
    ensures r == -1 || (0 <= r <= from && Occurs(s, p, r))
    ensures forall j :: r < j <= from ==> !Occurs(s, p, j)
    decreases from + 1
  {
    if from < 0 then -1
    else if Occurs(s, p, from) then from
    else LastIndexOfFrom(s, p, from - 1)
  }

  /** String.lastIndexOf(p). */
  function LastIndexOf(s: string, p: string): (r: int)
    ensures r == -1 || Occurs(s, p, r)
    ensures forall j :: r < j ==> !Occurs(s, p, j)
  {
    LastIndexOfFrom(s, p, |s| - |p|)
  }

  /** String.contains(p), which Java defines as indexOf(p) >= 0. */
  predicate Contains(s: string, p: string) {
    IndexOf(s, p) >= 0
  }

  lemma ContainsOccurs(s: string, p: string, i: int)
    requires Occurs(s, p, i)
    ensures Contains(s, p) && 0 <= IndexOf(s, p) <= i
  {
  }

  /** A character that is not in `s` rules out every pattern that starts with it. */
  lemma NotContainsFirst(s: string, p: string)
    requires |p| > 0 && p[0] !in s
    ensures !Contains(s, p)
  {
  }

  /** A string starts with the pattern it is searched for. */
  lemma IndexOfStart(p: string, s: string)
    ensures IndexOf(p + s, p) == 0
  {
    assert (p + s)[0..|p|] == p;
    assert Occurs(p + s, p, 0);
  }

  /** Text that cannot start the pattern is skipped by the search. */
  lemma IndexOfSkip(a: string, b: string, p: string)
    requires |p| > 0 && p[0] !in a
    ensures IndexOf(a + b, p) == (if IndexOf(b, p) < 0 then -1 else |a| + IndexOf(b, p))
  {
    var s := a + b;
    forall j | 0 <= j < |a| ensures !Occurs(s, p, j) {
      if j + |p| <= |s| {
        assert s[j..j + |p|][0] == a[j];
      }
    }
    forall j | 0 <= j ensures Occurs(s, p, |a| + j) <==> Occurs(b, p, j) {
      if |a| + j + |p| <= |s| {
        assert s[|a| + j..|a| + j + |p|] == b[j..j + |p|];
      }
    }
    var k := IndexOf(b, p);
    if k >= 0 {
      assert Occurs(s, p, |a| + k);
      forall j | 0 <= j < |a| + k ensures !Occurs(s, p, j) {
        if j >= |a| {
          assert !Occurs(b, p, j - |a|);
        }
      }
    } else {
      forall j | 0 <= j ensures !Occurs(s, p, j) {
        if j >= |a| {
          assert !Occurs(b, p, j - |a|);
        }
      }
    }
  }

  /** Occurrences in `s` from index 1 on are the occurrences in `s[1..]`, shifted by one. */
  lemma OccursShift(s: string, p: string, j: int)
    requires |s| > 0 && 0 <= j
    ensures Occurs(s, p, 1 + j) <==> Occurs(s[1..], p, j)
  {
    if 1 + j + |p| <= |s| {
      var a, b := s[1 + j..1 + j + |p|], s[1..][j..j + |p|];
      assert forall k :: 0 <= k < |p| ==> a[k] == b[k];
    }
  }

  /** When the pattern does not start at index 0, the search goes on from index 1. */
  lemma IndexOfNotAtStart(s: string, p: string)
    requires |s| > 0 && !Occurs(s, p, 0)
    ensures IndexOf(s, p) == (if IndexOf(s[1..], p) < 0 then -1 else 1 + IndexOf(s[1..], p))
  {
    var k := IndexOf(s[1..], p);
    var bound := if k >= 0 then 1 + k else |s| + 1;
    forall j | 0 <= j < bound
      ensures !Occurs(s, p, j)
    {
      if j >= 1 {
        OccursShift(s, p, j - 1);
      }
    }
    if k >= 0 {
      OccursShift(s, p, k);
      IndexOfFirst(s, p, 1 + k);
    } else {
      assert !Occurs(s, p, IndexOf(s, p));
    }
  }

  /** An occurrence with none before it is the one indexOf finds. */
  lemma IndexOfFirst(s: string, p: string, k: int)
    requires Occurs(s, p, k)
    requires forall j :: 0 <= j < k ==> !Occurs(s, p, j)
    ensures IndexOf(s, p) == k
  {
  }

  /** The first occurrence of `p` right after text that cannot start it. */
  lemma IndexOfAfter(a: string, p: string, rest: string)
    requires |p| > 0 && p[0] !in a
    ensures IndexOf(a + p + rest, p) == |a|
  {
    assert a + p + rest == a + (p + rest);
    IndexOfStart(p, rest);
    IndexOfSkip(a, p + rest, p);
  }

  /** An occurrence is the first one when the pattern's `k`-th character appears nowhere before its own. */
  lemma IndexOfByChar(s: string, p: string, i: int, k: int)
    requires Occurs(s, p, i) && 0 <= k < |p|
    requires forall j :: 0 <= j < i + k ==> s[j] != p[k]
    ensures IndexOf(s, p) == i
  {
    forall j | 0 <= j < i
      ensures !Occurs(s, p, j)
    {
      if j + |p| <= |s| {
        assert s[j..j + |p|][k] == s[j + k];
      }
    }
    IndexOfFirst(s, p, i);
  }

  /** The first occurrence in a prefix is the first occurrence in the whole string. */
  lemma IndexOfExtend(a: string, b: string, p: string)
    requires IndexOf(a, p) >= 0
    ensures IndexOf(a + b, p) == IndexOf(a, p)
  {
    var i := IndexOf(a, p);
    var s := a + b;
    assert s[i..i + |p|] == a[i..i + |p|];
    assert Occurs(s, p, i);
    forall j | 0 <= j < i ensures !Occurs(s, p, j) {
      assert s[j..j + |p|] == a[j..j + |p|];
      assert !Occurs(a, p, j);
    }
  }

  /** An occurrence after which the pattern's first character never appears again is the last one. */
  lemma LastIndexOfAt(s: string, p: string, i: int)
    requires |p| > 0 && Occurs(s, p, i)
    requires forall k :: i < k < |s| ==> s[k] != p[0]
    ensures LastIndexOf(s, p) == i
  {
    var r := LastIndexOf(s, p);
    assert r >= 0 ==> s[r..r + |p|][0] == s[r];
  }

  /** A slice that ends at or before the first occurrence holds no occurrence. */
  lemma SliceBeforeFirst(s: string, m: string, b: int, e: int)
    requires |m| > 0 && 0 <= b <= e <= |s|
    requires forall j :: 0 <= j < e ==> !Occurs(s, m, j)
    ensures !Contains(s[b..e], m)
  {
    var t := s[b..e];
    var k := IndexOf(t, m);
    if k >= 0 {
      assert Occurs(t, m, k) && k + |m| <= e - b;
      assert t[k..k + |m|] == s[b + k..b + k + |m|];
      assert Occurs(s, m, b + k);
    }
  }

  /** A character is absent from what precedes its first occurrence. */
  lemma CharBeforeFirst(s: string, c: char, e: int)
    requires 0 <= e <= |s| && forall j :: 0 <= j < e ==> !Occurs(s, [c], j)
    ensures c !in s[..e]
  {
    forall k | 0 <= k < e
      ensures s[k] != c
    {
      assert s[k..k + 1] == [s[k]];
      assert !Occurs(s, [c], k);
    }
  }

  /** A character is absent from what follows its last occurrence. */
  lemma CharAfterLast(s: string, c: char, i: int)
    requires -1 <= i < |s| && forall j :: i < j ==> !Occurs(s, [c], j)
    ensures c !in s[i + 1..]
  {
    forall k | i + 1 <= k < |s|
      ensures s[k] != c
    {
      assert s[k..k + 1] == [s[k]];
      assert !Occurs(s, [c], k);
    }
  }

  /** String.substring(b, e). */
  function Substring(s: string, b: int, e: int): (r: Result<string>)
    ensures r.Ok? <==> 0 <= b <= e <= |s|
    ensures r.Ok? ==> |r.value| == e - b && r.value == s[b..e]
  {
    if 0 <= b <= e <= |s| then Ok(s[b..e]) else Err(StringIndexOutOfBounds)
  }

  /** a[i] on a Java array. */
  function At<T>(a: seq<T>, i: int): (r: Result<T>)
    ensures r.Ok? <==> 0 <= i < |a|
    ensures r.Ok? ==> r.value == a[i]
  {
    if 0 <= i < |a| then Ok(a[i]) else Err(ArrayIndexOutOfBounds)
  }

  /** The pieces `s` falls into at each leftmost, non-overlapping occurrence of `d`. */
  function SplitPieces(s: string, d: string): (r: seq<string>)
    requires |d| > 0
    ensures |r| >= 1
    decreases |s|
  {
    var i := IndexOf(s, d);
    if i < 0 then [s] else [s[..i]] + SplitPieces(s[i + |d|..], d)
  }

  /** The inverse of SplitPieces: the pieces glued back with `d` between them. */
  function Join(pieces: seq<string>, d: string): string
    requires |pieces| >= 1
  {
    if |pieces| == 1 then pieces[0] else pieces[0] + d + Join(pieces[1..], d)
  }

  /** No piece before a first occurrence holds the delimiter. */
  lemma PrefixBeforeFirst(s: string, d: string, i: int)
    requires |d| > 0 && 0 <= i <= |s|
    requires forall j :: 0 <= j < i ==> !Occurs(s, d, j)
    ensures !Contains(s[..i], d)
  {
    var k := IndexOf(s[..i], d);
    if k >= 0 {
      assert s[..i][k..k + |d|] == s[k..k + |d|];
      assert Occurs(s, d, k);
    }
  }

  lemma {:induction false} SplitPiecesJoin(s: string, d: string)
    requires |d| > 0
    ensures Join(SplitPieces(s, d), d) == s
    ensures forall k :: 0 <= k < |SplitPieces(s, d)| ==> !Contains(SplitPieces(s, d)[k], d)
    decreases |s|
  {
    var i := IndexOf(s, d);
    if i < 0 {
    } else {
      var rest := s[i + |d|..];
      SplitPiecesJoin(rest, d);
      PrefixBeforeFirst(s, d, i);
      var r := SplitPieces(s, d);
      assert r == [s[..i]] + SplitPieces(rest, d);
      assert r[1..] == SplitPieces(rest, d);
      assert s == s[..i] + d + rest by {
        assert s[i..i + |d|] == d;
      }
      forall k | 0 <= k < |r| ensures !Contains(r[k], d) {
        if k > 0 {
          assert r[k] == SplitPieces(rest, d)[k - 1];
        }
      }
    }
  }

  /** Java drops empty strings from the end of a split result. */
  function DropTrailingEmpty(pieces: seq<string>): (r: seq<string>)
    ensures |r| <= |pieces| && r == pieces[..|r|]
    ensures forall k :: |r| <= k < |pieces| ==> pieces[k] == ""
    ensures |r| == 0 || r[|r| - 1] != ""
  {
    if |pieces| > 0 && pieces[|pieces| - 1] == "" then DropTrailingEmpty(pieces[..|pieces| - 1])
    else pieces
  }

  /**
   * String.split(d) for a delimiter without regular-expression metacharacters
   * (limit 0): the whole string when `d` does not occur, otherwise the pieces
   * between occurrences without the trailing empty ones.
   */
  function Split(s: string, d: string): (r: seq<string>)
    requires |d| > 0
    ensures !Contains(s, d) ==> r == [s]
    ensures Contains(s, d) ==> |r| <= |SplitPieces(s, d)| && r == SplitPieces(s, d)[..|r|]
    ensures forall k :: 0 <= k < |r| ==> !Contains(r[k], d)
  {
    SplitPiecesJoin(s, d);
    if !Contains(s, d) then [s] else DropTrailingEmpty(SplitPieces(s, d))
  }

  /** A string with exactly one delimiter character, not at the end, splits into the two sides. */
  lemma SplitOnce(a: string, b: string, c: char)
    requires c !in a && c !in b && b != []
    ensures Split(a + [c] + b, [c]) == [a, b]
  {
    var s := a + [c] + b;
    assert s == a + ([c] + b);
    IndexOfStart([c], b);
    IndexOfSkip(a, [c] + b, [c]);
    assert s[..|a|] == a && s[|a| + 1..] == b;
    NotContainsFirst(b, [c]);
    assert SplitPieces(s, [c]) == [a, b];
    ContainsOccurs(s, [c], |a|);
  }

  /** Java's trim treats every character up to U+0020 as white space. */
  predicate IsJavaSpace(c: char) {
    c <= ' '
  }

  function TrimStart(s: string): (r: string)
    ensures |r| <= |s| && r == s[|s| - |r|..]
    ensures forall k :: 0 <= k < |s| - |r| ==> IsJavaSpace(s[k])
    ensures r == [] || !IsJavaSpace(r[0])
  {
    if |s| > 0 && IsJavaSpace(s[0]) then TrimStart(s[1..]) else s
  }

  function TrimEnd(s: string): (r: string)
    ensures |r| <= |s| && r == s[..|r|]
    ensures forall k :: |r| <= k < |s| ==> IsJavaSpace(s[k])
    ensures r == [] || !IsJavaSpace(r[|r| - 1])
  {
    if |s| > 0 && IsJavaSpace(s[|s| - 1]) then TrimEnd(s[..|s| - 1]) else s
  }

  /** String.trim(). */
  function Trim(s: string): (r: string)
    ensures |r| <= |s|
    ensures r == [] || (!IsJavaSpace(r[0]) && !IsJavaSpace(r[|r| - 1]))
    ensures (forall k :: 0 <= k < |s| ==> IsJavaSpace(s[k])) ==> r == []
    ensures |s| > 0 && !IsJavaSpace(s[0]) && !IsJavaSpace(s[|s| - 1]) ==> r == s
  {
    TrimEnd(TrimStart(s))
  }

  /** Leading white space is dropped and a string without outer white space is kept whole. */
  lemma {:induction false} TrimAfterSpaces(lead: string, s: string)
    requires forall k :: 0 <= k < |lead| ==> IsJavaSpace(lead[k])
    requires |s| > 0 && !IsJavaSpace(s[0]) && !IsJavaSpace(s[|s| - 1])
    ensures Trim(lead + s) == s
  {
    if lead == [] {
      assert lead + s == s;
    } else {
      assert (lead + s)[1..] == lead[1..] + s;
      TrimAfterSpaces(lead[1..], s);
    }
  }

  /** StringBuffer.reverse(). */
  function Reverse(s: string): (r: string)
    ensures |r| == |s|
    ensures forall k :: 0 <= k < |s| ==> r[k] == s[|s| - 1 - k]
  {
    if s == [] then [] else Reverse(s[1..]) + [s[0]]
  }

  /** A string holding the characters of `s` back to front is its reversal. */
  lemma ReverseOf(s: string, t: string)
    requires |t| == |s| && forall k :: 0 <= k < |s| ==> t[k] == s[|s| - 1 - k]
    ensures Reverse(s) == t
  {
  }

  lemma ReverseReverse(s: string)
    ensures Reverse(Reverse(s)) == s
  {
    assert forall k :: 0 <= k < |s| ==> Reverse(Reverse(s))[k] == s[k];
  }

  /**
   * String.replaceAll(p, rep) for a pattern without metacharacters: every
   * leftmost, non-overlapping occurrence of `p` is replaced by `rep`.
   */
  function ReplaceAll(s: string, p: string, rep: string): string
    requires |p| > 0
    decreases |s|
  {
    if |s| < |p| then s
    else if s[..|p|] == p then rep + ReplaceAll(s[|p|..], p, rep)
    else [s[0]] + ReplaceAll(s[1..], p, rep)
  }

  /** Replacing a one-character pattern by text without it leaves no trace of that character. */
  lemma {:induction false} ReplaceAllRemoves(s: string, c: char, rep: string)
    requires c !in rep
    ensures c !in ReplaceAll(s, [c], rep)
    decreases |s|
  {
    if |s| >= 1 {
      ReplaceAllRemoves(s[1..], c, rep);
    }
  }

  function ToLowerAscii(c: char): char {
    if 'A' <= c <= 'Z' then (c as int + 32) as char else c
  }

  /** String.equalsIgnoreCase(b), for the ASCII letters. */
  predicate EqualsIgnoreCase(a: string, b: string) {
    |a| == |b| && forall k :: 0 <= k < |a| ==> ToLowerAscii(a[k]) == ToLowerAscii(b[k])
  }

  predicate IsDigit(c: char) {
    '0' <= c <= '9'
  }

  predicate AllDigits(s: string) {
    forall k :: 0 <= k < |s| ==> IsDigit(s[k])
  }

  /** The value of a string of decimal digits, most significant first. */
  function DigitsValue(s: string): nat
    requires AllDigits(s)
  {
    if s == [] then 0 else DigitsValue(s[..|s| - 1]) * 10 + (s[|s| - 1] as int - '0' as int)
  }

  /** The decimal spelling of `n` without leading zeros. */
  function Decimal(n: nat): (r: string)
    ensures |r| > 0 && AllDigits(r)
  {
    var last := ('0' as int + n % 10) as char;
    if n < 10 then [last] else Decimal(n / 10) + [last]
  }

  lemma {:induction false} DecimalValue(n: nat)
    ensures DigitsValue(Decimal(n)) == n
  {
    var s := Decimal(n);
    if n >= 10 {
      DecimalValue(n / 10);
      assert s[..|s| - 1] == Decimal(n / 10);
    }
  }

  const LongMinValue: int := -0x8000_0000_0000_0000
  const LongMaxValue: int := 0x7FFF_FFFF_FFFF_FFFF

  /**
   * Long.parseLong(s): an optional sign followed by at least one digit, whose
   * value fits in a signed 64-bit integer; anything else is a NumberFormatException.
   */
  function ParseLong(s: string): (r: Result<int>)
    ensures r.Ok? ==> LongMinValue <= r.value <= LongMaxValue
    ensures r.Ok? ==> |s| > 0 && (IsDigit(s[0]) || s[0] == '-' || s[0] == '+')
    ensures AllDigits(s) && |s| > 0 && DigitsValue(s) <= LongMaxValue ==> r == Ok(DigitsValue(s))
  {
    var signed := |s| > 0 && (s[0] == '-' || s[0] == '+');
    var digits := if signed then s[1..] else s;
    if |digits| == 0 || !AllDigits(digits) then Err(NumberFormat)
    else
      var magnitude: int := DigitsValue(digits);
      var v := if s[0] == '-' then -magnitude else magnitude;
      if LongMinValue <= v <= LongMaxValue then Ok(v) else Err(NumberFormat)
  }

  /** Parsing the decimal spelling of an id gives the id back. */
  lemma ParseLongDecimal(n: nat)
    requires n <= LongMaxValue
    ensures ParseLong(Decimal(n)) == Ok(n)
  {
    DecimalValue(n);
  }
}
