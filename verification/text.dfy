/** The string primitives the CSV code relies on: JavaScript's `trim`,
    `split` on a single character, `join`, and fixed-shape pattern tests
    such as `/^\d{4}-\d{2}-\d{2}$/`. */
module Text {
  import opened Outcomes

  /** The characters `String.prototype.trim` removes: ECMAScript WhiteSpace
      and LineTerminator code points. */
  predicate IsSpace(c: char) {
    || c == ' ' || c == '\t' || c == '\n' || c == '\r'
    || c == '\U{000B}' || c == '\U{000C}' || c == '\U{00A0}' || c == '\U{1680}'
    || ('\U{2000}' <= c <= '\U{200A}')
    || c == '\U{2028}' || c == '\U{2029}' || c == '\U{202F}' || c == '\U{205F}'
    || c == '\U{3000}' || c == '\U{FEFF}'
  }

  /** A regular-expression `\d` without the unicode flag: ASCII digits only. */
  predicate IsDigit(c: char) {
    '0' <= c <= '9'
  }

  /** Every character of `a` occurs somewhere in `b`. */
  ghost predicate CharsWithin(a: string, b: string) {
    forall k :: 0 <= k < |a| ==> a[k] in b
  }

  /** Neither end of `s` is a space: what `trim` leaves behind. */
  predicate Trimmed(s: string) {
    |s| == 0 || (!IsSpace(s[0]) && !IsSpace(s[|s| - 1]))
  }

  function TrimStart(s: string): (r: string)
    ensures |r| <= |s|
    ensures r == s[|s| - |r|..]
    ensures |r| == 0 || !IsSpace(r[0])
    ensures forall k :: 0 <= k < |s| - |r| ==> IsSpace(s[k])
  {
    if |s| > 0 && IsSpace(s[0]) then TrimStart(s[1..]) else s
  }

  function TrimEnd(s: string): (r: string)
    ensures |r| <= |s|
    ensures r == s[..|r|]
    ensures |r| == 0 || !IsSpace(r[|r| - 1])
    ensures forall k :: |r| <= k < |s| ==> IsSpace(s[k])
  {
    if |s| > 0 && IsSpace(s[|s| - 1]) then TrimEnd(s[..|s| - 1]) else s
  }

  /** `s.trim()`: `s` without its leading and trailing spaces. */
  function Trim(s: string): (r: string)
    ensures Trimmed(r)
    ensures |r| <= |s|
  {
    TrimEnd(TrimStart(s))
  }

  /** `trim` only removes characters. */
  lemma TrimWithin(s: string)
    ensures CharsWithin(Trim(s), s)
  {
    var a := TrimStart(s);
    var r := TrimEnd(a);
    SliceWithin(s, |s| - |a|, |s| - |a| + |r|);
  }

  /** A slice uses only characters of the whole. */
  lemma SliceWithin(s: string, i: nat, j: nat)
    requires i <= j <= |s|
    ensures CharsWithin(s[i..j], s)
  {
    forall k | 0 <= k < j - i
      ensures s[i..j][k] in s
    {
      assert s[i..j][k] == s[i + k];
    }
  }

  /** A string with no space at either end is left unchanged by `trim`. */
  lemma TrimOfTrimmed(s: string)
    requires Trimmed(s)
    ensures Trim(s) == s
  {
  }

  /** `trim` yields the empty string exactly when every character is a space. */
  lemma TrimEmptyIffAllSpace(s: string)
    ensures Trim(s) == "" <==> forall k :: 0 <= k < |s| ==> IsSpace(s[k])
  {
    if Trim(s) == "" {
      assert |TrimEnd(TrimStart(s))| == 0;
    } else {
      var a := TrimStart(s);
      assert |a| > 0 && !IsSpace(a[0]);
      assert a[0] == s[|s| - |a|];
    }
  }

  /** `s.split(c)` for a one-character separator: the pieces between
      separators, left to right, with one more piece than separators. */
  function Split(s: string, c: char): (parts: seq<string>)
    ensures |parts| >= 1
    ensures forall k :: 0 <= k < |parts| ==> c !in parts[k]
    decreases |s|
  {
    if |s| == 0 then [""]
    else if s[0] == c then [""] + Split(s[1..], c)
    else
      var rest := Split(s[1..], c);
      [[s[0]] + rest[0]] + rest[1..]
  }

  /** Every piece of a split uses only characters of the whole. */
  lemma {:induction false} SplitWithin(s: string, c: char)
    ensures forall k :: 0 <= k < |Split(s, c)| ==> CharsWithin(Split(s, c)[k], s)
    decreases |s|
  {
    if |s| > 0 {
      SplitWithin(s[1..], c);
      var rest := Split(s[1..], c);
      forall k | 0 <= k < |rest|, m | 0 <= m < |rest[k]|
        ensures rest[k][m] in s
      {
        assert rest[k][m] in s[1..];
      }
    }
  }

  /** `parts.join(c)`. */
  function Join(parts: seq<string>, c: char): string
    requires |parts| >= 1
  {
    if |parts| == 1 then parts[0] else parts[0] + [c] + Join(parts[1..], c)
  }

  /** A piece without the separator splits to itself. */
  lemma {:induction false} SplitWithoutSeparator(p: string, c: char)
    requires c !in p
    ensures Split(p, c) == [p]
    decreases |p|
  {
    if |p| > 0 {
      SplitWithoutSeparator(p[1..], c);
      assert [p[0]] + p[1..] == p;
    }
  }

  /** Splitting `p + c + t` peels `p` off the front when `p` holds no `c`. */
  lemma {:induction false} SplitAfterPiece(p: string, c: char, t: string)
    requires c !in p
    ensures Split(p + [c] + t, c) == [p] + Split(t, c)
    decreases |p|
  {
    var s := p + [c] + t;
    if |p| == 0 {
      assert s[0] == c && s[1..] == t;
    } else {
      assert s[0] == p[0] && s[1..] == p[1..] + [c] + t;
      SplitAfterPiece(p[1..], c, t);
      assert [p[0]] + p[1..] == p;
    }
  }

  /** `split` undoes `join` when no piece contains the separator. */
  lemma {:induction false} SplitJoin(parts: seq<string>, c: char)
    requires |parts| >= 1
    requires forall k :: 0 <= k < |parts| ==> c !in parts[k]
    ensures Split(Join(parts, c), c) == parts
    decreases |parts|
  {
    if |parts| == 1 {
      SplitWithoutSeparator(parts[0], c);
    } else {
      SplitAfterPiece(parts[0], c, Join(parts[1..], c));
      SplitJoin(parts[1..], c);
    }
  }

  /** `join` undoes `split`: no character is lost or added. */
  lemma {:induction false} JoinSplit(s: string, c: char)
    ensures Join(Split(s, c), c) == s
    decreases |s|
  {
    if |s| > 0 {
      JoinSplit(s[1..], c);
      var rest := Split(s[1..], c);
      if s[0] != c {
        if |rest| > 1 {
          assert ([[s[0]] + rest[0]] + rest[1..])[1..] == rest[1..];
        }
      }
    }
  }

  /** The joined text starts with the first piece and ends with the last. */
  lemma {:induction false} JoinEnds(parts: seq<string>, c: char)
    requires |parts| >= 1 && |parts[0]| > 0 && |parts[|parts| - 1]| > 0
    ensures var j := Join(parts, c);
      |j| > 0 && j[0] == parts[0][0]
      && j[|j| - 1] == parts[|parts| - 1][|parts[|parts| - 1]| - 1]
    decreases |parts|
  {
    if |parts| > 1 {
      var rest := parts[1..];
      if |rest| == 1 {
        assert rest[0] == parts[|parts| - 1];
      } else {
        JoinEndsTail(rest, c);
      }
    }
  }

  /** The joined text ends with the last piece's last character. */
  lemma {:induction false} JoinEndsTail(parts: seq<string>, c: char)
    requires |parts| >= 1 && |parts[|parts| - 1]| > 0
    ensures var j := Join(parts, c);
      |j| > 0 && j[|j| - 1] == parts[|parts| - 1][|parts[|parts| - 1]| - 1]
    decreases |parts|
  {
    if |parts| > 1 {
      JoinEndsTail(parts[1..], c);
    }
  }

  /** A join of two or more pieces ends with the last piece's last
      character, or with the separator when the last piece is empty. */
  lemma {:induction false} JoinLast(parts: seq<string>, c: char)
    requires |parts| >= 2
    ensures var j := Join(parts, c); var p := parts[|parts| - 1];
      |j| > 0 && j[|j| - 1] == (if |p| > 0 then p[|p| - 1] else c)
    decreases |parts|
  {
    if |parts| > 2 {
      JoinLast(parts[1..], c);
    }
  }

  /** Every piece of the joined list appears in it, so a character missing
      from every piece other than the separator is missing from the join. */
  lemma {:induction false} JoinAvoids(parts: seq<string>, c: char, x: char)
    requires |parts| >= 1 && x != c
    requires forall k :: 0 <= k < |parts| ==> x !in parts[k]
    ensures x !in Join(parts, c)
    decreases |parts|
  {
    if |parts| > 1 {
      JoinAvoids(parts[1..], c, x);
    }
  }

  /** `xs.map(trim)`. */
  function TrimAll(xs: seq<string>): (r: seq<string>)
    ensures |r| == |xs|
    ensures forall k :: 0 <= k < |r| ==> r[k] == Trim(xs[k])
  {
    if |xs| == 0 then [] else [Trim(xs[0])] + TrimAll(xs[1..])
  }

  /** `xs.filter(Boolean)` on strings: drops exactly the empty strings, keeping order. */
  function NonEmpty(xs: seq<string>): (r: seq<string>)
    ensures |r| <= |xs|
    ensures forall k :: 0 <= k < |r| ==> |r[k]| > 0
    ensures (forall k :: 0 <= k < |xs| ==> |xs[k]| > 0) ==> r == xs
  {
    if |xs| == 0 then []
    else if |xs[0]| == 0 then NonEmpty(xs[1..])
    else [xs[0]] + NonEmpty(xs[1..])
  }

  /** Every string kept by `NonEmpty` is one of the originals. */
  lemma {:induction false} NonEmptyWithin(xs: seq<string>)
    ensures forall k :: 0 <= k < |NonEmpty(xs)| ==> NonEmpty(xs)[k] in xs
  {
    if |xs| > 0 {
      NonEmptyWithin(xs[1..]);
    }
  }

  /** `s` has the fixed shape `pattern`, where `#` stands for one ASCII digit
      and every other character stands for itself: the anchored regular
      expressions built from `\d{n}` and literals. */
  predicate HasShape(s: string, pattern: string) {
    |s| == |pattern|
    && forall k :: 0 <= k < |s| ==>
         if pattern[k] == '#' then IsDigit(s[k]) else s[k] == pattern[k]
  }

  /** The value of one ASCII digit (zero for any other character). */
  function DigitValue(c: char): nat {
    if IsDigit(c) then (c as int) - ('0' as int) else 0
  }

  /** The number written by the ASCII digits `s[from..to]`. */
  function DigitsValue(s: string, from: nat, to: nat): nat
    requires from <= to <= |s|
    decreases (to as int) - (from as int)
  {
    if from == to then 0
    else DigitsValue(s, from, to - 1) * 10 + DigitValue(s[to - 1])
  }

  /** The length of the run of ASCII digits at the start of `s`. */
  function DigitRun(s: string): (n: nat)
    ensures n <= |s|
    ensures forall k :: 0 <= k < n ==> IsDigit(s[k])
    ensures n == |s| || !IsDigit(s[n])
  {
    if |s| > 0 && IsDigit(s[0]) then 1 + DigitRun(s[1..]) else 0
  }

  /** `parseInt(s, 10)`: leading spaces skipped, an optional sign, then the
      longest run of decimal digits; `None` is NaN (no digits at all). */
  function ParseInt(s: string): (r: Option<int>)
    ensures r.None? <==> DigitRun(Unsigned(TrimStart(s))) == 0
  {
    var u := TrimStart(s);
    var body := Unsigned(u);
    var n := DigitRun(body);
    if n == 0 then None
    else
      var magnitude: int := DigitsValue(body, 0, n);
      Some(if |u| > 0 && u[0] == '-' then -magnitude else magnitude)
  }

  /** `u` without one leading sign character. */
  function Unsigned(u: string): string {
    if |u| > 0 && (u[0] == '-' || u[0] == '+') then u[1..] else u
  }

  /** A string that starts with a digit reads as its leading run of digits. */
  lemma ParseIntOfDigits(s: string)
    requires |s| > 0 && IsDigit(s[0])
    ensures ParseInt(s) == Some(DigitsValue(s, 0, DigitRun(s)))
  {
    assert !IsSpace(s[0]);
    assert TrimStart(s) == s;
    assert s[0] != '-' && s[0] != '+';
    assert Unsigned(s) == s;
  }

  /** The two refill flags the data uses read as 1 and 0; trailing text
      after the digits is ignored, so `"1.0"` also reads as 1. */
  lemma ParseIntOfFlags()
    ensures ParseInt("1") == Some(1) && ParseInt("0") == Some(0)
    ensures ParseInt("1.0") == Some(1)
  {
    ParseIntOfDigits("1");
    ParseIntOfDigits("0");
    ParseIntOfDigits("1.0");
    assert DigitRun("1.0") == 1 by {
      assert "1.0"[1..] == ".0";
    }
  }
}
