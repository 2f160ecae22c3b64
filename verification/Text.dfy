// String helpers the panel takes from the Go standard library: decimal
// formatting and parsing (strconv), searching and splitting (strings).
module Text {
  datatype Option<+T> = None | Some(value: T)

  // ---- decimal numbers -------------------------------------------------

  const MIN_INT64: int := -0x8000_0000_0000_0000
  const MAX_INT64: int := 0x7FFF_FFFF_FFFF_FFFF

  predicate IsInt64(n: int) {
    MIN_INT64 <= n <= MAX_INT64
  }

  predicate IsDigit(c: char) {
    '0' <= c <= '9'
  }

  predicate AllDigits(s: string) {
    forall i :: 0 <= i < |s| ==> IsDigit(s[i])
  }

  function DigitChar(d: nat): (c: char)
    requires d < 10
    ensures IsDigit(c)
  {
    ('0' as int + d) as char
  }

  function DigitValue(c: char): (d: nat)
    requires IsDigit(c)
    ensures d < 10
  {
    c as int - '0' as int
  }

  // The decimal digits of n, most significant first, without leading zeros.
  function Digits(n: nat): (s: string)
    ensures |s| > 0 && AllDigits(s)
    ensures s[0] == '0' ==> s == "0"
  {
    if n < 10 then [DigitChar(n)] else Digits(n / 10) + [DigitChar(n % 10)]
  }

  // The value of a string of digits, read left to right.
  function Value(s: string): nat
    requires AllDigits(s)
  {
    if |s| == 0 then 0 else 10 * Value(s[..|s| - 1]) + DigitValue(s[|s| - 1])
  }

  // strconv.FormatInt(n, 10)
  function FormatInt(n: int): (s: string)
    ensures |s| > 0
  {
    if n < 0 then ['-'] + Digits(-n) else Digits(n)
  }

  function ParseDigits(s: string): Option<nat> {
    if |s| == 0 || !AllDigits(s) then None else Some(Value(s))
  }

  // strconv.ParseInt(s, 10, 64), and strconv.Atoi on a 64-bit platform: one
  // optional sign, at least one digit, nothing else, and no overflow.
  function ParseInt(s: string): Option<int> {
    var negative := |s| > 0 && s[0] == '-';
    var body := if |s| > 0 && (s[0] == '-' || s[0] == '+') then s[1..] else s;
    match ParseDigits(body)
    case None => None
    case Some(n) =>
      var magnitude: int := n;
      var v := if negative then -magnitude else magnitude;
      if IsInt64(v) then Some(v) else None
  }

  lemma {:induction false} ValueOfDigits(n: nat)
    ensures Value(Digits(n)) == n
  {
    if n < 10 {
      assert Digits(n)[..0] == [];
    } else {
      ValueOfDigits(n / 10);
      assert Digits(n)[..|Digits(n)| - 1] == Digits(n / 10);
    }
  }

  lemma {:induction false} DigitsOfValue(s: string)
    requires |s| > 0 && AllDigits(s) && (s[0] == '0' ==> |s| == 1)
    ensures Digits(Value(s)) == s
    ensures |s| > 1 ==> Value(s) >= 10
  {
    var front := s[..|s| - 1];
    if |s| == 1 {
      assert Value(front) == 0;
    } else {
      DigitsOfValue(front);
      if |front| == 1 {
        assert front[..0] == [];
        assert front[0] == s[0] != '0';
      }
      assert s == front + [s[|s| - 1]];
    }
  }

  // Parsing inverts formatting on the whole int64 range.
  lemma {:induction false} ParseFormat(n: int)
    requires -0x8000_0000_0000_0000 <= n <= 0x7FFF_FFFF_FFFF_FFFF
    ensures ParseInt(FormatInt(n)) == Some(n)
  {
    var digits := Digits(if n < 0 then -n else n);
    ValueOfDigits(if n < 0 then -n else n);
    assert ParseDigits(digits) == Some(if n < 0 then -n else n);
    if n < 0 {
      assert FormatInt(n)[1..] == digits;
    } else {
      assert FormatInt(n) == digits;
    }
  }

  lemma {:induction false} FormatInjective(m: int, n: int)
    requires IsInt64(m) && IsInt64(n) && FormatInt(m) == FormatInt(n)
    ensures m == n
  {
    ParseFormat(m);
    ParseFormat(n);
  }

  // The spellings FormatInt can produce: no plus sign, no superfluous zero.
  predicate Canonical(s: string) {
    var body := if |s| > 0 && s[0] == '-' then s[1..] else s;
    |body| > 0 && AllDigits(body) && (body[0] == '0' ==> s == "0")
  }

  // A text that parses is the panel's own spelling exactly when canonical.
  lemma {:induction false} FormatParse(s: string)
    requires ParseInt(s).Some?
    ensures FormatInt(ParseInt(s).value) == s <==> Canonical(s)
    ensures -0x8000_0000_0000_0000 <= ParseInt(s).value <= 0x7FFF_FFFF_FFFF_FFFF
  {
    var n := ParseInt(s).value;
    var body := if s[0] == '-' || s[0] == '+' then s[1..] else s;
    assert s == if s[0] == '-' || s[0] == '+' then [s[0]] + body else body;
    if Canonical(s) {
      DigitsOfValue(body);
      if s[0] == '-' {
        PositiveValue(body);
      }
    } else if n < 0 {
      assert FormatInt(n)[1..] == Digits(-n);
    }
  }

  lemma {:induction false} PositiveValue(s: string)
    requires |s| > 0 && AllDigits(s) && s[0] != '0'
    ensures Value(s) > 0
  {
    if |s| == 1 {
      assert s[..0] == [];
    } else {
      PositiveValue(s[..|s| - 1]);
    }
  }

  // Leading zeros do not count.
  lemma {:induction false} ValueOfPadded(zeros: string, s: string)
    requires (forall i :: 0 <= i < |zeros| ==> zeros[i] == '0') && AllDigits(s)
    ensures Value(zeros + s) == Value(s)
  {
    var t := zeros + s;
    if |s| > 0 {
      assert t[..|t| - 1] == zeros + s[..|s| - 1];
      ValueOfPadded(zeros, s[..|s| - 1]);
    } else if |zeros| > 0 {
      assert t == zeros;
      assert zeros[..|zeros| - 1] + s == t[..|t| - 1];
      ValueOfPadded(zeros[..|zeros| - 1], s);
    }
  }

  lemma {:induction false} ParsePadded(zeros: string, n: nat)
    requires (forall i :: 0 <= i < |zeros| ==> zeros[i] == '0') && IsInt64(n)
    ensures ParseInt(zeros + Digits(n)) == Some(n)
  {
    var s := zeros + Digits(n);
    ValueOfPadded(zeros, Digits(n));
    ValueOfDigits(n);
    hide Digits, Value;
    assert AllDigits(s);
    assert s[0] != '-' && s[0] != '+' by { assert IsDigit(s[0]); }
  }

  // ---- searching and splitting -----------------------------------------

  predicate OccursAt<T(==)>(s: seq<T>, sep: seq<T>, i: int) {
    0 <= i && i + |sep| <= |s| && s[i..i + |sep|] == sep
  }

  lemma {:induction false} OccursShift<T>(s: seq<T>, sep: seq<T>, j: int)
    requires |s| > 0 && 1 <= j
    ensures OccursAt(s, sep, j) <==> OccursAt(s[1..], sep, j - 1)
  {
    if j + |sep| <= |s| {
      var a, b := s[j..j + |sep|], s[1..][j - 1..j - 1 + |sep|];
      assert forall k :: 0 <= k < |sep| ==> a[k] == b[k];
      assert a == b;
    }
  }

  // strings.Index: the first occurrence, or -1.
  function IndexOf<T(==)>(s: seq<T>, sep: seq<T>): (i: int)
    requires |sep| > 0
    ensures i == -1 || OccursAt(s, sep, i)
    ensures forall j :: 0 <= j && (j < i || i == -1) ==> !OccursAt(s, sep, j)
  {
    if |s| < |sep| then -1
    else if s[..|sep|] == sep then 0
    else
      var rest := IndexOf(s[1..], sep);
      assert forall j :: 1 <= j ==> (OccursAt(s, sep, j) <==> OccursAt(s[1..], sep, j - 1)) by {
        forall j | 1 <= j
          ensures OccursAt(s, sep, j) <==> OccursAt(s[1..], sep, j - 1)
        {
          OccursShift(s, sep, j);
        }
      }
      if rest == -1 then -1 else rest + 1
  }

  // What stands before the first occurrence of a character.
  lemma {:induction false} IndexOfChar(front: string, c: char, rest: string)
    requires c !in front
    ensures IndexOf(front + [c] + rest, [c]) == |front|
    ensures IndexOf(front, [c]) == -1
  {
    var s := front + [c] + rest;
    assert OccursAt(s, [c], |front|) by { assert s[|front|..|front| + 1] == [c]; }
    forall j: nat | j < |front|
      ensures !OccursAt(s, [c], j) && !OccursAt(front, [c], j)
    {
      assert s[j..j + 1][0] == front[j] && front[j..j + 1][0] == front[j];
    }
  }

  // strings.Split for a non-empty separator.
  function Split<T(==)>(s: seq<T>, sep: seq<T>): (parts: seq<seq<T>>)
    requires |sep| > 0
    ensures |parts| > 0
    decreases |s|
  {
    var i := IndexOf(s, sep);
    if i == -1 then [s] else [s[..i]] + Split(s[i + |sep|..], sep)
  }

  lemma {:induction false} SplitOnce(front: string, c: char, rest: string)
    requires c !in front
    ensures Split(front + [c] + rest, [c]) == [front] + Split(rest, [c])
    ensures Split(front, [c]) == [front]
  {
    IndexOfChar(front, c, rest);
    var s := front + [c] + rest;
    assert s[..|front|] == front && s[|front| + 1..] == rest;
  }

  predicate HasPrefix<T(==)>(s: seq<T>, prefix: seq<T>) {
    |prefix| <= |s| && s[..|prefix|] == prefix
  }

  // strings.CutPrefix
  function CutPrefix<T(==)>(s: seq<T>, prefix: seq<T>): Option<seq<T>> {
    if HasPrefix(s, prefix) then Some(s[|prefix|..]) else None
  }

  // The strings one after the other
  function Joined(ps: seq<string>): string {
    if |ps| == 0 then "" else Joined(ps[..|ps| - 1]) + ps[|ps| - 1]
  }

  // strings.TrimRight with a one-character cut set
  function TrimRight<T(==)>(s: seq<T>, c: T): (t: seq<T>)
    ensures t <= s
    ensures |t| > 0 ==> t[|t| - 1] != c
    ensures forall i :: |t| <= i < |s| ==> s[i] == c
  {
    if |s| > 0 && s[|s| - 1] == c then TrimRight(s[..|s| - 1], c) else s
  }

  // unicode.IsSpace
  predicate IsSpace(c: char) {
    || '\t' <= c <= '\r' || c == ' ' || c == '\U{85}' || c == '\U{A0}' || c == '\U{1680}'
    || '\U{2000}' <= c <= '\U{200A}' || c == '\U{2028}' || c == '\U{2029}' || c == '\U{202F}' || c == '\U{205F}'
    || c == '\U{3000}'
  }

  // The white space of Unicode: six control characters, the spaces and the separators.
  lemma {:induction false} SpaceIff(c: char)
    ensures IsSpace(c) <==>
            c as int in {0x9, 0xA, 0xB, 0xC, 0xD, 0x20, 0x85, 0xA0, 0x1680, 0x2000, 0x2001, 0x2002, 0x2003, 0x2004, 0x2005, 0x2006,
                         0x2007, 0x2008, 0x2009, 0x200A, 0x2028, 0x2029, 0x202F, 0x205F, 0x3000}
  {
  }

  // strings.TrimSpace
  function TrimSpace(s: string): (t: string)
    ensures |t| > 0 ==> !IsSpace(t[0]) && !IsSpace(t[|t| - 1])
  {
    if |s| == 0 then s
    else if IsSpace(s[0]) then TrimSpace(s[1..])
    else if IsSpace(s[|s| - 1]) then TrimSpace(s[..|s| - 1])
    else s
  }

  predicate AllSpace(s: string) {
    forall i :: 0 <= i < |s| ==> IsSpace(s[i])
  }

  // It takes off the white space at both ends and nothing else.
  lemma {:induction false} TrimSpaceExact(before: string, s: string, after: string)
    requires AllSpace(before) && AllSpace(after)
    requires |s| > 0 ==> !IsSpace(s[0]) && !IsSpace(s[|s| - 1])
    ensures TrimSpace(before + s + after) == s
    decreases |before| + |after|
  {
    hide IsSpace;
    var all := before + s + after;
    if |before| > 0 {
      assert all[1..] == before[1..] + s + after;
      TrimSpaceExact(before[1..], s, after);
    } else if |after| > 0 {
      assert all[..|all| - 1] == before + s + after[..|after| - 1];
      if |s| == 0 {
        assert all == after && all[1..] == before + s + after[1..];
        TrimSpaceExact(before, s, after[1..]);
      } else {
        assert all[0] == s[0];
        TrimSpaceExact(before, s, after[..|after| - 1]);
      }
    } else {
      assert all == s;
    }
  }
}
