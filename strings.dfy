/** The few functions of Go's `strings` and `strconv` packages (and of the
    matching JavaScript string methods) that the modelled code relies on,
    written over `seq<char>`, with the facts about them that the proofs use. */
module Strings {
  import opened Wrappers

  /** `strings.HasPrefix`. */
  predicate HasPrefix(s: string, prefix: string) {
    prefix <= s
  }

  /** `strings.HasSuffix`. */
  predicate HasSuffix(s: string, suffix: string) {
    |suffix| <= |s| && s[|s| - |suffix|..] == suffix
  }

  /** `strings.TrimSuffix`: drops `suffix` once, if `s` ends with it. */
  function TrimSuffix(s: string, suffix: string): (r: string)
    ensures HasSuffix(s, suffix) ==> r + suffix == s
    ensures !HasSuffix(s, suffix) ==> r == s
  {
    if HasSuffix(s, suffix) then s[..|s| - |suffix|] else s
  }

  /** `strings.Split(s, string(sep))` for a one-character separator: the
      pieces between the occurrences of `sep`; never an empty list, even
      for the empty string. */
  function Split(s: string, sep: char): (r: seq<string>)
    ensures |r| >= 1
    ensures forall i :: 0 <= i < |r| ==> sep !in r[i]
    decreases |s|
  {
    if s == [] then [[]]
    else
      var rest := Split(s[1..], sep);
      if s[0] == sep then [[]] + rest
      else [[s[0]] + rest[0]] + rest[1..]
  }

  /** `strings.Join`. */
  function JoinWith(parts: seq<string>, sep: string): string
    decreases |parts|
  {
    if |parts| == 0 then []
    else if |parts| == 1 then parts[0]
    else parts[0] + sep + JoinWith(parts[1..], sep)
  }

  /** Splitting at a separator occurrence splits the two sides independently. */
  lemma {:induction false} SplitConcat(a: string, b: string, sep: char)
    ensures Split(a + [sep] + b, sep) == Split(a, sep) + Split(b, sep)
    decreases |a|
  {
    if a == [] {
      assert a + [sep] + b == [sep] + b;
      assert ([sep] + b)[1..] == b;
    } else {
      assert (a + [sep] + b)[0] == a[0];
      assert (a + [sep] + b)[1..] == a[1..] + [sep] + b;
      SplitConcat(a[1..], b, sep);
    }
  }

  /** A string without the separator is one piece. */
  lemma {:induction false} SplitWithoutSeparator(s: string, sep: char)
    requires sep !in s
    ensures Split(s, sep) == [s]
    decreases |s|
  {
    if s != [] {
      assert sep !in s[1..] by {
        forall i | 0 <= i < |s[1..]| ensures s[1..][i] != sep {
          assert s[1..][i] == s[i + 1];
        }
      }
      SplitWithoutSeparator(s[1..], sep);
      assert [s[0]] + s[1..] == s;
    }
  }

  /** Joining pieces that do not contain the separator and splitting again
      gives the pieces back. */
  lemma {:induction false} SplitJoin(parts: seq<string>, sep: char)
    requires |parts| >= 1
    requires forall i :: 0 <= i < |parts| ==> sep !in parts[i]
    ensures Split(JoinWith(parts, [sep]), sep) == parts
    decreases |parts|
  {
    if |parts| == 1 {
      SplitWithoutSeparator(parts[0], sep);
    } else {
      SplitJoin(parts[1..], sep);
      SplitConcat(parts[0], JoinWith(parts[1..], [sep]), sep);
      SplitWithoutSeparator(parts[0], sep);
      assert parts == [parts[0]] + parts[1..];
    }
  }

  /** Joining one more piece appends the separator and the piece, unless
      the list was empty. */
  lemma {:induction false} JoinWithSnoc(parts: seq<string>, x: string, sep: string)
    ensures JoinWith(parts + [x], sep) == if parts == [] then x else JoinWith(parts, sep) + sep + x
    decreases |parts|
  {
    if |parts| >= 2 {
      assert (parts + [x])[1..] == parts[1..] + [x];
      JoinWithSnoc(parts[1..], x, sep);
      assert parts[1..] != [];
    } else if |parts| == 1 {
      assert (parts + [x])[1..] == [x];
    }
  }

  /** Drops the leading occurrences of `c`. */
  function TrimLeftChar(s: string, c: char): string
    decreases |s|
  {
    if s != [] && s[0] == c then TrimLeftChar(s[1..], c) else s
  }

  /** Drops the trailing occurrences of `c`. */
  function TrimRightChar(s: string, c: char): string
    decreases |s|
  {
    if s != [] && s[|s| - 1] == c then TrimRightChar(s[..|s| - 1], c) else s
  }

  /** `strings.Trim(s, string(c))` for a one-character cut set. */
  function TrimChar(s: string, c: char): string {
    TrimRightChar(TrimLeftChar(s, c), c)
  }

  /** `TrimLeftChar` drops a prefix made of `c` and keeps the rest. */
  lemma {:induction false} TrimLeftCharShape(s: string, c: char)
    ensures var r := TrimLeftChar(s, c);
      |r| <= |s| && r == s[|s| - |r|..] && (r != [] ==> r[0] != c)
      && forall i :: 0 <= i < |s| - |r| ==> s[i] == c
    decreases |s|
  {
    if s != [] && s[0] == c {
      TrimLeftCharShape(s[1..], c);
    }
  }

  /** `TrimRightChar` drops a suffix made of `c` and keeps the rest. */
  lemma {:induction false} TrimRightCharShape(s: string, c: char)
    ensures var r := TrimRightChar(s, c);
      |r| <= |s| && r == s[..|r|] && (r != [] ==> r[|r| - 1] != c)
      && forall i :: |r| <= i < |s| ==> s[i] == c
    decreases |s|
  {
    if s != [] && s[|s| - 1] == c {
      TrimRightCharShape(s[..|s| - 1], c);
    }
  }

  /** `TrimChar` keeps a consecutive part of `s` that neither starts nor ends
      with `c`, having dropped only occurrences of `c` around it. */
  lemma TrimCharShape(s: string, c: char)
    ensures var r := TrimChar(s, c);
      var k := |s| - |TrimLeftChar(s, c)|;
      (r != [] ==> r[0] != c && r[|r| - 1] != c)
      && 0 <= k && k + |r| <= |s| && s[k..k + |r|] == r
      && (forall i :: 0 <= i < k ==> s[i] == c)
      && (forall i :: k + |r| <= i < |s| ==> s[i] == c)
  {
    var l := TrimLeftChar(s, c);
    var r := TrimRightChar(l, c);
    TrimLeftCharShape(s, c);
    TrimRightCharShape(l, c);
    var k := |s| - |l|;
    assert s[k..k + |r|] == l[..|r|] == r;
    assert forall i :: k + |r| <= i < |s| ==> s[i] == l[i - k];
  }

  /** The number of bytes of the UTF-8 encoding of `c`. */
  function Utf8Width(c: char): nat {
    if c as int < 0x80 then 1 else if c as int < 0x800 then 2 else if c as int < 0x1_0000 then 3 else 4
  }

  /** Go's `len` of a string: the bytes of its UTF-8 encoding. */
  function Utf8Length(s: string): (n: nat)
    ensures |s| <= n <= 4 * |s|
    decreases |s|
  {
    if s == [] then 0 else Utf8Length(s[..|s| - 1]) + Utf8Width(s[|s| - 1])
  }

  /** JavaScript's `length` of a string: its UTF-16 code units, two for a
      character beyond U+FFFF (a surrogate pair). */
  function Utf16Length(s: string): (n: nat)
    ensures |s| <= n <= 2 * |s|
    decreases |s|
  {
    if s == [] then 0 else Utf16Length(s[..|s| - 1]) + (if s[|s| - 1] as int < 0x1_0000 then 1 else 2)
  }

  /** More than one byte: two or more characters, or one beyond ASCII. */
  lemma Utf8LengthAboveOne(s: string)
    ensures Utf8Length(s) > 1 <==> |s| > 1 || (|s| == 1 && s[0] as int >= 0x80)
  {
    if |s| == 1 {
      assert s[..0] == [];
    }
  }

  /** `strings.Repeat` for a one-character string. */
  function Repeat(c: char, n: nat): (r: string)
    ensures |r| == n
    ensures forall i :: 0 <= i < n ==> r[i] == c
  {
    if n == 0 then [] else [c] + Repeat(c, n - 1)
  }

  /** The white space that `strings.TrimSpace` removes (`unicode.IsSpace`:
      tab, line feed, vertical tab, form feed, carriage return and space,
      and beyond ASCII the other characters with the Unicode White_Space
      property). */
  predicate IsSpace(c: char) {
    c == ' ' || ('\t' <= c <= '\r') || ('\U{0085}' <= c && IsSpaceBeyondAscii(c))
  }

  predicate IsSpaceBeyondAscii(c: char) {
    c == '\U{0085}' || c == '\U{00A0}' || c == '\U{1680}' || ('\U{2000}' <= c <= '\U{200A}')
    || c == '\U{2028}' || c == '\U{2029}' || c == '\U{202F}' || c == '\U{205F}' || c == '\U{3000}'
  }

  /** Drops the leading white space. */
  function TrimLeftSpace(s: string): string
    decreases |s|
  {
    if s != [] && IsSpace(s[0]) then TrimLeftSpace(s[1..]) else s
  }

  /** Drops the trailing white space. */
  function TrimRightSpace(s: string): string
    decreases |s|
  {
    if s != [] && IsSpace(s[|s| - 1]) then TrimRightSpace(s[..|s| - 1]) else s
  }

  /** `strings.TrimSpace`. */
  function TrimSpace(s: string): string {
    TrimRightSpace(TrimLeftSpace(s))
  }

  /** `TrimLeftSpace` removes a prefix of white space, up to the first other
      character. */
  lemma {:induction false} TrimLeftSpaceShape(s: string)
    ensures var r := TrimLeftSpace(s);
      |r| <= |s| && s[|s| - |r|..] == r
      && (r != [] ==> !IsSpace(r[0]))
      && forall i :: 0 <= i < |s| - |r| ==> IsSpace(s[i])
    decreases |s|
  {
    if s != [] && IsSpace(s[0]) {
      TrimLeftSpaceShape(s[1..]);
    }
  }

  /** `TrimRightSpace` removes a suffix of white space, back to the last
      other character. */
  lemma {:induction false} TrimRightSpaceShape(s: string)
    ensures var r := TrimRightSpace(s);
      r <= s && (r != [] ==> !IsSpace(r[|r| - 1]))
      && forall i :: |r| <= i < |s| ==> IsSpace(s[i])
    decreases |s|
  {
    if s != [] && IsSpace(s[|s| - 1]) {
      TrimRightSpaceShape(s[..|s| - 1]);
    }
  }

  /** `TrimSpace` keeps a part of `s` that neither starts nor ends with
      white space, and drops only white space around it. */
  lemma TrimSpaceShape(s: string)
    ensures var r := TrimSpace(s);
      var k := |s| - |TrimLeftSpace(s)|;
      (r != [] ==> !IsSpace(r[0]) && !IsSpace(r[|r| - 1]))
      && 0 <= k && k + |r| <= |s| && s[k..k + |r|] == r
      && (forall i :: 0 <= i < k ==> IsSpace(s[i]))
      && (forall i :: k + |r| <= i < |s| ==> IsSpace(s[i]))
  {
    var l := TrimLeftSpace(s);
    var r := TrimRightSpace(l);
    TrimLeftSpaceShape(s);
    TrimRightSpaceShape(l);
    var k := |s| - |l|;
    assert TrimSpace(s) == r;
    assert s[k..] == l;
    assert s[k..k + |r|] == l[..|r|] == r;
    forall i | k + |r| <= i < |s|
      ensures IsSpace(s[i])
    {
      assert s[i] == l[i - k];
    }
  }

  /** The decimal digit for `d`. */
  function DigitChar(d: nat): char
    requires d < 10
  {
    (d + '0' as int) as char
  }

  predicate IsDigit(c: char) {
    '0' <= c <= '9'
  }

  /** `strconv.Itoa` on non-negative numbers: decimal, no sign, no leading zero. */
  function Itoa(n: nat): (r: string)
    ensures |r| >= 1
    ensures forall i :: 0 <= i < |r| ==> IsDigit(r[i])
  {
    if n < 10 then [DigitChar(n)] else Itoa(n / 10) + [DigitChar(n % 10)]
  }

  /** The value of a string of decimal digits. */
  function DigitsValue(s: string): nat
    requires forall i :: 0 <= i < |s| ==> IsDigit(s[i])
  {
    if s == [] then 0
    else
      assert IsDigit(s[|s| - 1]);
      DigitsValue(s[..|s| - 1]) * 10 + (s[|s| - 1] as int - '0' as int)
  }

  predicate AllDigits(s: string) {
    forall i :: 0 <= i < |s| ==> IsDigit(s[i])
  }

  /** `strconv.Atoi`: an optional sign followed by at least one decimal digit;
      anything else (the empty string in particular) is an error, here None.
      The 64-bit range check of Atoi is not modelled. */
  function Atoi(s: string): (r: Option<int>)
    ensures s == [] ==> r == None
    ensures AllDigits(s) && s != [] ==> r == Some(DigitsValue(s))
  {
    if s == [] then None
    else if s[0] == '+' || s[0] == '-' then
      var digits := s[1..];
      if digits != [] && AllDigits(digits) then
        var v: int := DigitsValue(digits);
        Some(if s[0] == '-' then -v else v)
      else None
    else if AllDigits(s) then Some(DigitsValue(s))
    else None
  }

  /** Itoa and Atoi are inverse on the non-negative numbers. */
  lemma {:induction false} AtoiItoa(n: nat)
    ensures Atoi(Itoa(n)) == Some(n)
  {
    DigitsValueItoa(n);
  }

  lemma {:induction false} DigitsValueItoa(n: nat)
    ensures DigitsValue(Itoa(n)) == n
  {
    if n >= 10 {
      DigitsValueItoa(n / 10);
      var s := Itoa(n);
      assert s[..|s| - 1] == Itoa(n / 10);
    }
  }
}
