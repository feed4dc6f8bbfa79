/** The parts of the Java platform's string and integer behaviour that the packer and its command line
    rely on: `int` arithmetic, `Integer.toString`, `Integer.parseInt`, `Integer.parseUnsignedInt(_, 16)`,
    `String.trim`, `String.format("%-Ns")`, `toLowerCase`, `equalsIgnoreCase`, `split`, `replace`, and
    libGDX's `FileHandle.nameWithoutExtension`.
    A string is a sequence of Unicode scalar values; case mapping covers the ASCII letters. */
module JavaText {
  import opened Wrappers

  const INT_MIN: int := -0x8000_0000
  const INT_MAX: int := 0x7fff_ffff
  const TWO_32: int := 0x1_0000_0000

  /** A Java `int`. */
  type int32 = x: int | -0x8000_0000 <= x < 0x8000_0000

  // ---------------------------------------------------------------- int arithmetic

  /** The value Java's 32-bit two's-complement arithmetic yields when the exact result is `x`: `x` moved
      by whole multiples of 2^32 into the `int` range. */
  function Wrap32(x: int): (r: int32)
    ensures INT_MIN <= x <= INT_MAX ==> r == x
    decreases if x > INT_MAX then x else if x < INT_MIN then -x else 0
  {
    if x > INT_MAX then Wrap32(x - TWO_32)
    else if x < INT_MIN then Wrap32(x + TWO_32)
    else x
  }

  /** The wrapped value differs from the exact one by a multiple of 2^32. */
  lemma {:induction false} Wrap32Offset(x: int) returns (k: int)
    ensures Wrap32(x) == x + k * TWO_32
    decreases if x > INT_MAX then x else if x < INT_MIN then -x else 0
  {
    if x > INT_MAX {
      var k0 := Wrap32Offset(x - TWO_32);
      k := k0 - 1;
    } else if x < INT_MIN {
      var k0 := Wrap32Offset(x + TWO_32);
      k := k0 + 1;
    } else {
      k := 0;
    }
  }

  /** An `int` that differs from `x` by a multiple of 2^32 is the wrapped value of `x`. */
  lemma Wrap32Unique(x: int, r: int32, k: int)
    requires r == x + k * TWO_32
    ensures Wrap32(x) == r
  {
    var k0 := Wrap32Offset(x);
    assert Wrap32(x) - r == (k0 - k) * TWO_32;
    if k0 > k {
      assert false;
    } else if k0 < k {
      assert false;
    }
  }

  /** Adding a multiple of 2^32 does not change the wrapped value. */
  lemma Wrap32Shift(x: int, k: int)
    ensures Wrap32(x + k * TWO_32) == Wrap32(x)
  {
    var k0 := Wrap32Offset(x);
    assert Wrap32(x) == (x + k * TWO_32) + (k0 - k) * TWO_32;
    Wrap32Unique(x + k * TWO_32, Wrap32(x), k0 - k);
  }

  /** Values congruent modulo 2^32 wrap to the same `int`. */
  lemma Wrap32Congruent(a: int, b: int)
    requires (a - b) % TWO_32 == 0
    ensures Wrap32(a) == Wrap32(b)
  {
    var q := (a - b) / TWO_32;
    assert a == b + q * TWO_32;
    Wrap32Shift(b, q);
  }

  /** Incrementing a wrapped counter wraps the exact count. */
  lemma Wrap32Increment(n: int)
    ensures Wrap32(Wrap32(n) + 1) == Wrap32(n + 1)
  {
    Wrap32AddLeft(n, 1);
  }

  /** Wrapping a left operand early does not change a wrapped sum. */
  lemma Wrap32AddLeft(a: int, b: int)
    ensures Wrap32(Wrap32(a) + b) == Wrap32(a + b)
  {
    var k := Wrap32Offset(a);
    assert Wrap32(a) + b == (a + b) + k * TWO_32;
    Wrap32Shift(a + b, k);
  }

  /** Wrapping a subtrahend early does not change a wrapped difference. */
  lemma Wrap32SubLeft(a: int, b: int)
    ensures Wrap32(b - Wrap32(a)) == Wrap32(b - a)
  {
    var k := Wrap32Offset(a);
    assert b - Wrap32(a) == (b - a) + (-k) * TWO_32;
    Wrap32Shift(b - a, -k);
  }

  // ---------------------------------------------------------------- decimal numbers

  predicate IsDigit(c: char) { '0' <= c <= '9' }

  predicate AllDigits(s: string) { forall i :: 0 <= i < |s| ==> IsDigit(s[i]) }

  function DigitChar(d: nat): (c: char)
    requires d < 10
    ensures IsDigit(c)
  {
    ('0' as int + d) as char
  }

  function DigitValue(c: char): (d: nat)
    requires IsDigit(c)
    ensures d < 10
  {
    c as int - '0' as int
  }

  /** Decimal digits of `n`, most significant first, without leading zeros. */
  function NatToString(n: nat): string
  {
    if n < 10 then [DigitChar(n)] else NatToString(n / 10) + [DigitChar(n % 10)]
  }

  /** `n` is written with at least one digit and nothing but digits. */
  lemma {:induction false} NatToStringDigits(n: nat)
    ensures 0 < |NatToString(n)| && AllDigits(NatToString(n))
  {
    if n >= 10 {
      NatToStringDigits(n / 10);
    }
  }

  /** `Integer.toString(n)`, which is also what `StringBuilder.append(int)` appends. */
  function IntToString(n: int): string
  {
    if n < 0 then "-" + NatToString(-n) else NatToString(n)
  }

  /** `Integer.toString` writes digits, a minus sign only in front of a negative number, and ends with a
      digit. */
  lemma IntToStringChars(n: int)
    ensures var s := IntToString(n);
      0 < |s| && IsDigit(s[|s| - 1]) && (s[0] == '-' <==> n < 0)
      && forall i :: 0 <= i < |s| ==> s[i] == '-' || IsDigit(s[i])
  {
    if n < 0 {
      NatToStringDigits(-n);
      assert IntToString(n) == "-" + NatToString(-n);
    } else {
      NatToStringDigits(n);
    }
  }

  /** The number a string of decimal digits denotes. */
  function DigitsValue(s: string): nat
    requires AllDigits(s)
  {
    if s == [] then 0 else DigitsValue(s[..|s| - 1]) * 10 + DigitValue(s[|s| - 1])
  }

  /** `Integer.parseInt(s)`: an optional '-' or '+', then at least one decimal digit, and a value that
      fits in an `int`; anything else raises NumberFormatException (None). */
  function ParseInt(s: string): (r: Option<int32>)
  {
    if |s| == 0 then None
    else
      var digits := if s[0] == '-' || s[0] == '+' then s[1..] else s;
      if |digits| == 0 || !AllDigits(digits) then None
      else
        var v := if s[0] == '-' then -(DigitsValue(digits) as int) else DigitsValue(digits) as int;
        if INT_MIN <= v <= INT_MAX then Some(v) else None
  }

  lemma {:induction false} NatToStringValue(n: nat)
    ensures AllDigits(NatToString(n)) && DigitsValue(NatToString(n)) == n
  {
    NatToStringDigits(n);
    if n >= 10 {
      var s := NatToString(n / 10);
      var t := s + [DigitChar(n % 10)];
      assert t[..|t| - 1] == s;
      NatToStringValue(n / 10);
    }
  }

  /** Parsing what `Integer.toString` wrote gives the number back. */
  lemma ParseIntRoundTrip(n: int32)
    ensures ParseInt(IntToString(n)) == Some(n)
  {
    var s := IntToString(n);
    if n < 0 {
      var m: nat := -(n as int);
      var digits := NatToString(m);
      assert s == "-" + digits;
      assert s[1..] == digits;
      NatToStringValue(m);
    } else {
      assert s == NatToString(n);
      NatToStringValue(n);
    }
  }

  /** Different numbers are written differently. */
  lemma IntToStringInjective(a: int, b: int)
    requires IntToString(a) == IntToString(b)
    ensures a == b
  {
    IntToStringSign(a);
    IntToStringSign(b);
    assert a < 0 <==> b < 0;
    if a < 0 {
      NegativeDigits(a);
      NegativeDigits(b);
      NatToStringValue(-a);
      NatToStringValue(-b);
    } else {
      assert NatToString(a) == NatToString(b);
      NatToStringValue(a);
      NatToStringValue(b);
    }
  }

  /** The minus sign shows exactly the negative numbers. */
  lemma IntToStringSign(n: int)
    ensures 0 < |IntToString(n)| && (IntToString(n)[0] == '-' <==> n < 0)
  {
    IntToStringChars(n);
  }

  /** After the minus sign a negative number is written as its magnitude. */
  lemma NegativeDigits(n: int)
    requires n < 0
    ensures IntToString(n)[1..] == NatToString(-n)
  {
    assert ("-" + NatToString(-n))[1..] == NatToString(-n);
  }

  // ---------------------------------------------------------------- hexadecimal numbers

  predicate IsHexDigit(c: char) { '0' <= c <= '9' || 'a' <= c <= 'f' || 'A' <= c <= 'F' }

  predicate AllHexDigits(s: string) { forall i :: 0 <= i < |s| ==> IsHexDigit(s[i]) }

  function HexDigitValue(c: char): (d: nat)
    requires IsHexDigit(c)
    ensures d < 16
  {
    if '0' <= c <= '9' then c as int - '0' as int
    else if 'a' <= c <= 'f' then c as int - 'a' as int + 10
    else c as int - 'A' as int + 10
  }

  /** The number a string of hexadecimal digits denotes. */
  function HexValue(s: string): nat
    requires AllHexDigits(s)
  {
    if s == [] then 0 else HexValue(s[..|s| - 1]) * 16 + HexDigitValue(s[|s| - 1])
  }

  /** `Integer.parseUnsignedInt(s, 16)`, given as the unsigned value of the resulting 32 bits: an optional
      '+', at least one hexadecimal digit, and a value below 2^32. A leading '-', an empty string, a
      non-digit or a larger value raise NumberFormatException (None). */
  function ParseUnsignedHex(s: string): (r: Option<nat>)
    ensures r.Some? ==> r.value < TWO_32
  {
    if |s| == 0 || s[0] == '-' then None
    else
      var digits := if s[0] == '+' then s[1..] else s;
      if |digits| == 0 || !AllHexDigits(digits) || HexValue(digits) >= TWO_32 then None
      else Some(HexValue(digits))
  }

  function HexChar(d: nat): (c: char)
    requires d < 16
    ensures IsHexDigit(c) && HexDigitValue(c) == d
  {
    if d < 10 then ('0' as int + d) as char else ('a' as int + d - 10) as char
  }

  /** Lower-case hexadecimal digits of `n`, most significant first. */
  function NatToHex(n: nat): (s: string)
    ensures 0 < |s| && AllHexDigits(s)
  {
    if n < 16 then [HexChar(n)] else NatToHex(n / 16) + [HexChar(n % 16)]
  }

  lemma {:induction false} NatToHexValue(n: nat)
    ensures HexValue(NatToHex(n)) == n
  {
    if n >= 16 {
      var s := NatToHex(n / 16);
      var t := s + [HexChar(n % 16)];
      assert t[..|t| - 1] == s;
      NatToHexValue(n / 16);
    }
  }

  /** Every 32-bit value written in hexadecimal parses back to itself. */
  lemma ParseUnsignedHexRoundTrip(n: nat)
    requires n < TWO_32
    ensures ParseUnsignedHex(NatToHex(n)) == Some(n)
  {
    NatToHexValue(n);
  }

  // ---------------------------------------------------------------- case

  function LowerChar(c: char): char
  {
    if 'A' <= c <= 'Z' then (c as int + 32) as char else c
  }

  /** `String.toLowerCase()`. */
  function ToLower(s: string): (r: string)
    ensures |r| == |s| && forall i :: 0 <= i < |s| ==> r[i] == LowerChar(s[i])
  {
    if s == [] then [] else [LowerChar(s[0])] + ToLower(s[1..])
  }

  /** `String.equalsIgnoreCase`: same length and the same characters up to case. */
  predicate EqualsIgnoreCase(a: string, b: string)
  {
    |a| == |b| && forall i :: 0 <= i < |a| ==> LowerChar(a[i]) == LowerChar(b[i])
  }

  lemma EqualsIgnoreCaseIsLowerEquality(a: string, b: string)
    ensures EqualsIgnoreCase(a, b) <==> ToLower(a) == ToLower(b)
  {
    if ToLower(a) == ToLower(b) {
      assert forall i :: 0 <= i < |a| ==> ToLower(a)[i] == ToLower(b)[i];
    }
  }

  // ---------------------------------------------------------------- trimming and padding

  function TrimStart(s: string): string
  {
    if |s| > 0 && s[0] <= ' ' then TrimStart(s[1..]) else s
  }

  function TrimEnd(s: string): string
  {
    if |s| > 0 && s[|s| - 1] <= ' ' then TrimEnd(s[..|s| - 1]) else s
  }

  /** `String.trim()`: leading and trailing characters up to U+0020 removed. */
  function Trim(s: string): string
  {
    TrimEnd(TrimStart(s))
  }

  /** Trimming the start leaves a suffix. */
  lemma {:induction false} TrimStartIsSuffix(s: string)
    ensures var r := TrimStart(s); |r| <= |s| && r == s[|s| - |r|..]
  {
    if |s| > 0 && s[0] <= ' ' {
      var r := TrimStart(s[1..]);
      TrimStartIsSuffix(s[1..]);
      assert s[1..][|s| - 1 - |r|..] == s[|s| - |r|..];
    }
  }

  /** Trimming the end leaves a prefix. */
  lemma {:induction false} TrimEndIsPrefix(s: string)
    ensures var r := TrimEnd(s); |r| <= |s| && r == s[..|r|]
  {
    if |s| > 0 && s[|s| - 1] <= ' ' {
      var r := TrimEnd(s[..|s| - 1]);
      TrimEndIsPrefix(s[..|s| - 1]);
      assert s[..|s| - 1][..|r|] == s[..|r|];
    }
  }

  /** Trimming adds no character: the result is a substring of the text. */
  lemma TrimKeepsOut(c: char, s: string)
    requires c !in s
    ensures c !in Trim(s)
  {
    var t := TrimStart(s);
    TrimStartIsSuffix(s);
    TrimEndIsPrefix(t);
    assert forall i :: 0 <= i < |t| ==> t[i] == s[|s| - |t| + i];
    assert forall i :: 0 <= i < |Trim(s)| ==> Trim(s)[i] == t[i];
  }

  function Spaces(n: nat): string
  {
    seq(n, _ => ' ')
  }

  /** `String.format("%-" + width + "s", s)`: left-justified in a column of `width` characters, padded
      with spaces and never truncated. */
  function PadRight(s: string, width: nat): string
  {
    if |s| < width then s + Spaces(width - |s|) else s
  }

  /** The padded text is `width` long or the text's own length, whichever is more: the text, then
      spaces. */
  lemma PadRightShape(s: string, width: nat)
    ensures var r := PadRight(s, width);
      |r| == (if |s| < width then width else |s|) && r[..|s|] == s && forall i :: |s| <= i < |r| ==> r[i] == ' '
  {
  }

  lemma {:induction false} TrimEndSpaces(s: string, k: nat)
    requires 0 < |s| && s[|s| - 1] > ' '
    ensures TrimEnd(s + Spaces(k)) == s
  {
    if k == 0 {
      assert s + Spaces(0) == s;
    } else {
      var t := s + Spaces(k);
      assert t[..|t| - 1] == s + Spaces(k - 1);
      TrimEndSpaces(s, k - 1);
    }
  }

  /** Trimming a padded number gives the number's digits back, whatever the column width. */
  lemma TrimPaddedNumber(n: int, width: nat)
    ensures Trim(PadRight(IntToString(n), width)) == IntToString(n)
  {
    var s := IntToString(n);
    var p := PadRight(s, width);
    IntToStringChars(n);
    PadRightShape(s, width);
    assert p[0] == p[..|s|][0] == s[0];
    assert TrimStart(p) == p;
    if |s| < width {
      TrimEndSpaces(s, width - |s|);
    }
  }

  lemma TrimNumber(n: int)
    ensures Trim(IntToString(n)) == IntToString(n)
  {
    assert PadRight(IntToString(n), 0) == IntToString(n);
    TrimPaddedNumber(n, 0);
  }

  // ---------------------------------------------------------------- replacing

  /** `String.replace(from, to)` (and `replaceAll` with a one-character literal pattern). */
  function ReplaceChar(s: string, from: char, to: char): string
  {
    if s == [] then [] else [if s[0] == from then to else s[0]] + ReplaceChar(s[1..], from, to)
  }

  /** Every `from` becomes `to` and every other character stays where it is. */
  lemma {:induction false} ReplaceCharAt(s: string, from: char, to: char)
    ensures var r := ReplaceChar(s, from, to);
      |r| == |s| && forall i :: 0 <= i < |s| ==> r[i] == if s[i] == from then to else s[i]
  {
    if s != [] {
      ReplaceCharAt(s[1..], from, to);
    }
  }

  /** `String.replace(c, "")` (and `replaceAll` with a one-character literal pattern): every `c` dropped. */
  function RemoveChar(s: string, c: char): (r: string)
    ensures c !in r
    ensures c !in s ==> r == s
  {
    if s == [] then [] else (if s[0] == c then [] else [s[0]]) + RemoveChar(s[1..], c)
  }

  /** Removing a character from a concatenation removes it from each part. */
  lemma {:induction false} RemoveCharAppend(a: string, b: string, c: char)
    ensures RemoveChar(a + b, c) == RemoveChar(a, c) + RemoveChar(b, c)
  {
    if a != [] {
      var head := if a[0] == c then [] else [a[0]];
      assert (a + b)[0] == a[0] && (a + b)[1..] == a[1..] + b;
      RemoveCharAppend(a[1..], b, c);
      assert RemoveChar(a + b, c) == head + (RemoveChar(a[1..], c) + RemoveChar(b, c));
    } else {
      assert a + b == b;
    }
  }

  /** Every other character survives the removal. */
  lemma {:induction false} RemoveCharKeeps(s: string, c: char, d: char)
    requires d in s && d != c
    ensures d in RemoveChar(s, c)
  {
    if s[0] != d {
      RemoveCharKeeps(s[1..], c, d);
    }
  }

  /** The removal adds no character. */
  lemma {:induction false} RemoveCharAdds(s: string, c: char, d: char)
    requires d !in s
    ensures d !in RemoveChar(s, c)
  {
    if s != [] {
      RemoveCharAdds(s[1..], c, d);
    }
  }

  /** `String.replace("0x", "")`: a single left-to-right pass dropping non-overlapping occurrences. */
  function RemoveHexPrefixes(s: string): (r: string)
    ensures 'x' !in s ==> r == s
  {
    if |s| >= 2 && s[0] == '0' && s[1] == 'x' then RemoveHexPrefixes(s[2..])
    else if s == [] then []
    else [s[0]] + RemoveHexPrefixes(s[1..])
  }

  /** A prefix without 'x' passes unchanged, as long as what follows it does not start with 'x'. */
  lemma {:induction false} RemoveHexPrefixesAfterPlain(a: string, t: string)
    requires 'x' !in a && (t == [] || t[0] != 'x')
    ensures RemoveHexPrefixes(a + t) == a + RemoveHexPrefixes(t)
  {
    if a != [] {
      assert (a + t)[0] == a[0] && (a + t)[1..] == a[1..] + t;
      assert |a + t| >= 2 ==> (a + t)[1] != 'x';
      RemoveHexPrefixesAfterPlain(a[1..], t);
      assert RemoveHexPrefixes(a + t) == [a[0]] + (a[1..] + RemoveHexPrefixes(t));
      assert [a[0]] + a[1..] == a;
    } else {
      assert a + t == t;
    }
  }

  /** A character other than '0' and 'x' survives the removal of "0x". */
  lemma {:induction false} RemoveHexPrefixesKeeps(s: string, d: char)
    requires d in s && d != '0' && d != 'x'
    ensures d in RemoveHexPrefixes(s)
  {
    if |s| >= 2 && s[0] == '0' && s[1] == 'x' {
      assert d in s[2..] by {
        var i :| 0 <= i < |s| && s[i] == d;
        assert s[2..][i - 2] == d;
      }
      RemoveHexPrefixesKeeps(s[2..], d);
    } else if s[0] != d {
      RemoveHexPrefixesKeeps(s[1..], d);
    }
  }

  // ---------------------------------------------------------------- splitting

  /** Every field of `s` between occurrences of `sep`, empty ones included. */
  function Fields(s: string, sep: char): (fs: seq<string>)
    ensures |fs| > 0
  {
    if s == [] then [""]
    else
      var rest := Fields(s[1..], sep);
      if s[0] == sep then [""] + rest else [[s[0]] + rest[0]] + rest[1..]
  }

  function DropTrailingEmpty(fs: seq<string>): seq<string>
  {
    if |fs| > 0 && fs[|fs| - 1] == "" then DropTrailingEmpty(fs[..|fs| - 1]) else fs
  }

  /** `s.split(sep)` for a one-character pattern that is not a regular-expression metacharacter: a
      string without `sep` comes back whole (so "" gives [""]), otherwise trailing empty fields are
      dropped (so "," gives []). */
  function Split(s: string, sep: char): seq<string>
  {
    if sep !in s then [s] else DropTrailingEmpty(Fields(s, sep))
  }

  /** What `StringBuilder.append(int)` produces for the numbers of `ns` appended with `sep` between them. */
  function JoinInts(ns: seq<int>, sep: char): string
  {
    if |ns| == 0 then "" else if |ns| == 1 then IntToString(ns[0])
    else IntToString(ns[0]) + [sep] + JoinInts(ns[1..], sep)
  }

  /** The fields joined with `sep` between them. */
  function Join(fs: seq<string>, sep: char): string
  {
    if |fs| == 0 then "" else if |fs| == 1 then fs[0] else fs[0] + [sep] + Join(fs[1..], sep)
  }

  lemma {:induction false} FieldsWithout(x: string, sep: char)
    requires sep !in x
    ensures Fields(x, sep) == [x]
  {
    if x != [] {
      FieldsWithout(x[1..], sep);
      assert [x[0]] + x[1..] == x;
    }
  }

  lemma {:induction false} FieldsAfter(x: string, sep: char, rest: string)
    requires sep !in x
    ensures Fields(x + [sep] + rest, sep) == [x] + Fields(rest, sep)
  {
    var s := x + [sep] + rest;
    if x == [] {
      assert s == [sep] + rest;
      assert s[1..] == rest;
    } else {
      assert s[1..] == x[1..] + [sep] + rest;
      FieldsAfter(x[1..], sep, rest);
      assert [x[0]] + x[1..] == x;
    }
  }

  lemma {:induction false} FieldsOfJoin(fs: seq<string>, sep: char)
    requires |fs| > 0
    requires forall i :: 0 <= i < |fs| ==> sep !in fs[i]
    ensures Fields(Join(fs, sep), sep) == fs
  {
    if |fs| == 1 {
      FieldsWithout(fs[0], sep);
    } else {
      FieldsOfJoin(fs[1..], sep);
      FieldsAfter(fs[0], sep, Join(fs[1..], sep));
      assert [fs[0]] + fs[1..] == fs;
    }
  }

  /** Splitting undoes joining when no field holds the separator and the last one is not empty. */
  lemma SplitJoin(fs: seq<string>, sep: char)
    requires |fs| > 0 && fs[|fs| - 1] != ""
    requires forall i :: 0 <= i < |fs| ==> sep !in fs[i]
    ensures Split(Join(fs, sep), sep) == fs
  {
    FieldsOfJoin(fs, sep);
    if sep !in Join(fs, sep) {
      assert Fields(Join(fs, sep), sep) == [Join(fs, sep)];
    }
  }

  // ---------------------------------------------------------------- file names

  /** `String.lastIndexOf(c)`. */
  function LastIndexOf(s: string, c: char): (i: int)
    ensures -1 <= i < |s|
    ensures i >= 0 ==> s[i] == c
    ensures forall k :: i < k < |s| ==> s[k] != c
  {
    if s == [] then -1
    else if s[|s| - 1] == c then |s| - 1
    else LastIndexOf(s[..|s| - 1], c)
  }

  /** libGDX `FileHandle.nameWithoutExtension()` of a file called `name`: the name up to its last '.'. */
  function NameWithoutExtension(name: string): string
  {
    var dot := LastIndexOf(name, '.');
    if dot == -1 then name else name[..dot]
  }

  /** The name of `base + ".fnt"` without its extension is `base`, even when `base` holds dots. */
  lemma NameWithoutExtensionOfFnt(base: string)
    ensures NameWithoutExtension(base + ".fnt") == base
  {
    var s := base + ".fnt";
    assert s[|base|] == '.';
    assert s[..|base|] == base;
  }

  // ---------------------------------------------------------------- counting

  /** How many times `c` occurs in `s`. */
  function CountChar(s: string, c: char): nat
  {
    if s == [] then 0 else (if s[0] == c then 1 else 0) + CountChar(s[1..], c)
  }

  lemma {:induction false} CountCharAppend(a: string, b: string, c: char)
    ensures CountChar(a + b, c) == CountChar(a, c) + CountChar(b, c)
  {
    if a != [] {
      assert (a + b)[1..] == a[1..] + b;
      CountCharAppend(a[1..], b, c);
    } else {
      assert a + b == b;
    }
  }

  lemma {:induction false} CountCharAbsent(s: string, c: char)
    requires c !in s
    ensures CountChar(s, c) == 0
  {
    if s != [] {
      CountCharAbsent(s[1..], c);
    }
  }

  /** A line whose only `c` is its last character holds `c` exactly once. */
  lemma CountCharTerminated(body: string, c: char)
    requires c !in body
    ensures CountChar(body + [c], c) == 1
  {
    CountCharAppend(body, [c], c);
    CountCharAbsent(body, c);
  }
}
