/** Text helpers the game engine and the renderer share: PHP's decimal
    conversion of integers, `str_repeat`, `str_pad(..., STR_PAD_LEFT)`,
    string concatenation of fixed-width fields and ASCII `strtolower`. */
module Text {

  /** The decimal digit character for 0 <= d < 10. */
  function DigitChar(d: int): (ch: char)
    requires 0 <= d < 10
    ensures '0' <= ch <= '9' && ch as int - '0' as int == d
  {
    ('0' as int + d) as char
  }

  predicate IsDigits(s: string)
  {
    forall i :: 0 <= i < |s| ==> '0' <= s[i] <= '9'
  }

  /** `(string)$n` for a non-negative integer: its decimal digits, most
      significant first, without leading zeros. */
  function NatToString(n: nat): (s: string)
    ensures 1 <= |s|
    ensures (n < 10) == (|s| == 1)
  {
    if n < 10 then [DigitChar(n)] else NatToString(n / 10) + [DigitChar(n % 10)]
  }

  /** The text of a number is made of decimal digits only. */
  lemma {:induction false} NatToStringDigits(n: nat)
    ensures IsDigits(NatToString(n))
  {
    if n >= 10 {
      NatToStringDigits(n / 10);
      var s := NatToString(n);
      assert s == NatToString(n / 10) + [DigitChar(n % 10)];
      forall i | 0 <= i < |s|
        ensures '0' <= s[i] <= '9'
      {
        if i < |s| - 1 {
          assert s[i] == NatToString(n / 10)[i];
        }
      }
    }
  }

  /** The value of a string read as decimal digits, most significant first
      (the inverse of NatToString). */
  function DigitsValue(s: string): int
  {
    if s == [] then 0 else DigitsValue(s[..|s| - 1]) * 10 + (s[|s| - 1] as int - '0' as int)
  }

  /** Printing a number and reading it back gives the number: the decimal
      text the renderer prints is unambiguous. */
  lemma {:induction false} NatToStringRoundTrip(n: nat)
    ensures DigitsValue(NatToString(n)) == n
  {
    if n >= 10 {
      var s := NatToString(n);
      assert s[..|s| - 1] == NatToString(n / 10);
      NatToStringRoundTrip(n / 10);
    }
  }

  /** A larger number never prints with fewer digits. */
  lemma {:induction false} NatToStringLengthMonotone(n: nat, m: nat)
    requires n <= m
    ensures |NatToString(n)| <= |NatToString(m)|
  {
    if n >= 10 {
      NatToStringLengthMonotone(n / 10, m / 10);
    }
  }

  /** `(string)$i` for any integer: a minus sign in front of negatives. */
  function IntToString(i: int): (s: string)
    ensures 1 <= |s|
    ensures i >= 0 ==> s == NatToString(i)
    ensures i < 0 ==> s[0] == '-' && s[1..] == NatToString(-i)
  {
    if i < 0 then "-" + NatToString(-i) else NatToString(i)
  }

  /** Every value a field cell can hold (-1 .. 8) prints in at most two characters. */
  lemma CellValueTextWidth(v: int)
    requires -1 <= v <= 8
    ensures |IntToString(v)| <= 2
  {
  }

  /** `str_repeat($ch, $n)`. */
  function Repeat(ch: char, n: nat): (s: string)
    ensures |s| == n
  {
    seq(n, _ => ch)
  }

  /** Every character of `str_repeat($ch, $n)` is `$ch`. */
  lemma RepeatChars(ch: char, n: nat)
    ensures forall i :: 0 <= i < n ==> Repeat(ch, n)[i] == ch
  {
  }

  /** `str_pad($s, $width, " ", STR_PAD_LEFT)`: spaces in front up to the
      width; a string that is already as wide is left as it is. */
  function PadLeft(s: string, width: int): (r: string)
    ensures |s| >= width ==> r == s
    ensures |s| < width ==> |r| == width && r == Repeat(' ', width - |s|) + s
  {
    if |s| >= width then s else Repeat(' ', width - |s|) + s
  }

  /** The concatenation of a sequence of strings, left to right (what a loop
      of `.=` appends builds). */
  function Concat(parts: seq<string>): string
  {
    if parts == [] then "" else parts[0] + Concat(parts[1..])
  }

  predicate UniformWidth(parts: seq<string>, width: nat)
  {
    forall i :: 0 <= i < |parts| ==> |parts[i]| == width
  }

  /** Fixed-width fields concatenate to |parts| * width characters. */
  lemma {:induction false} ConcatLength(parts: seq<string>, width: nat)
    requires UniformWidth(parts, width)
    ensures |Concat(parts)| == |parts| * width
  {
    if parts != [] {
      ConcatLength(parts[1..], width);
      assert |parts| * width == width + (|parts| - 1) * width;
    }
  }

  /** Field i of a concatenation of fixed-width fields sits at offset i * width. */
  lemma {:induction false} ConcatField(parts: seq<string>, width: nat, i: nat)
    requires UniformWidth(parts, width) && i < |parts|
    ensures i * width + width <= |Concat(parts)|
    ensures Concat(parts)[i * width .. i * width + width] == parts[i]
  {
    if i == 0 {
      assert Concat(parts) == parts[0] + Concat(parts[1..]);
    } else {
      ConcatField(parts[1..], width, i - 1);
      var o := (i - 1) * width;
      assert i * width == o + width;
      SliceAfterPrefix(parts[0], Concat(parts[1..]), o, o + width);
    }
  }

  /** Field c of n fields of width w starts at c * w and ends within n * w. */
  lemma FieldOffset(c: nat, n: nat, w: nat)
    requires c < n
    ensures 0 <= c * w && c * w + w <= n * w
  {
    var k: nat := n - c - 1;
    assert n * w == c * w + w + k * w;
  }

  lemma SliceAfterPrefix(a: string, b: string, lo: nat, hi: nat)
    requires lo <= hi <= |b|
    ensures (a + b)[|a| + lo .. |a| + hi] == b[lo .. hi]
  {
  }

  /** A fixed-width prefix followed by fields: the prefix is the first h
      characters and the field at offset o of the rest sits at h + o. */
  lemma PrefixThenField(a: string, b: string, h: nat, o: nat, w: nat)
    requires |a| == h && o + w <= |b|
    ensures |a + b| == h + |b| && (a + b)[..h] == a
    ensures (a + b)[h + o .. h + o + w] == b[o .. o + w]
  {
    SliceAfterPrefix(a, b, o, o + w);
  }

  /** ASCII `strtolower` of one character. */
  function LowerChar(ch: char): (r: char)
    ensures 'A' <= ch <= 'Z' ==> 'a' <= r <= 'z' && r as int - ch as int == 32
    ensures !('A' <= ch <= 'Z') ==> r == ch
  {
    if 'A' <= ch <= 'Z' then (ch as int + 32) as char else ch
  }

  /** ASCII `strtolower`. */
  function ToLower(s: string): (r: string)
    ensures |r| == |s| && forall i :: 0 <= i < |s| ==> r[i] == LowerChar(s[i])
  {
    seq(|s|, i requires 0 <= i < |s| => LowerChar(s[i]))
  }
}
