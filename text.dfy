/** The string operations the app uses: `toLowerCase` (on ASCII letters),
    `includes`, `replace(/\s+/g, '_')`, number-to-string conversion and
    `padStart(2, '0')`. */
module Text {

  // ---------------------------------------------------------------- case

  predicate IsUpper(c: char) {
    'A' <= c <= 'Z'
  }

  /** `toLowerCase` on one character, restricted to the ASCII letters. */
  function LowerChar(c: char): char {
    if IsUpper(c) then (c as int + 32) as char else c
  }

  /** `toLowerCase` on a string (ASCII letters only): no capital letter is
      left, and a string without capitals comes back unchanged. */
  function Lower(s: string): (r: string)
    ensures |r| == |s|
    ensures forall i :: 0 <= i < |r| ==> !IsUpper(r[i])
    ensures (forall i :: 0 <= i < |s| ==> !IsUpper(s[i])) ==> r == s
  {
    seq(|s|, i requires 0 <= i < |s| => LowerChar(s[i]))
  }

  /** The same letter, possibly in the other case. */
  predicate SameLetter(a: char, b: char) {
    || a == b
    || (IsUpper(a) && b as int == a as int + 32)
    || (IsUpper(b) && a as int == b as int + 32)
  }

  /** Two strings that spell the same letters, each in either case, lower-case
      to the same string, so a term typed in any case is compared alike. */
  lemma LowerIgnoresCase(s: string, t: string)
    requires |s| == |t| && forall i :: 0 <= i < |s| ==> SameLetter(s[i], t[i])
    ensures Lower(s) == Lower(t)
  {
    forall i | 0 <= i < |s| ensures Lower(s)[i] == Lower(t)[i] {
      assert Lower(s)[i] == LowerChar(s[i]) && Lower(t)[i] == LowerChar(t[i]);
    }
  }

  // ----------------------------------------------------------- substring

  /** `needle` occurs in `hay` starting at position `i`. */
  predicate OccursAt(hay: string, needle: string, i: nat) {
    i + |needle| <= |hay| && hay[i..i + |needle|] == needle
  }

  /** `hay.includes(needle)`: `needle` occurs in `hay` at some position. */
  predicate Includes(hay: string, needle: string) {
    exists i: nat :: i <= |hay| && OccursAt(hay, needle, i)
  }

  /** The empty string occurs in every string. */
  lemma IncludesEmpty(hay: string)
    ensures Includes(hay, [])
  {
    assert OccursAt(hay, [], 0);
  }

  /** A string occurs in any string that contains it as a piece. */
  lemma IncludesPiece(before: string, needle: string, after: string)
    ensures Includes(before + needle + after, needle)
  {
    var hay := before + needle + after;
    assert OccursAt(hay, needle, |before|);
  }

  // ---------------------------------------------------------- whitespace

  /** The characters JavaScript's `\s` matches: the WhiteSpace and
      LineTerminator code points of ECMAScript. */
  predicate IsSpace(c: char) {
    var n := c as int;
    || 0x09 <= n <= 0x0D || n == 0x20 || n == 0xA0 || n == 0x1680
    || 0x2000 <= n <= 0x200A || n == 0x2028 || n == 0x2029 || n == 0x202F
    || n == 0x205F || n == 0x3000 || n == 0xFEFF
  }

  predicate NoSpace(s: string) {
    forall i :: 0 <= i < |s| ==> !IsSpace(s[i])
  }

  /** `s` without its leading run of whitespace. */
  function DropSpaces(s: string): (r: string)
    ensures |r| <= |s| && r == s[|s| - |r|..]
    ensures r == [] || !IsSpace(r[0])
  {
    if s != [] && IsSpace(s[0]) then DropSpaces(s[1..]) else s
  }

  /** `s.replace(/\s+/g, '_')`: scanning from the left, every maximal run of
      whitespace becomes one underscore. */
  function UnderscoreSpaces(s: string): string
    decreases |s|
  {
    if s == [] then []
    else if IsSpace(s[0]) then "_" + UnderscoreSpaces(DropSpaces(s[1..]))
    else [s[0]] + UnderscoreSpaces(s[1..])
  }

  /** The same replacement stated one character at a time: a whitespace
      character gives an underscore when it starts a run (the character
      before it, if any, is not whitespace) and nothing otherwise; every
      other character is kept. */
  function MarkRuns(s: string, afterSpace: bool): string {
    if s == [] then []
    else (if !IsSpace(s[0]) then [s[0]] else if afterSpace then [] else "_")
         + MarkRuns(s[1..], IsSpace(s[0]))
  }

  lemma {:induction false} MarkRunsSkipsRun(s: string)
    ensures MarkRuns(s, true) == MarkRuns(DropSpaces(s), true)
  {
    if s != [] && IsSpace(s[0]) {
      MarkRunsSkipsRun(s[1..]);
    }
  }

  /** The regular-expression replacement agrees with the character-wise
      description. */
  lemma {:induction false} UnderscoreSpacesMarksRuns(s: string)
    ensures UnderscoreSpaces(s) == MarkRuns(s, false)
    decreases |s|
  {
    if s != [] {
      if IsSpace(s[0]) {
        var rest := DropSpaces(s[1..]);
        MarkRunsSkipsRun(s[1..]);
        UnderscoreSpacesMarksRuns(rest);
        if rest != [] {
          assert MarkRuns(rest, true) == MarkRuns(rest, false);
        }
      } else {
        UnderscoreSpacesMarksRuns(s[1..]);
      }
    }
  }

  /** No whitespace survives the replacement. */
  lemma {:induction false} UnderscoreSpacesNoSpace(s: string)
    ensures NoSpace(UnderscoreSpaces(s))
    decreases |s|
  {
    if s != [] {
      if IsSpace(s[0]) {
        UnderscoreSpacesNoSpace(DropSpaces(s[1..]));
      } else {
        UnderscoreSpacesNoSpace(s[1..]);
      }
    }
  }

  /** A string without whitespace is left as it is, so the replacement is
      idempotent. */
  lemma {:induction false} UnderscoreSpacesKeeps(s: string)
    requires NoSpace(s)
    ensures UnderscoreSpaces(s) == s
  {
    if s != [] {
      assert !IsSpace(s[0]);
      UnderscoreSpacesKeeps(s[1..]);
    }
  }

  lemma UnderscoreSpacesIdempotent(s: string)
    ensures UnderscoreSpaces(UnderscoreSpaces(s)) == UnderscoreSpaces(s)
  {
    UnderscoreSpacesNoSpace(s);
    UnderscoreSpacesKeeps(UnderscoreSpaces(s));
  }

  /** Two whitespace-free words separated by one space are joined by an
      underscore. */
  lemma {:induction false} UnderscoreSingleSpace(a: string, b: string)
    requires NoSpace(a) && NoSpace(b)
    ensures UnderscoreSpaces(a + " " + b) == a + "_" + b
  {
    if a == [] {
      assert a + " " + b == [' '] + b;
      assert ([' '] + b)[1..] == b;
      assert b == [] || !IsSpace(b[0]);
      UnderscoreSpacesKeeps(b);
    } else {
      assert (a + " " + b)[1..] == a[1..] + " " + b;
      assert !IsSpace(a[0]);
      UnderscoreSingleSpace(a[1..], b);
    }
  }

  // ------------------------------------------------------------- numbers

  predicate IsDigit(c: char) {
    '0' <= c <= '9'
  }

  predicate AllDigits(s: string) {
    forall i :: 0 <= i < |s| ==> IsDigit(s[i])
  }

  function DigitChar(d: nat): (c: char)
    requires d < 10
    ensures IsDigit(c)
  {
    (48 + d) as char
  }

  function DigitValue(c: char): (d: nat)
    requires IsDigit(c)
    ensures d < 10
  {
    c as int - 48
  }

  /** `n.toString()` for a non-negative integer: its decimal digits, most
      significant first, without leading zeros. */
  function NatToString(n: nat): string
  {
    if n < 10 then [DigitChar(n)] else NatToString(n / 10) + [DigitChar(n % 10)]
  }

  /** The number a string of decimal digits denotes. */
  function DecimalValue(s: string): nat
    requires AllDigits(s)
  {
    if s == [] then 0 else DecimalValue(s[..|s| - 1]) * 10 + DigitValue(s[|s| - 1])
  }

  function Pow10(k: nat): (p: nat)
    ensures p >= 1
  {
    if k == 0 then 1 else 10 * Pow10(k - 1)
  }

  /** Reading back the digits NatToString writes gives the number; the
      digits have no leading zero. */
  lemma {:induction false} NatToStringRoundTrip(n: nat)
    ensures AllDigits(NatToString(n)) && |NatToString(n)| >= 1
    ensures DecimalValue(NatToString(n)) == n
    ensures NatToString(n)[0] == '0' ==> n == 0
  {
    if n >= 10 {
      NatToStringRoundTrip(n / 10);
      var s := NatToString(n);
      assert s[..|s| - 1] == NatToString(n / 10);
    }
  }

  /** Different numbers are written differently. */
  lemma NatToStringInjective(m: nat, n: nat)
    requires NatToString(m) == NatToString(n)
    ensures m == n
  {
    NatToStringRoundTrip(m);
    NatToStringRoundTrip(n);
  }

  /** A number with `k` digits is written with `k` characters. */
  lemma {:induction false} NatToStringLength(n: nat, k: nat)
    requires k >= 1 && (k == 1 || Pow10(k - 1) <= n) && n < Pow10(k)
    ensures |NatToString(n)| == k
  {
    if k > 1 {
      if k > 2 {
        assert Pow10(k - 1) == 10 * Pow10(k - 2);
      }
      NatToStringLength(n / 10, k - 1);
    }
  }

  /** Appending one digit to `x * p + y` shifts both parts by a place. */
  lemma ShiftDigit(x: nat, p: nat, y: nat, d: nat)
    ensures (x * p + y) * 10 + d == x * (10 * p) + (y * 10 + d)
  {
  }

  /** The value of a concatenation of digit strings. */
  lemma {:induction false} DecimalAppend(a: string, b: string)
    requires AllDigits(a) && AllDigits(b)
    ensures AllDigits(a + b)
    ensures DecimalValue(a + b) == DecimalValue(a) * Pow10(|b|) + DecimalValue(b)
  {
    if b != [] {
      var m := |b| - 1;
      DecimalAppend(a, b[..m]);
      assert (a + b)[..|a + b| - 1] == a + b[..m];
      var va, vb, d := DecimalValue(a), DecimalValue(b[..m]), DigitValue(b[m]);
      assert DecimalValue(a + b) == DecimalValue(a + b[..m]) * 10 + d;
      assert DecimalValue(b) == vb * 10 + d;
      ShiftDigit(va, Pow10(m), vb, d);
    } else {
      assert a + b == a;
    }
  }

  /** `s.padStart(width, c)`: `c` repeated in front until `s` is `width`
      long; a string already that long is unchanged. */
  function PadStart(s: string, width: nat, c: char): (r: string)
    decreases width - |s|
  {
    if |s| >= width then s else PadStart([c] + s, width, c)
  }

  /** A number below 100 padded to two digits reads back as itself. */
  lemma TwoDigits(n: nat)
    requires n < 100
    ensures var r := PadStart(NatToString(n), 2, '0');
      |r| == 2 && AllDigits(r) && DecimalValue(r) == n
  {
    NatToStringRoundTrip(n);
    var s := NatToString(n);
    if n < 10 {
      NatToStringLength(n, 1);
      assert PadStart(s, 2, '0') == "0" + s;
      DecimalAppend("0", s);
    } else {
      NatToStringLength(n, 2);
    }
  }

  /** The maximal run of digits at the front of `s`. */
  function LeadingDigits(s: string): (r: string)
    ensures AllDigits(r)
  {
    if s == [] || !IsDigit(s[0]) then [] else [s[0]] + LeadingDigits(s[1..])
  }

  /** A digit string followed by something that does not start with a digit
      is the leading digit run. */
  lemma {:induction false} LeadingDigitsOf(a: string, b: string)
    requires AllDigits(a)
    requires b == [] || !IsDigit(b[0])
    ensures LeadingDigits(a + b) == a
  {
    if a != [] {
      assert (a + b)[1..] == a[1..] + b;
      LeadingDigitsOf(a[1..], b);
    } else {
      assert a + b == b;
    }
  }
}
