/** The string functions the models share: hex and decimal printing, byte order, trimming. */
module Texts {
  import opened Seqs

  type Byte = b: int | 0 <= b < 256

  // ---------------------------------------------------------------- hex

  const HEX_DIGITS := "0123456789abcdef"

  /** The "%x" verb on bytes: two digits for each. */
  function Hex(bytes: seq<Byte>): string {
    seq(2 * |bytes|, i requires 0 <= i < 2 * |bytes| =>
      HEX_DIGITS[if i % 2 == 0 then bytes[i / 2] / 16 else bytes[i / 2] % 16])
  }

  /** The value of a lower-case hexadecimal digit. */
  function HexValue(c: char): Option<nat> {
    if '0' <= c <= '9' then Some((c - '0') as nat)
    else if 'a' <= c <= 'f' then Some((c - 'a') as nat + 10)
    else None
  }

  /** Two digits a byte, the higher one first. */
  predicate IsHexOf(text: string, bytes: seq<Byte>) {
    && |text| == 2 * |bytes|
    && forall i | 0 <= i < |bytes| ::
      var high, low := HexValue(text[2 * i]), HexValue(text[2 * i + 1]);
      high.Some? && low.Some? && 16 * high.value + low.value == bytes[i]
  }

  lemma DigitReads(d: nat)
    requires d < 16
    ensures HexValue(HEX_DIGITS[d]) == Some(d)
  {
  }

  lemma HexReads(bytes: seq<Byte>)
    ensures IsHexOf(Hex(bytes), bytes)
  {
    forall i | 0 <= i < |bytes|
      ensures HexValue(Hex(bytes)[2 * i]) == Some(bytes[i] / 16)
      ensures HexValue(Hex(bytes)[2 * i + 1]) == Some(bytes[i] % 16)
    {
      DigitReads(bytes[i] / 16);
      DigitReads(bytes[i] % 16);
    }
  }

  lemma DigitsDiffer(a: nat, b: nat)
    requires a < 16 && b < 16 && HEX_DIGITS[a] == HEX_DIGITS[b]
    ensures a == b
  {
  }

  lemma HexInjective(a: seq<Byte>, b: seq<Byte>)
    ensures Hex(a) == Hex(b) <==> a == b
  {
    if Hex(a) == Hex(b) {
      assert 2 * |a| == |Hex(a)| == |Hex(b)| == 2 * |b|;
      forall i | 0 <= i < |a| ensures a[i] == b[i] {
        assert Hex(a)[2 * i] == Hex(b)[2 * i] && Hex(a)[2 * i + 1] == Hex(b)[2 * i + 1];
        DigitsDiffer(a[i] / 16, b[i] / 16);
        DigitsDiffer(a[i] % 16, b[i] % 16);
      }
    }
  }

  // ---------------------------------------------------------------- trimming

  /** ASCII white space. */
  predicate IsSpace(c: char) {
    c == ' ' || c == '\t' || c == '\n' || c == '\r' || c == 11 as char || c == 12 as char
  }

  function TrimLeft(s: string): string {
    if s != "" && IsSpace(s[0]) then TrimLeft(s[1..]) else s
  }

  function TrimRight(s: string): string {
    if s != "" && IsSpace(s[|s| - 1]) then TrimRight(s[..|s| - 1]) else s
  }

  function Trim(s: string): string {
    TrimRight(TrimLeft(s))
  }

  predicate Trimmed(s: string) {
    s == "" || (!IsSpace(s[0]) && !IsSpace(s[|s| - 1]))
  }

  lemma {:induction false} TrimLeftStarts(s: string)
    ensures TrimLeft(s) == "" || !IsSpace(TrimLeft(s)[0])
  {
    if s != "" && IsSpace(s[0]) {
      TrimLeftStarts(s[1..]);
    }
  }

  lemma {:induction false} TrimRightEnds(s: string)
    ensures TrimRight(s) <= s
    ensures TrimRight(s) == "" || !IsSpace(TrimRight(s)[|TrimRight(s)| - 1])
  {
    if s != "" && IsSpace(s[|s| - 1]) {
      TrimRightEnds(s[..|s| - 1]);
    }
  }

  lemma TrimTrims(s: string)
    ensures Trimmed(Trim(s))
    ensures Trimmed(s) ==> Trim(s) == s
  {
    TrimLeftStarts(s);
    TrimRightEnds(TrimLeft(s));
    if TrimRight(TrimLeft(s)) != "" {
      assert TrimRight(TrimLeft(s))[0] == TrimLeft(s)[0];
    }
  }

  lemma {:induction false} TrimLeftSlice(s: string) returns (a: nat)
    ensures a <= |s| && TrimLeft(s) == s[a..] && forall i | 0 <= i < a :: IsSpace(s[i])
  {
    if s != "" && IsSpace(s[0]) {
      a := TrimLeftSlice(s[1..]);
      a := a + 1;
    } else {
      a := 0;
    }
  }

  lemma {:induction false} TrimRightSlice(s: string) returns (b: nat)
    ensures b <= |s| && TrimRight(s) == s[..b] && forall i | b <= i < |s| :: IsSpace(s[i])
  {
    if s != "" && IsSpace(s[|s| - 1]) {
      b := TrimRightSlice(s[..|s| - 1]);
    } else {
      b := |s|;
    }
  }

  lemma TrimSlice(s: string) returns (a: nat, b: nat)
    ensures a <= b <= |s| && Trim(s) == s[a..b]
    ensures forall i | 0 <= i < |s| && (i < a || i >= b) :: IsSpace(s[i])
  {
    a := TrimLeftSlice(s);
    b := TrimRightSlice(TrimLeft(s));
    forall i | 0 <= i < |s| && i >= a + b ensures IsSpace(s[i]) {
      assert s[i] == s[a..][i - a];
    }
    b := a + b;
  }

  const SPACES := [' ', '\t', '\n', '\r', 11 as char, 12 as char]

  /** Trimming takes white space off both ends, and all of it. */
  lemma TrimIs(s: string) returns (front: string, back: string)
    ensures s == front + Trim(s) + back
    ensures forall c | c in front || c in back :: c in SPACES
    ensures Trim(s) != "" ==> Trim(s)[0] !in SPACES && Trim(s)[|Trim(s)| - 1] !in SPACES
  {
    var a, b := TrimSlice(s);
    front, back := s[..a], s[b..];
    TrimTrims(s);
    forall c | c in front || c in back ensures c in SPACES {
      if c in front {
        var i :| 0 <= i < a && front[i] == c;
        assert IsSpace(s[i]);
      } else {
        var i :| 0 <= i < |back| && back[i] == c;
        assert IsSpace(s[b + i]);
      }
    }
  }

  lemma BlankIs(s: string)
    ensures Trim(s) == "" <==> forall c | c in s :: c in SPACES
  {
    var front, back := TrimIs(s);
    if Trim(s) != "" {
      assert s[|front|] == Trim(s)[0];
    }
  }

  // ---------------------------------------------------------------- decimal

  function DigitChar(d: nat): char
    requires d < 10
  {
    '0' + d as char
  }

  function DigitValue(c: char): Option<nat> {
    if '0' <= c <= '9' then Some((c - '0') as nat) else None
  }

  function PrintNat(n: nat): (s: string)
    ensures s != ""
  {
    if n < 10 then [DigitChar(n)] else PrintNat(n / 10) + [DigitChar(n % 10)]
  }

  function PrintInt(i: int): (s: string)
    ensures s != ""
  {
    if i < 0 then "-" + PrintNat(-i) else PrintNat(i)
  }

  /** A non-empty run of decimal digits. */
  function ParseNat(s: string): Option<nat> {
    if s == "" then None
    else
      var init, last := s[..|s| - 1], DigitValue(s[|s| - 1]);
      if last.None? then None
      else if init == "" then last
      else match ParseNat(init)
        case Some(n) => Some(10 * n + last.value)
        case None => None
  }

  const MIN_INT64 := -0x8000_0000_0000_0000

  /** strconv.ParseInt(s, 10, 64), with None for its errors. */
  function ParseInt64(s: string): Option<int> {
    if s == "" then None
    else
      var negative := s[0] == '-';
      match ParseNat(if s[0] == '-' || s[0] == '+' then s[1..] else s)
      case Some(n) =>
        var i := if negative then -(n as int) else n as int;
        if MIN_INT64 <= i < -MIN_INT64 then Some(i) else None
      case None => None
  }

  lemma {:induction false} ParsePrintNat(n: nat)
    ensures ParseNat(PrintNat(n)) == Some(n)
    ensures DigitValue(PrintNat(n)[0]).Some? && DigitValue(PrintNat(n)[|PrintNat(n)| - 1]).Some?
  {
    if n >= 10 {
      ParsePrintNat(n / 10);
      var s := PrintNat(n);
      assert s[..|s| - 1] == PrintNat(n / 10);
      assert s[0] == PrintNat(n / 10)[0];
    }
  }

  /** Exactly the 64-bit integers survive being printed and parsed; the others are refused. */
  lemma ParsePrintAny(i: int)
    ensures ParseInt64(PrintInt(i)) == if MIN_INT64 <= i < -MIN_INT64 then Some(i) else None
    ensures Trimmed(PrintInt(i))
  {
    ParsePrintNat(if i < 0 then -i else i);
    if i < 0 {
      assert PrintInt(i)[1..] == PrintNat(-i);
    }
  }

  lemma ParsePrintInt(i: int)
    requires MIN_INT64 <= i < -MIN_INT64
    ensures ParseInt64(PrintInt(i)) == Some(i)
  {
    ParsePrintAny(i);
  }

  /** Decimal text: the ten digits, a last digit worth one and the others ten times as much, a sign in front. */
  lemma DecimalIs(n: nat, d: nat)
    requires d < 10
    ensures PrintNat(d) == ["0123456789"[d]]
    ensures n > 0 ==> PrintNat(10 * n + d) == PrintNat(n) + ["0123456789"[d]]
    ensures n > 0 ==> PrintInt(-(n as int)) == "-" + PrintNat(n)
    ensures n < -MIN_INT64 ==> ParseInt64("+" + PrintNat(n)) == Some(n)
  {
    ParsePrintNat(n);
    assert (10 * n + d) / 10 == n && (10 * n + d) % 10 == d;
    var s := "+" + PrintNat(n);
    assert s[1..] == PrintNat(n);
  }

  function ZeroDigits(k: nat): string {
    seq(k, _ => '0')
  }

  /** Decimal text for n, perhaps with zeros in front. */
  ghost predicate IsDecimal(s: string, n: nat) {
    exists k: nat :: s == ZeroDigits(k) + PrintNat(n)
  }

  lemma {:induction false} ZerosParse(k: nat)
    requires k > 0
    ensures ParseNat(ZeroDigits(k)) == Some(0)
  {
    assert ZeroDigits(k)[..k - 1] == ZeroDigits(k - 1);
    if k > 1 {
      ZerosParse(k - 1);
    }
  }

  lemma {:induction false} PaddedParses(k: nat, n: nat)
    ensures ParseNat(ZeroDigits(k) + PrintNat(n)) == Some(n)
  {
    var s := ZeroDigits(k) + PrintNat(n);
    if n >= 10 {
      PaddedParses(k, n / 10);
      assert s[..|s| - 1] == ZeroDigits(k) + PrintNat(n / 10);
    } else {
      assert s[..|s| - 1] == ZeroDigits(k);
      if k > 0 {
        ZerosParse(k);
      }
    }
  }

  lemma {:induction false} ParsedIsPadded(s: string, n: nat) returns (k: nat)
    requires ParseNat(s) == Some(n)
    ensures s == ZeroDigits(k) + PrintNat(n)
  {
    var init, last := s[..|s| - 1], s[|s| - 1];
    assert s == init + [last];
    if init == "" {
      k := 0;
    } else {
      var m := ParseNat(init).value;
      k := ParsedIsPadded(init, m);
      if m == 0 {
        assert ZeroDigits(k) + "0" == ZeroDigits(k + 1);
        k := k + 1;
      }
    }
  }

  lemma ParseNatIs(s: string, n: nat)
    ensures ParseNat(s) == Some(n) <==> IsDecimal(s, n)
  {
    if ParseNat(s) == Some(n) {
      var k := ParsedIsPadded(s, n);
    }
    if IsDecimal(s, n) {
      var k: nat :| s == ZeroDigits(k) + PrintNat(n);
      PaddedParses(k, n);
    }
  }

  lemma DecimalStarts(s: string, n: nat)
    requires IsDecimal(s, n)
    ensures s != "" && '0' <= s[0] <= '9'
  {
    ParsePrintNat(n);
  }

  /** Exactly the decimal texts of 64-bit integers are read: zeros may stand in front, and before them one sign. */
  lemma ParseInt64Is(s: string, i: int)
    ensures ParseInt64(s) == Some(i) <==>
      && -0x8000_0000_0000_0000 <= i < 0x8000_0000_0000_0000
      && (|| (i >= 0 && (IsDecimal(s, i) || (s != "" && s[0] == '+' && IsDecimal(s[1..], i))))
          || (i <= 0 && s != "" && s[0] == '-' && IsDecimal(s[1..], -i)))
  {
    var size: nat := if i < 0 then -i else i;
    ParseNatIs(s, size);
    if s != "" {
      ParseNatIs(s[1..], size);
    }
    if IsDecimal(s, size) {
      DecimalStarts(s, size);
    }
  }

  // ---------------------------------------------------------------- order

  /** Byte order of strings. */
  predicate StrLe(a: string, b: string) {
    a == "" || (b != "" && (a[0] < b[0] || (a[0] == b[0] && StrLe(a[1..], b[1..]))))
  }

  lemma {:induction false} StrLeTotal(a: string, b: string)
    ensures StrLe(a, b) || StrLe(b, a)
    ensures StrLe(a, b) && StrLe(b, a) ==> a == b
  {
    if a != "" && b != "" && a[0] == b[0] {
      StrLeTotal(a[1..], b[1..]);
      assert a == [a[0]] + a[1..] && b == [b[0]] + b[1..];
    }
  }

  /** a comes before b: it is the beginning of b, or smaller where the two first differ. */
  ghost predicate Precedes(a: string, b: string) {
    a < b || exists i :: 0 <= i < |a| && i < |b| && a[..i] == b[..i] && a[i] < b[i]
  }

  lemma PrecedesCons(c: char, a: string, b: string)
    ensures Precedes([c] + a, [c] + b) <==> Precedes(a, b)
  {
    var x, y := [c] + a, [c] + b;
    assert x < y <==> a < b by {
      assert x[1..] == a && y[1..] == b;
    }
    if i :| 0 <= i < |a| && i < |b| && a[..i] == b[..i] && a[i] < b[i] {
      assert x[..i + 1] == [c] + a[..i] && y[..i + 1] == [c] + b[..i];
      assert x[i + 1] < y[i + 1];
    }
    if i :| 0 <= i < |x| && i < |y| && x[..i] == y[..i] && x[i] < y[i] {
      assert i > 0;
      assert a[..i - 1] == x[..i][1..] && b[..i - 1] == y[..i][1..];
      assert a[i - 1] < b[i - 1];
    }
  }

  lemma {:induction false} StrLeIs(a: string, b: string)
    ensures StrLe(a, b) <==> a == b || Precedes(a, b)
  {
    if a != "" && b != "" {
      assert a == [a[0]] + a[1..] && b == [b[0]] + b[1..];
      if a[0] == b[0] {
        StrLeIs(a[1..], b[1..]);
        PrecedesCons(a[0], a[1..], b[1..]);
      } else if a[0] < b[0] {
        assert a[..0] == b[..0];
      } else {
        forall i | 0 < i <= |a| && i <= |b| ensures a[..i] != b[..i] {
          assert a[..i][0] != b[..i][0];
        }
      }
    }
  }

  lemma {:induction false} StrLeTrans(a: string, b: string, c: string)
    requires StrLe(a, b) && StrLe(b, c)
    ensures StrLe(a, c)
  {
    if a != "" && a[0] == b[0] && b[0] == c[0] {
      StrLeTrans(a[1..], b[1..], c[1..]);
    }
  }
}
