/**
 * Decimal printing of 64-bit integers, signed and unsigned, into a fixed
 * buffer: digits are written last one first, from a table that also serves
 * the negative remainders of C, and then reversed in place.
 */
module DecimalText {
  import opened CArithmetic

  const MAX_NUMERIC_SIZE: nat := 32
  const DIGITS := "9876543210123456789"

  /** What an int64_t or a uint64_t can hold. */
  predicate Int64OrUint64(v: int) {
    -0x8000_0000_0000_0000 <= v < 0x1_0000_0000_0000_0000
  }

  function Abs(v: int): nat { if v < 0 then -v else v }

  // ------------------------------------------------------- decimal texts

  function Digit(d: nat): char
    requires d < 10
  {
    DIGITS[9 + d]
  }

  function Digits(n: nat): (s: string)
    ensures s != []
  {
    (if n < 10 then [] else Digits(n / 10)) + [Digit(n % 10)]
  }

  function Text(v: int): string {
    if v < 0 then "-" + Digits(-v) else Digits(v)
  }

  function DigitValue(c: char): nat {
    if '0' <= c <= '9' then c as int - '0' as int else 0
  }

  function ParseDigits(s: string): nat {
    if s == [] then 0 else ParseDigits(s[..|s| - 1]) * 10 + DigitValue(s[|s| - 1])
  }

  function Parse(s: string): int {
    if s != [] && s[0] == '-' then 0 - ParseDigits(s[1..]) else ParseDigits(s)
  }

  lemma DigitIsDigit(d: nat)
    requires d < 10
    ensures DigitValue(Digit(d)) == d && '0' <= Digit(d) <= '9' && (Digit(d) == '0' <==> d == 0)
  {
  }

  lemma {:induction false} DigitsParse(n: nat)
    ensures ParseDigits(Digits(n)) == n
  {
    hide Digit, DigitValue;
    DigitIsDigit(n % 10);
    var front := if n < 10 then [] else Digits(n / 10);
    assert Digits(n) == front + [Digit(n % 10)];
    assert Digits(n)[..|Digits(n)| - 1] == front;
    if n >= 10 {
      DigitsParse(n / 10);
    }
  }

  lemma {:induction false} DigitsAreDigits(n: nat)
    ensures forall i :: 0 <= i < |Digits(n)| ==> '0' <= Digits(n)[i] <= '9'
    ensures Digits(n)[0] == '0' <==> n == 0
    ensures n == 0 ==> |Digits(n)| == 1
  {
    hide Digit;
    DigitIsDigit(n % 10);
    if n >= 10 {
      DigitsAreDigits(n / 10);
    }
  }

  function Pow10(k: nat): nat { if k == 0 then 1 else 10 * Pow10(k - 1) }

  lemma {:induction false} Pow10Positive(k: nat)
    ensures Pow10(k) > 0
  {
    if k > 0 {
      Pow10Positive(k - 1);
    }
  }

  /** The digits stand most significant first, each for its power of ten. */
  lemma {:induction false} DigitAt(n: nat, i: nat)
    requires i < |Digits(n)|
    ensures Pow10(|Digits(n)| - 1 - i) > 0
    ensures Digits(n)[i] as int == '0' as int + n / Pow10(|Digits(n)| - 1 - i) % 10
  {
    hide Digit;
    DigitIsDigit(n % 10);
    Pow10Positive(|Digits(n)| - 1 - i);
    if i < |Digits(n)| - 1 {
      DigitAt(n / 10, i);
      DivideTwice(n, 10, Pow10(|Digits(n)| - 2 - i));
    }
  }

  lemma {:induction false} DigitsLength(n: nat, k: nat)
    requires 1 <= k && n < Pow10(k)
    ensures |Digits(n)| <= k
  {
    if n >= 10 {
      DigitsLength(n / 10, k - 1);
    }
  }

  lemma Pow10Values()
    ensures Pow10(19) == 10_000_000_000_000_000_000 && Pow10(20) == 100_000_000_000_000_000_000
  {
    assert Pow10(5) == 100_000;
    assert Pow10(10) == 10_000_000_000;
    assert Pow10(15) == 1_000_000_000_000_000;
  }

  lemma ZeroText()
    ensures Digits(0) == "0"
  {
  }

  /**
   * The text of a number reads back as the number, has no leading zero, and
   * with its NUL fits the space that formatInteger asks for.
   */
  lemma TextReadsBack(v: int)
    requires Int64OrUint64(v)
    ensures Parse(Text(v)) == v
    ensures |Text(v)| <= 20 && |Text(v)| + 1 <= MAX_NUMERIC_SIZE
    ensures v != 0 ==> Text(v)[if v < 0 then 1 else 0] != '0'
    ensures v == 0 ==> Text(v) == "0"
    ensures forall i :: (if v < 0 then 1 else 0) <= i < |Text(v)| ==> '0' <= Text(v)[i] <= '9'
    ensures v < 0 ==> Text(v)[0] == '-'
  {
    hide Digits, ParseDigits, Pow10;
    DigitsParse(Abs(v));
    DigitsAreDigits(Abs(v));
    Pow10Values();
    DigitsLength(Abs(v), if v < 0 then 19 else 20);
    if v < 0 {
      assert Text(v)[1..] == Digits(-v);
    } else {
      assert Text(v)[0] != '-';
    }
    assert Digits(0) == "0" by { ZeroText(); }
  }

  // ------------------------------------------------------------ printing

  function Reversed(s: string): (r: string)
    ensures |r| == |s|
    ensures forall i :: 0 <= i < |s| ==> r[i] == s[|s| - 1 - i]
  {
    if s == [] then [] else Reversed(s[1..]) + [s[0]]
  }

  lemma ReversedSnoc(s: string, c: char)
    ensures Reversed(s + [c]) == [c] + Reversed(s)
  {
  }

  /** `std::reverse`. */
  method Reverse(buf: array<char>, lo: nat, hi: nat)
    requires lo <= hi <= buf.Length
    modifies buf
    ensures forall k :: lo <= k < hi ==> buf[k] == old(buf[lo + hi - 1 - k])
    ensures forall k :: 0 <= k < lo || hi <= k < buf.Length ==> buf[k] == old(buf[k])
  {
    var i, j := lo, hi;
    while i + 1 < j
      invariant lo <= i <= j <= hi && i - lo == hi - j
      invariant forall k :: lo <= k < i || j <= k < hi ==> buf[k] == old(buf[lo + hi - 1 - k])
      invariant forall k :: i <= k < j ==> buf[k] == old(buf[k])
      invariant forall k :: 0 <= k < lo || hi <= k < buf.Length ==> buf[k] == old(buf[k])
      decreases j - i
    {
      j := j - 1;
      buf[i], buf[j] := buf[j], buf[i];
      i := i + 1;
    }
  }

  lemma ReversedSlice(was: string, now: string, lo: nat, hi: nat)
    requires lo <= hi <= |was| && |now| == |was|
    requires forall k :: lo <= k < hi ==> now[k] == was[lo + hi - 1 - k]
    ensures now[lo..hi] == Reversed(was[lo..hi])
  {
  }

  /** One digit: the remainder may be negative and then indexes left of zero. */
  lemma LastDigit(i: int)
    ensures 0 <= 9 + Rem(i, 10) < |DIGITS|
    ensures DIGITS[9 + Rem(i, 10)] == Digit(Abs(i) % 10)
    ensures Abs(Quot(i, 10)) == Abs(i) / 10 && (Quot(i, 10) != 0 <==> Abs(i) >= 10)
  {
  }

  /** Moving the last digit of what is left over to the digits already written. */
  lemma DigitMoves(n: nat, i: int, written: string)
    requires Digits(n) == Digits(Abs(i)) + Reversed(written)
    ensures var more := written + [Digit(Abs(i) % 10)];
            if Abs(i) < 10 then Digits(n) == Reversed(more)
            else Digits(n) == Digits(Abs(i) / 10) + Reversed(more)
  {
    var d := [Digit(Abs(i) % 10)];
    ReversedSnoc(written, d[0]);
    hide Reversed, Digit;
    if Abs(i) >= 10 {
      assert Digits(Abs(i) / 10) + d + Reversed(written) == Digits(Abs(i) / 10) + (d + Reversed(written));
    }
  }

  lemma TextParts(v: int)
    ensures Text(v) == (if v < 0 then "-" else "") + Digits(Abs(v))
  {
  }

  /** The digit loop: the digits of `value` at buf[at..p], last one first. */
  method WriteDigits(buf: array<char>, at: nat, value: int) returns (p: nat)
    requires at + |Digits(Abs(value))| <= buf.Length
    modifies buf
    ensures p == at + |Digits(Abs(value))|
    ensures Reversed(buf[at..p]) == Digits(Abs(value))
    ensures buf[..at] == old(buf[..at]) && buf[p..] == old(buf[p..])
  {
    hide Digits, Digit, Reversed, Rem, Quot, Abs;
    var i, more := value, true;
    p := at;
    ghost var end := at + |Digits(Abs(value))|;
    while more
      invariant at <= p <= end
      invariant more ==> Digits(Abs(value)) == Digits(Abs(i)) + Reversed(buf[at..p])
      invariant !more ==> Digits(Abs(value)) == Reversed(buf[at..p])
      invariant buf[..at] == old(buf[..at])
      invariant buf[end..] == old(buf[end..])
      decreases more, Abs(i)
    {
      LastDigit(i);
      DigitMoves(Abs(value), i, buf[at..p]);
      var lsd := Rem(i, 10);
      i := Quot(i, 10);
      ghost var written := buf[at..p];
      ghost var before := buf[..];
      buf[p] := DIGITS[9 + lsd];
      assert buf[at..p + 1] == written + [buf[p]];
      assert buf[..at] == before[..at] && buf[end..] == before[end..];
      p := p + 1;
      more := i != 0;
    }
  }

  /** The digits and then the sign: the text of `value` backwards. */
  method WriteBackwards(buf: array<char>, at: nat, value: int) returns (p: nat)
    requires at + |Text(value)| <= buf.Length
    modifies buf
    ensures p == at + |Text(value)| && Reversed(buf[at..p]) == Text(value)
    ensures buf[..at] == old(buf[..at]) && buf[p..] == old(buf[p..])
  {
    hide Digits, Reversed, Text, Abs;
    TextParts(value);
    p := WriteDigits(buf, at, value);
    if value < 0 {
      ghost var was := buf[..];
      ReversedSnoc(was[at..p], '-');
      buf[p] := '-';
      assert buf[at..p + 1] == was[at..p] + ['-'];
      assert buf[..at] == was[..at] && buf[p + 1..] == was[p..][1..];
      p := p + 1;
    }
  }

  /** The NUL and the reversal. */
  method Terminate(buf: array<char>, at: nat, p: nat)
    requires at <= p < buf.Length
    modifies buf
    ensures buf[at..p] == Reversed(old(buf[at..p])) && buf[p] == '\0'
    ensures buf[..at] == old(buf[..at]) && buf[p + 1..] == old(buf[p + 1..])
  {
    hide Reversed;
    ghost var was := buf[..];
    buf[p] := '\0';
    Reverse(buf, at, p);
    ReversedSlice(was, buf[..], at, p);
    assert buf[at..p] == buf[..][at..p] && was[at..p] == old(buf[at..p]);
  }

  /** Writes the text of `value` and a NUL at buf[at..]. */
  method Convert(buf: array<char>, at: nat, value: int) returns (len: nat)
    requires Int64OrUint64(value) && at + MAX_NUMERIC_SIZE <= buf.Length
    modifies buf
    ensures len == |Text(value)| && len + 1 <= MAX_NUMERIC_SIZE
    ensures buf[at..at + len] == Text(value) && buf[at + len] == '\0'
    ensures buf[..at] == old(buf[..at]) && buf[at + len + 1..] == old(buf[at + len + 1..])
  {
    hide Digits, Reversed, Text, Parse;
    TextReadsBack(value);
    var p := WriteBackwards(buf, at, value);
    len := p - at;
    ghost var rest := buf[p..];
    Terminate(buf, at, p);
    assert buf[p + 1..] == rest[1..];
  }

  class FixedBuffer {
    const data: array<char>
    var cur: nat

    ghost predicate Valid()
      reads this
    {
      cur <= data.Length
    }

    ghost function Contents(): string
      requires Valid()
      reads this, data
    {
      data[..cur]
    }

    function Avail(): nat
      requires Valid()
      reads this
    {
      data.Length - cur
    }

    constructor (size: nat)
      ensures Valid() && fresh(data) && data.Length == size && Contents() == ""
    {
      data := new char[size];
      cur := 0;
    }

    /** Prints the integer at the end of the buffer, or nothing if it might not fit. */
    method FormatInteger(v: int)
      requires Valid() && Int64OrUint64(v)
      modifies `cur, data
      ensures Valid()
      ensures Contents() == old(Contents()) + if old(Avail()) >= 32 then Text(v) else ""
    {
      hide Text;
      if Avail() >= MAX_NUMERIC_SIZE {
        var len := Convert(data, cur, v);
        assert data[..cur + len] == data[..cur] + data[cur..cur + len];
        cur := cur + len;
      }
    }
  }
}
