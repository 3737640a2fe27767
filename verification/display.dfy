/** Integer helpers behind the 7-segment display: the shift-and-add divide
    by ten and the repeated-subtraction BCD digit extraction. */
module Display {
  import opened Ints
  import opened Arith

  // ---- divide by ten -----------------------------------------------------

  /** Unsigned 16-bit division by ten using only shifts and adds: an
      approximation of n * 13107 / 131072 followed by a rounding correction
      on the remainder. The quotient is exact for every 16-bit input. */
  function Divu10(n: uint16): (q: uint16)
    ensures q == n / 10
  {
    var q3 := ShiftApprox(n);
    var r := ToUint16(n - ToUint16(q3 * 8 + q3 * 2));
    Correction(n, q3);
    q3 + (r + 6) / 16
  }

  /** The shift-and-add estimate of n / 10: (n >> 1) + (n >> 2), plus itself
      shifted by 4 and then by 8, all shifted right by 3. It falls short of
      n / 10 by less than 1.4. */
  function ShiftApprox(n: uint16): (q: nat)
    ensures 0 <= n - 10 * q <= 13
  {
    var q0 := n / 2 + n / 4;
    var q1 := q0 + q0 / 16;
    var q2 := q1 + q1 / 256;
    FloorBounds(n, 2);
    FloorBounds(n, 4);
    FloorBounds(q0, 16);
    FloorBounds(q1, 256);
    FloorBounds(q2, 8);
    ApproxBounds(n, q0, q1, q2, q2 / 8);
    q2 / 8
  }

  /** Each shift step keeps the running approximation within its own
      rounding error of n * (3/4), n * (51/64), n * (13107/16384). */
  lemma {:induction false} ApproxBounds(n: int, q0: int, q1: int, q2: int, q: int)
    requires 0 <= n < 0x1_0000
    requires 3 * n - 5 <= 4 * q0 <= 3 * n
    requires 17 * q0 - 15 <= 16 * q1 <= 17 * q0
    requires 257 * q1 - 255 <= 256 * q2 <= 257 * q1
    requires q2 - 7 <= 8 * q <= q2
    ensures 0 <= n - 10 * q <= 13
  {
    assert 131072 * q <= 13107 * n;
    assert 131072 * q >= 13107 * n - 168273;
  }

  /** With the approximation at most 13 below the true quotient times ten,
      the rounding term (r + 6) >> 4 adds exactly the missing unit. */
  lemma Correction(n: int, q: int)
    requires 0 <= n < 0x1_0000 && 0 <= q
    requires 0 <= n - 10 * q <= 13
    ensures q + (ToUint16(n - ToUint16(q * 8 + q * 2)) + 6) / 16 == n / 10
  {
    var r := n - 10 * q;
    assert ToUint16(n - ToUint16(q * 8 + q * 2)) == r;
    if r < 10 {
      DivUnique(n, 10, q, r);
    } else {
      DivUnique(n, 10, q + 1, r - 10);
    }
  }

  // ---- BCD digits ----------------------------------------------------------

  /** What one digit position shows: a decimal glyph or nothing. */
  datatype Glyph = Digit(d: nat) | Blank

  /** One digit of the display: while the value (compared as unsigned, as the
      signed-versus-unsigned comparison promotes it) is at least `digit`,
      subtract `digit` and count; the glyph shows the low nibble of the
      8-bit count. Below `digit` the value is left alone and the position
      shows a zero or nothing, depending on `leadingZero`. */
  method ValToBcd(value: int16, digit: uint16, leadingZero: bool) returns (rest: int16, glyph: Glyph)
    requires digit > 0
    ensures ToUint16(value) >= digit ==>
              glyph == Digit((ToUint16(value) / digit) % 16) && rest == ToInt16(ToUint16(value) % digit)
    ensures ToUint16(value) < digit ==>
              rest == value && glyph == (if leadingZero then Digit(0) else Blank)
  {
    var u0 := ToUint16(value);
    var u := u0;
    if u >= digit {
      ghost var count: nat := 0;
      var i: uint8 := 0;
      while u >= digit
        invariant 0 <= u <= u0
        invariant u0 == u + digit * count
        invariant i == count % 256
        decreases u
      {
        MulSucc(count, digit);
        ByteSucc(count);
        u := u - digit;
        count := count + 1;
        i := ToUint8(i + 1);
      }
      DivUnique(u0, digit, count, u);
      ModUnique(u0, digit, count, u);
      NibbleOfByte(count);
      rest := ToInt16(u);
      glyph := Digit(i % 16);
    } else if leadingZero {
      rest := value;
      glyph := Digit(0);
    } else {
      rest := value;
      glyph := Blank;
    }
  }

  /** An 8-bit counter tracks its unbounded count modulo 256. */
  lemma ByteSucc(c: nat)
    ensures ToUint8(c % 256 + 1) == (c + 1) % 256
  {
    var b := c % 256;
    if b == 255 {
      ModUnique(c + 1, 256, c / 256 + 1, 0);
    } else {
      ModUnique(c + 1, 256, c / 256, b + 1);
    }
  }

  /** The low nibble of the low byte of a count is the count's low nibble. */
  lemma NibbleOfByte(c: nat)
    ensures (c % 256) % 16 == c % 16
  {
    var b := c % 256;
    ModUnique(c, 16, 16 * (c / 256) + b / 16, b % 16);
  }

  /** The tens digit is the tens digit of the remainder modulo 100. */
  lemma TensDigit(v: int)
    requires 0 <= v < 1000
    ensures v / 10 % 10 == (v % 100) / 10
    ensures v / 100 < 10
  {
    var h := v / 100;
    var t := v % 100;
    DivUnique(v, 10, 10 * h + t / 10, t % 10);
    ModUnique(v / 10, 10, h, t / 10);
  }

  /** The arithmetic of one digit position `d` for a value below ten of
      them: the value is its own unsigned image, the digit fits a nibble,
      and the remainder fits an `int16`. */
  lemma DigitOf(v: int, d: int)
    requires 0 < d && 0 <= v < 10 * d && v < 0x8000
    ensures ToUint16(v) == v
    ensures v / d < 10 && (v / d) % 16 == v / d
    ensures ToInt16(v % d) == v % d
    ensures v < d ==> v % d == v && v / d == 0
  {
    DivBelow(v, d, 10);
    ModUnique(v / d, 16, 0, v / d);
    if v < d {
      DivUnique(v, d, 0, v);
      ModUnique(v, d, 0, v);
    }
  }

  /** The three digit positions of a value below 1000: hundreds without a
      leading zero, tens with a leading zero only after a shown hundreds
      digit, and units always shown. */
  method ThreeDigits(value: int16) returns (g100: Glyph, g10: Glyph, g1: Glyph)
    requires 0 <= value < 1000
    ensures g100 == if value >= 100 then Digit(value / 100) else Blank
    ensures g10 == if value >= 10 then Digit(value / 10 % 10) else Blank
    ensures g1 == Digit(value % 10)
  {
    DigitOf(value, 100);
    var v1;
    v1, g100 := ValToBcd(value, 100, false);
    assert v1 as int == value % 100;
    DigitOf(v1, 10);
    var v2;
    v2, g10 := ValToBcd(v1, 10, g100 != Blank);
    assert v2 as int == value % 10 && g10 == (if value >= 10 then Digit(value / 10 % 10) else Blank) by {
      TensDigit(value);
      ModUnique(value, 10, 10 * (value / 100) + v1 / 10, v1 % 10);
    }
    DigitOf(v2, 1);
    var v3;
    v3, g1 := ValToBcd(v2, 1, true);
  }
}
