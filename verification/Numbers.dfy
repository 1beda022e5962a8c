/** The number automaton of the first pass, against the definition of a number by digit runs. */
module Numbers {
  import opened Bytes
  import opened Grammar
  import opened Context
  import opened Progress

  predicate AllDigits(d: Doc, a: nat, p: nat) {
    a <= p <= |d.text| && forall k | a <= k < p :: IsDigit(d.text[k])
  }

  /** The position of the first integer digit. */
  function First(d: Doc, start: nat): nat
    requires NumberAt(d, start)
  {
    if d.text[start] == MINUS then start + 1 else start
  }

  /** The automaton has read integer digits only. */
  predicate InInteger(d: Doc, start: nat, pos: nat, zero: bool, digits: nat, value: int)
    requires NumberAt(d, start)
  {
    var a := First(d, start);
    && AllDigits(d, a, pos)
    && digits == pos - a
    && (zero <==> pos > a && d.text[a] == ZERO)
    && (zero ==> pos == a + 1)
    && value == Wrap64(DecimalValue(d.text[a..pos]))
  }

  predicate NoLeadingZero(d: Doc, a: nat)
    requires a <= |d.text|
  {
    DigitsEnd(d, a) - a >= 2 ==> d.text[a] != ZERO
  }

  /** The automaton has read the decimal point and `digits` digits after it. */
  predicate InFraction(d: Doc, start: nat, pos: nat, digits: nat)
    requires NumberAt(d, start)
  {
    var a := First(d, start);
    var z := DigitsEnd(d, a);
    && a < z
    && NoLeadingZero(d, a)
    && At(d, z) == DOT
    && AllDigits(d, z + 1, pos)
    && digits == pos - (z + 1)
  }

  /** The automaton has read the exponent mark, perhaps a sign, and `digits` digits. */
  predicate InExponent(d: Doc, start: nat, pos: nat, gotSign: bool, digits: nat)
    requires NumberAt(d, start)
  {
    var a := First(d, start);
    var f := FractionEnd(d, a, DigitsEnd(d, a));
    && NoLeadingZero(d, a)
    && f.Some?
    && IsExponentMark(At(d, f.value))
    && pos <= |d.text|
    && if !gotSign then pos == f.value + 1 && digits == 0
       else if digits == 0 then pos == f.value + 2 && IsSign(At(d, f.value + 1))
       else AllDigits(d, ExponentDigits(d, f.value), pos) && digits == pos - ExponentDigits(d, f.value)
  }

  lemma {:induction false} RunEnd(d: Doc, a: nat, p: nat)
    requires AllDigits(d, a, p)
    ensures DigitsEnd(d, a) == DigitsEnd(d, p)
    decreases p - a
  {
    if a < p {
      RunEnd(d, a + 1, p);
    }
  }

  lemma WrapDigit(v: int, n: int)
    ensures Wrap64(Wrap64(v) * 10 + n) == Wrap64(v * 10 + n)
    ensures Wrap64(-Wrap64(v)) == Wrap64(-v)
    ensures Wrap64(Wrap64(v)) == Wrap64(v)
  {
    var m := 0x1_0000_0000_0000_0000;
    var k := (v + 0x8000_0000_0000_0000) / m;
    assert Wrap64(v) == v - k * m;
    WrapShift(v * 10 + n, -10 * k);
    WrapShift(-v, k);
    WrapShift(v, -k);
  }

  lemma WrapShift(v: int, k: int)
    ensures Wrap64(v + k * 0x1_0000_0000_0000_0000) == Wrap64(v)
  {
  }

  /** One more digit of the integer part. */
  lemma IntegerDigit(d: Doc, start: nat, pos: nat, zero: bool, digits: nat, value: int)
    requires NumberAt(d, start) && InInteger(d, start, pos, zero, digits, value)
    requires pos < |d.text| && IsDigit(d.text[pos])
    ensures zero ==> Number(d, start).Err?
    ensures !zero ==>
              InInteger(d, start, pos + 1, digits == 0 && d.text[pos] == ZERO, digits + 1,
                        Wrap64(value * 10 + DigitValue(d.text[pos])))
  {
    var a := First(d, start);
    RunEnd(d, a, pos);
    if zero {
      assert DigitsEnd(d, a) >= pos + 1;
    } else {
      var t := d.text[a..pos + 1];
      assert t[..|t| - 1] == d.text[a..pos];
      WrapDigit(DecimalValue(d.text[a..pos]), DigitValue(d.text[pos]));
    }
  }

  /** The integer part ends at `pos`. */
  lemma IntegerEnd(d: Doc, start: nat, pos: nat, zero: bool, digits: nat, value: int)
    requires NumberAt(d, start) && InInteger(d, start, pos, zero, digits, value)
    requires !IsDigit(At(d, pos))
    ensures At(d, pos) == DOT && digits == 0 ==> Number(d, start).Err?
    ensures At(d, pos) == DOT && digits > 0 ==> InFraction(d, start, pos + 1, 0)
    ensures IsExponentMark(At(d, pos)) ==> InExponent(d, start, pos + 1, false, 0)
    ensures At(d, pos) != DOT && !IsExponentMark(At(d, pos)) ==>
              Number(d, start)
              == if d.comments && At(d, pos) == SLASH then Err
                 else Ok(JInteger(if d.text[start] == MINUS then Wrap64(-value) else value), pos)
  {
    var a := First(d, start);
    RunEnd(d, a, pos);
    assert DigitsEnd(d, a) == pos;
    WrapDigit(DecimalValue(d.text[a..pos]), 0);
  }

  lemma FractionDigit(d: Doc, start: nat, pos: nat, digits: nat)
    requires NumberAt(d, start) && InFraction(d, start, pos, digits)
    requires pos < |d.text| && IsDigit(d.text[pos])
    ensures InFraction(d, start, pos + 1, digits + 1)
  {
  }

  lemma FractionStops(d: Doc, start: nat, pos: nat, digits: nat)
    requires NumberAt(d, start) && InFraction(d, start, pos, digits)
    requires !IsDigit(At(d, pos))
    ensures digits == 0 ==> Number(d, start).Err?
    ensures digits > 0 && IsExponentMark(At(d, pos)) ==> InExponent(d, start, pos + 1, false, 0)
    ensures digits > 0 && !IsExponentMark(At(d, pos)) ==>
              Number(d, start) == if d.comments && At(d, pos) == SLASH then Err else Ok(JDouble, pos)
  {
    var z := DigitsEnd(d, First(d, start));
    RunEnd(d, z + 1, pos);
    assert DigitsEnd(d, z + 1) == pos;
  }

  lemma ExponentSign(d: Doc, start: nat, pos: nat)
    requires NumberAt(d, start) && InExponent(d, start, pos, false, 0)
    requires IsSign(At(d, pos))
    ensures InExponent(d, start, pos + 1, true, 0)
  {
  }

  lemma ExponentDigit(d: Doc, start: nat, pos: nat, gotSign: bool, digits: nat)
    requires NumberAt(d, start) && InExponent(d, start, pos, gotSign, digits)
    requires pos < |d.text| && IsDigit(d.text[pos])
    ensures InExponent(d, start, pos + 1, true, digits + 1)
  {
  }

  lemma ExponentStops(d: Doc, start: nat, pos: nat, gotSign: bool, digits: nat)
    requires NumberAt(d, start) && InExponent(d, start, pos, gotSign, digits)
    requires !IsDigit(At(d, pos)) && (IsSign(At(d, pos)) ==> gotSign)
    ensures digits == 0 ==> Number(d, start).Err?
    ensures digits > 0 ==>
              Number(d, start) == if d.comments && At(d, pos) == SLASH then Err else Ok(JDouble, pos)
  {
    var a := First(d, start);
    var f := FractionEnd(d, a, DigitsEnd(d, a)).value;
    var g := ExponentDigits(d, f);
    RunEnd(d, g, pos);
    assert DigitsEnd(d, g) == pos;
  }

  // ----- the greedy skip of the second pass -----

  predicate IsNumberChar(b: byte) {
    IsDigit(b) || b == PLUS || b == MINUS || IsExponentMark(b) || b == DOT
  }

  /** Every character of a number is one that the greedy skip passes over. */
  lemma NumberChars(d: Doc, i: nat)
    requires NumberAt(d, i) && Number(d, i).Ok?
    ensures forall k | i <= k < Number(d, i).next :: IsNumberChar(d.text[k])
  {
    var a := First(d, i);
    var z := DigitsEnd(d, a);
    var f := FractionEnd(d, a, z).value;
    DigitsAreDigits(d, a);
    if f > z {
      DigitsAreDigits(d, z + 1);
    }
    if IsExponentMark(At(d, f)) {
      DigitsAreDigits(d, ExponentDigits(d, f));
    }
  }

  lemma {:induction false} DigitsAreDigits(d: Doc, a: nat)
    requires a <= |d.text|
    ensures AllDigits(d, a, DigitsEnd(d, a))
    decreases |d.text| - a
  {
    if a < |d.text| && IsDigit(d.text[a]) {
      DigitsAreDigits(d, a + 1);
    }
  }

  /** What follows a value in an accepted text stops the greedy skip. */
  lemma {:induction false} AfterValue(d: Doc, ctx: Ctx, v: Json, i: nat)
    requires i <= |d.text| && Pending(ctx)
    requires Plug(d, ctx, v, i).Some?
    ensures !IsNumberChar(At(d, i))
  {
    if IsNumberChar(At(d, i)) {
      assert Skip(d, i) == Some(i);
    }
  }
}
