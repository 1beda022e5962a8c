/** The number automaton step by step, as the loop takes it. */
module NumberSteps {
  import opened Bytes
  import opened Grammar
  import opened Layout
  import opened Context
  import opened Progress
  import opened Numbers

  /** The number flags, counters and node describe the characters from `start` to `pos`. */
  ghost predicate NumberIs(
    d: Doc, start: nat, pos: nat, kind: Kind, numE: bool, gotSign: bool, zero: bool, digits: nat, negative: bool,
        value: int)
  {
    && NumberAt(d, start)
    && pos <= |d.text|
    && (kind == KInteger || kind == KDouble)
    && (kind == KInteger ==> !numE)
    && (gotSign ==> numE)
    && negative == (d.text[start] == MINUS)
    && if kind == KInteger then InInteger(d, start, pos, zero, digits, value)
       else if !numE then InFraction(d, start, pos, digits)
       else InExponent(d, start, pos, gotSign, digits)
  }

  /** The same as an atom; see Completes in Progress. */
  ghost predicate NumberState(
    d: Doc, start: nat, pos: nat, kind: Kind, numE: bool, gotSign: bool, zero: bool, digits: nat, negative: bool,
        value: int)
  {
    NumberStateAt(pos + 3, d, start, pos, kind, numE, gotSign, zero, digits, negative, value)
  }

  ghost predicate NumberStateAt(
    depth: nat, d: Doc, start: nat, pos: nat, kind: Kind, numE: bool, gotSign: bool, zero: bool, digits: nat,
        negative: bool, value: int)
    decreases depth, 2
  {
    NumberStateBelow(depth, d, start, pos, kind, numE, gotSign, zero, digits, negative, value)
  }

  ghost predicate NumberStateBelow(
    depth: nat, d: Doc, start: nat, pos: nat, kind: Kind, numE: bool, gotSign: bool, zero: bool, digits: nat,
        negative: bool, value: int)
    decreases depth, 1
  {
    NumberStateCore(depth, d, start, pos, kind, numE, gotSign, zero, digits, negative, value)
  }

  ghost predicate NumberStateCore(
    depth: nat, d: Doc, start: nat, pos: nat, kind: Kind, numE: bool, gotSign: bool, zero: bool, digits: nat,
        negative: bool, value: int)
    decreases depth, 0
  {
    if depth == 0 then NumberIs(d, start, pos, kind, numE, gotSign, zero, digits, negative, value)
    else NumberStateAt(depth - 1, d, start, pos, kind, numE, gotSign, zero, digits, negative, value)
  }

  lemma NumberStateDef(
    d: Doc, start: nat, pos: nat, kind: Kind, numE: bool, gotSign: bool, zero: bool, digits: nat, negative: bool,
        value: int)
    ensures NumberState(d, start, pos, kind, numE, gotSign, zero, digits, negative, value)
            <==> NumberIs(d, start, pos, kind, numE, gotSign, zero, digits, negative, value)
  {
    NumberStateAtDef(pos + 3, d, start, pos, kind, numE, gotSign, zero, digits, negative, value);
  }

  lemma {:induction false} NumberStateAtDef(
    depth: nat, d: Doc, start: nat, pos: nat, kind: Kind, numE: bool, gotSign: bool, zero: bool, digits: nat,
        negative: bool, value: int)
    ensures NumberStateAt(depth, d, start, pos, kind, numE, gotSign, zero, digits, negative, value) <==> NumberIs(d,
        start, pos, kind, numE, gotSign, zero, digits, negative, value)
    decreases depth
  {
    assert NumberStateAt(depth, d, start, pos, kind, numE, gotSign, zero, digits, negative,
        value) == NumberStateCore(depth, d, start, pos, kind, numE, gotSign, zero, digits, negative, value);
    if depth > 0 {
      NumberStateAtDef(depth - 1, d, start, pos, kind, numE, gotSign, zero, digits, negative, value);
    }
  }

  lemma NumberStart(d: Doc, start: nat)
    requires NumberAt(d, start)
    ensures NumberState(d, start, First(d, start), KInteger, false, false, false, 0, d.text[start] == MINUS, 0)
  {
    NumberStateDef(d, start, First(d, start), KInteger, false, false, false, 0, d.text[start] == MINUS, 0);
  }

  lemma NumberStateFlags(
    d: Doc, start: nat, pos: nat, kind: Kind, numE: bool, gotSign: bool, zero: bool, digits: nat, negative: bool,
        value: int)
    requires NumberState(d, start, pos, kind, numE, gotSign, zero, digits, negative, value)
    ensures kind == KInteger || kind == KDouble
    ensures (kind == KInteger ==> !numE) && (gotSign ==> numE)
  {
    NumberStateDef(d, start, pos, kind, numE, gotSign, zero, digits, negative, value);
  }

  /** While a number is read, what the text completes to does not depend on how far it has been read. */
  lemma NumberAnywhere(d: Doc, ctx: Ctx, start: nat, pos: nat, pos': nat, goal: Option<Json>)
    requires Completes(d, ctx, Digits(start), NoRemark, pos, goal) && pos' <= |d.text|
    ensures Completes(d, ctx, Digits(start), NoRemark, pos', goal)
  {
    CompletesDef(d, ctx, Digits(start), NoRemark, pos, goal);
    CompletesDef(d, ctx, Digits(start), NoRemark, pos', goal);
  }

  lemma NumberDigit(
    d: Doc, start: nat, pos: nat, kind: Kind, numE: bool, gotSign: bool, zero: bool, digits: nat, negative: bool,
        value: int,
    ctx: Ctx, goal: Option<Json>)
    requires NumberState(d, start, pos, kind, numE, gotSign, zero, digits, negative, value)
    requires Completes(d, ctx, Digits(start), NoRemark, pos, goal)
    requires pos < |d.text| && IsDigit(d.text[pos])
    ensures kind == KInteger && zero ==> goal == None
    ensures kind == KInteger && !zero ==>
              NumberState(d, start, pos + 1, kind, numE, gotSign, digits == 0 && d.text[pos] == ZERO, digits + 1,
                  negative,
                          Wrap64(value * 10 + DigitValue(d.text[pos])))
    ensures kind == KDouble && numE ==>
              NumberState(d, start, pos + 1, kind, numE, true, zero, digits + 1, negative, value)
    ensures kind == KDouble && !numE ==>
              NumberState(d, start, pos + 1, kind, numE, gotSign, zero, digits + 1, negative, value)
  {
    NumberStateDef(d, start, pos, kind, numE, gotSign, zero, digits, negative, value);
    CompletesDef(d, ctx, Digits(start), NoRemark, pos, goal);
    if kind == KInteger {
      IntegerDigit(d, start, pos, zero, digits, value);
    } else if !numE {
      FractionDigit(d, start, pos, digits);
    } else {
      ExponentDigit(d, start, pos, gotSign, digits);
    }
    NumberStateDef(d, start, pos + 1, kind, numE, gotSign, digits == 0 && d.text[pos] == ZERO, digits + 1, negative,
        Wrap64(value * 10 + DigitValue(d.text[pos])));
    NumberStateDef(d, start, pos + 1, kind, numE, true, zero, digits + 1, negative, value);
    NumberStateDef(d, start, pos + 1, kind, numE, gotSign, zero, digits + 1, negative, value);
  }

  lemma NumberSign(
    d: Doc, start: nat, pos: nat, kind: Kind, zero: bool, digits: nat, negative: bool, value: int)
    requires NumberState(d, start, pos, kind, true, false, zero, digits, negative, value)
    requires IsSign(At(d, pos))
    ensures digits == 0 && NumberState(d, start, pos + 1, kind, true, true, zero, digits, negative, value)
  {
    NumberStateDef(d, start, pos, kind, true, false, zero, digits, negative, value);
    ExponentSign(d, start, pos);
    NumberStateDef(d, start, pos + 1, kind, true, true, zero, digits, negative, value);
  }

  lemma NumberDot(
    d: Doc, start: nat, pos: nat, zero: bool, digits: nat, negative: bool, value: int, value': int, ctx: Ctx,
        goal: Option<Json>)
    requires NumberState(d, start, pos, KInteger, false, false, zero, digits, negative, value)
    requires Completes(d, ctx, Digits(start), NoRemark, pos, goal)
    requires At(d, pos) == DOT
    ensures digits == 0 ==> goal == None
    ensures digits > 0 ==> NumberState(d, start, pos + 1, KDouble, false, false, zero, 0, negative, value')
  {
    NumberStateDef(d, start, pos, KInteger, false, false, zero, digits, negative, value);
    CompletesDef(d, ctx, Digits(start), NoRemark, pos, goal);
    IntegerEnd(d, start, pos, zero, digits, value);
    NumberStateDef(d, start, pos + 1, KDouble, false, false, zero, 0, negative, value');
  }

  lemma NumberMark(
    d: Doc, start: nat, pos: nat, kind: Kind, zero: bool, digits: nat, negative: bool, value: int, value': int,
    ctx: Ctx, goal: Option<Json>)
    requires NumberState(d, start, pos, kind, false, false, zero, digits, negative, value)
    requires Completes(d, ctx, Digits(start), NoRemark, pos, goal)
    requires IsExponentMark(At(d, pos))
    ensures kind == KDouble && digits == 0 ==> goal == None
    ensures kind == KInteger || digits > 0 ==>
              NumberState(d, start, pos + 1, KDouble, true, false, false, 0, negative, value')
  {
    NumberStateDef(d, start, pos, kind, false, false, zero, digits, negative, value);
    CompletesDef(d, ctx, Digits(start), NoRemark, pos, goal);
    if kind == KInteger {
      IntegerEnd(d, start, pos, zero, digits, value);
    } else {
      FractionStops(d, start, pos, digits);
    }
    NumberStateDef(d, start, pos + 1, KDouble, true, false, false, 0, negative, value');
  }

  /** The value of a number whose automaton stops. */
  function NumberValue(kind: Kind, negative: bool, value: int): Json {
    if kind == KInteger then JInteger(if negative then Wrap64(-value) else value) else JDouble
  }

  /** A character that none of the branches above takes ends the number. */
  lemma NumberEnd(
    d: Doc, start: nat, pos: nat, kind: Kind, numE: bool, gotSign: bool, zero: bool, digits: nat, negative: bool,
        value: int,
    ctx: Ctx, goal: Option<Json>)
    requires NumberState(d, start, pos, kind, numE, gotSign, zero, digits, negative, value)
    requires Completes(d, ctx, Digits(start), NoRemark, pos, goal)
    requires !IsDigit(At(d, pos)) && (numE && IsSign(At(d, pos)) ==> gotSign)
    requires (kind == KInteger ==> At(d, pos) != DOT) && (!numE ==> !IsExponentMark(At(d, pos)))
    ensures kind == KDouble && digits == 0 ==> goal == None
    ensures d.comments && At(d, pos) == SLASH ==> goal == None
    ensures !(kind == KDouble && digits == 0) && !(d.comments && At(d, pos) == SLASH) ==>
              Completes(d, ctx, Finished(NumberValue(kind, negative, value)), NoRemark, pos, goal)
  {
    NumberStateDef(d, start, pos, kind, numE, gotSign, zero, digits, negative, value);
    CompletesDef(d, ctx, Digits(start), NoRemark, pos, goal);
    if kind == KInteger {
      IntegerEnd(d, start, pos, zero, digits, value);
    } else if !numE {
      FractionStops(d, start, pos, digits);
    } else {
      ExponentStops(d, start, pos, gotSign, digits);
    }
    CompletesDef(d, ctx, Finished(NumberValue(kind, negative, value)), NoRemark, pos, goal);
  }

  /** Second pass: the number that starts here, and the characters that the greedy skip passes. */
  lemma SecondPassNumber(d: Doc, ctx: Ctx, start: nat, pos: nat, goal: Option<Json>) returns (v: Json, end: nat)
    requires NumberAt(d, start) && Completes(d, ctx, Digits(start), NoRemark, pos, goal) && goal.Some?
    ensures Completes(d, ctx, Finished(v), NoRemark, end, goal)
    ensures !v.JArray? && !v.JObject? && !v.JString? && !v.JBool?
    ensures start < end <= |d.text| && (forall k | start <= k < end :: IsNumberChar(d.text[k]))
    ensures !IsNumberChar(At(d, end))
  {
    CompletesDef(d, ctx, Digits(start), NoRemark, pos, goal);
    v, end := Number(d, start).value, Number(d, start).next;
    NumberChars(d, start);
    AfterValue(d, ctx, v, end);
    CompletesDef(d, ctx, Finished(v), NoRemark, end, goal);
  }

  /** The greedy skip can stop at one place only. */
  lemma SkipStops(d: Doc, start: nat, end: nat, end': nat)
    requires start <= end <= |d.text| && (forall k | start <= k < end :: IsNumberChar(d.text[k]))
             && !IsNumberChar(At(d, end))
    requires start <= end' <= |d.text| && (forall k | start <= k < end' :: IsNumberChar(d.text[k]))
             && !IsNumberChar(At(d, end'))
    ensures end == end'
  {
  }
}
