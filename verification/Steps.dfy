/** What reading one more byte does to the tree that the remaining text completes. */
module Steps {
  import opened Bytes
  import opened Unicode
  import opened Grammar
  import opened Context
  import opened Arena
  import opened Progress

  /** Modes in which white space and comments are skipped. */
  predicate Between(mode: Mode) {
    mode.Seek? || mode.Body? || mode.Done?
  }

  /** The character at `i` is not skipped. */
  predicate Settled(d: Doc, i: nat) {
    i <= |d.text| && (i < |d.text| ==> !IsSpace(d.text[i]) && !(d.comments && d.text[i] == SLASH))
  }

  lemma DocumentStart(d: Doc, ctx: Ctx, mode: Mode, i: nat, goal: Option<Json>)
    requires goal == Document(d) && ctx == Root && mode == Seek(false, false) && i == 0
    ensures Completes(d, ctx, mode, NoRemark, i, goal)
  {
    CompletesDef(d, ctx, mode, NoRemark, i, goal);
  }

  // ----- white space and comments -----

  lemma {:induction false} SkipStep(d: Doc, ctx: Ctx, mode: Mode, i: nat, j: nat, goal: Option<Json>)
    requires Completes(d, ctx, mode, NoRemark, i, goal) && Between(mode)
    requires i <= |d.text| && j <= |d.text| && Skip(d, i) == Skip(d, j)
    ensures Completes(d, ctx, mode, NoRemark, j, goal)
  {
    CompletesDef(d, ctx, mode, NoRemark, i, goal);
    CompletesDef(d, ctx, mode, NoRemark, j, goal);
  }

  lemma SpaceStep(d: Doc, ctx: Ctx, mode: Mode, i: nat, goal: Option<Json>)
    requires Completes(d, ctx, mode, NoRemark, i, goal) && Between(mode)
    requires i < |d.text| && IsSpace(d.text[i])
    ensures Completes(d, ctx, mode, NoRemark, i + 1, goal)
  {
    SkipStep(d, ctx, mode, i, i + 1, goal);
  }

  lemma {:induction false} Unskippable(d: Doc, ctx: Ctx, mode: Mode, i: nat, goal: Option<Json>)
    requires Completes(d, ctx, mode, NoRemark, i, goal) && Between(mode)
    requires i <= |d.text| && Skip(d, i).None?
    ensures goal == None
  {
    CompletesDef(d, ctx, mode, NoRemark, i, goal);
  }

  lemma OpenLineComment(d: Doc, ctx: Ctx, mode: Mode, i: nat, goal: Option<Json>)
    requires Completes(d, ctx, mode, NoRemark, i, goal) && Between(mode)
    requires d.comments && i + 1 < |d.text| && d.text[i] == SLASH && d.text[i + 1] == SLASH
    ensures Completes(d, ctx, mode, InLine, i + 2, goal)
  {
    assert Skip(d, i) == Skip(d, LineEnd(d, i + 2));
    SkipStep(d, ctx, mode, i, LineEnd(d, i + 2), goal);
    CompletesDef(d, ctx, mode, NoRemark, LineEnd(d, i + 2), goal);
    CompletesDef(d, ctx, mode, InLine, i + 2, goal);
  }

  lemma OpenBlockComment(d: Doc, ctx: Ctx, mode: Mode, i: nat, goal: Option<Json>)
    requires Completes(d, ctx, mode, NoRemark, i, goal) && Between(mode)
    requires d.comments && i + 1 < |d.text| && d.text[i] == SLASH && d.text[i + 1] == STAR
    ensures Completes(d, ctx, mode, InBlock, i + 2, goal)
  {
    var e := BlockEnd(d, i + 2);
    CompletesDef(d, ctx, mode, NoRemark, i, goal);
    CompletesDef(d, ctx, mode, InBlock, i + 2, goal);
    if e.None? {
      Unskippable(d, ctx, mode, i, goal);
    } else {
      assert Skip(d, i) == Skip(d, e.value);
      SkipStep(d, ctx, mode, i, e.value, goal);
      CompletesDef(d, ctx, mode, NoRemark, e.value, goal);
    }
  }

  lemma BadComment(d: Doc, ctx: Ctx, mode: Mode, i: nat, goal: Option<Json>)
    requires Completes(d, ctx, mode, NoRemark, i, goal) && Between(mode)
    requires d.comments && i < |d.text| && d.text[i] == SLASH && At(d, i + 1) != SLASH && At(d, i + 1) != STAR
    ensures goal == None
  {
    Unskippable(d, ctx, mode, i, goal);
  }

  lemma LineStep(d: Doc, ctx: Ctx, mode: Mode, i: nat, goal: Option<Json>)
    requires Completes(d, ctx, mode, InLine, i, goal) && Between(mode)
    ensures At(d, i) == CR || At(d, i) == LF || At(d, i) == NUL ==> Completes(d, ctx, mode, NoRemark, i, goal)
    ensures !(At(d, i) == CR || At(d, i) == LF || At(d, i) == NUL) ==>
              i < |d.text| && Completes(d, ctx, mode, InLine, i + 1, goal)
  {
    CompletesDef(d, ctx, mode, InLine, i, goal);
    CompletesDef(d, ctx, mode, NoRemark, i, goal);
    CompletesDef(d, ctx, mode, InLine, i + 1, goal);
  }

  lemma BlockStep(d: Doc, ctx: Ctx, mode: Mode, i: nat, goal: Option<Json>)
    requires Completes(d, ctx, mode, InBlock, i, goal) && Between(mode)
    ensures At(d, i) == NUL ==> goal == None
    ensures At(d, i) == STAR && At(d, i + 1) == SLASH ==> Completes(d, ctx, mode, NoRemark, i + 2, goal)
    ensures At(d, i) != NUL && !(At(d, i) == STAR && At(d, i + 1) == SLASH) ==>
              Completes(d, ctx, mode, InBlock, i + 1, goal)
  {
    CompletesDef(d, ctx, mode, InBlock, i, goal);
    CompletesDef(d, ctx, mode, NoRemark, i + 2, goal);
    CompletesDef(d, ctx, mode, InBlock, i + 1, goal);
  }

  // ----- seeking a value -----

  lemma SeekClose(d: Doc, ctx: Ctx, comma: bool, colon: bool, i: nat, goal: Option<Json>)
    requires Completes(d, ctx, Seek(comma, colon), NoRemark, i, goal)
    requires Settled(d, i) && At(d, i) == RBRACKET
    ensures ctx.InArray? ==> Completes(d, ctx.outer, Finished(JArray(ctx.items)), NoRemark, i + 1, goal)
    ensures !ctx.InArray? ==> goal == None
  {
    CompletesDef(d, ctx, Seek(comma, colon), NoRemark, i, goal);
    if !ctx.InArray? {
      assert ValueAt(d, i).Err?;
    } else {
      CompletesDef(d, ctx.outer, Finished(JArray(ctx.items)), NoRemark, i + 1, goal);
    }
  }

  lemma SeekComma(d: Doc, ctx: Ctx, i: nat, goal: Option<Json>)
    requires Completes(d, ctx, Seek(true, false), NoRemark, i, goal)
    requires Settled(d, i) && At(d, i) != RBRACKET
    ensures if At(d, i) == COMMA then Completes(d, ctx, Seek(false, false), NoRemark, i + 1, goal) else goal == None
  {
    CompletesDef(d, ctx, Seek(true, false), NoRemark, i, goal);
    CompletesDef(d, ctx, Seek(false, false), NoRemark, i + 1, goal);
  }

  lemma SeekColon(d: Doc, ctx: Ctx, i: nat, goal: Option<Json>)
    requires Completes(d, ctx, Seek(false, true), NoRemark, i, goal) && Settled(d, i)
    ensures if At(d, i) == COLON then Completes(d, ctx, Seek(false, false), NoRemark, i + 1, goal) else goal == None
  {
    CompletesDef(d, ctx, Seek(false, true), NoRemark, i, goal);
    CompletesDef(d, ctx, Seek(false, false), NoRemark, i + 1, goal);
  }

  /** Seeking a value at a character that is not skipped. */
  lemma {:induction false} SeekValue(d: Doc, ctx: Ctx, i: nat)
    requires Settled(d, i) && At(d, i) != RBRACKET
    requires Pending(ctx)
    ensures Resume(d, ctx, Seek(false, false), i) == PlugResult(d, ctx, ValueAt(d, i))
  {
  }

  lemma StartObject(d: Doc, ctx: Ctx, i: nat, goal: Option<Json>)
    requires Completes(d, ctx, Seek(false, false), NoRemark, i, goal)
    requires At(d, i) == LBRACE
    ensures Completes(d, InObject([], [], ctx), Body(false), NoRemark, i + 1, goal)
  {
    CompletesDef(d, ctx, Seek(false, false), NoRemark, i, goal);
    SeekValue(d, ctx, i);
    CompletesDef(d, InObject([], [], ctx), Body(false), NoRemark, i + 1, goal);
  }

  lemma StartArray(d: Doc, ctx: Ctx, i: nat, goal: Option<Json>)
    requires Completes(d, ctx, Seek(false, false), NoRemark, i, goal)
    requires At(d, i) == LBRACKET
    ensures Completes(d, InArray([], ctx), Seek(false, false), NoRemark, i + 1, goal)
  {
    CompletesDef(d, ctx, Seek(false, false), NoRemark, i, goal);
    SeekValue(d, ctx, i);
    CompletesDef(d, InArray([], ctx), Seek(false, false), NoRemark, i + 1, goal);
  }

  lemma StartString(d: Doc, ctx: Ctx, i: nat, goal: Option<Json>)
    requires Completes(d, ctx, Seek(false, false), NoRemark, i, goal)
    requires At(d, i) == QUOTE
    ensures Completes(d, ctx, Reading(false, [], false), NoRemark, i + 1, goal)
  {
    CompletesDef(d, ctx, Seek(false, false), NoRemark, i, goal);
    SeekValue(d, ctx, i);
    CompletesDef(d, ctx, Reading(false, [], false), NoRemark, i + 1, goal);
  }

  lemma StartWord(d: Doc, ctx: Ctx, i: nat, word: bytes, v: Json, goal: Option<Json>)
    requires Completes(d, ctx, Seek(false, false), NoRemark, i, goal)
    requires (word, v) == (TRUE_WORD, JBool(true)) || (word, v) == (FALSE_WORD, JBool(false)) || (word,
        v) == (NULL_WORD, JNull)
    requires At(d, i) == word[0]
    ensures if LiteralAt(d, i, word) then Completes(d, ctx, Finished(v), NoRemark, i + |word|, goal) else goal == None
  {
    CompletesDef(d, ctx, Seek(false, false), NoRemark, i, goal);
    SeekValue(d, ctx, i);
    CompletesDef(d, ctx, Finished(v), NoRemark, i + |word|, goal);
  }

  lemma StartNumber(d: Doc, ctx: Ctx, i: nat, j: nat, goal: Option<Json>)
    requires Completes(d, ctx, Seek(false, false), NoRemark, i, goal)
    requires NumberAt(d, i) && j <= |d.text|
    ensures Completes(d, ctx, Digits(i), NoRemark, j, goal)
  {
    CompletesDef(d, ctx, Seek(false, false), NoRemark, i, goal);
    SeekValue(d, ctx, i);
    CompletesDef(d, ctx, Digits(i), NoRemark, j, goal);
  }

  lemma StartNothing(d: Doc, ctx: Ctx, i: nat, goal: Option<Json>)
    requires Completes(d, ctx, Seek(false, false), NoRemark, i, goal)
    requires Settled(d, i) && At(d, i) != RBRACKET && At(d, i) != LBRACE && At(d, i) != LBRACKET && At(d, i) != QUOTE
    requires At(d, i) != 0x74 && At(d, i) != 0x66 && At(d, i) != 0x6E && !IsDigit(At(d, i)) && At(d, i) != MINUS
    ensures goal == None
  {
    CompletesDef(d, ctx, Seek(false, false), NoRemark, i, goal);
    SeekValue(d, ctx, i);
  }

  // ----- inside an object -----

  lemma BodyClose(d: Doc, ctx: Ctx, comma: bool, i: nat, goal: Option<Json>)
    requires Completes(d, ctx, Body(comma), NoRemark, i, goal) && Settled(d, i)
    requires ctx.InObject? && At(d, i) == RBRACE
    ensures Completes(d, ctx.outer, Finished(JObject(ctx.names, ctx.items)), NoRemark, i + 1, goal)
  {
    CompletesDef(d, ctx, Body(comma), NoRemark, i, goal);
    CompletesDef(d, ctx.outer, Finished(JObject(ctx.names, ctx.items)), NoRemark, i + 1, goal);
  }

  lemma BodyComma(d: Doc, ctx: Ctx, i: nat, goal: Option<Json>)
    requires Completes(d, ctx, Body(true), NoRemark, i, goal) && Settled(d, i)
    requires At(d, i) == COMMA
    ensures Completes(d, ctx, Body(false), NoRemark, i + 1, goal)
  {
    CompletesDef(d, ctx, Body(true), NoRemark, i, goal);
    CompletesDef(d, ctx, Body(false), NoRemark, i + 1, goal);
  }

  lemma BodyName(d: Doc, ctx: Ctx, i: nat, goal: Option<Json>)
    requires Completes(d, ctx, Body(false), NoRemark, i, goal) && Settled(d, i)
    requires At(d, i) == QUOTE
    ensures Completes(d, ctx, Reading(true, [], false), NoRemark, i + 1, goal)
  {
    CompletesDef(d, ctx, Body(false), NoRemark, i, goal);
    CompletesDef(d, ctx, Reading(true, [], false), NoRemark, i + 1, goal);
  }

  lemma BodyFails(d: Doc, ctx: Ctx, comma: bool, i: nat, goal: Option<Json>)
    requires Completes(d, ctx, Body(comma), NoRemark, i, goal) && Settled(d, i)
    requires At(d, i) != RBRACE && !(At(d, i) == COMMA && comma) && !(At(d, i) == QUOTE && !comma)
    ensures goal == None
  {
    CompletesDef(d, ctx, Body(comma), NoRemark, i, goal);
  }

  // ----- a finished value -----

  lemma FinishRoot(d: Doc, v: Json, i: nat, goal: Option<Json>)
    requires Completes(d, Root, Finished(v), NoRemark, i, goal)
    ensures Completes(d, Root, Done(v), NoRemark, i, goal)
  {
    CompletesDef(d, Root, Finished(v), NoRemark, i, goal);
    CompletesDef(d, Root, Done(v), NoRemark, i, goal);
  }

  lemma FinishItem(d: Doc, ctx: Ctx, v: Json, i: nat, goal: Option<Json>)
    requires Completes(d, ctx, Finished(v), NoRemark, i, goal) && !ctx.Root?
    ensures if |ctx.items| + 1 > UINT_LIMIT then goal == None
            else Completes(d, Grow(ctx, v), if ctx.InArray? then Seek(true, false) else Body(true), NoRemark, i, goal)
  {
    CompletesDef(d, ctx, Finished(v), NoRemark, i, goal);
    CompletesDef(d, Grow(ctx, v), if ctx.InArray? then Seek(true, false) else Body(true), NoRemark, i, goal);
  }

  lemma DoneStep(d: Doc, ctx: Ctx, v: Json, i: nat, goal: Option<Json>)
    requires Completes(d, ctx, Done(v), NoRemark, i, goal) && Settled(d, i)
    ensures goal == if At(d, i) == NUL then Some(v) else None
  {
    CompletesDef(d, ctx, Done(v), NoRemark, i, goal);
  }

  // ----- inside a string or a name -----

  lemma ReadFails(d: Doc, ctx: Ctx, key: bool, acc: bytes, escaped: bool, i: nat, goal: Option<Json>)
    requires Completes(d, ctx, Reading(key, acc, escaped), NoRemark, i, goal)
    requires At(d, i) == NUL || |acc| > UINT_LIMIT
    ensures goal == None
  {
    CompletesDef(d, ctx, Reading(key, acc, escaped), NoRemark, i, goal);
  }

  lemma ReadLetter(d: Doc, ctx: Ctx, key: bool, acc: bytes, i: nat, c: byte, goal: Option<Json>)
    requires Completes(d, ctx, Reading(key, acc, true), NoRemark, i, goal)
    requires At(d, i) != NUL && |acc| <= UINT_LIMIT && At(d, i) != 0x75 && c == Unescape(At(d, i))
    ensures Completes(d, ctx, Reading(key, acc + [c], false), NoRemark, i + 1, goal)
  {
    CompletesDef(d, ctx, Reading(key, acc, true), NoRemark, i, goal);
    CompletesDef(d, ctx, Reading(key, acc + [c], false), NoRemark, i + 1, goal);
  }

  lemma ReadUnicode(d: Doc, ctx: Ctx, key: bool, acc: bytes, i: nat, goal: Option<Json>)
    requires Completes(d, ctx, Reading(key, acc, true), NoRemark, i, goal)
    requires |acc| <= UINT_LIMIT && At(d, i) == 0x75
    ensures var c := EscapedChar(d, i + 1);
            if c.Err? then goal == None
            else Completes(d, ctx, Reading(key, acc + Encode(c.value), false), NoRemark, c.next, goal)
  {
    CompletesDef(d, ctx, Reading(key, acc, true), NoRemark, i, goal);
    var c := EscapedChar(d, i + 1);
    if c.Ok? {
      CompletesDef(d, ctx, Reading(key, acc + Encode(c.value), false), NoRemark, c.next, goal);
    }
  }

  lemma ReadBackslash(d: Doc, ctx: Ctx, key: bool, acc: bytes, i: nat, goal: Option<Json>)
    requires Completes(d, ctx, Reading(key, acc, false), NoRemark, i, goal)
    requires |acc| <= UINT_LIMIT && At(d, i) == BACKSLASH
    ensures Completes(d, ctx, Reading(key, acc, true), NoRemark, i + 1, goal)
  {
    CompletesDef(d, ctx, Reading(key, acc, false), NoRemark, i, goal);
    CompletesDef(d, ctx, Reading(key, acc, true), NoRemark, i + 1, goal);
  }

  lemma ReadByte(d: Doc, ctx: Ctx, key: bool, acc: bytes, i: nat, b: byte, goal: Option<Json>)
    requires Completes(d, ctx, Reading(key, acc, false), NoRemark, i, goal)
    requires |acc| <= UINT_LIMIT && b == At(d, i) && b != NUL && b != BACKSLASH && b != QUOTE
    ensures Completes(d, ctx, Reading(key, acc + [b], false), NoRemark, i + 1, goal)
  {
    CompletesDef(d, ctx, Reading(key, acc, false), NoRemark, i, goal);
    CompletesDef(d, ctx, Reading(key, acc + [b], false), NoRemark, i + 1, goal);
  }

  lemma ReadQuote(d: Doc, ctx: Ctx, acc: bytes, i: nat, goal: Option<Json>)
    requires Completes(d, ctx, Reading(false, acc, false), NoRemark, i, goal)
    requires |acc| <= UINT_LIMIT && At(d, i) == QUOTE
    ensures Completes(d, ctx, Finished(JString(acc)), NoRemark, i + 1, goal)
  {
    CompletesDef(d, ctx, Reading(false, acc, false), NoRemark, i, goal);
    CompletesDef(d, ctx, Finished(JString(acc)), NoRemark, i + 1, goal);
  }

  lemma ReadNameQuote(d: Doc, ctx: Ctx, acc: bytes, i: nat, goal: Option<Json>)
    requires Completes(d, ctx, Reading(true, acc, false), NoRemark, i, goal)
    requires |acc| <= UINT_LIMIT && At(d, i) == QUOTE && ctx.InObject?
    ensures Completes(d, InObject(ctx.names + [acc], ctx.items, ctx.outer), Seek(false, true), NoRemark, i + 1, goal)
  {
    CompletesDef(d, ctx, Reading(true, acc, false), NoRemark, i, goal);
    CompletesDef(d, InObject(ctx.names + [acc], ctx.items, ctx.outer), Seek(false, true), NoRemark, i + 1, goal);
  }
}
