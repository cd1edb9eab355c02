/** JSON numbers, as a grammar: where the automaton of the parser ends. */
module JsonNumbers {
  import opened Basics
  import opened JsonText

  /** A number as it is written, in four parts. */
  datatype NumberText = NumberText(sign: string, whole: string, fraction: string, exponent: string)

  predicate AllDigits(s: string) {
    forall i :: 0 <= i < |s| ==> IsDigit(s[i])
  }

  /** The numbers that are read: those of section 6 of RFC 8259, but the digits behind a point and behind the sign of
      an exponent may be missing, and an exponent may not stand right behind a zero. */
  predicate GoodNumber(n: NumberText) {
    && (n.sign == "" || n.sign == "-")
    && n.whole != "" && AllDigits(n.whole) && (n.whole[0] == '0' ==> n.whole == "0")
    && (n.fraction == "" || (n.fraction[0] == '.' && AllDigits(n.fraction[1..])))
    && (n.exponent == "" || GoodExponent(n.exponent))
    && (n.exponent != "" && n.whole == "0" ==> n.fraction != "")
  }

  predicate GoodExponent(s: string) {
    && |s| >= 2 && (s[0] == 'e' || s[0] == 'E') && (s[1] == '+' || s[1] == '-' || IsDigit(s[1]))
    && AllDigits(s[2..])
  }

  /** The numbers of section 6 of RFC 8259. */
  predicate StandardNumber(n: NumberText) {
    && (n.sign == "" || n.sign == "-")
    && n.whole != "" && AllDigits(n.whole) && (n.whole[0] == '0' ==> n.whole == "0")
    && (n.fraction == "" || (|n.fraction| >= 2 && n.fraction[0] == '.' && AllDigits(n.fraction[1..])))
    && (n.exponent == ""
        || (&& GoodExponent(n.exponent)
            && (IsDigit(n.exponent[1]) || |n.exponent| >= 3)))
  }

  /** The text of a number. */
  function Written(n: NumberText): string {
    n.sign + (n.whole + (n.fraction + n.exponent))
  }

  /** One more character of a number, or its end. */
  lemma NumberNext(t: string, p: nat, state: NumberState)
    requires Terminated(t) && p < |t|
    ensures NumberEnd(t, p, Invalid).None?
    ensures state != Invalid && IsNumberChar(t[p]) && NumberStep(state, t[p]) == Invalid ==>
            NumberEnd(t, p, state).None?
    ensures state != Invalid && IsNumberChar(t[p]) ==>
              p + 1 < |t| && NumberEnd(t, p, state) == NumberEnd(t, p + 1, NumberStep(state, t[p]))
    ensures state != Invalid && !IsNumberChar(t[p]) ==>
              NumberEnd(t, p, state) == if NumberMayEnd(state) then Some(p) else None
  {
    hide NumberStep, NumberMayEnd;
  }

  lemma {:induction false} DigitsRead(t: string, p: nat, s: string, state: NumberState)
    requires Terminated(t) && At(t, p, s) && p + |s| < |t| && AllDigits(s)
    requires state == Digits || state == DigitsAfterPoints || state == DigitsAfterE
    ensures NumberEnd(t, p, state) == NumberEnd(t, p + |s|, state)
    decreases |s|
  {
    hide NumberEnd, At;
    if s != "" {
      AtChar(t, p, s, 0);
      AtSplits(t, p, [s[0]], s[1..]);
      assert [s[0]] + s[1..] == s;
      NumberNext(t, p, state);
      DigitsRead(t, p + 1, s[1..], state);
    }
  }

  lemma SignReads(t: string, p: nat, n: NumberText)
    requires Terminated(t) && GoodNumber(n) && At(t, p, n.sign) && p + |n.sign| < |t|
    ensures NumberEnd(t, p, Minus) == NumberEnd(t, p + |n.sign|, if n.sign == "" then Minus else AfterMinus)
  {
    hide NumberEnd, At;
    if n.sign != "" {
      AtChar(t, p, n.sign, 0);
      NumberNext(t, p, Minus);
    }
  }

  lemma WholeReads(t: string, p: nat, n: NumberText, state: NumberState)
    requires Terminated(t) && GoodNumber(n) && At(t, p, n.whole) && p + |n.whole| < |t|
    requires state == Minus || state == AfterMinus
    ensures NumberEnd(t, p, state) == NumberEnd(t, p + |n.whole|, if n.whole == "0" then ZeroFirst else Digits)
  {
    hide NumberEnd, At;
    AtChar(t, p, n.whole, 0);
    NumberNext(t, p, state);
    if n.whole[0] != '0' {
      assert [n.whole[0]] + n.whole[1..] == n.whole;
      AtSplits(t, p, [n.whole[0]], n.whole[1..]);
      DigitsRead(t, p + 1, n.whole[1..], Digits);
    }
  }

  lemma FractionReads(t: string, p: nat, n: NumberText)
    requires Terminated(t) && GoodNumber(n) && At(t, p, n.fraction) && p + |n.fraction| < |t|
    ensures var state := if n.whole == "0" then ZeroFirst else Digits;
            NumberEnd(t, p, state)
            == NumberEnd(t, p + |n.fraction|, if n.fraction == "" then state else DigitsAfterPoints)
  {
    hide NumberEnd, At;
    if n.fraction != "" {
      AtChar(t, p, n.fraction, 0);
      assert [n.fraction[0]] + n.fraction[1..] == n.fraction;
      AtSplits(t, p, [n.fraction[0]], n.fraction[1..]);
      NumberNext(t, p, ZeroFirst);
      NumberNext(t, p, Digits);
      DigitsRead(t, p + 1, n.fraction[1..], DigitsAfterPoints);
    }
  }

  lemma ExponentReads(t: string, p: nat, n: NumberText, state: NumberState)
    requires Terminated(t) && GoodNumber(n) && At(t, p, n.exponent) && p + |n.exponent| < |t|
    requires !IsNumberChar(t[p + |n.exponent|])
    requires state == ZeroFirst || state == Digits || state == DigitsAfterPoints
    requires n.exponent == "" || state != ZeroFirst
    ensures NumberEnd(t, p, state) == Some(p + |n.exponent|)
  {
    hide NumberEnd, At;
    NumberNext(t, p + |n.exponent|, state);
    if n.exponent != "" {
      AtChar(t, p, n.exponent, 0);
      AtChar(t, p, n.exponent, 1);
      assert n.exponent[..2] + n.exponent[2..] == n.exponent;
      AtSplits(t, p, n.exponent[..2], n.exponent[2..]);
      NumberNext(t, p, state);
      NumberNext(t, p + 1, E);
      DigitsRead(t, p + 2, n.exponent[2..], DigitsAfterE);
      NumberNext(t, p + |n.exponent|, DigitsAfterE);
    }
  }

  /** The end of a number in a text. */
  lemma NumberReads(t: string, p: nat, n: NumberText)
    requires Terminated(t) && GoodNumber(n) && At(t, p, Written(n)) && p + |Written(n)| < |t|
    requires !IsNumberChar(t[p + |Written(n)|])
    ensures NumberEnd(t, p, Minus) == Some(p + |Written(n)|)
    ensures t[p] == '-' || IsDigit(t[p])
  {
    hide At, NumberEnd, IsNumberChar, GoodNumber, Terminated, Written;
    var a, b, c := p + |n.sign|, p + |n.sign| + |n.whole|, p + |n.sign| + |n.whole| + |n.fraction|;
    NumberSplits(t, p, n);
    FirstOfNumber(n);
    AtChar(t, p, Written(n), 0);
    NumberForm(n);
    SignReads(t, p, n);
    WholeReads(t, a, n, if n.sign == "" then Minus else AfterMinus);
    FractionReads(t, b, n);
    ExponentReads(t, c, n,
        if n.fraction != "" then DigitsAfterPoints else if n.whole == "0" then ZeroFirst else Digits);
  }

  lemma NumberForm(n: NumberText)
    requires GoodNumber(n)
    ensures n.whole != "" && (n.exponent != "" && n.whole == "0" ==> n.fraction != "")
    ensures |Written(n)| == |n.sign| + |n.whole| + |n.fraction| + |n.exponent|
  {
  }

  lemma NumberSplits(t: string, p: nat, n: NumberText)
    requires At(t, p, Written(n))
    ensures var a, b, c := p + |n.sign|, p + |n.sign| + |n.whole|, p + |n.sign| + |n.whole| + |n.fraction|;
            At(t, p, n.sign) && At(t, a, n.whole) && At(t, b, n.fraction) && At(t, c, n.exponent)
  {
    AtSplits(t, p, n.sign, n.whole + (n.fraction + n.exponent));
    AtSplits(t, p + |n.sign|, n.whole, n.fraction + n.exponent);
    AtSplits(t, p + |n.sign| + |n.whole|, n.fraction, n.exponent);
    hide At;
  }

  lemma FirstOfNumber(n: NumberText)
    requires GoodNumber(n)
    ensures Written(n) != "" && (Written(n)[0] == '-' || IsDigit(Written(n)[0]))
  {
    if n.sign == "" {
      assert Written(n)[0] == n.whole[0];
    }
  }

  /** The digits at a position. */
  lemma {:induction false} DigitsFound(t: string, p: nat) returns (e: nat)
    requires Terminated(t) && p < |t|
    ensures p <= e < |t| && AllDigits(t[p..e]) && !IsDigit(t[e])
    decreases |t| - p
  {
    if IsDigit(t[p]) {
      e := DigitsFound(t, p + 1);
      assert t[p..e] == [t[p]] + t[p + 1..e];
    } else {
      e := p;
    }
  }

  lemma SlicesAt(t: string, p: nat, e: nat)
    requires p <= e <= |t|
    ensures At(t, p, t[p..e])
  {
  }

  /** An exponent, or the end. */
  lemma ExponentWritten(t: string, p: nat, state: NumberState) returns (s: string)
    requires Terminated(t) && p < |t| && NumberEnd(t, p, state).Some? && !IsDigit(t[p])
    requires state == DigitsAfterPoints || ((state == ZeroFirst || state == Digits) && t[p] != '.')
    ensures s == "" || (GoodExponent(s) && state != ZeroFirst)
    ensures NumberEnd(t, p, state) == Some(p + |s|) && p + |s| < |t| && t[p..p + |s|] == s
    ensures !IsNumberChar(t[p + |s|])
  {
    hide NumberEnd;
    s := "";
    NumberNext(t, p, state);
    if IsNumberChar(t[p]) {
      NumberNext(t, p + 1, NumberStep(state, t[p]));
      assert NumberStep(state, t[p]) == E;
      NumberNext(t, p + 2, NumberStep(E, t[p + 1]));
      var e := DigitsFound(t, p + 2);
      SlicesAt(t, p + 2, e);
      DigitsRead(t, p + 2, t[p + 2..e], DigitsAfterE);
      NumberNext(t, e, DigitsAfterE);
      s := t[p..e];
      assert s[2..] == t[p + 2..e];
    }
  }

  /** A fraction, if there is one. */
  lemma FractionWritten(t: string, p: nat, state: NumberState) returns (s: string)
    requires Terminated(t) && p < |t| && NumberEnd(t, p, state).Some? && (state == ZeroFirst || state == Digits)
    requires !IsDigit(t[p])
    ensures s == "" || (s[0] == '.' && AllDigits(s[1..]))
    ensures p + |s| < |t| && t[p..p + |s|] == s && !IsDigit(t[p + |s|])
    ensures NumberEnd(t, p, state) == NumberEnd(t, p + |s|, if s == "" then state else DigitsAfterPoints)
    ensures s == "" ==> t[p] != '.'
  {
    hide NumberEnd;
    s := "";
    if t[p] == '.' {
      NumberNext(t, p, state);
      var e := DigitsFound(t, p + 1);
      SlicesAt(t, p + 1, e);
      DigitsRead(t, p + 1, t[p + 1..e], DigitsAfterPoints);
      s := t[p..e];
      assert s[1..] == t[p + 1..e];
    }
  }

  /** The whole part. */
  lemma WholeWritten(t: string, p: nat, state: NumberState) returns (s: string)
    requires Terminated(t) && p < |t| && NumberEnd(t, p, state).Some? && (state == Minus || state == AfterMinus)
    requires t[p] == '-' ==> state == AfterMinus
    ensures s != "" && AllDigits(s) && (s[0] == '0' ==> s == "0")
    ensures p + |s| < |t| && t[p..p + |s|] == s && !IsDigit(t[p + |s|])
    ensures NumberEnd(t, p, state) == NumberEnd(t, p + |s|, if s == "0" then ZeroFirst else Digits)
  {
    hide NumberEnd;
    NumberNext(t, p, state);
    if IsNumberChar(t[p]) {
      NumberNext(t, p + 1, NumberStep(state, t[p]));
    }
    if t[p] == '0' {
      s := "0";
      NumberNext(t, p + 1, ZeroFirst);
    } else {
      var e := DigitsFound(t, p + 1);
      SlicesAt(t, p + 1, e);
      DigitsRead(t, p + 1, t[p + 1..e], Digits);
      s := t[p..e];
      assert s == [t[p]] + t[p + 1..e];
    }
  }

  lemma SignWritten(t: string, p: nat, sign: string)
    requires Terminated(t) && p < |t| && NumberEnd(t, p, Minus).Some? && sign == if t[p] == '-' then "-" else ""
    ensures p + |sign| < |t| && t[p..p + |sign|] == sign
    ensures NumberEnd(t, p, Minus) == NumberEnd(t, p + |sign|, if sign == "" then Minus else AfterMinus)
  {
    hide NumberEnd;
    NumberNext(t, p, Minus);
  }

  /** A fraction and an exponent. */
  lemma TailWritten(t: string, p: nat, state: NumberState) returns (fraction: string, exponent: string)
    requires Terminated(t) && p < |t| && NumberEnd(t, p, state).Some? && (state == ZeroFirst || state == Digits)
    requires !IsDigit(t[p])
    ensures fraction == "" || (fraction[0] == '.' && AllDigits(fraction[1..]))
    ensures exponent == "" || (GoodExponent(exponent) && (state == ZeroFirst ==> fraction != ""))
    ensures var e := p + |fraction + exponent|;
            && e < |t| && t[p..e] == fraction + exponent && !IsNumberChar(t[e])
            && NumberEnd(t, p, state) == Some(e)
  {
    hide *;
    fraction := FractionWritten(t, p, state);
    var c := p + |fraction|;
    exponent := ExponentWritten(t, c, if fraction == "" then state else DigitsAfterPoints);
    TwoSlices(t, p, c, c + |exponent|);
  }

  lemma TwoSlices(t: string, p: nat, a: nat, e: nat)
    requires p <= a <= e <= |t|
    ensures t[p..e] == t[p..a] + t[a..e]
  {
  }

  /** What is read as a number is written as one, and the longest one there. */
  lemma NumberWritten(t: string, p: nat) returns (n: NumberText)
    requires Terminated(t) && p < |t| && NumberEnd(t, p, Minus).Some?
    ensures GoodNumber(n) && p + |Written(n)| < |t| && t[p..p + |Written(n)|] == Written(n)
    ensures NumberEnd(t, p, Minus) == Some(p + |Written(n)|) && !IsNumberChar(t[p + |Written(n)|])
  {
    hide *;
    var sign := if t[p] == '-' then "-" else "";
    var a := p + |sign|;
    SignWritten(t, p, sign);
    var whole := WholeWritten(t, a, if sign == "" then Minus else AfterMinus);
    var b := a + |whole|;
    var fraction, exponent := TailWritten(t, b, if whole == "0" then ZeroFirst else Digits);
    var e := b + |fraction + exponent|;
    n := NumberText(sign, whole, fraction, exponent);
    PartsMake(n);
    TwoSlices(t, a, b, e);
    TwoSlices(t, p, a, e);
  }

  lemma PartsMake(n: NumberText)
    requires n.sign == "" || n.sign == "-"
    requires n.whole != "" && AllDigits(n.whole) && (n.whole[0] == '0' ==> n.whole == "0")
    requires n.fraction == "" || (n.fraction[0] == '.' && AllDigits(n.fraction[1..]))
    requires n.exponent == "" || (GoodExponent(n.exponent) && (n.whole == "0" ==> n.fraction != ""))
    ensures GoodNumber(n) && Written(n) == n.sign + (n.whole + (n.fraction + n.exponent))
  {
    hide AllDigits, GoodExponent;
  }

  /** A number of the standard is read as a whole exactly if no exponent stands right behind a zero. */
  lemma StandardRead(n: NumberText)
    requires StandardNumber(n)
    ensures NumberEnd(Written(n) + [NUL], 0, Minus) == Some(|Written(n)|) <==>
              !(n.whole == "0" && n.fraction == "" && n.exponent != "")
  {
    var t := Written(n) + [NUL];
    assert At(t, 0, Written(n));
    if n.whole == "0" && n.fraction == "" && n.exponent != "" {
      ZeroExponent(t, n);
    } else {
      NumberReads(t, 0, n);
    }
  }

  lemma ZeroExponent(t: string, n: NumberText)
    requires StandardNumber(n) && n.whole == "0" && n.fraction == "" && n.exponent != "" && t == Written(n) + [NUL]
    ensures NumberEnd(t, 0, Minus).None?
  {
    hide NumberEnd;
    var k := |n.sign|;
    assert k > 0 ==> t[0] == '-';
    assert t[k] == '0' && t[k + 1] == n.exponent[0];
    NumberNext(t, 0, Minus);
    NumberNext(t, k, if k > 0 then AfterMinus else Minus);
    NumberNext(t, k + 1, ZeroFirst);
    NumberNext(t, k + 2, Invalid);
  }
}
