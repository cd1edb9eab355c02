/** The values that a program builds and prints: copied from a parsed value, with machine numbers in place of text,
    and printed back. */
module JsonValue {
  import opened Basics
  import opened Decimals
  import opened JsonText
  import opened JsonGrammar
  import opened JsonNumbers
  import opened JsonParser

  type Int64 = n: int | -0x8000_0000_0000_0000 <= n < 0x8000_0000_0000_0000
  type UInt64 = n: int | 0 <= n < 0x1_0000_0000_0000_0000

  datatype WValue =
    | WNull
    | WTrue
    | WFalse
    | WSigned(si: Int64)
    | WUnsigned(ui: UInt64)
    | WDouble(d: real)
    | WString(s: string)
    | WList(items: seq<WValue>)
    | WObject(fields: seq<WField>)

  datatype WField = WField(key: string, value: WValue)

  /** How the library reads and prints floating-point numbers. */
  datatype Floats = Floats(read: string -> real, show: real -> string)

  // ---------- numbers ----------

  /** A stream's conversion to a signed number: zero for what is no number, the nearest one for what is too large. */
  function StreamSigned(text: string): Int64 {
    match LeadingNumber(SkipSpaces(text))
    case None => 0
    case Some(n) =>
      if n < -0x8000_0000_0000_0000 then -0x8000_0000_0000_0000
      else if n >= 0x8000_0000_0000_0000 then 0x7FFF_FFFF_FFFF_FFFF
      else n
  }

  /** The same for unsigned numbers, for a text without a minus sign. */
  function StreamUnsigned(text: string): UInt64 {
    match LeadingNumber(SkipSpaces(text))
    case None => 0
    case Some(n) => if n < 0 then 0 else if n >= 0x1_0000_0000_0000_0000 then 0xFFFF_FFFF_FFFF_FFFF else n
  }

  /** The kind of a number is determined by the characters of its text. */
  function NumberOf(fl: Floats, text: string): WValue {
    if '.' in text || 'e' in text || 'E' in text then WDouble(fl.read(text))
    else if '-' in text then WSigned(StreamSigned(text))
    else WUnsigned(StreamUnsigned(text))
  }

  lemma DecimalChars(n: int)
    ensures '.' !in Decimal(n) && 'e' !in Decimal(n) && 'E' !in Decimal(n)
    ensures '-' in Decimal(n) <==> n < 0
  {
    NaturalDigits(if n < 0 then -n else n);
    hide Natural;
    assert n < 0 ==> Decimal(n)[0] == '-';
  }

  /** A printed integer is read as that integer: signed if it is negative, unsigned otherwise. */
  lemma NumberRoundTrip(fl: Floats, n: int)
    requires IsInteger(n)
    ensures NumberOf(fl, Decimal(n)) == if n < 0 then WSigned(n) else WUnsigned(n)
  {
    DecimalChars(n);
    LeadingDecimal(n);
    hide Decimal, LeadingNumber;
  }

  /** The integer that is written by the sign and the whole part of a number. */
  function WholeValue(n: NumberText): int {
    if n.sign == "-" then -NaturalValue(n.whole) else NaturalValue(n.whole)
  }

  lemma {:induction false} NaturalNotNegative(s: string)
    requires JsonNumbers.AllDigits(s)
    ensures NaturalValue(s) >= 0
  {
    if s != "" {
      NaturalNotNegative(s[..|s| - 1]);
    }
  }

  /** The characters that tell the kind of a number apart are in the parts that they belong to. */
  lemma KindChars(n: NumberText)
    requires GoodNumber(n)
    ensures var text := Written(n);
            && ('.' in text || 'e' in text || 'E' in text <==> n.fraction != "" || n.exponent != "")
            && (n.fraction == "" && n.exponent == "" ==>
                  text == n.sign + (n.whole + "") && ('-' in text <==> n.sign == "-"))
  {
    var text := Written(n);
    assert text == n.sign + n.whole + n.fraction + n.exponent;
    if n.fraction != "" {
      assert n.fraction[0] in text;
    }
    if n.exponent != "" {
      assert n.exponent[0] in text;
    }
    assert forall c :: c in n.whole ==> IsDigit(c);
  }

  /** The kind and the value of a number, whatever its text: a number with a fraction or an exponent is floating-
      point; any other one is signed exactly if it has a sign, and the nearest number of 64 bits of its kind. */
  lemma NumberKinds(fl: Floats, n: NumberText)
    requires GoodNumber(n)
    ensures if n.sign == "-" then WholeValue(n) <= 0 else WholeValue(n) >= 0
    ensures var text, v := Written(n), WholeValue(n);
            NumberOf(fl, text)
            == if n.fraction != "" || n.exponent != "" then WDouble(fl.read(text))
               else if n.sign == "-" then WSigned(if v < -0x8000_0000_0000_0000 then -0x8000_0000_0000_0000 else v)
               else WUnsigned(if v > 0xFFFF_FFFF_FFFF_FFFF then 0xFFFF_FFFF_FFFF_FFFF else v)
  {
    KindChars(n);
    NaturalNotNegative(n.whole);
    var text := Written(n);
    if n.fraction == "" && n.exponent == "" {
      NumberLeads(n.sign, n.whole, "");
      FirstOfNumber(n);
      assert SkipSpaces(text) == text;
    }
    hide Written, LeadingNumber, NaturalValue, SkipSpaces;
  }

  // ---------- the text of a value, and the value of a text ----------

  /** A parsed value with machine numbers. */
  function Converted(fl: Floats, v: Json): WValue
    decreases v, 1
  {
    match v
    case Null => WNull
    case True => WTrue
    case False => WFalse
    case Number(text) => NumberOf(fl, text)
    case Str(s) => WString(s)
    case List(items) => WList(seq(|items|, i requires 0 <= i < |items| => Converted(fl, items[i])))
    case Object(fields) => WObject(Merged(ConvertedFields(fl, fields)))
  }

  function ConvertedFields(fl: Floats, fields: seq<Field>): seq<WField>
    decreases fields, 0
  {
    seq(|fields|, i requires 0 <= i < |fields| => ConvertedField(fl, fields[i]))
  }

  predicate HasKey(fields: seq<WField>, key: string) {
    exists i :: 0 <= i < |fields| && fields[i].key == key
  }

  /** A field is put into a map only if its key is not there. */
  function Put(fields: seq<WField>, f: WField): seq<WField> {
    if HasKey(fields, f.key) then fields else fields + [f]
  }

  function Merged(fields: seq<WField>): seq<WField> {
    if fields == [] then [] else Put(Merged(fields[..|fields| - 1]), fields[|fields| - 1])
  }

  predicate Distinct(fields: seq<WField>) {
    forall i, j :: 0 <= i < j < |fields| ==> fields[i].key != fields[j].key
  }

  /** Of several fields with a key, the first one stays. */
  lemma {:induction false} FirstStays(fields: seq<WField>, f: WField)
    ensures Distinct(Merged(fields))
    ensures f in Merged(fields) <==>
            exists i :: 0 <= i < |fields| && fields[i] == f && forall j :: 0 <= j < i ==> fields[j].key != f.key
    ensures HasKey(Merged(fields), f.key) <==> HasKey(fields, f.key)
  {
    if fields != [] {
      var front, last := fields[..|fields| - 1], fields[|fields| - 1];
      FirstStays(front, f);
      FirstStays(front, last);
      hide Merged, Distinct;
      assert forall i :: 0 <= i < |front| ==> front[i] == fields[i];
      PutIn(Merged(front), last, f);
      assert Merged(fields) == Put(Merged(front), last) by { MergedNext(fields); }
      FirstIn(fields, f);
    }
  }

  lemma MergedNext(fields: seq<WField>)
    requires fields != []
    ensures Merged(fields) == Put(Merged(fields[..|fields| - 1]), fields[|fields| - 1])
  {
  }

  lemma PutIn(fields: seq<WField>, f: WField, g: WField)
    requires Distinct(fields)
    ensures Distinct(Put(fields, f))
    ensures g in Put(fields, f) <==> g in fields || (g == f && !HasKey(fields, f.key))
    ensures HasKey(Put(fields, f), g.key) <==> HasKey(fields, g.key) || g.key == f.key
  {
    if !HasKey(fields, f.key) {
      var more := fields + [f];
      assert more[|fields|] == f;
      assert forall i :: 0 <= i < |fields| ==> more[i] == fields[i];
    }
  }

  ghost predicate IsFirst(fields: seq<WField>, f: WField) {
    exists i :: 0 <= i < |fields| && fields[i] == f && forall j :: 0 <= j < i ==> fields[j].key != f.key
  }

  lemma FirstIn(fields: seq<WField>, f: WField)
    requires fields != []
    ensures var front, last := fields[..|fields| - 1], fields[|fields| - 1];
            && (IsFirst(fields, f) <==> IsFirst(front, f) || (f == last && !HasKey(front, f.key)))
            && (HasKey(fields, f.key) <==> HasKey(front, f.key) || f.key == last.key)
  {
    var front, last := fields[..|fields| - 1], fields[|fields| - 1];
    assert forall i :: 0 <= i < |front| ==> front[i] == fields[i];
    if IsFirst(fields, f) {
      var i :| 0 <= i < |fields| && fields[i] == f && forall j :: 0 <= j < i ==> fields[j].key != f.key;
      assert i < |front| ==> front[i] == f;
    }
    if IsFirst(front, f) {
      var i :| 0 <= i < |front| && front[i] == f && forall j :: 0 <= j < i ==> front[j].key != f.key;
      assert fields[i] == f;
    }
    if f == last && !HasKey(front, f.key) {
      assert fields[|front|] == f;
    }
  }

  lemma {:induction false} DistinctStay(fields: seq<WField>)
    requires Distinct(fields)
    ensures Merged(fields) == fields
  {
    hide Merged, HasKey;
    if fields == [] {
      NothingMerged();
    } else {
      var front, last := fields[..|fields| - 1], fields[|fields| - 1];
      DistinctStay(front);
      MergedNext(fields);
      LastIsNew(fields);
      assert fields == front + [last];
    }
  }

  lemma NothingMerged()
    ensures Merged([]) == []
  {
  }

  lemma LastIsNew(fields: seq<WField>)
    requires Distinct(fields) && fields != []
    ensures Distinct(fields[..|fields| - 1]) && !HasKey(fields[..|fields| - 1], fields[|fields| - 1].key)
  {
  }

  function ConvertedField(fl: Floats, f: Field): WField
    decreases f, 0
  {
    WField(f.key, Converted(fl, f.value))
  }

  /** A value as it is printed. */
  function TextOf(fl: Floats, w: WValue): Json {
    match w
    case WNull => Null
    case WTrue => True
    case WFalse => False
    case WSigned(n) => Number(Decimal(n))
    case WUnsigned(n) => Number(Decimal(n))
    case WDouble(d) => Number(fl.show(d))
    case WString(s) => Str(s)
    case WList(items) => List(seq(|items|, i requires 0 <= i < |items| => TextOf(fl, items[i])))
    case WObject(fields) => Object(seq(|fields|, i requires 0 <= i < |fields| => TextOfField(fl, fields[i])))
  }

  function TextOfField(fl: Floats, f: WField): Field {
    Field(f.key, TextOf(fl, f.value))
  }

  /** Values of byte strings and integers, with no key twice in an object. */
  predicate NoDoubles(w: WValue) {
    match w
    case WDouble(_) => false
    case WString(s) => AreBytes(s)
    case WList(items) => forall i :: 0 <= i < |items| ==> NoDoubles(items[i])
    case WObject(fields) =>
      Distinct(fields) && forall i :: 0 <= i < |fields| ==> AreBytes(fields[i].key) && NoDoubles(fields[i].value)
    case _ => true
  }

  /** The same value, with integers from zero on unsigned. */
  function Unsigned(w: WValue): WValue {
    match w
    case WSigned(n) => if n < 0 then w else WUnsigned(n)
    case WList(items) => WList(seq(|items|, i requires 0 <= i < |items| => Unsigned(items[i])))
    case WObject(fields) =>
      WObject(seq(|fields|, i requires 0 <= i < |fields| => WField(fields[i].key, Unsigned(fields[i].value))))
    case _ => w
  }

  lemma {:induction false} AllWellFormed(items: seq<Json>)
    requires forall i :: 0 <= i < |items| ==> WellFormed(items[i])
    ensures WellFormedItems(items)
  {
    if items != [] {
      AllWellFormed(items[1..]);
    }
  }

  lemma {:induction false} AllFieldsWellFormed(fields: seq<Field>)
    requires forall i :: 0 <= i < |fields| ==> AreBytes(fields[i].key) && WellFormed(fields[i].value)
    ensures WellFormedFields(fields)
  {
    if fields != [] {
      AllFieldsWellFormed(fields[1..]);
    }
  }

  /** What a value of integers prints is a value of the text grammar, and converts back to the value. */
  lemma {:induction false} ConvertsBack(fl: Floats, w: WValue)
    requires NoDoubles(w)
    ensures WellFormed(TextOf(fl, w)) && Converted(fl, TextOf(fl, w)) == Unsigned(w)
    decreases w
  {
    hide Decimal, NumberOf;
    match w
    case WSigned(n) =>
      DecimalRoundTrip(n);
      NumberRoundTrip(fl, n);
    case WUnsigned(n) =>
      DecimalRoundTrip(n);
      NumberRoundTrip(fl, n);
    case WList(items) =>
      var texts := TextOf(fl, w).items;
      forall i | 0 <= i < |items| ensures WellFormed(texts[i]) && Converted(fl, texts[i]) == Unsigned(items[i]) {
        ConvertsBack(fl, items[i]);
        assert texts[i] == TextOf(fl, items[i]);
      }
      AllWellFormed(texts);
    case WObject(fields) =>
      var texts := TextOf(fl, w).fields;
      forall i | 0 <= i < |fields|
        ensures WellFormed(texts[i].value)
                && ConvertedField(fl, texts[i]) == WField(fields[i].key, Unsigned(fields[i].value)) {
        ConvertsBack(fl, fields[i].value);
        assert texts[i] == TextOfField(fl, fields[i]);
      }
      AllFieldsWellFormed(texts);
      DistinctStay(Unsigned(w).fields);
      SameFields(fl, texts, Unsigned(w).fields);
    case _ =>
  }

  lemma SameFields(fl: Floats, texts: seq<Field>, fields: seq<WField>)
    requires |texts| == |fields| && Merged(fields) == fields
    requires forall i :: 0 <= i < |texts| ==> ConvertedField(fl, texts[i]) == fields[i]
    ensures Converted(fl, Object(texts)) == WObject(fields)
  {
    hide Merged, ConvertedField, ConvertedFields;
    FieldsAre(fl, texts, fields);
  }

  lemma FieldsAre(fl: Floats, texts: seq<Field>, fields: seq<WField>)
    requires |texts| == |fields| && forall i :: 0 <= i < |texts| ==> ConvertedField(fl, texts[i]) == fields[i]
    ensures ConvertedFields(fl, texts) == fields
  {
    hide ConvertedField;
  }

  // ---------- copying ----------

  lemma ItemsPut(a: string, b: string, items: seq<RValue>, vs: seq<Json>, cuts: seq<nat>, lo: nat, hi: nat, i: nat,
      r: RValue)
    requires |items| == |vs| && i < |items| && Cuts(cuts, |items|, lo, hi) && hi <= |a|
             && ItemsWithin(a, items, vs, cuts)
    requires OnlyWithin(a, b, cuts[i], cuts[i + 1]) && Holds(b, r, vs[i], cuts[i], cuts[i + 1])
    ensures OnlyWithin(a, b, lo, hi) && ItemsWithin(b, items[i := r], vs, cuts)
  {
    CutsOrdered(cuts, |items|, lo, hi, i, i + 1);
    hide Holds;
    forall j | 0 <= j < |items| ensures Holds(b, items[i := r][j], vs[j], cuts[j], cuts[j + 1]) {
      if j != i {
        OtherCut(cuts, |items|, lo, hi, i, j);
        HoldsFrame(a, b, items[j], vs[j], cuts[j], cuts[j + 1]);
      }
    }
  }

  lemma FieldsPut(a: string, b: string, fields: seq<RField>, vs: seq<Field>, cuts: seq<nat>, lo: nat, hi: nat, i: nat,
      f: RField)
    requires |fields| == |vs| && i < |fields| && Cuts(cuts, |fields|, lo, hi) && hi <= |a|
             && FieldsWithin(a, fields, vs, cuts)
    requires OnlyWithin(a, b, cuts[i], cuts[i + 1]) && HoldsField(b, f, vs[i], cuts[i], cuts[i + 1])
    ensures OnlyWithin(a, b, lo, hi) && FieldsWithin(b, fields[i := f], vs, cuts)
  {
    CutsOrdered(cuts, |fields|, lo, hi, i, i + 1);
    hide HoldsField;
    forall j | 0 <= j < |fields| ensures HoldsField(b, fields[i := f][j], vs[j], cuts[j], cuts[j + 1]) {
      if j != i {
        OtherCut(cuts, |fields|, lo, hi, i, j);
        FieldFrame(a, b, fields[j], vs[j], cuts[j], cuts[j + 1]);
      }
    }
  }

  lemma OtherCut(cuts: seq<nat>, n: nat, lo: nat, hi: nat, i: nat, j: nat)
    requires Cuts(cuts, n, lo, hi) && i < n && j < n && i != j
    ensures cuts[j + 1] <= cuts[i] || cuts[i + 1] <= cuts[j]
    ensures cuts[j + 1] <= hi
  {
    if j < i {
      CutsOrdered(cuts, n, lo, hi, j + 1, i);
    } else {
      CutsOrdered(cuts, n, lo, hi, i + 1, j);
      CutsOrdered(cuts, n, lo, hi, j + 1, n);
    }
  }

  /** Copies a parsed value into one of its own, with machine numbers. Each string is unescaped in the buffer on the
      way, so the parsed value changes its positions but not its meaning. */
  method Copy(buf: array<char>, r: RValue, fl: Floats, ghost v: Json, ghost lo: nat, ghost hi: nat)
      returns (w: WValue, r': RValue)
    requires Holds(buf[..], r, v, lo, hi)
    modifies buf
    ensures w == Converted(fl, v) && Holds(buf[..], r', v, lo, hi) && OnlyWithin(old(buf[..]), buf[..], lo, hi)
    decreases r, 1
  {
    match r
    case RNull => return WNull, r;
    case RTrue => return WTrue, r;
    case RFalse => return WFalse, r;
    case RNumber(start, end) => return NumberOf(fl, buf[start..end]), r;
    case RString(start, end) =>
      var newEnd := Unescape(buf, start, end);
      assert buf[start..newEnd] == buf[..][start..newEnd];
      return WString(buf[start..newEnd]), RString(start, newEnd);
    case RList(items) =>
      w, r' := CopyItems(buf, items, fl, v.items, lo, hi);
    case RObject(fields) =>
      w, r' := CopyFields(buf, fields, fl, v.fields, lo, hi);
  }

  method CopyItems(buf: array<char>, items: seq<RValue>, fl: Floats, ghost vs: seq<Json>, ghost lo: nat, ghost hi: nat)
    returns (w: WValue, r': RValue)
    requires HoldsItems(buf[..], items, vs, lo, hi) && lo <= hi <= buf.Length
    modifies buf
    ensures w == Converted(fl, List(vs)) && Holds(buf[..], r', List(vs), lo, hi)
            && OnlyWithin(old(buf[..]), buf[..], lo, hi)
    decreases items, 0
  {
    ghost var cuts: seq<nat> :| Cuts(cuts, |items|, lo, hi) && ItemsWithin(buf[..], items, vs, cuts);
    ghost var ws := Converted(fl, List(vs)).items;
    assert forall i :: 0 <= i < |vs| ==> ws[i] == Converted(fl, vs[i]);
    var now, list := items, [];
    for i := 0 to |items|
      invariant |now| == |items| && now[i..] == items[i..] && list == ws[..i]
      invariant ItemsWithin(buf[..], now, vs, cuts) && OnlyWithin(old(buf[..]), buf[..], lo, hi)
    {
      hide Holds, Cuts, Converted;
      ghost var b := buf[..];
      assert items[i] == now[i] by { assert items[i] == items[i..][0] && now[i] == now[i..][0]; }
      CutsOrdered(cuts, |items|, lo, hi, i, i + 1);
      var w, r := Copy(buf, items[i], fl, vs[i], cuts[i], cuts[i + 1]);
      ItemsPut(b, buf[..], now, vs, cuts, lo, hi, i, r);
      now, list := now[i := r], list + [w];
    }
    assert ws[..|items|] == ws;
    return WList(list), RList(now);
  }

  method CopyFields(buf: array<char>, fields: seq<RField>, fl: Floats, ghost vs: seq<Field>, ghost lo: nat,
      ghost hi: nat)
    returns (w: WValue, r': RValue)
    requires HoldsFields(buf[..], fields, vs, lo, hi) && lo <= hi <= buf.Length
    modifies buf
    ensures w == Converted(fl, Object(vs)) && Holds(buf[..], r', Object(vs), lo, hi)
            && OnlyWithin(old(buf[..]), buf[..], lo, hi)
    decreases fields, 0
  {
    ghost var cuts: seq<nat> :| Cuts(cuts, |fields|, lo, hi) && FieldsWithin(buf[..], fields, vs, cuts);
    ghost var ws := ConvertedFields(fl, vs);
    assert Converted(fl, Object(vs)) == WObject(Merged(ws));
    assert ws[..0] == [] && forall i :: 0 <= i < |vs| ==> ws[i] == ConvertedField(fl, vs[i]);
    var now, list := fields, [];
    for i := 0 to |fields|
      invariant |now| == |fields| && now[i..] == fields[i..] && list == Merged(ws[..i])
      invariant FieldsWithin(buf[..], now, vs, cuts) && OnlyWithin(old(buf[..]), buf[..], lo, hi)
    {
      hide Holds, Cuts, Converted, Merged, Put, HoldsField, ConvertedField, ConvertedFields;
      ghost var b := buf[..];
      assert fields[i] == now[i] by { assert fields[i] == fields[i..][0] && now[i] == now[i..][0]; }
      CutsOrdered(cuts, |fields|, lo, hi, i, i + 1);
      var w, f := CopyField(buf, fields[i], fl, vs[i], cuts[i], cuts[i + 1]);
      FieldsPut(b, buf[..], now, vs, cuts, lo, hi, i, f);
      assert ws[..i + 1][..i] == ws[..i];
      MergedNext(ws[..i + 1]);
      now, list := now[i := f], Put(list, w);
    }
    assert ws[..|fields|] == ws;
    return WObject(list), RObject(now);
  }

  method CopyField(buf: array<char>, f: RField, fl: Floats, ghost v: Field, ghost lo: nat, ghost hi: nat)
      returns (w: WField, f': RField)
    requires HoldsField(buf[..], f, v, lo, hi)
    modifies buf
    ensures w == ConvertedField(fl, v) && HoldsField(buf[..], f', v, lo, hi)
            && OnlyWithin(old(buf[..]), buf[..], lo, hi)
    decreases f, 0
  {
    ghost var b := buf[..];
    var key := buf[..][f.keyStart..f.keyEnd];
    hide Holds;
    var value, r := Copy(buf, f.value, fl, v.value, f.keyEnd, hi);
    AgreeSlice(b, buf[..], lo, f.keyEnd, f.keyStart, f.keyEnd);
    return WField(key, value), RField(f.keyStart, f.keyEnd, r);
  }

  // ---------- printing ----------

  /** Appends the escaped form of a string. */
  method Escape(s: string, ret: string) returns (out: string)
    ensures out == ret + Escaped(s)
  {
    out := ret;
    for i := 0 to |s|
      invariant out + Escaped(s[i..]) == ret + Escaped(s)
    {
      var c := s[i];
      ghost var before := out;
      EscapedNext(s, i);
      hide Escaped;
      if c == '"' {
        out := out + "\\\"";
      } else if c == '\\' {
        out := out + "\\\\";
      } else if c == LF {
        out := out + "\\n";
      } else if c == BS {
        out := out + "\\b";
      } else if c == FF {
        out := out + "\\f";
      } else if c == CR {
        out := out + "\\r";
      } else if c == TAB {
        out := out + "\\t";
      } else if c as int < 0x20 {
        out := out + "\\u00";
        out := out + [ToHex(c as int / 16)];
        out := out + [ToHex(c as int % 16)];
      } else {
        out := out + [c];
      }
      assert out == before + EscapedChar(c);
      Regroup(before, EscapedChar(c), Escaped(s[i + 1..]));
    }
  }

  lemma EscapedNext(s: string, i: nat)
    requires i < |s|
    ensures Escaped(s[i..]) == EscapedChar(s[i]) + Escaped(s[i + 1..])
  {
    assert s[i..][1..] == s[i + 1..];
  }

  method DumpString(s: string, ret: string) returns (out: string)
    ensures out == ret + Quoted(s)
  {
    out := ret + "\"";
    out := Escape(s, out);
    out := out + "\"";
  }

  function ItemsLeft(items: seq<Json>, i: nat): string
    requires i <= |items|
  {
    if i == |items| then "" else (if i == 0 then "" else ",") + DumpItems(items[i..])
  }

  function FieldsLeft(fields: seq<Field>, i: nat): string
    requires i <= |fields|
  {
    if i == |fields| then "" else (if i == 0 then "" else ",") + DumpFields(fields[i..])
  }

  lemma ItemsLeftStep(items: seq<Json>, i: nat)
    requires i < |items|
    ensures ItemsLeft(items, i) == (if i == 0 then "" else ",") + (Dump(items[i]) + ItemsLeft(items, i + 1))
  {
    assert items[i..][1..] == items[i + 1..];
    hide Dump;
  }

  lemma ItemsLeftNext(out: string, items: seq<Json>, i: nat)
    requires i < |items|
    ensures out + ItemsLeft(items, i) == (if i == 0 then out else out + ",") + Dump(items[i]) + ItemsLeft(items, i + 1)
  {
    ItemsLeftStep(items, i);
    var comma, item, rest := if i == 0 then "" else ",", Dump(items[i]), ItemsLeft(items, i + 1);
    assert out + comma == if i == 0 then out else out + ",";
    hide *;
    Regroup(out, comma, item + rest);
    Regroup(out + comma, item, rest);
  }

  lemma FieldsLeftStep(fields: seq<Field>, i: nat)
    requires i < |fields|
    ensures FieldsLeft(fields, i)
         == (if i == 0 then "" else ",")
             + (Quoted(fields[i].key) + (":" + (Dump(fields[i].value) + FieldsLeft(fields, i + 1))))
  {
    assert fields[i..][1..] == fields[i + 1..];
    hide Dump, Quoted;
  }

  lemma FieldsLeftNext(out: string, fields: seq<Field>, i: nat)
    requires i < |fields|
    ensures out + FieldsLeft(fields, i)
         == (if i == 0 then out else out + ",") + Quoted(fields[i].key) + ":" + Dump(fields[i].value)
             + FieldsLeft(fields, i + 1)
  {
    FieldsLeftStep(fields, i);
    var comma, key, value, rest := if i == 0 then "" else ",", Quoted(fields[i].key), Dump(fields[i].value),
        FieldsLeft(fields, i + 1);
    assert out + comma == if i == 0 then out else out + ",";
    hide *;
    Regroup(out + comma + key + ":", value, rest);
    Regroup(out + comma + key, ":", value + rest);
    Regroup(out + comma, key, ":" + (value + rest));
    Regroup(out, comma, key + (":" + (value + rest)));
  }

  /** Appends the text of a value. */
  method DumpInternal(v: WValue, fl: Floats, ret: string) returns (out: string)
    ensures out == ret + Dump(TextOf(fl, v))
    decreases v, 1
  {
    match v
    case WNull => return ret + "null";
    case WTrue => return ret + "true";
    case WFalse => return ret + "false";
    case WSigned(n) => return ret + Decimal(n);
    case WUnsigned(n) => return ret + Decimal(n);
    case WDouble(d) => return ret + fl.show(d);
    case WString(s) => out := DumpString(s, ret);
    case WList(items) => out := DumpList(items, fl, ret);
    case WObject(fields) => out := DumpObject(fields, fl, ret);
  }

  method DumpList(items: seq<WValue>, fl: Floats, ret: string) returns (out: string)
    ensures out == ret + Dump(TextOf(fl, WList(items)))
    decreases items, 0
  {
    ghost var texts := TextOf(fl, WList(items)).items;
    assert forall i :: 0 <= i < |items| ==> texts[i] == TextOf(fl, items[i]);
    out := ret + "[";
    assert texts[0..] == texts;
    for i := 0 to |items|
      invariant out + ItemsLeft(texts, i) == ret + "[" + DumpItems(texts)
    {
      ItemsLeftNext(out, texts, i);
      hide ItemsLeft, Dump, DumpItems, TextOf;
      if i > 0 {
        out := out + ",";
      }
      out := DumpInternal(items[i], fl, out);
    }
    ListText(out, ret, texts);
    out := out + "]";
  }

  lemma ListText(out: string, ret: string, items: seq<Json>)
    requires out + ItemsLeft(items, |items|) == ret + "[" + DumpItems(items)
    ensures out + "]" == ret + Dump(List(items))
  {
    assert out + "" == out;
    Regroup(ret, "[", DumpItems(items) + "]");
    Regroup(ret + "[", DumpItems(items), "]");
    hide DumpItems;
  }

  method DumpField(f: WField, fl: Floats, ret: string) returns (out: string)
    ensures out == ret + Quoted(f.key) + ":" + Dump(TextOf(fl, f.value))
    decreases f, 0
  {
    out := DumpString(f.key, ret);
    out := out + ":";
    out := DumpInternal(f.value, fl, out);
  }

  method DumpObject(fields: seq<WField>, fl: Floats, ret: string) returns (out: string)
    ensures out == ret + Dump(TextOf(fl, WObject(fields)))
    decreases fields, 0
  {
    ghost var texts := TextOf(fl, WObject(fields)).fields;
    assert forall i :: 0 <= i < |fields| ==> texts[i] == TextOfField(fl, fields[i]);
    out := ret + "{";
    assert FieldsLeft(texts, 0) == DumpFields(texts) by { assert texts[0..] == texts; }
    hide FieldsLeft, DumpFields, TextOf;
    for i := 0 to |fields|
      invariant out + FieldsLeft(texts, i) == ret + "{" + DumpFields(texts)
    {
      FieldsLeftNext(out, texts, i);
      hide Dump, Quoted;
      if i > 0 {
        out := out + ",";
      }
      out := DumpField(fields[i], fl, out);
    }
    ObjectText(out, ret, texts);
    out := out + "}";
  }

  lemma ObjectText(out: string, ret: string, fields: seq<Field>)
    requires out + FieldsLeft(fields, |fields|) == ret + "{" + DumpFields(fields)
    ensures out + "}" == ret + Dump(Object(fields))
  {
    assert out + "" == out;
    Regroup(ret, "{", DumpFields(fields) + "}");
    Regroup(ret + "{", DumpFields(fields), "}");
    hide DumpFields;
  }

  /** Prints a value, loads the text and copies the result: the value comes back unless it is nested too deep. */
  method Reload(v: WValue, fl: Floats) returns (w: Option<WValue>)
    requires NoDoubles(v)
    ensures w == if Nesting(TextOf(fl, v)) <= 5000 then Some(Unsigned(v)) else None
  {
    ConvertsBack(fl, v);
    ghost var printed := TextOf(fl, v);
    LoadDump(printed);
    hide *;
    var text := DumpInternal(v, fl, "");
    assert "" + Dump(printed) == Dump(printed);
    var buf, r := LoadText(text);
    if r.None? {
      return None;
    }
    var copy, _ := Copy(buf, r.value, fl, printed, 0, |text| + 1);
    return Some(copy);
  }
}
