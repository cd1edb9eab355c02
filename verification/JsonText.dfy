/** JSON text: printing a value, and reading a value back from text, as functions on strings. A character
    stands for one byte of the strings. */
module JsonText {
  import opened Basics
  import opened Decimals
  import opened Hexadecimals

  /** A number is kept as its text. An object is kept as the list of its fields. */
  datatype Json =
    | Null
    | True
    | False
    | Number(text: string)
    | Str(s: string)
    | List(items: seq<Json>)
    | Object(fields: seq<Field>)

  datatype Field = Field(key: string, value: Json)

  /** One element read, the position to go on from, and whether the container is closed there. */
  datatype Step<T> = Step(value: T, next: nat, closed: bool)

  /** Containers may stand at a depth up to this; the depth grows by two for every level of nesting. */
  const MAX_DEPTH: nat := 10000

  // ---------- printing ----------

  function ToHex(n: nat): (c: char)
    requires n < 16
    ensures IsHex(c) && c == LOWER_DIGITS[n]
  {
    if n < 10 then ('0' as int + n) as char else ('a' as int + n - 10) as char
  }

  function EscapedChar(c: char): string {
    if c == '"' then "\\\""
    else if c == '\\' then "\\\\"
    else if c == LF then "\\n"
    else if c == BS then "\\b"
    else if c == FF then "\\f"
    else if c == CR then "\\r"
    else if c == TAB then "\\t"
    else if c as int < 0x20 then "\\u00" + [ToHex(c as int / 16), ToHex(c as int % 16)]
    else [c]
  }

  function Escaped(s: string): string {
    if s == "" then "" else EscapedChar(s[0]) + Escaped(s[1..])
  }

  function Quoted(s: string): string {
    "\"" + (Escaped(s) + "\"")
  }

  function Dump(v: Json): (s: string)
    decreases v, 1
  {
    match v
    case Null => "null"
    case True => "true"
    case False => "false"
    case Number(text) => text
    case Str(s) => Quoted(s)
    case List(items) => "[" + (DumpItems(items) + "]")
    case Object(fields) => "{" + (DumpFields(fields) + "}")
  }

  function DumpItems(items: seq<Json>): string
    decreases items, 0
  {
    if items == [] then ""
    else Dump(items[0]) + (if |items| == 1 then "" else "," + DumpItems(items[1..]))
  }

  function DumpFields(fields: seq<Field>): string
    decreases fields, 0
  {
    if fields == [] then ""
    else
      var rest := if |fields| == 1 then "" else "," + DumpFields(fields[1..]);
      Quoted(fields[0].key) + (":" + (Dump(fields[0].value) + rest))
  }

  // ---------- reading ----------

  predicate IsWs(c: char) {
    c == ' ' || c == TAB || c == CR || c == LF
  }

  /** A text as the parser sees it: a NUL stands behind it. */
  predicate Terminated(t: string) {
    |t| > 0 && t[|t| - 1] == NUL
  }

  function SkipWs(t: string, p: nat): (q: nat)
    requires Terminated(t) && p < |t|
    ensures p <= q < |t| && !IsWs(t[q])
    ensures forall i :: p <= i < q ==> IsWs(t[i])
    decreases |t| - p
  {
    if IsWs(t[p]) then SkipWs(t, p + 1) else p
  }

  function FromHex(c: char): (n: nat)
    requires IsHex(c)
    ensures n < 16
  {
    if c >= 'a' then c as int - 'a' as int + 10
    else if c >= 'A' then c as int - 'A' as int + 10
    else c as int - '0' as int
  }

  predicate IsSimpleEscape(c: char) {
    c == '"' || c == '\\' || c == '/' || c == 'b' || c == 'f' || c == 'n' || c == 'r' || c == 't'
  }

  /** The length of the escape sequence that starts with the backslash at `p`; 0 if it is not a proper one. */
  function EscapeLength(t: string, p: nat): (n: nat)
    requires p < |t| && t[p] == '\\'
    ensures n > 0 ==> p + n <= |t|
    ensures n == 0 || n == 2 || n == 6
  {
    if p + 1 >= |t| then 0
    else if IsSimpleEscape(t[p + 1]) then 2
    else if t[p + 1] == 'u' && p + 5 < |t| && IsHex(t[p + 2]) && IsHex(t[p + 3]) && IsHex(t[p + 4])
        && IsHex(t[p + 5]) then 6
    else 0
  }

  /** The position of the quote that closes a string, scanning from `p`; None for a bad escape or no quote. */
  function StringEnd(t: string, p: nat): (r: Option<nat>)
    requires Terminated(t) && p < |t|
    ensures r.Some? ==> p <= r.value < |t| - 1 && t[r.value] == '"'
    decreases |t| - p
  {
    if t[p] == '"' then Some(p)
    else if t[p] == NUL then None
    else if t[p] == '\\' then
      var n := EscapeLength(t, p);
      if n == 0 || p + n >= |t| then None else StringEnd(t, p + n)
    else StringEnd(t, p + 1)
  }

  function Code(t: string, p: nat): (n: nat)
    requires p + 5 < |t| && IsHex(t[p + 2]) && IsHex(t[p + 3]) && IsHex(t[p + 4]) && IsHex(t[p + 5])
    ensures n < 0x1_0000
  {
    FromHex(t[p + 2]) * 4096 + FromHex(t[p + 3]) * 256 + FromHex(t[p + 4]) * 16 + FromHex(t[p + 5])
  }

  /** The bytes of a code point below 2^16 in UTF-8. */
  function Utf8(code: nat): (s: string)
    requires code < 0x1_0000
    ensures 1 <= |s| <= 3
  {
    if code >= 0x800 then [(0xE0 + code / 4096) as char, (0x80 + code / 64 % 64) as char, (0x80 + code % 64) as char]
    else if code >= 0x80 then [(0xC0 + code / 64) as char, (0x80 + code % 64) as char]
    else [code as char]
  }

  function SimpleEscape(c: char): char
    requires IsSimpleEscape(c)
  {
    match c
    case 'b' => BS
    case 'f' => FF
    case 'n' => LF
    case 'r' => CR
    case 't' => TAB
    case _ => c
  }

  /** The raw content of a string: every backslash starts a proper escape sequence. */
  predicate Raw(s: string)
    decreases |s|
  {
    s == "" || (if s[0] == '\\' then EscapeLength(s, 0) > 0 && Raw(s[EscapeLength(s, 0)..]) else Raw(s[1..]))
  }

  function Unescaped(s: string): (r: string)
    requires Raw(s)
    ensures |r| <= |s|
    decreases |s|
  {
    if s == "" then ""
    else if s[0] == '\\' then
      var n := EscapeLength(s, 0);
      (if n == 2 then [SimpleEscape(s[1])] else Utf8(Code(s, 0))) + Unescaped(s[n..])
    else [s[0]] + Unescaped(s[1..])
  }

  /** The states of the number automaton. */
  datatype NumberState = Minus | AfterMinus | ZeroFirst | Digits | DigitsAfterPoints | E | DigitsAfterE | Invalid

  function NumberStep(state: NumberState, c: char): (s: NumberState)
    requires IsNumberChar(c)
  {
    match c
    case '0' =>
      (match state
       case Minus | AfterMinus => ZeroFirst
       case ZeroFirst => Invalid
       case E => DigitsAfterE
       case _ => state)
    case '.' => if state == ZeroFirst || state == Digits then DigitsAfterPoints else Invalid
    case '-' => if state == Minus then AfterMinus else if state == E then DigitsAfterE else Invalid
    case '+' => if state == E then DigitsAfterE else Invalid
    case 'e' | 'E' => if state == Digits || state == DigitsAfterPoints then E else Invalid
    case _ =>
      (match state
       case Minus | AfterMinus => Digits
       case ZeroFirst => Invalid
       case E => DigitsAfterE
       case _ => state)
  }

  predicate IsNumberChar(c: char) {
    '0' <= c <= '9' || c == '.' || c == '-' || c == '+' || c == 'e' || c == 'E'
  }

  predicate NumberMayEnd(state: NumberState) {
    state == ZeroFirst || state == Digits || state == DigitsAfterPoints || state == DigitsAfterE
  }

  function NumberEnd(t: string, p: nat, state: NumberState): (r: Option<nat>)
    requires Terminated(t) && p < |t|
    ensures r.Some? ==> p <= r.value < |t| && (state == Minus ==> p < r.value)
    decreases |t| - p
  {
    if state == Invalid then None
    else if IsNumberChar(t[p]) then NumberEnd(t, p + 1, NumberStep(state, t[p]))
    else if NumberMayEnd(state) then Some(p)
    else None
  }

  predicate At(t: string, p: nat, s: string) {
    p + |s| <= |t| && t[p..p + |s|] == s
  }

  function ParseValue(t: string, p: nat, depth: nat): (r: Option<(Json, nat)>)
    requires Terminated(t) && p < |t|
    ensures r.Some? ==> p < r.value.1 < |t|
    decreases |t| - p, 2
  {
    match t[p]
    case '[' => ParseList(t, p, depth + 1)
    case '{' => ParseObject(t, p, depth + 1)
    case '"' =>
      (match StringEnd(t, p + 1)
       case None => None
       case Some(e) => (StringEndRaw(t, p + 1); Some((Str(Unescaped(t[p + 1..e])), e + 1))))
    case 't' => if At(t, p, "true") then (WordFits(t, p, "true"); Some((True, p + 4))) else None
    case 'f' => if At(t, p, "false") then (WordFits(t, p, "false"); Some((False, p + 5))) else None
    case 'n' => if At(t, p, "null") then (WordFits(t, p, "null"); Some((Null, p + 4))) else None
    case _ =>
      match NumberEnd(t, p, Minus)
      case None => None
      case Some(e) => Some((Number(t[p..e]), e))
  }

  function ParseList(t: string, p: nat, depth: nat): (r: Option<(Json, nat)>)
    requires Terminated(t) && p < |t| && t[p] == '['
    ensures r.Some? ==> p < r.value.1 < |t|
    decreases |t| - p, 1
  {
    if depth > MAX_DEPTH then None
    else
      var q := SkipWs(t, p + 1);
      if t[q] == ']' then Some((List([]), q + 1)) else ParseItems(t, q, depth, [])
  }

  /** One item of a list, and what follows it: a comma and another item, or the end of the list. */
  function NextItem(t: string, p: nat, depth: nat): (r: Option<Step<Json>>)
    requires Terminated(t) && p < |t|
    ensures r.Some? ==> p < r.value.next < |t|
    decreases |t| - p, 3
  {
    match ParseValue(t, p, depth + 1)
    case None => None
    case Some((v, e)) =>
      var q := SkipWs(t, e);
      if t[q] == ']' then Some(Step(v, q + 1, true))
      else if t[q] == ',' then Some(Step(v, SkipWs(t, q + 1), false))
      else None
  }

  /** The rest of a list from its next item on, after the items `done`. */
  function ParseItems(t: string, p: nat, depth: nat, done: seq<Json>): (r: Option<(Json, nat)>)
    requires Terminated(t) && p < |t|
    ensures r.Some? ==> p < r.value.1 < |t|
    decreases |t| - p, 4
  {
    match NextItem(t, p, depth)
    case None => None
    case Some(Step(v, q, closed)) =>
      if closed then Some((List(done + [v]), q)) else ParseItems(t, q, depth, done + [v])
  }

  function ParseObject(t: string, p: nat, depth: nat): (r: Option<(Json, nat)>)
    requires Terminated(t) && p < |t| && t[p] == '{'
    ensures r.Some? ==> p < r.value.1 < |t|
    decreases |t| - p, 1
  {
    if depth > MAX_DEPTH then None
    else
      var q := SkipWs(t, p + 1);
      if t[q] == '}' then Some((Object([]), q + 1)) else ParseFields(t, q, depth, [])
  }

  /** The key of the field at `p`, and the position behind its closing quote. */
  function ReadKey(t: string, p: nat): (r: Option<(string, nat)>)
    requires Terminated(t) && p < |t|
    ensures r.Some? ==> p < r.value.1 < |t|
  {
    if t[p] != '"' then None
    else
      match StringEnd(t, p + 1)
      case None => None
      case Some(e) => (StringEndRaw(t, p + 1); Some((Unescaped(t[p + 1..e]), e + 1)))
  }

  /** One field of an object, and what follows it: a comma and another field, or the end of the object. */
  function NextField(t: string, p: nat, depth: nat): (r: Option<Step<Field>>)
    requires Terminated(t) && p < |t|
    ensures r.Some? ==> p < r.value.next < |t|
    decreases |t| - p, 3
  {
    match ReadKey(t, p)
    case None => None
    case Some((key, k)) =>
      var colon := SkipWs(t, k);
      if t[colon] != ':' then None
      else
        match ParseValue(t, SkipWs(t, colon + 1), depth + 1)
        case None => None
        case Some((v, e)) =>
          var q := SkipWs(t, e);
          if t[q] == '}' then Some(Step(Field(key, v), q + 1, true))
          else if t[q] == ',' then Some(Step(Field(key, v), SkipWs(t, q + 1), false))
          else None
  }

  /** The rest of an object from its next field on, after the fields `done`. */
  function ParseFields(t: string, p: nat, depth: nat, done: seq<Field>): (r: Option<(Json, nat)>)
    requires Terminated(t) && p < |t|
    ensures r.Some? ==> p < r.value.1 < |t|
    decreases |t| - p, 4
  {
    match NextField(t, p, depth)
    case None => None
    case Some(Step(f, q, closed)) =>
      if closed then Some((Object(done + [f]), q)) else ParseFields(t, q, depth, done + [f])
  }

  /** Reading a whole text: one value, with white space around it. */
  function Load(text: string): Option<Json> {
    var t := text + [NUL];
    match ParseValue(t, SkipWs(t, 0), 0)
    case None => None
    case Some((v, e)) => if t[SkipWs(t, e)] == NUL then Some(v) else None
  }

  lemma WordFits(t: string, p: nat, w: string)
    requires Terminated(t) && At(t, p, w) && w != "" && w[|w| - 1] != NUL
    ensures p + |w| < |t|
  {
    assert t[p..p + |w|][|w| - 1] == t[p + |w| - 1];
  }

  /** What lies between the quotes of a scanned string is raw content. */
  lemma {:induction false} StringEndRaw(t: string, p: nat)
    requires Terminated(t) && p < |t| && StringEnd(t, p).Some?
    ensures Raw(t[p..StringEnd(t, p).value])
    decreases |t| - p
  {
    var e := StringEnd(t, p).value;
    if t[p] == '"' {
    } else if t[p] == '\\' {
      var n := EscapeLength(t, p);
      StringEndRaw(t, p + n);
      assert t[p..e][n..] == t[p + n..e];
    } else {
      StringEndRaw(t, p + 1);
      assert t[p..e][1..] == t[p + 1..e];
    }
  }

  // ---------- reading what was printed ----------

  /** The values of the model: bytes in strings, 64-bit integers for numbers. */
  predicate WellFormed(v: Json)
    decreases v, 1
  {
    match v
    case Number(text) => IsIntegerText(text)
    case Str(s) => AreBytes(s)
    case List(items) => WellFormedItems(items)
    case Object(fields) => WellFormedFields(fields)
    case _ => true
  }

  predicate WellFormedItems(items: seq<Json>)
    decreases items, 0
  {
    items == [] || (WellFormed(items[0]) && WellFormedItems(items[1..]))
  }

  predicate WellFormedFields(fields: seq<Field>)
    decreases fields, 0
  {
    fields == [] || (AreBytes(fields[0].key) && WellFormed(fields[0].value) && WellFormedFields(fields[1..]))
  }

  predicate IsIntegerText(text: string) {
    IsInteger(ValueOf(text)) && text == Decimal(ValueOf(text))
  }

  predicate IsInteger(n: int) {
    -0x8000_0000_0000_0000 <= n < 0x1_0000_0000_0000_0000
  }

  function Max(a: nat, b: nat): nat {
    if a < b then b else a
  }

  /** How many containers stand inside each other. */
  function Nesting(v: Json): nat
    decreases v, 1
  {
    match v
    case List(items) => 1 + NestingOfItems(items)
    case Object(fields) => 1 + NestingOfFields(fields)
    case _ => 0
  }

  function NestingOfItems(items: seq<Json>): nat
    decreases items, 0
  {
    if items == [] then 0 else Max(Nesting(items[0]), NestingOfItems(items[1..]))
  }

  function NestingOfFields(fields: seq<Field>): nat
    decreases fields, 0
  {
    if fields == [] then 0 else Max(Nesting(fields[0].value), NestingOfFields(fields[1..]))
  }

  /** A value is shallow enough to be read where the parser stands at `depth`. */
  predicate Fits(nesting: nat, depth: nat) {
    nesting > 0 ==> depth + 2 * nesting - 1 <= MAX_DEPTH
  }

  lemma AtSplits(t: string, p: nat, a: string, b: string)
    ensures At(t, p, a + b) <==> At(t, p, a) && At(t, p + |a|, b)
  {
    if p + |a| + |b| <= |t| {
      assert t[p..p + |a + b|] == t[p..p + |a|] + t[p + |a|..p + |a| + |b|];
      assert t[p..p + |a + b|][..|a|] == t[p..p + |a|];
      assert t[p..p + |a + b|][|a|..] == t[p + |a|..p + |a| + |b|];
      assert (a + b)[..|a|] == a && (a + b)[|a|..] == b;
    }
  }

  lemma AtInside(t: string, p: nat, s: string)
    requires At(t, p, s)
    ensures p + |s| <= |t|
  {
  }

  lemma AtChar(t: string, p: nat, s: string, i: nat)
    requires At(t, p, s) && i < |s|
    ensures t[p + i] == s[i]
  {
    assert t[p..p + |s|][i] == t[p + i];
  }

  lemma AtText(t: string, p: nat, s: string)
    requires At(t, p, s)
    ensures p + |s| <= |t| && t[p..p + |s|] == s
  {
  }

  lemma ItemsStep(t: string, p: nat, depth: nat, done: seq<Json>)
    requires Terminated(t) && p < |t|
    ensures NextItem(t, p, depth).None? ==> ParseItems(t, p, depth, done).None?
    ensures NextItem(t, p, depth).Some? ==>
              var Step(v, q, closed) := NextItem(t, p, depth).value;
              ParseItems(t, p, depth, done) == if closed then Some((List(done + [v]), q))
                  else ParseItems(t, q, depth, done + [v])
  {
    hide NextItem;
  }

  lemma FieldsStep(t: string, p: nat, depth: nat, done: seq<Field>)
    requires Terminated(t) && p < |t|
    ensures NextField(t, p, depth).None? ==> ParseFields(t, p, depth, done).None?
    ensures NextField(t, p, depth).Some? ==>
              var Step(f, q, closed) := NextField(t, p, depth).value;
              ParseFields(t, p, depth, done) == if closed then Some((Object(done + [f]), q))
                  else ParseFields(t, q, depth, done + [f])
  {
    hide NextField;
  }
}
