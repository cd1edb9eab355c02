/** The JSON texts that are read, as a grammar that does not mention the parser, and what they mean. The grammar is
    that of RFC 8259, except for two forms of numbers. */
module JsonGrammar {
  import opened Basics
  import opened Decimals
  import opened Hexadecimals
  import opened JsonNumbers
  import opened JsonStrings
  import opened JsonText

  // ---------- values ----------

  /** A value as it is written, with the white space inside it. */
  datatype Tree =
    | NullWord
    | TrueWord
    | FalseWord
    | Numeral(n: NumberText)
    | Quote(us: seq<Unit>)
    | EmptyArray(blank: string)
    | Array(blank: string, items: Items)
    | EmptyRecord(blank: string)
    | Record(blank: string, members: Members)

  /** The items of an array up to its closing bracket, with the white space behind each, and behind its comma. */
  datatype Items = LastItem(tree: Tree, after: string) | Item(tree: Tree, after: string, blank: string, rest: Items)

  datatype Members =
    | LastMember(member: Member, after: string)
    | NextMember(member: Member, after: string, blank: string, rest: Members)

  datatype Member = Member(key: seq<Unit>, before: string, behind: string, tree: Tree)

  /** White space (section 2 of RFC 8259). */
  predicate Blank(s: string) {
    forall i :: 0 <= i < |s| ==> s[i] as int in {0x20, 0x09, 0x0A, 0x0D}
  }

  predicate Good(tree: Tree) {
    match tree
    case Numeral(n) => GoodNumber(n)
    case Quote(us) => GoodUnits(us)
    case EmptyArray(blank) => Blank(blank)
    case Array(blank, items) => Blank(blank) && GoodItems(items)
    case EmptyRecord(blank) => Blank(blank)
    case Record(blank, members) => Blank(blank) && GoodMembers(members)
    case _ => true
  }

  predicate GoodItems(items: Items) {
    Good(items.tree) && Blank(items.after) && (items.Item? ==> Blank(items.blank) && GoodItems(items.rest))
  }

  predicate GoodMembers(members: Members) {
    && GoodMember(members.member) && Blank(members.after)
    && (members.NextMember? ==> Blank(members.blank) && GoodMembers(members.rest))
  }

  predicate GoodMember(m: Member) {
    GoodUnits(m.key) && Blank(m.before) && Blank(m.behind) && Good(m.tree)
  }

  function Quotation(us: seq<Unit>): string
    requires GoodUnits(us)
  {
    "\"" + (UnitsText(us) + "\"")
  }

  function Text(tree: Tree): string
    requires Good(tree)
  {
    match tree
    case NullWord => "null"
    case TrueWord => "true"
    case FalseWord => "false"
    case Numeral(n) => Written(n)
    case Quote(us) => Quotation(us)
    case EmptyArray(blank) => "[" + (blank + "]")
    case Array(blank, items) => "[" + (blank + ItemsText(items))
    case EmptyRecord(blank) => "{" + (blank + "}")
    case Record(blank, members) => "{" + (blank + MembersText(members))
  }

  function ItemsText(items: Items): (s: string)
    requires GoodItems(items)
  {
    var tail := if items.LastItem? then "]" else "," + (items.blank + ItemsText(items.rest));
    Text(items.tree) + (items.after + tail)
  }

  function MembersText(members: Members): string
    requires GoodMembers(members)
  {
    var tail := if members.LastMember? then "}" else "," + (members.blank + MembersText(members.rest));
    MemberText(members.member) + (members.after + tail)
  }

  function MemberText(m: Member): string
    requires GoodMember(m)
  {
    Quotation(m.key) + (m.before + (":" + (m.behind + Text(m.tree))))
  }

  /** The value that is written. */
  function Value(tree: Tree): Json
    requires Good(tree)
  {
    match tree
    case NullWord => Null
    case TrueWord => True
    case FalseWord => False
    case Numeral(n) => Number(Written(n))
    case Quote(us) => Str(UnitsBytes(us))
    case EmptyArray(_) => List([])
    case Array(_, items) => List(ValuesOf(items))
    case EmptyRecord(_) => Object([])
    case Record(_, members) => Object(FieldsOf(members))
  }

  function ValuesOf(items: Items): (vs: seq<Json>)
    requires GoodItems(items)
    ensures vs != []
  {
    [Value(items.tree)] + if items.LastItem? then [] else ValuesOf(items.rest)
  }

  function FieldsOf(members: Members): (fs: seq<Field>)
    requires GoodMembers(members)
    ensures fs != []
  {
    [FieldOf(members.member)] + if members.LastMember? then [] else FieldsOf(members.rest)
  }

  function FieldOf(m: Member): Field
    requires GoodMember(m)
  {
    Field(UnitsBytes(m.key), Value(m.tree))
  }

  // ---------- every text of the grammar is read ----------

  /** The characters that stand behind a value and its white space. */
  predicate Closes(c: char) {
    c == ']' || c == '}' || c == ',' || c == ':' || c == NUL
  }

  lemma BlankIsWs(c: char)
    ensures c as int in {0x20, 0x09, 0x0A, 0x0D} <==> IsWs(c)
    ensures IsWs(c) || Closes(c) ==> !IsNumberChar(c)
    ensures Closes(c) ==> !IsWs(c)
  {
  }

  lemma {:induction false} BlankSkips(t: string, p: nat, b: string, rest: string)
    requires Terminated(t) && Blank(b) && At(t, p, b + rest) && rest != "" && !IsWs(rest[0])
    ensures p + |b| < |t| && SkipWs(t, p) == p + |b| && At(t, p + |b|, rest) && t[p + |b|] == rest[0]
    ensures Closes(rest[0]) ==> !IsNumberChar(t[p])
    decreases |b|
  {
    AtSplits(t, p, b, rest);
    AtChar(t, p + |b|, rest, 0);
    AtInside(t, p + |b|, rest);
    BlankIsWs(rest[0]);
    if b == "" {
      hide At;
    } else {
      assert b + rest == [b[0]] + (b[1..] + rest);
      AtSplits(t, p, [b[0]], b[1..] + rest);
      AtChar(t, p, [b[0]], 0);
      BlankIsWs(b[0]);
      hide At;
      BlankSkips(t, p + 1, b[1..], rest);
    }
  }

  lemma FirstOf(tree: Tree)
    requires Good(tree)
    ensures Text(tree) != "" && !IsWs(Text(tree)[0]) && Text(tree)[0] != ']' && Text(tree)[0] != '}'
  {
    if tree.Numeral? {
      FirstOfNumber(tree.n);
    }
    hide Written, ItemsText, MembersText, UnitsText, GoodNumber;
  }

  lemma FirstOfItems(items: Items)
    requires GoodItems(items)
    ensures ItemsText(items) != "" && !IsWs(ItemsText(items)[0]) && ItemsText(items)[0] != ']'
  {
    FirstOf(items.tree);
    hide Text;
  }

  lemma FirstOfMembers(members: Members)
    requires GoodMembers(members)
    ensures MembersText(members) != "" && MembersText(members)[0] == '"'
  {
    hide Text, UnitsText;
    assert Quotation(members.member.key)[0] == '"';
    assert MemberText(members.member)[0] == '"';
  }

  lemma QuotationReads(t: string, p: nat, us: seq<Unit>)
    requires Terminated(t) && GoodUnits(us) && At(t, p, Quotation(us))
    ensures p + |Quotation(us)| <= |t| && p + 1 < |t| && t[p] == '"'
    ensures StringEnd(t, p + 1) == Some(p + |Quotation(us)| - 1)
    ensures t[p + 1..p + |Quotation(us)| - 1] == UnitsText(us)
    ensures Raw(UnitsText(us)) && Unescaped(UnitsText(us)) == UnitsBytes(us)
  {
    hide *;
    QuotationSplits(t, p, us);
    UnitsRead(t, p + 1, us);
    UnitsUnescape(us);
  }

  lemma QuotationSplits(t: string, p: nat, us: seq<Unit>)
    requires GoodUnits(us) && At(t, p, Quotation(us))
    ensures |Quotation(us)| == |UnitsText(us)| + 2 && p + |Quotation(us)| <= |t| && t[p] == '"'
    ensures At(t, p + 1, UnitsText(us) + "\"") && t[p + 1..p + 1 + |UnitsText(us)|] == UnitsText(us)
  {
    AtChar(t, p, Quotation(us), 0);
    AtSplits(t, p, "\"", UnitsText(us) + "\"");
    AtSplits(t, p + 1, UnitsText(us), "\"");
    hide UnitsText;
  }

  lemma WordReads(t: string, p: nat, tree: Tree, depth: nat)
    requires Terminated(t) && (tree.NullWord? || tree.TrueWord? || tree.FalseWord?) && At(t, p, Text(tree))
    ensures p < |t| && ParseValue(t, p, depth) == Some((Value(tree), p + |Text(tree)|))
  {
    AtChar(t, p, Text(tree), 0);
  }

  lemma NumeralReads(t: string, p: nat, n: NumberText, depth: nat)
    requires Terminated(t) && GoodNumber(n) && At(t, p, Written(n)) && p + |Written(n)| < |t|
    requires !IsNumberChar(t[p + |Written(n)|])
    ensures ParseValue(t, p, depth) == Some((Number(Written(n)), p + |Written(n)|))
  {
    NumberReads(t, p, n);
    AtText(t, p, Written(n));
    hide At, Terminated, NumberEnd, StringEnd, ParseList, ParseObject, Written, GoodNumber;
  }

  lemma QuoteReads(t: string, p: nat, us: seq<Unit>, depth: nat)
    requires Terminated(t) && GoodUnits(us) && At(t, p, Quotation(us))
    ensures p < |t| && ParseValue(t, p, depth) == Some((Str(UnitsBytes(us)), p + |Quotation(us)|))
  {
    hide At, Quotation, Raw, Unescaped, StringEnd, NumberEnd, ParseList, ParseObject, UnitsText, UnitsBytes, GoodUnits;
    QuotationReads(t, p, us);
  }

  lemma Opens(t: string, p: nat, depth: nat)
    requires Terminated(t) && p < |t|
    ensures t[p] == '[' ==> ParseValue(t, p, depth) == ParseList(t, p, depth + 1)
    ensures t[p] == '{' ==> ParseValue(t, p, depth) == ParseObject(t, p, depth + 1)
  {
    hide ParseList, ParseObject, NumberEnd, StringEnd, ParseItems, ParseFields;
  }

  /** A container at `depth` may be read exactly if the container is allowed there and its elements are. */
  lemma OneDeeper(items: seq<Json>, fields: seq<Field>, depth: nat)
    ensures Fits(Nesting(List(items)), depth) <==> depth + 1 <= MAX_DEPTH && Fits(NestingOfItems(items), depth + 2)
    ensures Fits(Nesting(Object(fields)), depth) <==> depth + 1 <= MAX_DEPTH && Fits(NestingOfFields(fields), depth + 2)
    ensures NestingOfItems([]) == 0 && NestingOfFields([]) == 0
    ensures Fits(0, depth + 2)
  {
    hide NestingOfItems, NestingOfFields;
    assert NestingOfItems([]) == 0 && NestingOfFields([]) == 0 by { NothingNested(); }
  }

  lemma NothingNested()
    ensures NestingOfItems([]) == 0 && NestingOfFields([]) == 0
  {
  }

  lemma ContainerStep(t: string, p: nat, depth: nat)
    requires Terminated(t) && p < |t| && p + 1 < |t|
    ensures var q := SkipWs(t, p + 1);
            && (t[p] == '[' ==>
                  ParseList(t, p, depth)
                  == if depth > MAX_DEPTH then None else if t[q] == ']' then Some((List([]), q + 1))
                     else ParseItems(t, q, depth, []))
            && (t[p] == '{' ==>
                  ParseObject(t, p, depth)
                  == if depth > MAX_DEPTH then None else if t[q] == '}' then Some((Object([]), q + 1))
                     else ParseFields(t, q, depth, []))
  {
    hide ParseItems, ParseFields, SkipWs;
  }

  /** The opening of a container, and what stands behind the white space in it. */
  lemma OpeningReads(t: string, p: nat, open: string, blank: string, rest: string)
    requires Terminated(t) && At(t, p, open + (blank + rest)) && |open| == 1 && Blank(blank) && rest != ""
    requires !IsWs(rest[0])
    ensures p + 1 < |t| && t[p] == open[0] && SkipWs(t, p + 1) == p + 1 + |blank| < |t|
    ensures t[p + 1 + |blank|] == rest[0] && At(t, p + 1 + |blank|, rest)
  {
    AtChar(t, p, open + (blank + rest), 0);
    AtSplits(t, p, open, blank + rest);
    hide At;
    BlankSkips(t, p + 1, blank, rest);
  }

  /** Reading a text of the grammar, at any depth and with anything behind it, gives the value that is written, or
      nothing exactly if the value is nested too deep. */
  lemma {:induction false} TreeReads(t: string, p: nat, tree: Tree, depth: nat)
    requires Terminated(t) && Good(tree) && At(t, p, Text(tree)) && p + |Text(tree)| < |t|
    requires !IsNumberChar(t[p + |Text(tree)|])
    ensures ParseValue(t, p, depth)
         == if Fits(Nesting(Value(tree)), depth) then Some((Value(tree), p + |Text(tree)|)) else None
    decreases tree
  {
    hide ParseValue, ParseList, ParseObject, Terminated, SkipWs, At, IsNumberChar, Nesting, Fits, Blank, IsWs, Written,
        GoodUnits, GoodNumber, ItemsText, MembersText, UnitsText, ParseItems, ParseFields, NestingOfItems,
        NestingOfFields, GoodItems, GoodMembers, UnitsBytes, ValuesOf, FieldsOf, Quotation;
    match tree
    case Numeral(n) =>
      NumeralReads(t, p, n, depth);
      LeafFits(Value(tree), depth);
    case Quote(us) =>
      QuoteReads(t, p, us, depth);
      LeafFits(Value(tree), depth);
    case EmptyArray(blank) =>
      Brackets();
      OpeningReads(t, p, "[", blank, "]");
      Opens(t, p, depth);
      ContainerStep(t, p, depth + 1);
      OneDeeper([], [], depth);
    case Array(blank, items) =>
      FirstOfItems(items);
      OpeningReads(t, p, "[", blank, ItemsText(items));
      Opens(t, p, depth);
      ContainerStep(t, p, depth + 1);
      OneDeeper(ValuesOf(items), [], depth);
      ItemsRead(t, p + 1 + |blank|, items, depth + 1, []);
      assert [] + ValuesOf(items) == ValuesOf(items);
    case EmptyRecord(blank) =>
      Brackets();
      OpeningReads(t, p, "{", blank, "}");
      Opens(t, p, depth);
      ContainerStep(t, p, depth + 1);
      OneDeeper([], [], depth);
    case Record(blank, members) =>
      FirstOfMembers(members);
      Brackets();
      OpeningReads(t, p, "{", blank, MembersText(members));
      Opens(t, p, depth);
      ContainerStep(t, p, depth + 1);
      OneDeeper([], FieldsOf(members), depth);
      MembersRead(t, p + 1 + |blank|, members, depth + 1, []);
      assert [] + FieldsOf(members) == FieldsOf(members);
    case _ =>
      WordReads(t, p, tree, depth);
      LeafFits(Value(tree), depth);
  }

  lemma Brackets()
    ensures !IsWs(']') && !IsWs('}') && !IsWs('"') && !IsWs(':')
  {
  }

  lemma LeafFits(v: Json, depth: nat)
    requires !v.List? && !v.Object?
    ensures Fits(Nesting(v), depth)
  {
  }

  /** What is behind a value in a list or an object: a comma and white space, or the closing bracket. */
  lemma BehindValue(t: string, e: nat, after: string, close: string, last: bool, blank: string, rest: string)
    requires Terminated(t) && Blank(after) && Blank(blank) && |close| == 1 && Closes(close[0]) && close[0] != ','
    requires rest != "" && !IsWs(rest[0])
    requires At(t, e, after + if last then close else "," + (blank + rest))
    ensures e < |t| && !IsNumberChar(t[e])
    ensures var q := SkipWs(t, e);
            && q == e + |after| && t[q] == (if last then close[0] else ',')
            && (!last ==> q + 1 < |t| && SkipWs(t, q + 1) == q + 1 + |blank| && At(t, q + 1 + |blank|, rest))
  {
    hide *;
    BlankIsWs(close[0]);
    CommaCloses();
    var tail := if last then close else "," + (blank + rest);
    assert tail[0] == if last then close[0] else ',';
    BlankSkips(t, e, after, tail);
    if !last {
      AtSplits(t, e + |after|, ",", blank + rest);
      BlankSkips(t, e + |after| + 1, blank, rest);
    }
  }

  lemma CommaCloses()
    ensures Closes(',') && !IsWs(',')
  {
  }

  lemma ItemStep(t: string, p: nat, depth: nat)
    requires Terminated(t) && p < |t|
    ensures ParseValue(t, p, depth + 1).None? ==> NextItem(t, p, depth).None?
    ensures ParseValue(t, p, depth + 1).Some? ==>
              var (v, e) := ParseValue(t, p, depth + 1).value;
              var q := SkipWs(t, e);
              NextItem(t, p, depth)
              == if t[q] == ']' then Some(Step(v, q + 1, true))
                 else if t[q] == ',' then Some(Step(v, SkipWs(t, q + 1), false))
                 else None
  {
    hide ParseValue, SkipWs;
  }

  lemma NestingStep(items: Items, depth: nat)
    requires GoodItems(items)
    ensures Fits(NestingOfItems(ValuesOf(items)), depth) <==>
              && Fits(Nesting(Value(items.tree)), depth)
              && (items.Item? ==> Fits(NestingOfItems(ValuesOf(items.rest)), depth))
    ensures ValuesOf(items) == [Value(items.tree)] + if items.LastItem? then [] else ValuesOf(items.rest)
  {
    hide Nesting, Value;
    var rest := if items.LastItem? then [] else ValuesOf(items.rest);
    assert ValuesOf(items)[1..] == rest;
    assert NestingOfItems([]) == 0;
  }

  /** The parts of the items in place. */
  lemma ItemsParts(t: string, p: nat, items: Items)
    requires Terminated(t) && GoodItems(items) && At(t, p, ItemsText(items))
    ensures Good(items.tree) && At(t, p, Text(items.tree)) && p < |t|
    ensures var e := p + |Text(items.tree)|;
            && e < |t| && !IsNumberChar(t[e])
            && SkipWs(t, e) == e + |items.after|
            && (items.LastItem? ==> t[SkipWs(t, e)] == ']' && p + |ItemsText(items)| == SkipWs(t, e) + 1)
            && (items.Item? ==>
                  var q := SkipWs(t, e);
                  && t[q] == ',' && q + 1 < |t| && SkipWs(t, q + 1) < |t| && GoodItems(items.rest)
                  && At(t, SkipWs(t, q + 1), ItemsText(items.rest))
                  && p + |ItemsText(items)| == SkipWs(t, q + 1) + |ItemsText(items.rest)|)
  {
    hide SkipWs, At, IsNumberChar, Blank, IsWs, Text;
    var last := items.LastItem?;
    var blank, rest := if last then "" else items.blank, if last then "]" else ItemsText(items.rest);
    if !last {
      FirstOfItems(items.rest);
    }
    FirstOf(items.tree);
    var tail := if last then "]" else "," + (blank + rest);
    AtSplits(t, p, Text(items.tree), items.after + tail);
    NoBlank();
    Brackets();
    BehindValue(t, p + |Text(items.tree)|, items.after, "]", last, blank, rest);
    hide ItemsText;
  }

  lemma NoBlank()
    ensures Blank("")
  {
  }

  lemma {:induction false} ItemsRead(t: string, p: nat, items: Items, depth: nat, done: seq<Json>)
    requires Terminated(t) && GoodItems(items) && At(t, p, ItemsText(items)) && p + |ItemsText(items)| < |t|
    ensures p < |t|
    ensures ParseItems(t, p, depth, done)
         == if Fits(NestingOfItems(ValuesOf(items)), depth + 1)
            then Some((List(done + ValuesOf(items)), p + |ItemsText(items)|)) else None
    decreases items
  {
    hide *;
    ItemsParts(t, p, items);
    TreeReads(t, p, items.tree, depth + 1);
    ItemStep(t, p, depth);
    ItemsStep(t, p, depth, done);
    NestingStep(items, depth + 1);
    var v := Value(items.tree);
    if items.Item? {
      var q := SkipWs(t, SkipWs(t, p + |Text(items.tree)|) + 1);
      ItemsRead(t, q, items.rest, depth, done + [v]);
      assert (done + [v]) + ValuesOf(items.rest) == done + ([v] + ValuesOf(items.rest));
    } else {
      assert [v] + [] == [v];
    }
  }

  lemma KeyReads(t: string, p: nat, us: seq<Unit>)
    requires Terminated(t) && GoodUnits(us) && At(t, p, Quotation(us))
    ensures p < |t| && ReadKey(t, p) == Some((UnitsBytes(us), p + |Quotation(us)|))
  {
    hide At, Quotation, Raw, Unescaped, StringEnd, UnitsText, UnitsBytes, GoodUnits;
    QuotationReads(t, p, us);
  }

  lemma FieldStep(t: string, p: nat, depth: nat)
    requires Terminated(t) && p < |t|
    ensures ReadKey(t, p).None? ==> NextField(t, p, depth).None?
    ensures ReadKey(t, p).Some? ==>
              var (key, k) := ReadKey(t, p).value;
              var colon := SkipWs(t, k);
              if t[colon] != ':' then NextField(t, p, depth).None?
              else
                colon + 1 < |t| &&
                match ParseValue(t, SkipWs(t, colon + 1), depth + 1)
                case None => NextField(t, p, depth).None?
                case Some((v, e)) =>
                  var q := SkipWs(t, e);
                  NextField(t, p, depth)
                  == if t[q] == '}' then Some(Step(Field(key, v), q + 1, true))
                     else if t[q] == ',' then Some(Step(Field(key, v), SkipWs(t, q + 1), false))
                     else None
  {
    hide ReadKey, ParseValue, SkipWs;
  }

  lemma NestingFieldsStep(members: Members, depth: nat)
    requires GoodMembers(members) && GoodMember(members.member) && Good(members.member.tree)
    ensures Fits(NestingOfFields(FieldsOf(members)), depth) <==>
              && Fits(Nesting(Value(members.member.tree)), depth)
              && (members.NextMember? ==> Fits(NestingOfFields(FieldsOf(members.rest)), depth))
    ensures FieldsOf(members)
         == [FieldOf(members.member)] + if members.LastMember? then [] else FieldsOf(members.rest)
  {
    hide Nesting, Value, UnitsBytes;
    var rest := if members.LastMember? then [] else FieldsOf(members.rest);
    assert FieldsOf(members)[1..] == rest;
    assert NestingOfFields([]) == 0;
  }

  /** The key of a member, its colon and its value in place. */
  lemma MemberParts(t: string, p: nat, m: Member, tail: string)
    requires Terminated(t) && GoodMember(m) && At(t, p, MemberText(m) + tail)
    ensures GoodUnits(m.key) && Good(m.tree) && At(t, p, Quotation(m.key))
    ensures var k := p + |Quotation(m.key)|;
            var colon := k + |m.before|;
            var v := colon + 1 + |m.behind|;
            && p < k < |t| && SkipWs(t, k) == colon && t[colon] == ':' && colon + 1 < |t|
            && SkipWs(t, colon + 1) == v < |t|
            && At(t, v, Text(m.tree)) && p + |MemberText(m)| == v + |Text(m.tree)|
            && At(t, p + |MemberText(m)|, tail)
  {
    hide *;
    MemberForm(m);
    var text := Text(m.tree);
    var k := p + |Quotation(m.key)|;
    AtSplits(t, p, MemberText(m), tail);
    AtSplits(t, p, Quotation(m.key), m.before + (":" + (m.behind + text)));
    Brackets();
    FirstOf(m.tree);
    var colon := ":" + (m.behind + text);
    assert colon[0] == ':';
    BlankSkips(t, k, m.before, colon);
    AtSplits(t, k + |m.before|, ":", m.behind + text);
    BlankSkips(t, k + |m.before| + 1, m.behind, text);
  }

  lemma MemberForm(m: Member)
    requires GoodMember(m)
    ensures GoodUnits(m.key) && Good(m.tree) && Blank(m.before) && Blank(m.behind)
    ensures MemberText(m) == Quotation(m.key) + (m.before + (":" + (m.behind + Text(m.tree))))
    ensures Quotation(m.key) != ""
  {
    hide UnitsText, Text, Blank, GoodUnits;
  }

  /** The parts of the members in place; the value begins at `v`. */
  lemma MembersParts(t: string, p: nat, members: Members, m: Member) returns (v: nat)
    requires Terminated(t) && GoodMembers(members) && At(t, p, MembersText(members))
    requires m == members.member && GoodMember(m) && GoodUnits(m.key) && Good(m.tree)
    ensures p + |Quotation(m.key)| < |t| && p < v < |t|
    ensures ReadKey(t, p) == Some((UnitsBytes(m.key), p + |Quotation(m.key)|))
    ensures var colon := SkipWs(t, p + |Quotation(m.key)|);
            t[colon] == ':' && colon + 1 < |t| && SkipWs(t, colon + 1) == v && At(t, v, Text(m.tree))
    ensures var e := v + |Text(m.tree)|;
            && e < |t| && !IsNumberChar(t[e])
            && (members.LastMember? ==> t[SkipWs(t, e)] == '}' && p + |MembersText(members)| == SkipWs(t, e) + 1)
            && (members.NextMember? ==>
                  var q := SkipWs(t, e);
                  && t[q] == ',' && q + 1 < |t| && GoodMembers(members.rest)
                  && At(t, SkipWs(t, q + 1), MembersText(members.rest))
                  && p + |MembersText(members)| == SkipWs(t, q + 1) + |MembersText(members.rest)|)
  {
    hide SkipWs, At, IsNumberChar, Blank, IsWs, Text, MemberText, ReadKey, Quotation, UnitsBytes, GoodMember,
        Terminated,
        Good, GoodUnits;
    var last := members.LastMember?;
    var blank, rest := if last then "" else members.blank, if last then "}" else MembersText(members.rest);
    Brackets();
    if !last {
      FirstOfMembers(members.rest);
    }
    var tail := if last then "}" else "," + (blank + rest);
    assert MembersText(members) == MemberText(m) + (members.after + tail);
    MemberParts(t, p, m, members.after + tail);
    KeyReads(t, p, m.key);
    NoBlank();
    BehindValue(t, p + |MemberText(m)|, members.after, "}", last, blank, rest);
    v := SkipWs(t, SkipWs(t, p + |Quotation(m.key)|) + 1);
    hide MembersText;
  }

  lemma {:induction false} MembersRead(t: string, p: nat, members: Members, depth: nat, done: seq<Field>)
    requires Terminated(t) && GoodMembers(members) && At(t, p, MembersText(members)) && p + |MembersText(members)| < |t|
    ensures p < |t|
    ensures ParseFields(t, p, depth, done)
         == if Fits(NestingOfFields(FieldsOf(members)), depth + 1)
            then Some((Object(done + FieldsOf(members)), p + |MembersText(members)|)) else None
    decreases members
  {
    hide *;
    FirstMember(members);
    MemberHas(members.member);
    var v := MembersParts(t, p, members, members.member);
    TreeReads(t, v, members.member.tree, depth + 1);
    FieldStep(t, p, depth);
    FieldsStep(t, p, depth, done);
    NestingFieldsStep(members, depth + 1);
    var f := FieldOf(members.member);
    if members.NextMember? {
      var q := SkipWs(t, SkipWs(t, v + |Text(members.member.tree)|) + 1);
      MembersRead(t, q, members.rest, depth, done + [f]);
      assert (done + [f]) + FieldsOf(members.rest) == done + ([f] + FieldsOf(members.rest));
    } else {
      assert [f] + [] == [f];
    }
  }

  lemma FirstMember(members: Members)
    requires GoodMembers(members)
    ensures GoodMember(members.member)
  {
    hide GoodMember;
  }

  lemma MemberHas(m: Member)
    requires GoodMember(m)
    ensures Good(m.tree) && GoodUnits(m.key) && FieldOf(m) == Field(UnitsBytes(m.key), Value(m.tree))
  {
    hide GoodUnits, Value, UnitsBytes;
  }

  // ---------- and nothing else is ----------

  lemma {:induction false} BlankFound(t: string, p: nat)
    requires Terminated(t) && p < |t|
    ensures p <= SkipWs(t, p) < |t| && Blank(t[p..SkipWs(t, p)])
  {
    var q := SkipWs(t, p);
    forall i | 0 <= i < q - p ensures t[p..q][i] as int in {0x20, 0x09, 0x0A, 0x0D} {
      BlankIsWs(t[p + i]);
    }
  }

  lemma ThreeSlices(t: string, p: nat, q: nat, e: nat)
    requires p < q <= e <= |t|
    ensures t[p..e] == [t[p]] + (t[p + 1..q] + t[q..e])
  {
  }

  lemma FourSlices(t: string, p: nat, e: nat, q: nat, f: nat)
    requires p <= e <= q < f <= |t|
    ensures t[p..f] == t[p..e] + (t[e..q] + ([t[q]] + t[q + 1..f]))
  {
  }

  lemma QuoteWritten(t: string, p: nat) returns (us: seq<Unit>)
    requires Terminated(t) && p < |t| && ReadKey(t, p).Some?
    ensures GoodUnits(us) && p + |Quotation(us)| < |t| && t[p..p + |Quotation(us)|] == Quotation(us)
    ensures ReadKey(t, p) == Some((UnitsBytes(us), p + |Quotation(us)|))
  {
    hide StringEnd, Raw, Unescaped, UnitsBytes, UnitsText, GoodUnits;
    var e := StringEnd(t, p + 1).value;
    us := UnitsWritten(t, p + 1);
    UnitsUnescape(us);
    assert t[p..e + 1] == "\"" + (t[p + 1..e] + "\"");
  }

  /** A value that is no container. */
  lemma LeafWritten(t: string, p: nat, depth: nat) returns (tree: Tree)
    requires Terminated(t) && p < |t| && ParseValue(t, p, depth).Some? && t[p] != '[' && t[p] != '{'
    ensures Good(tree) && p + |Text(tree)| < |t| && t[p..p + |Text(tree)|] == Text(tree)
    ensures ParseValue(t, p, depth) == Some((Value(tree), p + |Text(tree)|))
  {
    hide StringEnd, Unescaped, UnitsBytes, Quotation, NumberEnd, Written, GoodNumber, GoodUnits;
    if t[p] == '"' {
      var us := QuoteWritten(t, p);
      tree := Quote(us);
    } else if t[p] == 't' {
      tree := TrueWord;
      WordFits(t, p, "true");
    } else if t[p] == 'f' {
      tree := FalseWord;
      WordFits(t, p, "false");
    } else if t[p] == 'n' {
      tree := NullWord;
      WordFits(t, p, "null");
    } else {
      var n := NumberWritten(t, p);
      tree := Numeral(n);
    }
  }

  /** Whatever is read is a text of the grammar. */
  lemma {:induction false} TreeWritten(t: string, p: nat, depth: nat) returns (tree: Tree)
    requires Terminated(t) && p < |t| && ParseValue(t, p, depth).Some?
    ensures Good(tree) && p + |Text(tree)| < |t| && t[p..p + |Text(tree)|] == Text(tree)
    ensures ParseValue(t, p, depth) == Some((Value(tree), p + |Text(tree)|))
    decreases |t| - p, 2
  {
    hide *;
    if t[p] == '[' {
      tree := ListWritten(t, p, depth);
    } else if t[p] == '{' {
      tree := ObjectWritten(t, p, depth);
    } else {
      tree := LeafWritten(t, p, depth);
    }
  }

  lemma {:induction false} ListWritten(t: string, p: nat, depth: nat) returns (tree: Tree)
    requires Terminated(t) && p < |t| && ParseValue(t, p, depth).Some? && t[p] == '['
    ensures Good(tree) && p + |Text(tree)| < |t| && t[p..p + |Text(tree)|] == Text(tree)
    ensures ParseValue(t, p, depth) == Some((Value(tree), p + |Text(tree)|))
    decreases |t| - p, 1
  {
    hide *;
    Opens(t, p, depth);
    OpenInside(t, p);
    ContainerStep(t, p, depth + 1);
    BlankFound(t, p + 1);
    var q := SkipWs(t, p + 1);
    if t[q] == ']' {
      tree := EmptyArray(t[p + 1..q]);
      ThreeSlices(t, p, q, q + 1);
      EmptyText(tree);
      CloseInside(t, q);
    } else {
      var items := ItemsWritten(t, q, depth + 1, []);
      tree := Array(t[p + 1..q], items);
      ArrayText(tree);
      ThreeSlices(t, p, q, q + |ItemsText(items)|);
      assert [] + ValuesOf(items) == ValuesOf(items);
    }
  }

  lemma {:induction false} ObjectWritten(t: string, p: nat, depth: nat) returns (tree: Tree)
    requires Terminated(t) && p < |t| && ParseValue(t, p, depth).Some? && t[p] == '{'
    ensures Good(tree) && p + |Text(tree)| < |t| && t[p..p + |Text(tree)|] == Text(tree)
    ensures ParseValue(t, p, depth) == Some((Value(tree), p + |Text(tree)|))
    decreases |t| - p, 1
  {
    hide *;
    Opens(t, p, depth);
    OpenInside(t, p);
    ContainerStep(t, p, depth + 1);
    BlankFound(t, p + 1);
    var q := SkipWs(t, p + 1);
    if t[q] == '}' {
      tree := EmptyRecord(t[p + 1..q]);
      ThreeSlices(t, p, q, q + 1);
      EmptyText(tree);
      CloseInside(t, q);
    } else {
      var members := MembersWritten(t, q, depth + 1, []);
      tree := Record(t[p + 1..q], members);
      RecordText(tree);
      ThreeSlices(t, p, q, q + |MembersText(members)|);
      assert [] + FieldsOf(members) == FieldsOf(members);
    }
  }

  lemma OpenInside(t: string, p: nat)
    requires Terminated(t) && p < |t| && (t[p] == '[' || t[p] == '{' || t[p] == ':')
    ensures p + 1 < |t|
  {
  }

  lemma CloseInside(t: string, p: nat)
    requires Terminated(t) && p < |t| && (t[p] == ']' || t[p] == '}' || t[p] == ',')
    ensures p + 1 < |t| && t[p..p + 1] == [t[p]]
  {
  }

  lemma EmptyText(tree: Tree)
    requires (tree.EmptyArray? || tree.EmptyRecord?) && Blank(tree.blank)
    ensures Good(tree)
    ensures tree.EmptyArray? ==> Text(tree) == "[" + (tree.blank + "]") && Value(tree) == List([])
    ensures tree.EmptyRecord? ==> Text(tree) == "{" + (tree.blank + "}") && Value(tree) == Object([])
  {
    hide Blank;
  }

  lemma ArrayText(tree: Tree)
    requires tree.Array? && Blank(tree.blank) && GoodItems(tree.items)
    ensures Good(tree) && Text(tree) == "[" + (tree.blank + ItemsText(tree.items))
    ensures Value(tree) == List(ValuesOf(tree.items))
  {
    hide Blank, ItemsText, GoodItems, ValuesOf;
  }

  lemma RecordText(tree: Tree)
    requires tree.Record? && Blank(tree.blank) && GoodMembers(tree.members)
    ensures Good(tree) && Text(tree) == "{" + (tree.blank + MembersText(tree.members))
    ensures Value(tree) == Object(FieldsOf(tree.members))
  {
    hide Blank, MembersText, GoodMembers, FieldsOf;
  }

  lemma LastItemText(tree: Tree, after: string)
    requires Good(tree) && Blank(after)
    ensures var items := LastItem(tree, after);
            && GoodItems(items) && ItemsText(items) == Text(tree) + (after + "]") && ValuesOf(items) == [Value(tree)]
  {
    hide Good, Blank, Text, Value;
  }

  lemma ItemText(tree: Tree, after: string, blank: string, rest: Items)
    requires Good(tree) && Blank(after) && Blank(blank) && GoodItems(rest)
    ensures var items := Item(tree, after, blank, rest);
            && GoodItems(items) && ItemsText(items) == Text(tree) + (after + ("," + (blank + ItemsText(rest))))
            && ValuesOf(items) == [Value(tree)] + ValuesOf(rest)
  {
    hide Good, Blank, Text, Value;
  }

  /** An item in front of the others. */
  lemma ItemInFront(t: string, p: nat, e: nat, q: nat, r: nat, tree: Tree, rest: Items)
    requires Good(tree) && GoodItems(rest) && p <= e <= q < r <= r + |ItemsText(rest)| <= |t|
    requires t[p..e] == Text(tree) && t[q] == ',' && t[r..r + |ItemsText(rest)|] == ItemsText(rest)
    requires Blank(t[e..q]) && Blank(t[q + 1..r])
    ensures var items := Item(tree, t[e..q], t[q + 1..r], rest);
            && GoodItems(items) && t[p..r + |ItemsText(rest)|] == ItemsText(items)
            && p + |ItemsText(items)| == r + |ItemsText(rest)|
            && ValuesOf(items) == [Value(tree)] + ValuesOf(rest)
  {
    hide *;
    ItemText(tree, t[e..q], t[q + 1..r], rest);
    FourSlices(t, p, e, q, r + |ItemsText(rest)|);
    TwoSlices(t, q + 1, r, r + |ItemsText(rest)|);
  }

  lemma {:induction false} ItemsWritten(t: string, p: nat, depth: nat, done: seq<Json>) returns (items: Items)
    requires Terminated(t) && p < |t| && ParseItems(t, p, depth, done).Some?
    ensures GoodItems(items) && p + |ItemsText(items)| < |t| && t[p..p + |ItemsText(items)|] == ItemsText(items)
    ensures ParseItems(t, p, depth, done) == Some((List(done + ValuesOf(items)), p + |ItemsText(items)|))
    decreases |t| - p, 3
  {
    hide *;
    ItemsStep(t, p, depth, done);
    ItemStep(t, p, depth);
    var tree := TreeWritten(t, p, depth + 1);
    var e := p + |Text(tree)|;
    BlankFound(t, e);
    var q := SkipWs(t, e);
    CloseInside(t, q);
    if t[q] == ']' {
      items := LastItem(tree, t[e..q]);
      LastItemText(tree, t[e..q]);
      FourSlices(t, p, e, q, q + 1);
      assert t[q + 1..q + 1] == "" && [t[q]] + "" == "]";
    } else {
      BlankFound(t, q + 1);
      var r := SkipWs(t, q + 1);
      var rest := ItemsWritten(t, r, depth, done + [Value(tree)]);
      ItemInFront(t, p, e, q, r, tree, rest);
      items := Item(tree, t[e..q], t[q + 1..r], rest);
      Regroup(done, [Value(tree)], ValuesOf(rest));
    }
  }

  lemma MemberWritten(t: string, p: nat, m: Member, colon: nat, v: nat, e: nat)
    requires GoodUnits(m.key) && Good(m.tree) && Blank(m.before) && Blank(m.behind)
    requires p + |Quotation(m.key)| <= colon < v <= e <= |t| && t[colon] == ':'
    requires t[p..p + |Quotation(m.key)|] == Quotation(m.key) && m.before == t[p + |Quotation(m.key)|..colon]
    requires m.behind == t[colon + 1..v] && t[v..e] == Text(m.tree)
    ensures GoodMember(m) && t[p..e] == MemberText(m) && |MemberText(m)| == e - p
  {
    hide Quotation, Text, Blank, GoodUnits;
    FourSlices(t, p, p + |Quotation(m.key)|, colon, e);
    TwoSlices(t, colon + 1, v, e);
  }

  lemma LastMemberText(m: Member, after: string)
    requires GoodMember(m) && Blank(after)
    ensures var members := LastMember(m, after);
            && GoodMembers(members) && MembersText(members) == MemberText(m) + (after + "}")
            && FieldsOf(members) == [FieldOf(m)]
  {
    hide GoodMember, Blank, MemberText, FieldOf;
  }

  lemma NextMemberText(m: Member, after: string, blank: string, rest: Members)
    requires GoodMember(m) && Blank(after) && Blank(blank) && GoodMembers(rest)
    ensures var members := NextMember(m, after, blank, rest);
            && GoodMembers(members)
            && MembersText(members) == MemberText(m) + (after + ("," + (blank + MembersText(rest))))
            && FieldsOf(members) == [FieldOf(m)] + FieldsOf(rest)
  {
    hide GoodMember, Blank, MemberText, FieldOf;
  }

  /** One member, up to its value. */
  lemma {:induction false} FieldWritten(t: string, p: nat, depth: nat) returns (m: Member)
    requires Terminated(t) && p < |t| && NextField(t, p, depth).Some?
    ensures GoodMember(m) && p < p + |MemberText(m)| < |t| && t[p..p + |MemberText(m)|] == MemberText(m)
    ensures var q := SkipWs(t, p + |MemberText(m)|);
            NextField(t, p, depth)
            == if t[q] == '}' then Some(Step(FieldOf(m), q + 1, true))
               else if t[q] == ',' && q + 1 < |t| then Some(Step(FieldOf(m), SkipWs(t, q + 1), false))
               else None
    decreases |t| - p, 2
  {
    hide *;
    FieldStep(t, p, depth);
    var key := QuoteWritten(t, p);
    var k := p + |Quotation(key)|;
    BlankFound(t, k);
    var colon := SkipWs(t, k);
    BlankFound(t, colon + 1);
    var v := SkipWs(t, colon + 1);
    var tree := TreeWritten(t, v, depth + 1);
    var e := v + |Text(tree)|;
    m := Member(key, t[k..colon], t[colon + 1..v], tree);
    MemberWritten(t, p, m, colon, v, e);
    MemberHas(m);
    BlankFound(t, e);
    var q := SkipWs(t, e);
    if t[q] == ',' {
      CommaInside(t, q);
    }
  }

  lemma CommaInside(t: string, q: nat)
    requires Terminated(t) && q < |t| && t[q] == ','
    ensures q + 1 < |t|
  {
  }

  /** A member in front of the others. */
  lemma MemberInFront(t: string, p: nat, e: nat, q: nat, r: nat, m: Member, rest: Members)
    requires GoodMember(m) && GoodMembers(rest) && p <= e <= q < r <= r + |MembersText(rest)| <= |t|
    requires t[p..e] == MemberText(m) && t[q] == ',' && t[r..r + |MembersText(rest)|] == MembersText(rest)
    requires Blank(t[e..q]) && Blank(t[q + 1..r])
    ensures var members := NextMember(m, t[e..q], t[q + 1..r], rest);
            && GoodMembers(members) && t[p..r + |MembersText(rest)|] == MembersText(members)
            && p + |MembersText(members)| == r + |MembersText(rest)|
            && FieldsOf(members) == [FieldOf(m)] + FieldsOf(rest)
  {
    hide *;
    NextMemberText(m, t[e..q], t[q + 1..r], rest);
    FourSlices(t, p, e, q, r + |MembersText(rest)|);
    TwoSlices(t, q + 1, r, r + |MembersText(rest)|);
  }

  lemma {:induction false} MembersWritten(t: string, p: nat, depth: nat, done: seq<Field>) returns (members: Members)
    requires Terminated(t) && p < |t| && ParseFields(t, p, depth, done).Some?
    ensures GoodMembers(members) && p + |MembersText(members)| < |t|
    ensures t[p..p + |MembersText(members)|] == MembersText(members)
    ensures ParseFields(t, p, depth, done) == Some((Object(done + FieldsOf(members)), p + |MembersText(members)|))
    decreases |t| - p, 3
  {
    hide *;
    FieldsStep(t, p, depth, done);
    var m := FieldWritten(t, p, depth);
    var e := p + |MemberText(m)|;
    BlankFound(t, e);
    var q := SkipWs(t, e);
    CloseInside(t, q);
    if t[q] == '}' {
      members := LastMember(m, t[e..q]);
      LastMemberText(m, t[e..q]);
      FourSlices(t, p, e, q, q + 1);
      assert t[q + 1..q + 1] == "" && [t[q]] + "" == "}";
    } else {
      BlankFound(t, q + 1);
      var r := SkipWs(t, q + 1);
      var rest := MembersWritten(t, r, depth, done + [FieldOf(m)]);
      MemberInFront(t, p, e, q, r, m, rest);
      members := NextMember(m, t[e..q], t[q + 1..r], rest);
      Regroup(done, [FieldOf(m)], FieldsOf(rest));
    }
  }

  // ---------- whole texts ----------

  /** A text is a value with white space around it; what follows a NUL is not looked at. */
  ghost predicate TextOf(text: string, tree: Tree)
    requires Good(tree)
  {
    exists before, after, rest ::
      && Blank(before) && Blank(after) && (rest == "" || rest[0] == NUL)
      && text == before + (Text(tree) + (after + rest))
  }

  /** Loading a text of the grammar gives the value that is written if at most 5000 containers stand inside each other,
      and fails if there are more. */
  lemma TextLoads(text: string, tree: Tree)
    requires Good(tree) && TextOf(text, tree)
    ensures Load(text) == if Nesting(Value(tree)) <= 5000 then Some(Value(tree)) else None
  {
    hide *;
    var before, after, rest := TextSplits(text, tree);
    var t := text + [NUL];
    var behind := rest + [NUL];
    PiecesAt(before, Text(tree), after, rest);
    EndsInNul(text);
    FirstOf(tree);
    BlankSkips(t, 0, before, Text(tree) + (after + behind));
    var p, e := |before|, |before| + |Text(tree)|;
    AtSplits(t, p, Text(tree), after + behind);
    NulCloses();
    assert behind[0] == NUL;
    BlankSkips(t, e, after, behind);
    TreeReads(t, p, tree, 0);
    AtTheTop(Nesting(Value(tree)));
    LoadStep(text);
  }

  lemma TextSplits(text: string, tree: Tree) returns (before: string, after: string, rest: string)
    requires Good(tree) && TextOf(text, tree)
    ensures Blank(before) && Blank(after) && (rest == "" || rest[0] == NUL)
    ensures text == before + (Text(tree) + (after + rest))
  {
    hide Blank, Text, Good;
    before, after, rest :| Blank(before) && Blank(after) && (rest == "" || rest[0] == NUL)
        && text == before + (Text(tree) + (after + rest));
  }

  lemma PiecesAt(before: string, a: string, after: string, rest: string)
    ensures var t := (before + (a + (after + rest))) + [NUL];
            At(t, 0, before + (a + (after + (rest + [NUL]))))
  {
    var t := (before + (a + (after + rest))) + [NUL];
    assert t == before + (a + (after + (rest + [NUL])));
  }

  lemma EndsInNul(text: string)
    ensures Terminated(text + [NUL])
  {
  }

  lemma NulCloses()
    ensures Closes(NUL) && !IsWs(NUL)
  {
  }

  lemma AtTheTop(nesting: nat)
    ensures Fits(nesting, 0) <==> nesting <= 5000
  {
  }

  lemma LoadStep(text: string)
    ensures Terminated(text + [NUL])
    ensures var t := text + [NUL];
            Load(text)
            == match ParseValue(t, SkipWs(t, 0), 0)
               case None => None
               case Some((v, e)) => if t[SkipWs(t, e)] == NUL then Some(v) else None
  {
    hide ParseValue, SkipWs;
  }

  /** Loading succeeds exactly on the texts of the grammar whose containers do not nest too deep, with the value that is
      written there. */
  lemma LoadsGrammar(text: string, v: Json)
    ensures Load(text) == Some(v) <==>
              exists tree :: Good(tree) && TextOf(text, tree) && Value(tree) == v && Nesting(v) <= 5000
  {
    hide Load, Good, TextOf, Value, Nesting;
    if Load(text) == Some(v) {
      var tree := LoadWritten(text);
      TextLoads(text, tree);
    }
    if exists tree :: Good(tree) && TextOf(text, tree) && Value(tree) == v && Nesting(v) <= 5000 {
      var tree :| Good(tree) && TextOf(text, tree) && Value(tree) == v && Nesting(v) <= 5000;
      TextLoads(text, tree);
    }
  }

  /** A text that is loaded. */
  lemma LoadWritten(text: string) returns (tree: Tree)
    requires Load(text).Some?
    ensures Good(tree) && TextOf(text, tree)
  {
    hide *;
    var t := text + [NUL];
    LoadStep(text);
    BlankFound(t, 0);
    var p := SkipWs(t, 0);
    tree := TreeWritten(t, p, 0);
    var e := p + |Text(tree)|;
    BlankFound(t, e);
    var q := SkipWs(t, e);
    assert t[q] == NUL;
    WholeSlices(text, p, e, q);
    Fills(text, tree, t[0..p], t[e..q], t[q..|text|]);
  }

  lemma WholeSlices(text: string, p: nat, e: nat, q: nat)
    requires p <= e <= q <= |text|
    ensures var t := text + [NUL];
            && text == t[0..p] + (t[p..e] + (t[e..q] + t[q..|text|]))
            && (q < |text| ==> t[q..|text|] != "" && t[q..|text|][0] == t[q])
            && (q == |text| ==> t[q..|text|] == "")
  {
  }

  lemma Fills(text: string, tree: Tree, before: string, after: string, rest: string)
    requires Good(tree) && Blank(before) && Blank(after) && (rest == "" || rest[0] == NUL)
    requires text == before + (Text(tree) + (after + rest))
    ensures TextOf(text, tree)
  {
    hide Good, Blank, Text;
  }

  // ---------- what is printed is such a text ----------

  lemma ControlUnit(c: char) returns (u: Unit)
    requires c as int < 0x20
    ensures GoodUnit(u) && UnitText(u) == "\\u00" + [ToHex(c as int / 16), ToHex(c as int % 16)] && UnitBytes(u) == [c]
  {
    hide Writes, CodePoints;
    var digits := "00" + [ToHex(c as int / 16), ToHex(c as int % 16)];
    FourDigits(digits, c as int);
    WritesOnePoint(c as int, [c]);
    assert "\\u00" + [ToHex(c as int / 16), ToHex(c as int % 16)] == "\\u" + digits;
    u := Coded(digits, c as int, [c]);
  }

  lemma EscapedUnit(c: char) returns (u: Unit)
    requires IsByte(c)
    ensures GoodUnit(u) && UnitText(u) == EscapedChar(c) && UnitBytes(u) == [c]
  {
    hide Writes, CodePoints;
    if c == '"' || c == '\\' || c == BS || c == FF || c == LF || c == CR || c == TAB {
      u := Short(if c == '"' then 0 else if c == '\\' then 1 else if c == BS then 3 else if c == FF then 4
                 else if c == LF then 5 else if c == CR then 6 else 7);
    } else if c as int < 0x20 {
      u := ControlUnit(c);
    } else {
      u := Plain(c);
    }
  }

  lemma {:induction false} EscapedUnits(s: string) returns (us: seq<Unit>)
    requires AreBytes(s)
    ensures GoodUnits(us) && UnitsText(us) == Escaped(s) && UnitsBytes(us) == s
  {
    if s == "" {
      us := [];
    } else {
      var u := EscapedUnit(s[0]);
      hide GoodUnit, UnitText, UnitBytes, EscapedChar;
      var rest := EscapedUnits(s[1..]);
      us := [u] + rest;
      assert us[1..] == rest;
    }
  }

  /** Escaping is undone by unescaping. */
  lemma EscapeRoundTrip(s: string)
    requires AreBytes(s)
    ensures Raw(Escaped(s)) && Unescaped(Escaped(s)) == s
  {
    var us := EscapedUnits(s);
    UnitsUnescape(us);
  }

  lemma IntegerWritten(text: string) returns (n: NumberText)
    requires IsIntegerText(text)
    ensures GoodNumber(n) && Written(n) == text
  {
    var v := ValueOf(text);
    var k: nat := if v < 0 then -v else v;
    NaturalDigits(k);
    NaturalLeads(k);
    n := NumberText(if v < 0 then "-" else "", Natural(k), "", "");
    hide Natural, ValueOf;
  }

  lemma {:induction false} NaturalLeads(n: nat)
    ensures Natural(n)[0] == '0' ==> Natural(n) == "0"
    ensures n > 0 ==> Natural(n)[0] != '0'
  {
    if n >= 10 {
      NaturalLeads(n / 10);
    }
  }

  lemma QuotedWritten(s: string) returns (us: seq<Unit>)
    requires AreBytes(s)
    ensures GoodUnits(us) && Quotation(us) == Quoted(s) && UnitsBytes(us) == s
  {
    us := EscapedUnits(s);
    hide GoodUnits, UnitsText, UnitsBytes, Escaped;
  }

  /** A printed value that is no container. */
  lemma LeafDumped(v: Json) returns (tree: Tree)
    requires WellFormed(v) && !v.List? && !v.Object?
    ensures Good(tree) && Text(tree) == Dump(v) && Value(tree) == v
  {
    hide GoodUnits, Quotation, UnitsBytes, Quoted, IsIntegerText, GoodNumber, Written;
    match v
    case Null => tree := NullWord;
    case True => tree := TrueWord;
    case False => tree := FalseWord;
    case Number(text) =>
      var n := IntegerWritten(text);
      tree := Numeral(n);
    case Str(s) =>
      var us := QuotedWritten(s);
      tree := Quote(us);
  }

  /** A printed value is a text of the grammar, without white space. */
  lemma {:induction false} DumpWritten(v: Json) returns (tree: Tree)
    requires WellFormed(v)
    ensures Good(tree) && Text(tree) == Dump(v) && Value(tree) == v
    decreases v, 1
  {
    hide *;
    NoBlank();
    DumpStep(v);
    if v.List? {
      if v.items == [] {
        tree := EmptyArray("");
        EmptyText(tree);
      } else {
        var w := DumpItemsWritten(v.items);
        tree := Array("", w);
        ArrayText(tree);
      }
      assert Text(tree) == "[" + (DumpItems(v.items) + "]");
    } else if v.Object? {
      if v.fields == [] {
        tree := EmptyRecord("");
        EmptyText(tree);
      } else {
        var w := DumpFieldsWritten(v.fields);
        tree := Record("", w);
        RecordText(tree);
      }
      assert Text(tree) == "{" + (DumpFields(v.fields) + "}");
    } else {
      tree := LeafDumped(v);
    }
  }

  lemma DumpStep(v: Json)
    requires WellFormed(v)
    ensures v.List? ==> WellFormedItems(v.items) && Dump(v) == "[" + (DumpItems(v.items) + "]")
    ensures v.Object? ==> WellFormedFields(v.fields) && Dump(v) == "{" + (DumpFields(v.fields) + "}")
    ensures DumpItems([]) == "" && DumpFields([]) == ""
  {
    hide Quoted, IsIntegerText, WellFormedItems, WellFormedFields;
  }

  lemma ItemsDumped(items: seq<Json>)
    requires items != [] && WellFormedItems(items)
    ensures WellFormed(items[0]) && WellFormedItems(items[1..])
    ensures DumpItems(items) + "]"
         == Dump(items[0]) + if |items| == 1 then "]" else "," + (DumpItems(items[1..]) + "]")
    ensures items == [items[0]] + items[1..]
  {
    hide Dump, WellFormed;
    var rest := if |items| == 1 then "" else "," + DumpItems(items[1..]);
    assert DumpItems(items) == Dump(items[0]) + rest;
    hide *;
    Regroup(Dump(items[0]), rest, "]");
    Regroup(",", DumpItems(items[1..]), "]");
    assert "" + "]" == "]";
  }

  lemma {:induction false} DumpItemsWritten(items: seq<Json>) returns (w: Items)
    requires items != [] && WellFormedItems(items)
    ensures GoodItems(w) && ItemsText(w) == DumpItems(items) + "]" && ValuesOf(w) == items
    decreases items, 0
  {
    hide *;
    ItemsDumped(items);
    NoBlank();
    var tree := DumpWritten(items[0]);
    if |items| == 1 {
      w := LastItem(tree, "");
      LastItemText(tree, "");
      assert "" + "]" == "]";
    } else {
      var rest := DumpItemsWritten(items[1..]);
      w := Item(tree, "", "", rest);
      ItemText(tree, "", "", rest);
      assert "" + ("," + ("" + ItemsText(rest))) == "," + ItemsText(rest);
    }
  }

  lemma FieldsSplit(fields: seq<Field>)
    requires fields != [] && WellFormedFields(fields)
    ensures AreBytes(fields[0].key) && WellFormed(fields[0].value) && WellFormedFields(fields[1..])
    ensures fields == [fields[0]] + fields[1..]
  {
    hide WellFormed, AreBytes;
  }

  lemma FieldsDumped(fields: seq<Field>)
    requires fields != []
    ensures DumpFields(fields) + "}"
         == (Quoted(fields[0].key) + (":" + Dump(fields[0].value)))
            + if |fields| == 1 then "}" else "," + (DumpFields(fields[1..]) + "}")
  {
    hide *;
    var rest := if |fields| == 1 then "" else "," + DumpFields(fields[1..]);
    FieldsText(fields);
    MovesIn(Quoted(fields[0].key), Dump(fields[0].value), rest, "}");
    if |fields| == 1 {
      assert rest + "}" == "}";
    } else {
      Regroup(",", DumpFields(fields[1..]), "}");
    }
  }

  lemma MovesIn(key: string, v: string, rest: string, close: string)
    ensures (key + (":" + (v + rest))) + close == (key + (":" + v)) + (rest + close)
  {
  }

  lemma FieldsText(fields: seq<Field>)
    requires fields != []
    ensures DumpFields(fields)
         == Quoted(fields[0].key)
            + (":" + (Dump(fields[0].value) + if |fields| == 1 then "" else "," + DumpFields(fields[1..])))
  {
    hide Dump, Quoted;
  }

  lemma FieldDumped(f: Field) returns (m: Member)
    requires AreBytes(f.key) && WellFormed(f.value)
    ensures GoodMember(m) && MemberText(m) == Quoted(f.key) + (":" + Dump(f.value)) && FieldOf(m) == f
    decreases f, 2
  {
    hide *;
    var tree := DumpWritten(f.value);
    NoBlank();
    var us := QuotedWritten(f.key);
    m := Member(us, "", "", tree);
    MemberMade(m);
    MemberForm(m);
    MemberHas(m);
    assert "" + (":" + ("" + Text(tree))) == ":" + Text(tree);
  }

  lemma MemberMade(m: Member)
    requires GoodUnits(m.key) && Blank(m.before) && Blank(m.behind) && Good(m.tree)
    ensures GoodMember(m)
  {
    hide GoodUnits, Blank, Good;
  }

  lemma {:induction false} DumpFieldsWritten(fields: seq<Field>) returns (w: Members)
    requires fields != [] && WellFormedFields(fields)
    ensures GoodMembers(w) && MembersText(w) == DumpFields(fields) + "}" && FieldsOf(w) == fields
    decreases fields, 0
  {
    hide *;
    FieldsSplit(fields);
    FieldsDumped(fields);
    NoBlank();
    var m := FieldDumped(fields[0]);
    if |fields| == 1 {
      w := LastMember(m, "");
      LastMemberText(m, "");
      assert "" + "}" == "}";
    } else {
      var rest := DumpFieldsWritten(fields[1..]);
      w := NextMember(m, "", "", rest);
      NextMemberText(m, "", "", rest);
      assert "" + ("," + ("" + MembersText(rest))) == "," + MembersText(rest);
    }
  }

  /** Loading a printed value gives the value back if at most 5000 containers stand inside each other, and
      fails if there are more. */
  lemma LoadDump(v: Json)
    requires WellFormed(v)
    ensures Load(Dump(v)) == if Nesting(v) <= 5000 then Some(v) else None
  {
    hide *;
    var tree := DumpWritten(v);
    NoBlank();
    assert Text(tree) == "" + (Text(tree) + ("" + ""));
    Fills(Dump(v), tree, "", "", "");
    TextLoads(Dump(v), tree);
  }
}
