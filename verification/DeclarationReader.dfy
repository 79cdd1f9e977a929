/**
  A reader of the declaration text, written from its grammar: a bracketed list of fields or enumerators, then the
  same again for every type the fields refer to. What it gets back from a rendered declaration is the declaration.
 */
module DeclarationReader {
  import opened Bytes
  import opened Declaration

  /** A field with its type, or an enumerator. `length` is there for arrays, with the field that counts them. */
  datatype Item =
    | FieldItem(fieldType: string, referenced: bool, name: string, length: Option<(nat, Option<string>)>)
    | ValueItem(name: string, value: int)

  /** The block's own items, and the trees of the types its fields refer to, in field order. */
  datatype Tree = Tree(items: seq<Item>, types: seq<Tree>)

  /** What was read, and the text after it. */
  type Read<T> = Option<(T, string)>

  // ----- the reader

  const OPEN: char := '['
  const CLOSE: char := ']'
  const QUOTE: char := '\''
  const COMMA: string := [',', ' ']

  predicate Starts(t: string, c: char) { t != [] && t[0] == c }

  function Eat(t: string, literal: string): (rest: Option<string>)
    ensures rest.Some? ==> |rest.value| == |t| - |literal|
  {
    if |literal| <= |t| && t[..|literal|] == literal then Some(t[|literal|..]) else None
  }

  /** Everything up to the next quote, which is dropped. */
  function UntilQuote(t: string): (r: Read<string>)
    ensures r.Some? ==> |r.value.1| < |t|
  {
    if t == [] then None
    else if t[0] == QUOTE then Some(("", t[1..]))
    else
      var r := UntilQuote(t[1..]);
      if r.None? then None else Some(([t[0]] + r.value.0, r.value.1))
  }

  predicate IsDigit(c: char) { '0' <= c <= '9' }

  function Digits(n: nat, t: string): (r: (nat, string))
    ensures |r.1| <= |t|
    decreases |t|
  {
    if t != [] && IsDigit(t[0]) then Digits(10 * n + (t[0] as nat - 48), t[1..]) else (n, t)
  }

  function Number(t: string): (r: Read<nat>)
    ensures r.Some? ==> |r.value.1| < |t|
  {
    if t == [] || !IsDigit(t[0]) then None else Some(Digits(t[0] as nat - 48, t[1..]))
  }

  /** A referenced type is written `vl_api_<name>_t`. */
  function TypeName(s: string): (string, bool) {
    if 9 <= |s| && s[..7] == "vl_api_" && s[|s| - 2..] == "_t" then (s[7..|s| - 2], true) else (s, false)
  }

  function Counter(t: string): (r: Read<Option<string>>)
    ensures r.Some? ==> |r.value.1| <= |t|
  {
    if Starts(t, QUOTE) then
      var name := UntilQuote(t[1..]);
      if name.None? then None else Some((Some(name.value.0), name.value.1))
    else
      var rest := Eat(t, ['N', 'o', 'n', 'e']);
      if rest.None? then None else Some((None, rest.value))
  }

  function Length(t: string): (r: Read<Option<(nat, Option<string>)>>)
    ensures r.Some? ==> |r.value.1| <= |t|
  {
    var a := Eat(t, COMMA);
    if a.None? then Some((None, t))
    else
      var n := Number(a.value);
      if n.None? then None
      else
        var b := Eat(n.value.1, COMMA);
        if b.None? then None
        else
          var counter := Counter(b.value);
          if counter.None? then None else Some((Some((n.value.0, counter.value.0)), counter.value.1))
  }

  /** The rest of a field, behind its type and the quote that opens its name. */
  function FieldRest(first: string, t: string): (r: Read<Item>)
    ensures r.Some? ==> |r.value.1| < |t|
  {
    var name := UntilQuote(t);
    if name.None? then None
    else
      var length := Length(name.value.1);
      if length.None? || !Starts(length.value.1, CLOSE) then None
      else
        Some((FieldItem(TypeName(first).0, TypeName(first).1, name.value.0, length.value.0), length.value.1[1..]))
  }

  function Signum(negative: bool): int { if negative then -1 else 1 }

  /** The rest of an enumerator, behind its name. */
  function ValueRest(first: string, t: string): (r: Read<Item>)
    ensures r.Some? ==> |r.value.1| < |t|
  {
    var negative := Starts(t, '-');
    var n := Number(if negative then t[1..] else t);
    if n.None? || !Starts(n.value.1, CLOSE) then None
    else Some((ValueItem(first, Signum(negative) * n.value.0), n.value.1[1..]))
  }

  function ReadItem(t: string): (r: Read<Item>)
    ensures r.Some? ==> |r.value.1| < |t|
  {
    var a := Eat(t, [OPEN, QUOTE]);
    if a.None? then None
    else
      var first := UntilQuote(a.value);
      if first.None? then None
      else
        var b := Eat(first.value.1, COMMA);
        if b.None? then None
        else if Starts(b.value, QUOTE) then FieldRest(first.value.0, b.value[1..])
        else ValueRest(first.value.0, b.value)
  }

  /** Items up to the closing bracket, each with its separator in front. */
  function ReadMore(t: string): (r: Read<seq<Item>>)
    ensures r.Some? ==> |r.value.1| < |t|
    decreases |t|
  {
    if Starts(t, CLOSE) then Some(([], t[1..]))
    else
      var a := Eat(t, COMMA);
      if a.None? then None
      else
        var item := ReadItem(a.value);
        if item.None? then None
        else
          var more := ReadMore(item.value.1);
          if more.None? then None else Some(([item.value.0] + more.value.0, more.value.1))
  }

  function ReadBlock(t: string): (r: Read<seq<Item>>)
    ensures r.Some? ==> |r.value.1| < |t|
  {
    if !Starts(t, OPEN) then None
    else if Starts(t[1..], CLOSE) then Some(([], t[2..]))
    else
      var item := ReadItem(t[1..]);
      if item.None? then None
      else
        var more := ReadMore(item.value.1);
        if more.None? then None else Some(([item.value.0] + more.value.0, more.value.1))
  }

  function References(items: seq<Item>): nat {
    if items == [] then 0
    else (if items[0].FieldItem? && items[0].referenced then 1 else 0) + References(items[1..])
  }

  function ReadTree(t: string): (r: Read<Tree>)
    ensures r.Some? ==> |r.value.1| < |t|
    decreases |t|, 0
  {
    var block := ReadBlock(t);
    if block.None? then None
    else
      var types := ReadTypes(References(block.value.0), block.value.1);
      if types.None? then None else Some((Tree(block.value.0, types.value.0), types.value.1))
  }

  function ReadTypes(n: nat, t: string): (r: Read<seq<Tree>>)
    ensures r.Some? ==> |r.value.1| <= |t|
    decreases |t|, 1
  {
    if n == 0 then Some(([], t))
    else
      var first := ReadTree(t);
      if first.None? then None
      else
        var rest := ReadTypes(n - 1, first.value.1);
        if rest.None? then None else Some(([first.value.0] + rest.value.0, rest.value.1))
  }

  // ----- what there is to read

  /** Protocol identifiers contain no quotes. */
  predicate Clean(s: string) { forall i :: 0 <= i < |s| ==> s[i] != '\'' }

  predicate PlainField(f: Field) {
    && Clean(f.name) && Clean(f.fieldType) && (f.lengthField.Some? ==> Clean(f.lengthField.value))
    && (f.block.None? ==> !TypeName(f.fieldType).1)
  }

  predicate Plain(b: Block) {
    match b
    case Fields(fs) =>
      forall i :: 0 <= i < |fs| ==> PlainField(fs[i]) && (fs[i].block.Some? ==> Plain(fs[i].block.value))
    case Enum(vs) => forall i :: 0 <= i < |vs| ==> Clean(vs[i].0)
    case Alias => true
  }

  function ItemOf(f: Field): Item {
    FieldItem(f.fieldType, f.block.Some?, f.name,
              match f.length { case None => None case Some(n) => Some((n, f.lengthField)) })
  }

  function ItemsOf(b: Block): seq<Item> {
    match b
    case Fields(fs) => seq(|fs|, i requires 0 <= i < |fs| => ItemOf(fs[i]))
    case Enum(vs) => seq(|vs|, i requires 0 <= i < |vs| => ValueItem(vs[i].0, vs[i].1))
    case Alias => []
  }

  /** The declaration as the text shows it: an alias and an empty block look alike. */
  function TreeOf(b: Block): Tree
    decreases b, 0
  {
    Tree(ItemsOf(b), match b { case Fields(fs) => TypesFrom(b, 0) case _ => [] })
  }

  function TypesFrom(b: Block, i: nat): seq<Tree>
    requires b.Fields? && i <= |b.fields|
    decreases b, 0, |b.fields| - i
  {
    if i == |b.fields| then []
    else
      var f := b.fields[i];
      (if f.block.Some? then [TreeOf(f.block.value)] else []) + TypesFrom(b, i + 1)
  }

  // ----- small readers

  lemma EatReads(literal: string, rest: string)
    ensures Eat(literal + rest, literal) == Some(rest)
  {
    assert (literal + rest)[..|literal|] == literal && (literal + rest)[|literal|..] == rest;
  }

  lemma {:induction false} QuoteReads(s: string, rest: string)
    requires Clean(s)
    ensures UntilQuote(s + "'" + rest) == Some((s, rest))
  {
    var t := s + "'" + rest;
    if s == [] {
      assert t[0] == QUOTE && t[1..] == rest;
    } else {
      QuoteReads(s[1..], rest);
      assert t[0] == s[0] && t[1..] == s[1..] + "'" + rest;
      assert [s[0]] + s[1..] == s;
    }
  }

  predicate AllDigits(t: string) { forall i :: 0 <= i < |t| ==> IsDigit(t[i]) }

  predicate NoDigit(t: string) { t == [] || !IsDigit(t[0]) }

  lemma DigitIs(d: nat)
    requires d < 10
    ensures IsDigit(Digit(d)) && Digit(d) as nat - 48 == d
  {
  }

  lemma {:induction false} DecimalDigits(n: nat)
    ensures AllDigits(Decimal(n))
  {
    DigitIs(n % 10);
    if 10 <= n { DecimalDigits(n / 10); }
  }

  /** Reading digits one at a time from the left. */
  function Shifted(n: nat, t: string): nat
    requires AllDigits(t)
  {
    if t == [] then n else 10 * Shifted(n, t[..|t| - 1]) + (t[|t| - 1] as nat - 48)
  }

  lemma {:induction false} DigitsRead(n: nat, t: string, rest: string)
    requires AllDigits(t) && NoDigit(rest)
    ensures Digits(n, t + rest) == (Shifted(n, t), rest)
    decreases |t|
  {
    if t == [] {
      assert t + rest == rest;
    } else {
      var m := 10 * n + (t[0] as nat - 48);
      assert (t + rest)[0] == t[0] && (t + rest)[1..] == t[1..] + rest;
      DigitsRead(m, t[1..], rest);
      ShiftedFront(n, t);
    }
  }

  lemma {:induction false} ShiftedFront(n: nat, t: string)
    requires AllDigits(t) && t != []
    ensures Shifted(n, t) == Shifted(10 * n + (t[0] as nat - 48), t[1..])
    decreases |t|
  {
    if 1 < |t| {
      var front := t[..|t| - 1];
      ShiftedFront(n, front);
      assert front[1..] == t[1..][..|t[1..]| - 1];
    } else {
      assert t[..0] == [] && t[1..] == [];
    }
  }

  lemma {:induction false} ShiftedDecimal(n: nat)
    requires AllDigits(Decimal(n))
    ensures Shifted(0, Decimal(n)) == n
  {
    DigitIs(n % 10);
    if 10 <= n {
      DecimalDigits(n / 10);
      ShiftedDecimal(n / 10);
      assert Decimal(n)[..|Decimal(n)| - 1] == Decimal(n / 10);
    } else {
      assert Decimal(n)[..0] == [];
    }
  }

  lemma NumberReads(n: nat, rest: string)
    requires NoDigit(rest)
    ensures Number(Decimal(n) + rest) == Some((n, rest))
  {
    var t := Decimal(n);
    DecimalDigits(n);
    DigitsRead(0, t, rest);
    ShiftedDecimal(n);
    assert (t + rest)[0] == t[0];
  }

  // ----- items

  function CounterText(name: Option<string>): string {
    match name { case Some(s) => Quoted(s) case None => "None" }
  }

  lemma CounterReads(name: Option<string>, rest: string)
    requires name.Some? ==> Clean(name.value)
    ensures Counter(CounterText(name) + rest) == Some((name, rest))
  {
    var t := CounterText(name) + rest;
    match name
    case Some(s) =>
      assert t[0] == QUOTE && t[1..] == s + "'" + rest;
      QuoteReads(s, rest);
    case None =>
      assert t[0] == 'N';
      EatReads("None", rest);
  }

  lemma LengthReads(f: Field, rest: string)
    requires PlainField(f) && Starts(rest, CLOSE)
    ensures Length(RenderLength(f) + rest) == Some((ItemOf(f).length, rest))
  {
    match f.length
    case None =>
      assert RenderLength(f) + rest == rest;
    case Some(n) =>
      var counter := CounterText(f.lengthField) + rest;
      var tail := ", " + counter;
      assert RenderLength(f) + rest == ", " + (Decimal(n) + tail);
      EatReads(", ", Decimal(n) + tail);
      NumberReads(n, tail);
      EatReads(", ", counter);
      CounterReads(f.lengthField, rest);
  }

  lemma FieldRestReads(first: string, f: Field, rest: string)
    requires PlainField(f)
    ensures FieldRest(first, f.name + "'" + RenderLength(f) + "]" + rest)
         == Some((FieldItem(TypeName(first).0, TypeName(first).1, f.name, ItemOf(f).length), rest))
  {
    var close := "]" + rest;
    assert f.name + "'" + RenderLength(f) + "]" + rest == f.name + "'" + (RenderLength(f) + close);
    QuoteReads(f.name, RenderLength(f) + close);
    LengthReads(f, close);
    assert close[1..] == rest;
  }

  lemma HeadReads(first: string, rest: string)
    requires Clean(first)
    ensures ReadItem("['" + first + "'" + ", " + rest)
         == if Starts(rest, QUOTE) then FieldRest(first, rest[1..]) else ValueRest(first, rest)
  {
    var after := ", " + rest;
    assert "['" + first + "'" + ", " + rest == "['" + (first + "'" + after);
    assert "['" == [OPEN, QUOTE];
    EatReads("['", first + "'" + after);
    QuoteReads(first, after);
    EatReads(", ", rest);
  }

  function TypeText(f: Field): string { if f.block.Some? then "vl_api_" + f.fieldType + "_t" else f.fieldType }

  lemma TypeReads(f: Field)
    requires PlainField(f)
    ensures Clean(TypeText(f)) && TypeName(TypeText(f)) == (f.fieldType, f.block.Some?)
  {
    if f.block.Some? {
      var s := TypeText(f);
      assert s[..7] == "vl_api_" && s[|s| - 2..] == "_t" && s[7..|s| - 2] == f.fieldType;
    }
  }

  /** A rendered field is read back, whatever follows it. */
  lemma FieldReads(f: Field, rest: string)
    requires PlainField(f)
    ensures ReadItem(RenderField(f) + rest) == Some((ItemOf(f), rest))
  {
    var tail := f.name + "'" + RenderLength(f) + "]" + rest;
    var named := "'" + tail;
    assert RenderField(f) + rest == "['" + TypeText(f) + "'" + ", " + named;
    TypeReads(f);
    HeadReads(TypeText(f), named);
    assert named[1..] == tail;
    FieldRestReads(TypeText(f), f, rest);
  }

  lemma PositiveReads(first: string, n: nat, close: string)
    requires Starts(close, CLOSE)
    ensures var t := Decimal(n) + close;
            !Starts(t, QUOTE) && ValueRest(first, t) == Some((ValueItem(first, n), close[1..]))
  {
    DecimalDigits(n);
    NumberReads(n, close);
    assert (Decimal(n) + close)[0] == Decimal(n)[0];
  }

  lemma NegativeReads(first: string, n: int, close: string)
    requires 0 <= n && Starts(close, CLOSE)
    ensures var t := "-" + (Decimal(n) + close);
            !Starts(t, QUOTE) && ValueRest(first, t) == Some((ValueItem(first, -n), close[1..]))
  {
    NumberReads(n, close);
    var t := "-" + (Decimal(n) + close);
    assert t[0] == '-' && t[1..] == Decimal(n) + close;
  }

  lemma ValueRestReads(first: string, n: int, rest: string)
    ensures var t := Signed(n) + "]" + rest;
            !Starts(t, QUOTE) && ValueRest(first, t) == Some((ValueItem(first, n), rest))
  {
    var close := "]" + rest;
    assert close[1..] == rest;
    if n < 0 {
      NegativeReads(first, -n, close);
      Regroup("-", Decimal(-n), "", "]", rest);
      assert Signed(n) + "]" + rest == "-" + (Decimal(-n) + close);
    } else {
      PositiveReads(first, n, close);
      assert Signed(n) + "]" + rest == Decimal(n) + close;
    }
  }

  lemma ValueReads(v: (string, int), rest: string)
    requires Clean(v.0)
    ensures ReadItem(RenderValue(v) + rest) == Some((ValueItem(v.0, v.1), rest))
  {
    var tail := Signed(v.1) + "]" + rest;
    assert RenderValue(v) + rest == "['" + v.0 + "'" + ", " + tail;
    HeadReads(v.0, tail);
    ValueRestReads(v.0, v.1, rest);
  }

  lemma ItemReads(b: Block, i: nat, rest: string)
    requires Plain(b) && i < |Items(b)|
    ensures |ItemsOf(b)| == |Items(b)| && ReadItem(Items(b)[i] + rest) == Some((ItemsOf(b)[i], rest))
  {
    match b
    case Fields(fs) => FieldReads(fs[i], rest);
    case Enum(vs) => ValueReads(vs[i], rest);
  }

  // ----- blocks

  /** The items from the `i`-th on, each with its separator in front. */
  function Following(items: seq<string>, i: nat): string
    requires i <= |items|
    decreases |items| - i
  {
    if i == |items| then "" else ", " + items[i] + Following(items, i + 1)
  }

  lemma {:induction false} SeparatedSplit(items: seq<string>, i: nat)
    requires 0 < i <= |items|
    ensures Separated(items) == Separated(items[..i]) + Following(items, i)
    decreases |items| - i
  {
    if i == |items| {
      assert items[..i] == items;
    } else {
      SeparatedSplit(items, i + 1);
      assert items[..i + 1][..i] == items[..i];
      assert Separated(items[..i]) + ", " + items[i] + Following(items, i + 1)
          == Separated(items[..i]) + (", " + items[i] + Following(items, i + 1));
    }
  }

  /** The text is an item, and is read as `item` whatever follows it. */
  ghost predicate ReadsAs(text: string, item: Item) {
    Starts(text, OPEN) && forall rest :: ReadItem(text + rest) == Some((item, rest))
  }

  ghost predicate AllRead(texts: seq<string>, items: seq<Item>) {
    |texts| == |items| && forall i :: 0 <= i < |texts| ==> ReadsAs(texts[i], items[i])
  }

  lemma ItemsRead(b: Block)
    requires Plain(b)
    ensures AllRead(Items(b), ItemsOf(b))
  {
    forall i | 0 <= i < |Items(b)| ensures ReadsAs(Items(b)[i], ItemsOf(b)[i]) {
      forall rest ensures ReadItem(Items(b)[i] + rest) == Some((ItemsOf(b)[i], rest)) { ItemReads(b, i, rest); }
    }
  }

  lemma MoreReads(texts: seq<string>, items: seq<Item>, i: nat, more: string, read: seq<Item>, rest: string)
    requires AllRead(texts, items) && i < |texts| && ReadMore(more) == Some((read, rest))
    ensures ReadMore(", " + (texts[i] + more)) == Some(([items[i]] + read, rest))
  {
    EatReads(", ", texts[i] + more);
    assert ReadsAs(texts[i], items[i]);
  }

  lemma FirstReads(texts: seq<string>, items: seq<Item>, more: string, read: seq<Item>, rest: string)
    requires AllRead(texts, items) && texts != [] && ReadMore(more) == Some((read, rest))
    ensures ReadBlock("[" + (texts[0] + more)) == Some(([items[0]] + read, rest))
  {
    var t := "[" + (texts[0] + more);
    assert ReadsAs(texts[0], items[0]);
    assert t[0] == OPEN && t[1..] == texts[0] + more && (texts[0] + more)[0] == texts[0][0];
  }

  lemma Regroup(a: string, b: string, c: string, d: string, e: string)
    ensures a + b + c + d + e == a + (b + (c + d + e))
  {
  }

  lemma CloseReads(rest: string)
    ensures ReadMore("" + "]" + rest) == Some(([], rest)) && ReadBlock("[" + "" + "]" + rest) == Some(([], rest))
  {
    var t, u := "" + "]" + rest, "[" + "" + "]" + rest;
    assert t[0] == CLOSE && t[1..] == rest;
    assert u[0] == OPEN && u[1..] == t && u[2..] == rest;
  }

  /** What is left of the block in front of item `i`, and everything behind it. */
  function More(texts: seq<string>, i: nat, rest: string): string
    requires i <= |texts|
  {
    Following(texts, i) + "]" + rest
  }

  lemma MoreStep(texts: seq<string>, i: nat, rest: string)
    requires i < |texts|
    ensures More(texts, i, rest) == ", " + (texts[i] + More(texts, i + 1, rest))
  {
    Regroup(", ", texts[i], Following(texts, i + 1), "]", rest);
  }

  lemma {:induction false} FollowingReads(texts: seq<string>, items: seq<Item>, i: nat, rest: string)
    requires AllRead(texts, items) && i <= |texts|
    ensures ReadMore(More(texts, i, rest)) == Some((items[i..], rest))
    decreases |texts| - i
  {
    if i == |texts| {
      CloseReads(rest);
    } else {
      FollowingReads(texts, items, i + 1, rest);
      MoreStep(texts, i, rest);
      MoreReads(texts, items, i, More(texts, i + 1, rest), items[i + 1..], rest);
      assert [items[i]] + items[i + 1..] == items[i..];
    }
  }

  lemma BracketsRead(texts: seq<string>, items: seq<Item>, rest: string)
    requires AllRead(texts, items)
    ensures ReadBlock("[" + Separated(texts) + "]" + rest) == Some((items, rest))
  {
    if texts == [] {
      CloseReads(rest);
    } else {
      SeparatedSplit(texts, 1);
      assert texts[..1] == [texts[0]];
      var more := More(texts, 1, rest);
      BracketsRegroup("[", texts[0], Following(texts, 1), "]", rest);
      FollowingReads(texts, items, 1, rest);
      FirstReads(texts, items, more, items[1..], rest);
      assert [items[0]] + items[1..] == items;
    }
  }

  lemma BracketsRegroup(a: string, b: string, c: string, d: string, e: string)
    ensures a + (b + c) + d + e == a + (b + (c + d + e))
  {
  }

  /** A rendered block is read back item by item, whatever follows it. */
  lemma BlockReads(b: Block, rest: string)
    requires Plain(b)
    ensures ReadBlock(RenderBlock(b) + rest) == Some((ItemsOf(b), rest))
  {
    ItemsRead(b);
    BracketsRead(Items(b), ItemsOf(b), rest);
  }

  // ----- whole declarations

  /** The texts of the types referred to from field `i` on. */
  function TypesText(b: Block, i: nat): string
    requires b.Fields? && i <= |b.fields|
    decreases |b.fields| - i
  {
    if i == |b.fields| then ""
    else OwnText(b, i) + TypesText(b, i + 1)
  }

  function OwnText(b: Block, i: nat): string
    requires b.Fields? && i < |b.fields|
  {
    if b.fields[i].block.Some? then Rendered(b.fields[i].block.value) else ""
  }

  lemma DependenciesNext(b: Block, i: nat)
    requires b.Fields? && i < |b.fields|
    ensures RenderFieldDependencies(b, i + 1) == RenderFieldDependencies(b, i) + OwnText(b, i)
  {
  }

  lemma Associates(a: string, b: string, c: string)
    ensures a + b + c == a + (b + c)
  {
  }

  lemma {:induction false} DependenciesSplit(b: Block, i: nat)
    requires b.Fields? && i <= |b.fields|
    ensures RenderDependencies(b) == RenderFieldDependencies(b, i) + TypesText(b, i)
    decreases |b.fields| - i
  {
    if i < |b.fields| {
      DependenciesSplit(b, i + 1);
      DependenciesNext(b, i);
      Associates(RenderFieldDependencies(b, i), OwnText(b, i), TypesText(b, i + 1));
    } else {
      assert TypesText(b, i) == "";
    }
  }

  lemma {:induction false} ReferencesFrom(b: Block, i: nat)
    requires b.Fields? && i <= |b.fields|
    ensures References(ItemsOf(b)[i..]) == |TypesFrom(b, i)|
    decreases |b.fields| - i
  {
    if i < |b.fields| {
      ReferencesFrom(b, i + 1);
      assert ItemsOf(b)[i..][1..] == ItemsOf(b)[i + 1..];
    }
  }

  lemma {:induction false} NoReferences(items: seq<Item>)
    requires forall i :: 0 <= i < |items| ==> items[i].ValueItem?
    ensures References(items) == 0
  {
    if items != [] { NoReferences(items[1..]); }
  }

  lemma {:induction false} TypesRead(b: Block, i: nat, rest: string)
    requires b.Fields? && i <= |b.fields| && Plain(b)
    ensures ReadTypes(|TypesFrom(b, i)|, TypesText(b, i) + rest) == Some((TypesFrom(b, i), rest))
    decreases b, 0, |b.fields| - i
  {
    if i == |b.fields| {
      assert TypesText(b, i) + rest == rest;
    } else {
      var f, more := b.fields[i], TypesText(b, i + 1) + rest;
      Associates(OwnText(b, i), TypesText(b, i + 1), rest);
      TypesRead(b, i + 1, rest);
      if f.block.Some? {
        TreeReads(f.block.value, more);
        TypesCons(OwnText(b, i) + more, TreeOf(f.block.value), more, TypesFrom(b, i + 1), rest);
      } else {
        NothingFirst(b, i, more);
      }
    }
  }

  lemma NothingFirst(b: Block, i: nat, more: string)
    requires b.Fields? && i < |b.fields| && b.fields[i].block.None?
    ensures OwnText(b, i) + more == more && TypesFrom(b, i) == TypesFrom(b, i + 1)
  {
  }

  lemma TypesCons(t: string, tree: Tree, more: string, trees: seq<Tree>, rest: string)
    requires ReadTree(t) == Some((tree, more)) && ReadTypes(|trees|, more) == Some((trees, rest))
    ensures ReadTypes(|[tree] + trees|, t) == Some(([tree] + trees, rest))
  {
  }

  /** A rendered declaration is read back whole: its items, and the trees of the types they refer to. */
  lemma {:induction false} TreeReads(b: Block, rest: string)
    requires Plain(b)
    ensures ReadTree(Rendered(b) + rest) == Some((TreeOf(b), rest))
    decreases b, 1
  {
    var types := RenderDependencies(b) + rest;
    assert Rendered(b) + rest == RenderBlock(b) + types;
    BlockReads(b, types);
    if b.Fields? {
      DependenciesSplit(b, 0);
      assert RenderDependencies(b) == TypesText(b, 0);
      ReferencesFrom(b, 0);
      assert ItemsOf(b)[0..] == ItemsOf(b);
      TypesRead(b, 0, rest);
    } else {
      NoReferences(ItemsOf(b));
      assert types == rest;
    }
  }

  /** So two declarations with one text have the same fields, enumerators and dependencies. */
  lemma TextDetermines(a: Block, b: Block)
    requires Plain(a) && Plain(b) && Rendered(a) == Rendered(b)
    ensures TreeOf(a) == TreeOf(b)
  {
    TreeReads(a, "");
    TreeReads(b, "");
  }

  /** The bytes that are hashed are the characters' codes, as long as they are ASCII. */
  lemma AsciiReads(s: string, i: nat)
    requires i < |s| && s[i] as int < 128
    ensures Ascii(s)[i] as int == s[i] as int
  {
  }
}
