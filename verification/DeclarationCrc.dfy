/** The loops that compute a declaration's CRC while rendering it, and the constraint they check first. */
module DeclarationCrc {
  import opened Bytes
  import opened Crc
  import opened Declaration

  // ----- variable-length storage comes last

  predicate FieldIsVla(f: Field) {
    f.lengthField.Some? || f.length == Some(0) || (f.block.Some? && IsVla(f.block.value))
  }

  predicate IsVla(b: Block) {
    b.Fields? && exists i :: 0 <= i < |b.fields| && FieldIsVla(b.fields[i])
  }

  /** At every depth, only the last field may end in variable-length storage. */
  predicate VlaLast(b: Block) {
    b.Fields? ==> forall i :: 0 <= i < |b.fields| ==>
      && (b.fields[i].block.Some? ==> VlaLast(b.fields[i].block.value))
      && (FieldIsVla(b.fields[i]) ==> i + 1 == |b.fields|)
  }

  method ComputeIsVla(b: Block) returns (vla: bool)
    ensures vla == IsVla(b)
  {
    if !b.Fields? {
      return false;
    }
    for index := 0 to |b.fields|
      invariant forall i :: 0 <= i < index ==> !FieldIsVla(b.fields[i])
    {
      var field := b.fields[index];
      var nested := false;
      if field.block.Some? {
        nested := ComputeIsVla(field.block.value);
      }
      if field.lengthField.Some? || field.length == Some(0) || nested {
        return true;
      }
    }
    vla := false;
  }

  /** `validate`, with a failed assertion as `false`. */
  method Validate(b: Block) returns (valid: bool)
    ensures valid == VlaLast(b)
  {
    if !b.Fields? {
      return true;
    }
    for index := 0 to |b.fields|
      invariant forall i :: 0 <= i < index ==>
                  && (b.fields[i].block.Some? ==> VlaLast(b.fields[i].block.value))
                  && (FieldIsVla(b.fields[i]) ==> i + 1 == |b.fields|)
    {
      var field := b.fields[index];
      var nested := false;
      if field.block.Some? {
        var inner := Validate(field.block.value);
        if !inner {
          return false;
        }
        nested := ComputeIsVla(field.block.value);
      }
      if (field.lengthField.Some? || field.length == Some(0) || nested) && index + 1 != |b.fields| {
        return false;
      }
    }
    valid := true;
  }

  // ----- rendering into the register

  /** Lengths are machine words and enum values are signed ones. */
  predicate InRange(b: Block) {
    match b
    case Fields(fs) => forall i :: 0 <= i < |fs| ==>
      && (fs[i].length.Some? ==> fs[i].length.value < U64)
      && (fs[i].block.Some? ==> InRange(fs[i].block.value))
    case Enum(vs) => forall i :: 0 <= i < |vs| ==> 0 <= U64 + 2 * vs[i].1 && 2 * vs[i].1 < U64
    case Alias => true
  }

  method StringCrc(crc: bv32, text: string) returns (r: bv32)
    ensures r == Fed(crc, text)
  {
    r := TextCrc(crc, Ascii(text));
  }

  method QuotedCrc(crc: bv32, text: string) returns (r: bv32)
    ensures r == Fed(crc, Quoted(text))
  {
    r := StringCrc(crc, "'");
    r := StringCrc(r, text);
    r := StringCrc(r, "'");
    FedJoin(crc, "'", text);
    FedJoin(crc, "'" + text, "'");
  }

  method LengthCrc(crc: bv32, f: Field) returns (r: bv32)
    requires f.length.Some? ==> f.length.value < U64
    ensures r == Fed(crc, RenderLength(f))
  {
    if f.length.None? {
      return crc;
    }
    var digits := Decimal(f.length.value);
    r := StringCrc(crc, ", ");
    r := IntegerCrc(r, f.length.value);
    FedJoin(crc, ", ", digits);
    r := StringCrc(r, ", ");
    FedJoin(crc, ", " + digits, ", ");
    ghost var done := ", " + digits + ", ";
    match f.lengthField
    case Some(name) =>
      r := QuotedCrc(r, name);
      FedJoin(crc, done, Quoted(name));
    case None =>
      r := StringCrc(r, "None");
      FedJoin(crc, done, "None");
  }

  method FieldCrc(crc: bv32, f: Field) returns (r: bv32)
    requires f.length.Some? ==> f.length.value < U64
    ensures r == Fed(crc, RenderField(f))
  {
    ghost var done := "['";
    r := StringCrc(crc, "['");
    if f.block.Some? {
      r := StringCrc(r, "vl_api_");
      r := StringCrc(r, f.fieldType);
      r := StringCrc(r, "_t");
      FedJoin(Fed(crc, done), "vl_api_", f.fieldType);
      FedJoin(Fed(crc, done), "vl_api_" + f.fieldType, "_t");
    } else {
      r := StringCrc(r, f.fieldType);
    }
    ghost var typeText :=
      if f.block.Some? then "vl_api_" + f.fieldType + "_t" else f.fieldType;
    FedJoin(crc, done, typeText);
    r := StringCrc(r, "', ");
    FedJoin(crc, done + typeText, "', ");
    r := QuotedCrc(r, f.name);
    FedJoin(crc, done + typeText + "', ", Quoted(f.name));
    r := LengthCrc(r, f);
    FedJoin(crc, done + typeText + "', " + Quoted(f.name), RenderLength(f));
    r := StringCrc(r, "]");
    FedJoin(crc, done + typeText + "', " + Quoted(f.name) + RenderLength(f), "]");
  }

  method ValueCrc(crc: bv32, v: (string, int)) returns (r: bv32)
    requires 0 <= U64 + 2 * v.1 && 2 * v.1 < U64
    ensures r == Fed(crc, RenderValue(v))
  {
    r := StringCrc(crc, "[");
    r := QuotedCrc(r, v.0);
    FedJoin(crc, "[", Quoted(v.0));
    r := StringCrc(r, ", ");
    FedJoin(crc, "[" + Quoted(v.0), ", ");
    ghost var done := "[" + Quoted(v.0) + ", ";
    if v.1 < 0 {
      r := StringCrc(r, "-");
      r := IntegerCrc(r, -v.1);
      FedJoin(Fed(crc, done), "-", Decimal(-v.1));
    } else {
      r := IntegerCrc(r, v.1);
    }
    FedJoin(crc, done, Signed(v.1));
    r := StringCrc(r, "]");
    FedJoin(crc, done + Signed(v.1), "]");
  }

  lemma SeparatedNext(items: seq<string>, i: nat)
    requires i < |items|
    ensures Separated(items[..i + 1]) == if i == 0 then items[0] else Separated(items[..i]) + ", " + items[i]
  {
    assert items[..i + 1][..i] == items[..i];
  }

  /** One item of a block, with its separator. */
  lemma FeedItem(crc: bv32, items: seq<string>, i: nat, r: bv32)
    requires i < |items|
    requires var before := Fed(crc, Separated(items[..i]));
             r == Fed(if i == 0 then before else Fed(before, ", "), items[i])
    ensures r == Fed(crc, Separated(items[..i + 1]))
  {
    SeparatedNext(items, i);
    if i != 0 {
      FedJoin(crc, Separated(items[..i]), ", ");
      FedJoin(crc, Separated(items[..i]) + ", ", items[i]);
    }
  }

  method FieldsCrc(crc: bv32, b: Block) returns (r: bv32)
    requires InRange(b) && b.Fields?
    ensures r == Fed(crc, Separated(Items(b)))
  {
    r := crc;
    ghost var items := Items(b);
    for index := 0 to |b.fields|
      invariant r == Fed(crc, Separated(items[..index]))
    {
      if index != 0 {
        r := StringCrc(r, ", ");
      }
      r := FieldCrc(r, b.fields[index]);
      FeedItem(crc, items, index, r);
    }
    assert items[..|items|] == items;
  }

  method ValuesCrc(crc: bv32, b: Block) returns (r: bv32)
    requires InRange(b) && b.Enum?
    ensures r == Fed(crc, Separated(Items(b)))
  {
    r := crc;
    ghost var items := Items(b);
    for index := 0 to |b.values|
      invariant r == Fed(crc, Separated(items[..index]))
    {
      if index != 0 {
        r := StringCrc(r, ", ");
      }
      r := ValueCrc(r, b.values[index]);
      FeedItem(crc, items, index, r);
    }
    assert items[..|items|] == items;
  }

  method BlockCrc(crc: bv32, b: Block) returns (r: bv32)
    requires InRange(b)
    ensures r == Fed(crc, RenderBlock(b))
  {
    r := StringCrc(crc, "[");
    match b {
    case Fields(_) => r := FieldsCrc(r, b);
    case Enum(_) => r := ValuesCrc(r, b);
    case Alias =>
    }
    ghost var items := Items(b);
    FedJoin(crc, "[", Separated(items));
    r := StringCrc(r, "]");
    FedJoin(crc, "[" + Separated(items), "]");
  }

  method Fold(b: Block, crc: bv32) returns (r: bv32)
    requires InRange(b)
    ensures r == Fed(crc, RenderDependencies(b))
    decreases b
  {
    r := crc;
    if b.Fields? {
      for index := 0 to |b.fields|
        invariant r == Fed(crc, RenderFieldDependencies(b, index))
      {
        if b.fields[index].block.Some? {
          var dependency := b.fields[index].block.value;
          var r1 := BlockCrc(r, dependency);
          var r2 := Fold(dependency, r1);
          FedJoin(r, RenderBlock(dependency), RenderDependencies(dependency));
          FeedDependency(b, index, crc, r);
          r := r2;
        } else {
          FeedDependency(b, index, crc, r);
        }
      }
    }
  }

  function DependencyText(f: Field): string {
    if f.block.Some? then Rendered(f.block.value) else []
  }

  lemma FeedDependency(b: Block, index: nat, crc: bv32, r: bv32)
    requires b.Fields? && index < |b.fields| && r == Fed(crc, RenderFieldDependencies(b, index))
    ensures Fed(r, DependencyText(b.fields[index])) == Fed(crc, RenderFieldDependencies(b, index + 1))
  {
    FedJoin(crc, RenderFieldDependencies(b, index), DependencyText(b.fields[index]));
  }

  /** `Block::crc`: the published CRC-32 of the rendered declaration, or nothing for an invalid one. */
  method DeclarationCrc(b: Block) returns (crc: Option<bv32>)
    requires InRange(b)
    ensures crc == if VlaLast(b) then Some(Crc32(Ascii(Rendered(b)))) else None
  {
    var valid := Validate(b);
    if !valid {
      return None;
    }
    var r := BlockCrc(Not(0), b);
    r := Fold(b, r);
    FedJoin(Not(0), RenderBlock(b), RenderDependencies(b));
    BitwiseIsCrc32(Ascii(Rendered(b)));
    crc := Some(Not(r));
  }
}
