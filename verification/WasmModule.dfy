/** The module decoder: sections in order, every vector under a ceiling, every name UTF-8. */
module WasmModule {
  import opened Basics
  import opened WasmSyntax
  import Leb

  datatype Error = NotWasm | UnsupportedVersion | Malformed | Truncated | Unsupported | TooLarge

  type Reading<+T> = Result<Leb.Read<T>, Error>

  const MAX_TYPES: nat := 128
  const MAX_IMPORTS: nat := 32
  const MAX_FUNCTIONS: nat := 256
  const MAX_EXPORTS: nat := 64
  const MAX_LOCALS: nat := 256
  const MAX_MEMORY_PAGES: nat := 16
  const MAX_DATA_SEGMENTS: nat := 32
  const MAX_MODULE_BYTES: nat := 128 * 1024

  const MAGIC: seq<byte> := [0x00, 0x61, 0x73, 0x6d]
  const VERSION: seq<byte> := [1, 0, 0, 0]

  function Lift<T>(r: Result<T, Leb.Error>): Result<T, Error> {
    match r
    case Ok(v) => Ok(v)
    case Err(e) => Err(if e.Truncated? then Truncated else Error.Malformed)
  }

  // ----- items -----

  function DecodeIndex(bytes: seq<byte>, at: nat): (r: Reading<u32>)
    ensures r.Ok? ==> at < r.value.next <= |bytes|
  {
    Lift(Leb.U32(bytes, at))
  }

  function DecodeByte(bytes: seq<byte>, at: nat): (r: Reading<byte>)
    ensures r.Ok? ==> at < r.value.next <= |bytes|
  {
    Lift(Leb.Byte(bytes, at))
  }

  function DecodeSlice(bytes: seq<byte>, at: nat, length: nat): (r: Reading<seq<byte>>)
    ensures r.Ok? ==> r.value.next <= |bytes|
  {
    if at + length > |bytes| then Err(Truncated) else Ok(Leb.Read(bytes[at..at + length], at + length))
  }

  function ValueTypeOf(b: byte): Result<ValueType, Error> {
    if b == 0x7f then Ok(TypeI32)
    else if b == 0x7e then Ok(TypeI64)
    else if b == 0x7d || b == 0x7c then Err(Error.Unsupported)
    else Err(Error.Malformed)
  }

  function DecodeValueType(bytes: seq<byte>, at: nat): (r: Reading<ValueType>)
    ensures r.Ok? ==> at < r.value.next <= |bytes|
  {
    var b :- DecodeByte(bytes, at);
    var valueType :- ValueTypeOf(b.value);
    Ok(Leb.Read(valueType, b.next))
  }

  /** `count` items one after another. */
  function Items<T>(item: (seq<byte>, nat) -> Reading<T>, bytes: seq<byte>, at: nat, count: nat): (r: Reading<seq<T>>)
    ensures r.Ok? ==> |r.value.value| == count
    decreases count
  {
    if count == 0 then
      Ok(Leb.Read([], at))
    else
      var first :- item(bytes, at);
      var rest :- Items(item, bytes, first.next, count - 1);
      Ok(Leb.Read([first.value] + rest.value, rest.next))
  }

  /** A vector whose length must not pass a ceiling. */
  function Vector<T>(item: (seq<byte>, nat) -> Reading<T>, bytes: seq<byte>, at: nat,
        ceiling: nat): (r: Reading<seq<T>>)
    ensures r.Ok? ==> |r.value.value| <= ceiling
  {
    var count :- DecodeIndex(bytes, at);
    if count.value > ceiling then Err(TooLarge) else Items(item, bytes, count.next, count.value)
  }

  /** Well-formed UTF-8: no overlong forms, no surrogates, nothing past U+10FFFF. */
  predicate IsUtf8(text: seq<byte>) {
    if text == [] then true
    else
      var b := text[0];
      var width := if b < 0x80 then 1 else if 0xc2 <= b <= 0xdf then 2 else if 0xe0 <= b <= 0xef then 3
                   else if 0xf0 <= b <= 0xf4 then 4 else 0;
      && 0 < width <= |text|
      && (forall i :: 1 <= i < width ==> 0x80 <= text[i] <= 0xbf)
      && (b == 0xe0 ==> text[1] >= 0xa0)
      && (b == 0xed ==> text[1] <= 0x9f)
      && (b == 0xf0 ==> text[1] >= 0x90)
      && (b == 0xf4 ==> text[1] <= 0x8f)
      && IsUtf8(text[width..])
  }

  function DecodeName(bytes: seq<byte>, at: nat): Reading<seq<byte>> {
    var length :- DecodeIndex(bytes, at);
    var text :- DecodeSlice(bytes, length.next, length.value);
    if IsUtf8(text.value) then Ok(text) else Err(Error.Malformed)
  }

  function DecodeType(bytes: seq<byte>, at: nat): Reading<FuncType> {
    var form :- DecodeByte(bytes, at);
    if form.value != 0x60 then Err(Error.Malformed)
    else
      var paramCount :- DecodeIndex(bytes, form.next);
      var params :- Items(DecodeValueType, bytes, paramCount.next, paramCount.value);
      var resultCount :- DecodeIndex(bytes, params.next);
      if resultCount.value > 1 then Err(Error.Unsupported)
      else
        var results :- Items(DecodeValueType, bytes, resultCount.next, resultCount.value);
        Ok(Leb.Read(FuncType(params.value, results.value), results.next))
  }

  function DecodeImport(bytes: seq<byte>, at: nat): Reading<ImportRef> {
    var moduleName :- DecodeName(bytes, at);
    var name :- DecodeName(bytes, moduleName.next);
    var kind :- DecodeByte(bytes, name.next);
    if kind.value == 0x00 then
      var typeIndex :- DecodeIndex(bytes, kind.next);
      Ok(Leb.Read(ImportRef(moduleName.value, name.value, typeIndex.value), typeIndex.next))
    else if kind.value <= 0x03 then Err(Error.Unsupported)
    else Err(Error.Malformed)
  }

  /** Exports of anything but a function are read and dropped. */
  function DecodeExport(bytes: seq<byte>, at: nat): Reading<Option<Export>> {
    var name :- DecodeName(bytes, at);
    var kind :- DecodeByte(bytes, name.next);
    var index :- DecodeIndex(bytes, kind.next);
    Ok(Leb.Read(if kind.value == 0x00 then Some(Export(name.value, index.value)) else None, index.next))
  }

  function Kept<T>(items: seq<Option<T>>): (r: seq<T>)
    ensures |r| <= |items|
  {
    if items == [] then [] else (if items[0].Some? then [items[0].value] else []) + Kept(items[1..])
  }

  datatype Body = Body(locals: seq<ValueType>, start: nat, end: nat)

  function LocalGroups(bytes: seq<byte>, at: nat, groups: nat, locals: seq<ValueType>): (r: Reading<seq<ValueType>>)
    ensures r.Ok? ==> |r.value.value| <= MAX_LOCALS || r.value.value == locals
    decreases groups
  {
    if groups == 0 then
      Ok(Leb.Read(locals, at))
    else
      var repeat :- DecodeIndex(bytes, at);
      var valueType :- DecodeValueType(bytes, repeat.next);
      if |locals| + repeat.value > MAX_LOCALS then Err(TooLarge)
      else LocalGroups(bytes, valueType.next, groups - 1, locals + Repeat(repeat.value, valueType.value))
  }

  /** The instruction stream runs from after the locals to the declared end of the body. */
  function DecodeBody(bytes: seq<byte>, at: nat): (r: Reading<Body>)
    ensures r.Ok? ==> r.value.value.end <= |bytes| && |r.value.value.locals| <= MAX_LOCALS
  {
    var size :- DecodeIndex(bytes, at);
    var end := size.next + size.value;
    if end > |bytes| then Err(Truncated)
    else
      var groups :- DecodeIndex(bytes, size.next);
      var locals :- LocalGroups(bytes, groups.next, groups.value, []);
      Ok(Leb.Read(Body(locals.value, locals.next, end), end))
  }

  /** One memory, and an offset that is the constant expression `i32.const n end`. */
  function DecodeSegment(bytes: seq<byte>, at: nat): Reading<(u32, seq<byte>)> {
    var memory :- DecodeIndex(bytes, at);
    if memory.value != 0 then Err(Error.Unsupported)
    else
      var opcode :- DecodeByte(bytes, memory.next);
      if opcode.value != 0x41 then Err(Error.Unsupported)
      else
        var offset :- Lift(Leb.I32(bytes, opcode.next));
        var end :- DecodeByte(bytes, offset.next);
        if end.value != 0x0b then Err(Error.Malformed)
        else
          var length :- DecodeIndex(bytes, end.next);
          var content :- DecodeSlice(bytes, length.next, length.value);
          Ok(Leb.Read((ToU32(offset.value), content.value), content.next))
  }

  function DecodeLimits(bytes: seq<byte>, at: nat): Reading<(u32, u32)> {
    var flag :- DecodeByte(bytes, at);
    var limits: Leb.Read<(u32, u32)> :-
      if flag.value == 0x00 then
        var minimum :- DecodeIndex(bytes, flag.next);
        Ok(Leb.Read((minimum.value, MAX_MEMORY_PAGES), minimum.next))
      else if flag.value == 0x01 then
        var minimum :- DecodeIndex(bytes, flag.next);
        var maximum :- DecodeIndex(bytes, minimum.next);
        Ok(Leb.Read((minimum.value, maximum.value), maximum.next))
      else Err(Error.Malformed);
    if limits.value.0 > MAX_MEMORY_PAGES || limits.value.1 > MAX_MEMORY_PAGES then Err(TooLarge) else Ok(limits)
  }

  // ----- sections -----

  /** A module being read; the function section is only matched with its bodies later. */
  datatype Building = Building(m: Module, functionTypes: seq<u32>)

  /** Bodies take the type indices the function section gave, in order. */
  function Match(types: seq<u32>, bodies: seq<Body>): (r: seq<Function>)
    requires |types| == |bodies|
    ensures |r| == |bodies|
    ensures forall i :: 0 <= i < |r| ==> r[i] == Function(types[i], bodies[i].locals, bodies[i].start, bodies[i].end)
  {
    if types == [] then []
      else [Function(types[0], bodies[0].locals, bodies[0].start, bodies[0].end)] + Match(types[1..], bodies[1..])
  }

  function DecodeSection(id: byte, bytes: seq<byte>, at: nat, b: Building): Result<Building, Error> {
    match id
    case 0 => Ok(b)
    case 1 =>
      var types :- Vector(DecodeType, bytes, at, MAX_TYPES);
      Ok(b.(m := b.m.(types := b.m.types + types.value)))
    case 2 =>
      var imports :- Vector(DecodeImport, bytes, at, MAX_IMPORTS);
      Ok(b.(m := b.m.(imports := b.m.imports + imports.value)))
    case 3 =>
      var indices :- Vector(DecodeIndex, bytes, at, MAX_FUNCTIONS);
      Ok(b.(functionTypes := b.functionTypes + indices.value))
    case 5 =>
      var count :- DecodeIndex(bytes, at);
      if count.value > 1 then Err(Error.Unsupported)
      else if count.value == 0 then Ok(b)
      else
        var limits :- DecodeLimits(bytes, count.next);
        Ok(b.(m := b.m.(memoryPages := Some(limits.value))))
    case 7 =>
      var exports :- Vector(DecodeExport, bytes, at, MAX_EXPORTS);
      Ok(b.(m := b.m.(exports := b.m.exports + Kept(exports.value))))
    case 10 =>
      var count :- DecodeIndex(bytes, at);
      if count.value != |b.functionTypes| then Err(Error.Malformed)
      else
        var bodies :- Items(DecodeBody, bytes, count.next, count.value);
        Ok(b.(m := b.m.(functions := b.m.functions + Match(b.functionTypes, bodies.value))))
    case 11 =>
      var segments :- Vector(DecodeSegment, bytes, at, MAX_DATA_SEGMENTS);
      Ok(b.(m := b.m.(data := b.m.data + segments.value)))
    case _ =>
      Err(if id == 4 || id == 6 || id == 8 || id == 9 then Error.Unsupported else Error.Malformed)
  }

  function Sections(bytes: seq<byte>, at: nat, previous: byte, b: Building): Result<Building, Error>
    decreases |bytes| - at
  {
    if at >= |bytes| then
      Ok(b)
    else
      var id := bytes[at];
      if id != 0 && id <= previous then Err(Error.Malformed)
      else
        var size :- DecodeIndex(bytes, at + 1);
        var end := size.next + size.value;
        if end > |bytes| then Err(Truncated)
        else
          var b' :- DecodeSection(id, bytes, size.next, b);
          Sections(bytes, end, if id != 0 then id else previous, b')
  }

  function Empty(bytes: seq<byte>): Building {
    Building(Module(bytes, [], [], [], [], None, []), [])
  }

  function Decode(bytes: seq<byte>): Result<Module, Error> {
    if |bytes| > MAX_MODULE_BYTES then Err(TooLarge)
    else
      var magic :- DecodeSlice(bytes, 0, 4);
      if magic.value != MAGIC then Err(NotWasm)
      else
        var version :- DecodeSlice(bytes, 4, 4);
        if version.value != VERSION then Err(UnsupportedVersion)
        else
          var b :- Sections(bytes, 8, 0, Empty(bytes));
          Ok(b.m)
  }

  // ----- every accepted module is within the ceilings -----

  ghost predicate WithinCeilings(m: Module) {
    && |m.types| <= 128
    && |m.imports| <= 32
    && |m.functions| <= 256
    && |m.exports| <= 64
    && |m.data| <= 32
    && (m.memoryPages.Some? ==> m.memoryPages.value.0 <= 16 && m.memoryPages.value.1 <= 16)
    && (forall i :: 0 <= i < |m.functions| ==> |m.functions[i].locals| <= 256)
    && (forall i :: 0 <= i < |m.types| ==> |m.types[i].results| <= 1)
    && m.BodiesInBounds()
  }

  /** What a half-read module owes to the order of sections: nothing is filled before its turn. */
  ghost predicate InOrder(bytes: seq<byte>, previous: byte, b: Building) {
    && b.m.bytes == bytes
    && WithinCeilings(b.m)
    && |b.functionTypes| <= MAX_FUNCTIONS
    && (previous < 1 ==> b.m.types == [])
    && (previous < 2 ==> b.m.imports == [])
    && (previous < 3 ==> b.functionTypes == [])
    && (previous < 7 ==> b.m.exports == [])
    && (previous < 10 ==> b.m.functions == [])
    && (previous < 11 ==> b.m.data == [])
  }

  lemma {:induction false} ItemsSatisfy<T>(item: (seq<byte>, nat) -> Reading<T>, good: T -> bool, bytes: seq<byte>,
        at: nat, count: nat)
    requires forall at' :: item(bytes, at').Ok? ==> good(item(bytes, at').value.value)
    requires Items(item, bytes, at, count).Ok?
    ensures forall i :: 0 <= i < count ==> good(Items(item, bytes, at, count).value.value[i])
    decreases count
  {
    if count > 0 {
      var first := item(bytes, at).value;
      ItemsSatisfy(item, good, bytes, first.next, count - 1);
    }
  }

  lemma SectionKeepsOrder(id: byte, bytes: seq<byte>, at: nat, previous: byte, b: Building)
    requires InOrder(bytes, previous, b) && (id == 0 || previous < id)
    requires DecodeSection(id, bytes, at, b).Ok?
    ensures InOrder(bytes, if id == 0 then previous else id, DecodeSection(id, bytes, at, b).value)
  {
    hide DecodeType, DecodeImport, DecodeExport, DecodeBody, DecodeSegment, DecodeIndex, Items;
    if id == 1 {
      var count := DecodeIndex(bytes, at).value;
      TypesHaveOneResult(bytes, count.next, count.value);
    } else if id == 10 {
      var count := DecodeIndex(bytes, at).value;
      var bounded := (body: Body) => body.end <= |bytes| && |body.locals| <= MAX_LOCALS;
      ItemsSatisfy(DecodeBody, bounded, bytes, count.next, count.value);
    }
  }

  lemma TypesHaveOneResult(bytes: seq<byte>, at: nat, count: nat)
    requires Items(DecodeType, bytes, at, count).Ok?
    ensures forall i :: 0 <= i < count ==> |Items(DecodeType, bytes, at, count).value.value[i].results| <= 1
  {
    hide DecodeIndex;
    ItemsSatisfy(DecodeType, (t: FuncType) => |t.results| <= 1, bytes, at, count);
  }

  lemma {:induction false} SectionsKeepOrder(bytes: seq<byte>, at: nat, previous: byte, b: Building)
    requires InOrder(bytes, previous, b)
    requires Sections(bytes, at, previous, b).Ok?
    ensures WithinCeilings(Sections(bytes, at, previous, b).value.m)
    ensures Sections(bytes, at, previous, b).value.m.bytes == bytes
    decreases |bytes| - at
  {
    hide DecodeSection;
    if at < |bytes| {
      var id := bytes[at];
      var size := DecodeIndex(bytes, at + 1).value;
      SectionKeepsOrder(id, bytes, size.next, previous, b);
      var b' := DecodeSection(id, bytes, size.next, b).value;
      SectionsKeepOrder(bytes, size.next + size.value, if id != 0 then id else previous, b');
    }
  }

  /** Repeating or reordering sections cannot multiply a ceiling. */
  lemma AcceptedIsBounded(bytes: seq<byte>)
    requires Decode(bytes).Ok?
    ensures 8 <= |bytes| <= 131072 && bytes[..8] == [0x00, 0x61, 0x73, 0x6d, 0x01, 0x00, 0x00, 0x00]
    ensures WithinCeilings(Decode(bytes).value) && Decode(bytes).value.bytes == bytes
  {
    SectionsKeepOrder(bytes, 8, 0, Empty(bytes));
    assert bytes[..8] == bytes[0..4] + bytes[4..8];
  }
}
