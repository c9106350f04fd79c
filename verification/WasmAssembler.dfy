/** The assembler that prints modules, and the proof that decoding reads back what it printed. */
module WasmAssembler {
  import opened Basics
  import opened WasmSyntax
  import opened WasmModule
  import Leb

  // ----- printing -----

  function Concat<T>(spell: T -> seq<byte>, items: seq<T>): seq<byte> {
    if items == [] then [] else spell(items[0]) + Concat(spell, items[1..])
  }

  function PrintVector<T>(spell: T -> seq<byte>, items: seq<T>): seq<byte> {
    Leb.EncodeUnsigned(|items|) + Concat(spell, items)
  }

  function PrintSection(id: byte, payload: seq<byte>): seq<byte> {
    [id] + (Leb.EncodeUnsigned(|payload|) + payload)
  }

  function PrintName(text: seq<byte>): seq<byte> {
    Leb.EncodeUnsigned(|text|) + text
  }

  function PrintIndex(index: u32): seq<byte> {
    Leb.EncodeUnsigned(index)
  }

  function PrintValueType(valueType: ValueType): seq<byte> {
    [if valueType.TypeI32? then 0x7f else 0x7e]
  }

  function PrintType(t: FuncType): seq<byte> {
    [0x60] + (PrintVector(PrintValueType, t.params) + PrintVector(PrintValueType, t.results))
  }

  function PrintImport(i: ImportRef): seq<byte> {
    PrintName(i.moduleName) + (PrintName(i.name) + ([0x00] + PrintIndex(i.typeIndex)))
  }

  function PrintExport(e: Export): seq<byte> {
    PrintName(e.name) + ([0x00] + PrintIndex(e.functionIndex))
  }

  /** A function to assemble: runs of equal locals, and code without its final `end`. */
  datatype Source = Source(typeIndex: u32, groups: seq<(u32, ValueType)>, code: seq<byte>)

  function PrintGroup(group: (u32, ValueType)): seq<byte> {
    Leb.EncodeUnsigned(group.0) + PrintValueType(group.1)
  }

  function PrintBody(f: Source): seq<byte> {
    var body := PrintVector(PrintGroup, f.groups) + (f.code + [0x0b]);
    Leb.EncodeUnsigned(|body|) + body
  }

  function PrintSegment(segment: (u32, seq<byte>)): seq<byte> {
    [0x00] + ([0x41] + (Leb.EncodeSigned(segment.0) + ([0x0b] + PrintName(segment.1))))
  }

  /** What the assembler is asked for. */
  datatype Assembly = Assembly(
    types: seq<FuncType>,
    imports: seq<ImportRef>,
    functions: seq<Source>,
    memory: Option<u32>,
    exports: seq<Export>,
    data: seq<(u32, seq<byte>)>)

  function Optional(present: bool, id: byte, payload: seq<byte>): seq<byte> {
    if present then PrintSection(id, payload) else []
  }

  function PrintMemory(pages: u32): seq<byte> {
    [0x01] + ([0x00] + PrintIndex(pages))
  }

  function TypeIndices(functions: seq<Source>): (r: seq<u32>)
    ensures |r| == |functions|
    ensures forall i :: 0 <= i < |r| ==> r[i] == functions[i].typeIndex
  {
    if functions == [] then [] else [functions[0].typeIndex] + TypeIndices(functions[1..])
  }

  function TypesPart(a: Assembly): seq<byte> {
    Optional(a.types != [], 1, PrintVector(PrintType, a.types))
  }

  function ImportsPart(a: Assembly): seq<byte> {
    Optional(a.imports != [], 2, PrintVector(PrintImport, a.imports))
  }

  function IndicesPart(a: Assembly): seq<byte> {
    Optional(a.functions != [], 3, PrintVector(PrintIndex, TypeIndices(a.functions)))
  }

  function MemoryPart(a: Assembly): seq<byte> {
    Optional(a.memory.Some?, 5, if a.memory.Some? then PrintMemory(a.memory.value) else [])
  }

  function ExportsPart(a: Assembly): seq<byte> {
    Optional(a.exports != [], 7, PrintVector(PrintExport, a.exports))
  }

  function CodePart(a: Assembly): seq<byte> {
    Optional(a.functions != [], 10, PrintVector(PrintBody, a.functions))
  }

  function DataPart(a: Assembly): seq<byte> {
    Optional(a.data != [], 11, PrintVector(PrintSegment, a.data))
  }

  function Finish(a: Assembly): seq<byte> {
    (MAGIC + VERSION)
      + (TypesPart(a) +
        (ImportsPart(a) + (IndicesPart(a) + (MemoryPart(a) + (ExportsPart(a) + (CodePart(a) + DataPart(a)))))))
  }

  // ----- what decoding must recover -----

  function Expand(groups: seq<(u32, ValueType)>): seq<ValueType> {
    if groups == [] then [] else Repeat(groups[0].0, groups[0].1) + Expand(groups[1..])
  }

  /** Everything the decoder's ceilings and checks ask of an assembly. */
  ghost predicate Acceptable(a: Assembly) {
    && |Finish(a)| <= 131072
    && |a.types| <= 128
    && |a.imports| <= 32
    && |a.functions| <= 256
    && |a.exports| <= 64
    && |a.data| <= 32
    && (a.memory.Some? ==> a.memory.value <= 16)
    && (forall t :: t in a.types ==> |t.results| <= 1)
    && (forall i :: i in a.imports ==> IsUtf8(i.moduleName) && IsUtf8(i.name))
    && (forall e :: e in a.exports ==> IsUtf8(e.name))
    && (forall f :: f in a.functions ==> |Expand(f.groups)| <= 256)
  }

  /** Every data offset is one that an `i32.const` can say. */
  ghost predicate NearData(data: seq<(u32, seq<byte>)>) {
    forall segment :: segment in data ==> segment.0 < 0x8000_0000
  }

  /** A body found in the module: its locals spelled out, its range exactly the code and its `end`. */
  ghost predicate FoundIn(bytes: seq<byte>, f: Source, start: nat, end: nat, locals: seq<ValueType>) {
    && locals == Expand(f.groups)
    && Holds(bytes, start, f.code + [0x0b])
    && end == start + |f.code| + 1
  }

  ghost predicate Recovered(m: Module, bytes: seq<byte>, a: Assembly) {
    && m.bytes == bytes
    && m.types == a.types
    && m.imports == a.imports
    && m.exports == a.exports
    && m.memoryPages == (if a.memory.Some? then Some((a.memory.value, 16)) else None)
    && m.data == a.data
    && FunctionsRecovered(m.functions, bytes, a)
  }

  // ----- one item at a time -----

  lemma IndexUndoes(bytes: seq<byte>, at: nat, index: u32)
    requires Holds(bytes, at, Leb.EncodeUnsigned(index))
    ensures DecodeIndex(bytes, at) == Ok(Leb.Read(index, at + |Leb.EncodeUnsigned(index)|))
  {
    Leb.U32Undoes(bytes, at, index);
  }

  lemma ByteUndoes(bytes: seq<byte>, at: nat, b: byte)
    requires Holds(bytes, at, [b])
    ensures DecodeByte(bytes, at) == Ok(Leb.Read(b, at + 1))
  {
    assert bytes[at..at + 1][0] == b;
  }

  lemma SliceUndoes(bytes: seq<byte>, at: nat, part: seq<byte>)
    requires Holds(bytes, at, part)
    ensures DecodeSlice(bytes, at, |part|) == Ok(Leb.Read(part, at + |part|))
  {
  }

  lemma ValueTypeUndoes(bytes: seq<byte>, at: nat, valueType: ValueType)
    requires Holds(bytes, at, PrintValueType(valueType))
    ensures DecodeValueType(bytes, at) == Ok(Leb.Read(valueType, at + |PrintValueType(valueType)|))
  {
    ByteUndoes(bytes, at, if valueType.TypeI32? then 0x7f else 0x7e);
  }

  lemma ItemsStep<T>(item: (seq<byte>, nat) -> Reading<T>, bytes: seq<byte>, at: nat, count: nat)
    requires count > 0 && item(bytes, at).Ok?
    ensures var rest := Items(item, bytes, item(bytes, at).value.next, count - 1);
            Items(item, bytes, at, count) ==
              if rest.Err? then Err(rest.error)
              else Ok(Leb.Read([item(bytes, at).value.value] + rest.value.value, rest.value.next))
  {
  }

  lemma NoItems<T>(item: (seq<byte>, nat) -> Reading<T>, bytes: seq<byte>, at: nat)
    ensures Items(item, bytes, at, 0) == Ok(Leb.Read([], at))
  {
  }

  lemma {:induction false} ItemsUndo<T>(
      item: (seq<byte>, nat) -> Reading<T>, spell: T -> seq<byte>, bytes: seq<byte>, at: nat, items: seq<T>)
    requires Holds(bytes, at, Concat(spell, items))
    requires forall x, at': nat :: x in items && Holds(bytes, at', spell(x)) ==>
               item(bytes, at') == Ok(Leb.Read(x, at' + |spell(x)|))
    ensures Items(item, bytes, at, |items|) == Ok(Leb.Read(items, at + |Concat(spell, items)|))
    decreases |items|
  {
    hide Holds, Items;
    if items == [] {
      NoItems(item, bytes, at);
    } else {
      HoldsSplit(bytes, at, spell(items[0]), Concat(spell, items[1..]));
      assert items[0] in items;
      assert item(bytes, at) == Ok(Leb.Read(items[0], at + |spell(items[0])|));
      ItemsStep(item, bytes, at, |items|);
      ItemsUndo(item, spell, bytes, at + |spell(items[0])|, items[1..]);
      assert [items[0]] + items[1..] == items;
    }
  }

  lemma VectorUndoes<T>(
      item: (seq<byte>, nat) -> Reading<T>, spell: T -> seq<byte>, bytes: seq<byte>, at: nat, items: seq<T>,
        ceiling: nat)
    requires Holds(bytes, at, PrintVector(spell, items))
    requires |items| <= ceiling && |items| < TWO_32
    requires forall x, at': nat :: x in items && Holds(bytes, at', spell(x)) ==>
               item(bytes, at') == Ok(Leb.Read(x, at' + |spell(x)|))
    ensures Vector(item, bytes, at, ceiling) == Ok(Leb.Read(items, at + |PrintVector(spell, items)|))
  {
    hide DecodeIndex, Holds, Concat, Items;
    HoldsSplit(bytes, at, Leb.EncodeUnsigned(|items|), Concat(spell, items));
    IndexUndoes(bytes, at, |items|);
    ItemsUndo(item, spell, bytes, at + |Leb.EncodeUnsigned(|items|)|, items);
  }

  lemma NameUndoes(bytes: seq<byte>, at: nat, text: seq<byte>)
    requires IsUtf8(text) && |text| < TWO_32
    requires Holds(bytes, at, PrintName(text))
    ensures DecodeName(bytes, at) == Ok(Leb.Read(text, at + |PrintName(text)|))
  {
    hide Holds, DecodeSlice, DecodeIndex, IsUtf8;
    HoldsSplit(bytes, at, Leb.EncodeUnsigned(|text|), text);
    IndexUndoes(bytes, at, |text|);
    SliceUndoes(bytes, at + |Leb.EncodeUnsigned(|text|)|, text);
  }

  lemma {:induction false} ConcatAtLeast<T>(spell: T -> seq<byte>, items: seq<T>)
    requires forall x :: x in items ==> |spell(x)| >= 1
    ensures |Concat(spell, items)| >= |items|
  {
    if items != [] {
      ConcatAtLeast(spell, items[1..]);
    }
  }

  lemma ValueTypesUndo(bytes: seq<byte>, at: nat, types: seq<ValueType>)
    requires Holds(bytes, at, PrintVector(PrintValueType, types)) && |types| < TWO_32
    ensures DecodeIndex(bytes, at) == Ok(Leb.Read(|types|, at + |Leb.EncodeUnsigned(|types|)|))
    ensures Items(DecodeValueType, bytes, at + |Leb.EncodeUnsigned(|types|)|, |types|)
         == Ok(Leb.Read(types, at + |PrintVector(PrintValueType, types)|))
  {
    hide Holds, DecodeIndex, DecodeValueType, Concat, Items;
    HoldsSplit(bytes, at, Leb.EncodeUnsigned(|types|), Concat(PrintValueType, types));
    IndexUndoes(bytes, at, |types|);
    forall x, at': nat | x in types && Holds(bytes, at', PrintValueType(x))
      ensures DecodeValueType(bytes, at') == Ok(Leb.Read(x, at' + |PrintValueType(x)|))
    {
      ValueTypeUndoes(bytes, at', x);
    }
    ItemsUndo(DecodeValueType, PrintValueType, bytes, at + |Leb.EncodeUnsigned(|types|)|, types);
  }

  lemma TypeUndoes(bytes: seq<byte>, at: nat, t: FuncType)
    requires Holds(bytes, at, PrintType(t)) && |bytes| < TWO_32 && |t.results| <= 1
    ensures DecodeType(bytes, at) == Ok(Leb.Read(t, at + |PrintType(t)|))
  {
    hide DecodeIndex, DecodeValueType, Holds;
    var params, results := PrintVector(PrintValueType, t.params), PrintVector(PrintValueType, t.results);
    HoldsSplit(bytes, at, [0x60], params + results);
    HoldsSplit(bytes, at + 1, params, results);
    ByteUndoes(bytes, at, 0x60);
    ConcatAtLeast(PrintValueType, t.params);
    ValueTypesUndo(bytes, at + 1, t.params);
    ValueTypesUndo(bytes, at + 1 + |params|, t.results);
  }

  lemma ImportUndoes(bytes: seq<byte>, at: nat, i: ImportRef)
    requires Holds(bytes, at, PrintImport(i)) && |bytes| < TWO_32 && IsUtf8(i.moduleName) && IsUtf8(i.name)
    ensures DecodeImport(bytes, at) == Ok(Leb.Read(i, at + |PrintImport(i)|))
  {
    hide DecodeIndex, DecodeByte, DecodeName, Holds;
    var first, second := PrintName(i.moduleName), PrintName(i.name);
    HoldsSplit(bytes, at, first, second + ([0x00] + PrintIndex(i.typeIndex)));
    HoldsSplit(bytes, at + |first|, second, [0x00] + PrintIndex(i.typeIndex));
    HoldsSplit(bytes, at + |first| + |second|, [0x00], PrintIndex(i.typeIndex));
    NameUndoes(bytes, at, i.moduleName);
    NameUndoes(bytes, at + |first|, i.name);
    ByteUndoes(bytes, at + |first| + |second|, 0x00);
    IndexUndoes(bytes, at + |first| + |second| + 1, i.typeIndex);
  }

  lemma ExportUndoes(bytes: seq<byte>, at: nat, e: Export)
    requires Holds(bytes, at, PrintExport(e)) && |bytes| < TWO_32 && IsUtf8(e.name)
    ensures DecodeExport(bytes, at) == Ok(Leb.Read(Some(e), at + |PrintExport(e)|))
  {
    hide DecodeIndex, DecodeByte, DecodeName, Holds;
    var name := PrintName(e.name);
    HoldsSplit(bytes, at, name, [0x00] + PrintIndex(e.functionIndex));
    HoldsSplit(bytes, at + |name|, [0x00], PrintIndex(e.functionIndex));
    NameUndoes(bytes, at, e.name);
    ByteUndoes(bytes, at + |name|, 0x00);
    IndexUndoes(bytes, at + |name| + 1, e.functionIndex);
  }

  lemma {:induction false} GroupsUndo(bytes: seq<byte>, at: nat, groups: seq<(u32, ValueType)>, locals: seq<ValueType>)
    requires Holds(bytes, at, Concat(PrintGroup, groups))
    requires |locals + Expand(groups)| <= MAX_LOCALS
    ensures LocalGroups(bytes, at, |groups|, locals)
         == Ok(Leb.Read(locals + Expand(groups), at + |Concat(PrintGroup, groups)|))
    decreases |groups|
  {
    hide DecodeIndex, DecodeValueType, Holds, PrintGroup;
    if groups == [] {
      assert locals + Expand(groups) == locals;
    } else {
      var (count, valueType) := groups[0];
      var run := Repeat(count, valueType);
      HoldsSplit(bytes, at, PrintGroup(groups[0]), Concat(PrintGroup, groups[1..]));
      GroupUndoes(bytes, at, count, valueType);
      assert locals + Expand(groups) == (locals + run) + Expand(groups[1..]);
      GroupsUndo(bytes, at + |PrintGroup(groups[0])|, groups[1..], locals + run);
    }
  }

  lemma GroupUndoes(bytes: seq<byte>, at: nat, count: u32, valueType: ValueType)
    requires Holds(bytes, at, PrintGroup((count, valueType)))
    ensures var next := at + |Leb.EncodeUnsigned(count)|;
            && DecodeIndex(bytes, at) == Ok(Leb.Read(count, next))
            && DecodeValueType(bytes, next) == Ok(Leb.Read(valueType, at + |PrintGroup((count, valueType))|))
  {
    HoldsSplit(bytes, at, Leb.EncodeUnsigned(count), PrintValueType(valueType));
    IndexUndoes(bytes, at, count);
    ValueTypeUndoes(bytes, at + |Leb.EncodeUnsigned(count)|, valueType);
  }

  lemma BodyUndoes(bytes: seq<byte>, at: nat, f: Source)
    requires Holds(bytes, at, PrintBody(f)) && |bytes| < TWO_32 && |Expand(f.groups)| <= MAX_LOCALS
    ensures DecodeBody(bytes, at).Ok?
    ensures var read := DecodeBody(bytes, at).value;
            && read.next == at + |PrintBody(f)|
            && FoundIn(bytes, f, read.value.start, read.value.end, read.value.locals)
  {
    hide DecodeIndex, Holds, LocalGroups;
    var groups := Concat(PrintGroup, f.groups);
    var count := Leb.EncodeUnsigned(|f.groups|);
    var body := PrintVector(PrintGroup, f.groups) + (f.code + [0x0b]);
    var size := Leb.EncodeUnsigned(|body|);
    HoldsSplit(bytes, at, size, body);
    HoldsSplit(bytes, at + |size|, count + groups, f.code + [0x0b]);
    HoldsSplit(bytes, at + |size|, count, groups);
    ConcatAtLeast(PrintGroup, f.groups);
    IndexUndoes(bytes, at, |body|);
    IndexUndoes(bytes, at + |size|, |f.groups|);
    assert [] + Expand(f.groups) == Expand(f.groups);
    GroupsUndo(bytes, at + |size| + |count|, f.groups, []);
  }

  ghost predicate AllFound(bytes: seq<byte>, functions: seq<Source>, bodies: seq<Body>) {
    && |bodies| == |functions|
    && forall i :: 0 <= i < |functions| ==>
         FoundIn(bytes, functions[i], bodies[i].start, bodies[i].end, bodies[i].locals)
  }

  lemma {:induction false} BodiesUndo(bytes: seq<byte>, at: nat, functions: seq<Source>)
    requires Holds(bytes, at, Concat(PrintBody, functions)) && |bytes| < TWO_32
    requires forall f :: f in functions ==> |Expand(f.groups)| <= MAX_LOCALS
    ensures Items(DecodeBody, bytes, at, |functions|).Ok?
    ensures var read := Items(DecodeBody, bytes, at, |functions|).value;
            read.next == at + |Concat(PrintBody, functions)| && AllFound(bytes, functions, read.value)
    decreases |functions|
  {
    hide DecodeBody, Holds, FoundIn, PrintBody, Expand;
    if functions != [] {
      var first := PrintBody(functions[0]);
      HoldsSplit(bytes, at, first, Concat(PrintBody, functions[1..]));
      assert functions[0] in functions;
      BodyUndoes(bytes, at, functions[0]);
      BodiesUndo(bytes, at + |first|, functions[1..]);
      var body := DecodeBody(bytes, at).value.value;
      var rest := Items(DecodeBody, bytes, at + |first|, |functions| - 1).value;
      ItemsStep(DecodeBody, bytes, at, |functions|);
      OneMoreFound(bytes, functions, body, rest.value);
    }
  }

  lemma OneMoreFound(bytes: seq<byte>, functions: seq<Source>, body: Body, rest: seq<Body>)
    requires functions != [] && FoundIn(bytes, functions[0], body.start, body.end, body.locals)
    requires AllFound(bytes, functions[1..], rest)
    ensures AllFound(bytes, functions, [body] + rest)
  {
    hide FoundIn;
    assert functions == [functions[0]] + functions[1..];
  }

  /**
   * The assembler takes an offset as `u32` and prints it as a signed 64-bit number; the decoder
   * reads an `i32`. An offset from the middle of the range up therefore never comes back.
   */
  lemma SegmentUndoes(bytes: seq<byte>, at: nat, segment: (u32, seq<byte>))
    requires Holds(bytes, at, PrintSegment(segment)) && |bytes| < TWO_32
    ensures DecodeSegment(bytes, at) ==
              if segment.0 < 0x8000_0000 then Ok(Leb.Read(segment, at + |PrintSegment(segment)|))
                else Err(Error.Malformed)
  {
    hide DecodeIndex, DecodeByte, DecodeSlice, Leb.I32, Holds;
    var offset := Leb.EncodeSigned(segment.0);
    var content := segment.1;
    var length := Leb.EncodeUnsigned(|content|);
    HoldsSplit(bytes, at, [0x00], [0x41] + (offset + ([0x0b] + (length + content))));
    HoldsSplit(bytes, at + 1, [0x41], offset + ([0x0b] + (length + content)));
    HoldsSplit(bytes, at + 2, offset, [0x0b] + (length + content));
    HoldsSplit(bytes, at + 2 + |offset|, [0x0b], length + content);
    HoldsSplit(bytes, at + 3 + |offset|, length, content);
    assert Leb.EncodeUnsigned(0) == [0x00];
    IndexUndoes(bytes, at, 0);
    ByteUndoes(bytes, at + 1, 0x41);
    if segment.0 < 0x8000_0000 {
      Leb.I32Undoes(bytes, at + 2, segment.0);
    } else {
      Leb.I32Refuses(bytes, at + 2, segment.0);
    }
    ByteUndoes(bytes, at + 2 + |offset|, 0x0b);
    IndexUndoes(bytes, at + 3 + |offset|, |content|);
    SliceUndoes(bytes, at + 3 + |offset| + |length|, content);
  }

  // ----- section by section -----

  /** Where a section's payload starts. */
  function PayloadAt(at: nat, payload: seq<byte>): nat {
    at + 1 + |Leb.EncodeUnsigned(|payload|)|
  }

  lemma PayloadHeld(bytes: seq<byte>, at: nat, id: byte, payload: seq<byte>)
    requires Holds(bytes, at, PrintSection(id, payload))
    ensures at < |bytes| && bytes[at] == id
    ensures Holds(bytes, at + 1, Leb.EncodeUnsigned(|payload|))
    ensures Holds(bytes, PayloadAt(at, payload), payload)
    ensures PayloadAt(at, payload) + |payload| == at + |PrintSection(id, payload)| <= |bytes|
  {
    var size := Leb.EncodeUnsigned(|payload|);
    HoldsSplit(bytes, at, [id], size + payload);
    HoldsSplit(bytes, at + 1, size, payload);
    assert bytes[at..at + 1][0] == id;
  }

  /** A section that reads well is stepped over. */
  lemma SectionSteps(bytes: seq<byte>, at: nat, previous: byte, b: Building, id: byte, payload: seq<byte>, b': Building)
    requires Holds(bytes, at, PrintSection(id, payload)) && |bytes| < TWO_32 && previous < id
    requires DecodeSection(id, bytes, PayloadAt(at, payload), b) == Ok(b')
    ensures Sections(bytes, at, previous, b) == Sections(bytes, at + |PrintSection(id, payload)|, id, b')
  {
    hide DecodeSection, Holds, DecodeIndex, PrintSection;
    PayloadHeld(bytes, at, id, payload);
    IndexUndoes(bytes, at + 1, |payload|);
  }

  /** One optional section: skipped when absent, read and stepped over when present. */
  lemma SectionUndoes(bytes: seq<byte>, at: nat, previous: byte, b: Building, present: bool, id: byte,
        payload: seq<byte>, b': Building)
    returns (last: byte)
    requires Holds(bytes, at, Optional(present, id, payload)) && |bytes| < TWO_32 && previous < id
    requires if present then DecodeSection(id, bytes, PayloadAt(at, payload), b) == Ok(b') else b' == b
    ensures last <= id
    ensures Sections(bytes, at, previous, b) == Sections(bytes, at + |Optional(present, id, payload)|, last, b')
  {
    hide DecodeSection, Holds, Sections, PrintSection;
    last := previous;
    if present {
      last := id;
      SectionSteps(bytes, at, previous, b, id, payload, b');
    }
  }

  lemma TypesRead(bytes: seq<byte>, at: nat, a: Assembly)
    requires Acceptable(a) && |bytes| < TWO_32
    requires Holds(bytes, at, PrintVector(PrintType, a.types))
    ensures Vector(DecodeType, bytes, at, MAX_TYPES) == Ok(Leb.Read(a.types, at + |PrintVector(PrintType, a.types)|))
  {
    hide Finish, DecodeType, Holds, PrintType;
    forall x, at': nat | x in a.types && Holds(bytes, at', PrintType(x))
      ensures DecodeType(bytes, at') == Ok(Leb.Read(x, at' + |PrintType(x)|))
    {
      TypeUndoes(bytes, at', x);
    }
    VectorUndoes(DecodeType, PrintType, bytes, at, a.types, MAX_TYPES);
  }

  lemma ImportsRead(bytes: seq<byte>, at: nat, a: Assembly)
    requires Acceptable(a) && |bytes| < TWO_32
    requires Holds(bytes, at, PrintVector(PrintImport, a.imports))
    ensures Vector(DecodeImport, bytes, at, MAX_IMPORTS) ==
              Ok(Leb.Read(a.imports, at + |PrintVector(PrintImport, a.imports)|))
  {
    hide Finish, DecodeImport, Holds, PrintImport;
    forall x, at': nat | x in a.imports && Holds(bytes, at', PrintImport(x))
      ensures DecodeImport(bytes, at') == Ok(Leb.Read(x, at' + |PrintImport(x)|))
    {
      ImportUndoes(bytes, at', x);
    }
    VectorUndoes(DecodeImport, PrintImport, bytes, at, a.imports, MAX_IMPORTS);
  }

  lemma IndicesRead(bytes: seq<byte>, at: nat, indices: seq<u32>)
    requires |indices| <= MAX_FUNCTIONS
    requires Holds(bytes, at, PrintVector(PrintIndex, indices))
    ensures Vector(DecodeIndex, bytes, at, MAX_FUNCTIONS) ==
              Ok(Leb.Read(indices, at + |PrintVector(PrintIndex, indices)|))
  {
    hide DecodeIndex, Holds;
    forall x, at': nat | x in indices && Holds(bytes, at', PrintIndex(x))
      ensures DecodeIndex(bytes, at') == Ok(Leb.Read(x, at' + |PrintIndex(x)|))
    {
      IndexUndoes(bytes, at', x);
    }
    VectorUndoes(DecodeIndex, PrintIndex, bytes, at, indices, MAX_FUNCTIONS);
  }

  lemma MemoryRead(bytes: seq<byte>, at: nat, pages: u32)
    requires pages <= MAX_MEMORY_PAGES
    requires Holds(bytes, at, PrintMemory(pages))
    ensures DecodeIndex(bytes, at) == Ok(Leb.Read(1, at + 1))
    ensures DecodeLimits(bytes, at + 1).Ok? && DecodeLimits(bytes, at + 1).value.value == (pages, MAX_MEMORY_PAGES)
  {
    hide Holds, DecodeIndex;
    HoldsSplit(bytes, at, [0x01], [0x00] + PrintIndex(pages));
    HoldsSplit(bytes, at + 1, [0x00], PrintIndex(pages));
    assert Leb.EncodeUnsigned(1) == [0x01];
    IndexUndoes(bytes, at, 1);
    ByteUndoes(bytes, at + 1, 0x00);
    IndexUndoes(bytes, at + 2, pages);
  }

  function Wrapped(exports: seq<Export>): (r: seq<Option<Export>>)
    ensures |r| == |exports| && Kept(r) == exports
    ensures forall x :: x in r ==> x.Some? && x.value in exports
  {
    if exports == [] then []
    else
      assert exports[0] in exports;
      [Some(exports[0])] + Wrapped(exports[1..])
  }

  function PrintWrapped(e: Option<Export>): seq<byte> {
    if e.Some? then PrintExport(e.value) else []
  }

  lemma {:induction false} WrappedPrintsAlike(exports: seq<Export>)
    ensures Concat(PrintWrapped, Wrapped(exports)) == Concat(PrintExport, exports)
  {
    if exports != [] {
      WrappedPrintsAlike(exports[1..]);
    }
  }

  lemma WrappedUndoes(bytes: seq<byte>, at: nat, x: Option<Export>)
    requires Holds(bytes, at, PrintWrapped(x)) && |bytes| < TWO_32 && x.Some? && IsUtf8(x.value.name)
    ensures DecodeExport(bytes, at) == Ok(Leb.Read(x, at + |PrintWrapped(x)|))
  {
    ExportUndoes(bytes, at, x.value);
  }

  lemma ExportsRead(bytes: seq<byte>, at: nat, a: Assembly)
    requires Acceptable(a) && |bytes| < TWO_32
    requires Holds(bytes, at, PrintVector(PrintExport, a.exports))
    ensures var read := Vector(DecodeExport, bytes, at, MAX_EXPORTS); read.Ok? && Kept(read.value.value) == a.exports
  {
    hide Finish, DecodeExport, Holds, PrintWrapped, PrintExport, Concat, Wrapped, Vector;
    var wrapped := Wrapped(a.exports);
    WrappedPrintsAlike(a.exports);
    forall x, at': nat | x in wrapped && Holds(bytes, at', PrintWrapped(x))
      ensures DecodeExport(bytes, at') == Ok(Leb.Read(x, at' + |PrintWrapped(x)|))
    {
      WrappedUndoes(bytes, at', x);
    }
    VectorUndoes(DecodeExport, PrintWrapped, bytes, at, wrapped, MAX_EXPORTS);
  }

  lemma {:induction false} SegmentsUndo(bytes: seq<byte>, at: nat, data: seq<(u32, seq<byte>)>)
    requires Holds(bytes, at, Concat(PrintSegment, data)) && |bytes| < TWO_32
    ensures Items(DecodeSegment, bytes, at, |data|) ==
              if NearData(data) then Ok(Leb.Read(data, at + |Concat(PrintSegment, data)|)) else Err(Error.Malformed)
    decreases |data|
  {
    hide Holds, DecodeSegment, PrintSegment, NearData;
    if data == [] {
      NothingIsFar();
    } else {
      HoldsSplit(bytes, at, PrintSegment(data[0]), Concat(PrintSegment, data[1..]));
      SegmentUndoes(bytes, at, data[0]);
      NearDataStep(data);
      if data[0].0 < 0x8000_0000 {
        ItemsStep(DecodeSegment, bytes, at, |data|);
        SegmentsUndo(bytes, at + |PrintSegment(data[0])|, data[1..]);
        assert [data[0]] + data[1..] == data;
      }
    }
  }

  lemma NothingIsFar()
    ensures NearData([])
  {
  }

  lemma NearDataStep(data: seq<(u32, seq<byte>)>)
    requires data != []
    ensures NearData(data) <==> data[0].0 < 0x8000_0000 && NearData(data[1..])
  {
    assert data == [data[0]] + data[1..];
  }

  lemma DataRead(bytes: seq<byte>, at: nat, a: Assembly)
    requires Acceptable(a) && |bytes| < TWO_32
    requires Holds(bytes, at, PrintVector(PrintSegment, a.data))
    ensures var read := Vector(DecodeSegment, bytes, at, MAX_DATA_SEGMENTS);
            if NearData(a.data) then read.Ok? && read.value.value == a.data else read == Err(Error.Malformed)
  {
    hide Finish, Holds, DecodeSegment, PrintSegment, DecodeIndex, NearData;
    var count := Leb.EncodeUnsigned(|a.data|);
    HoldsSplit(bytes, at, count, Concat(PrintSegment, a.data));
    IndexUndoes(bytes, at, |a.data|);
    SegmentsUndo(bytes, at + |count|, a.data);
  }

  lemma CodeRead(bytes: seq<byte>, at: nat, a: Assembly, b: Building)
    requires Acceptable(a) && |bytes| < TWO_32
    requires b.m.functions == [] && b.functionTypes == TypeIndices(a.functions)
    requires Holds(bytes, at, PrintVector(PrintBody, a.functions))
    ensures var read := DecodeSection(10, bytes, at, b);
            && read.Ok?
            && read.value == b.(m := b.m.(functions := read.value.m.functions))
            && FunctionsRecovered(read.value.m.functions, bytes, a)
  {
    hide Finish, Holds, DecodeBody, PrintBody, DecodeIndex, FoundIn, Items, Concat, Leb.EncodeUnsigned;
    var count := Leb.EncodeUnsigned(|a.functions|);
    HoldsSplit(bytes, at, count, Concat(PrintBody, a.functions));
    IndexUndoes(bytes, at, |a.functions|);
    BodiesUndo(bytes, at + |count|, a.functions);
  }

  ghost predicate FunctionsRecovered(functions: seq<Function>, bytes: seq<byte>, a: Assembly) {
    && |functions| == |a.functions|
    && forall i :: 0 <= i < |a.functions| ==>
         && functions[i].typeIndex == a.functions[i].typeIndex
         && FoundIn(bytes, a.functions[i], functions[i].start, functions[i].end, functions[i].locals)
  }

  /**
   * An assembled module decodes if and only if its data offsets are below 2^31, and then decoding
   * recovers everything that was asked for, byte ranges included.
   */
  lemma DecodeUndoesFinish(a: Assembly)
    requires Acceptable(a)
    ensures Decode(Finish(a)).Ok? <==> NearData(a.data)
    ensures Decode(Finish(a)).Ok? ==> Recovered(Decode(Finish(a)).value, Finish(a), a)
    ensures Decode(Finish(a)).Err? ==> Decode(Finish(a)) == Err(Error.Malformed)
  {
    hide Holds, Sections, DecodeSlice, FunctionsRecovered, TypesPart, ImportsPart, IndicesPart, MemoryPart, ExportsPart;
    hide CodePart, DataPart;
    var bytes := Finish(a);
    var at1 := 8 + |TypesPart(a)|;
    var at2 := at1 + |ImportsPart(a)|;
    var at3 := at2 + |IndicesPart(a)|;
    var at4 := at3 + |MemoryPart(a)|;
    var at5 := at4 + |ExportsPart(a)|;
    var at6 := at5 + |CodePart(a)|;
    FinishLayout(a);
    HeaderUndoes(bytes);
    var b1, last1 := TypesSection(bytes, 8, 0, Empty(bytes), a);
    var b2, last2 := ImportsSection(bytes, at1, last1, b1, a);
    var b3, last3 := IndicesSection(bytes, at2, last2, b2, a);
    var b4, last4 := MemorySection(bytes, at3, last3, b3, a);
    var b5, last5 := ExportsSection(bytes, at4, last4, b4, a);
    var b6, last6 := CodeSection(bytes, at5, last5, b5, a);
    if NearData(a.data) {
      var b7, last7 := DataSection(bytes, at6, last6, b6, a);
      SectionsEnd(bytes, last7, b7);
    } else {
      FarDataSection(bytes, at6, last6, b6, a);
    }
  }

  lemma FinishLayout(a: Assembly)
    ensures var bytes := Finish(a);
            var at1 := 8 + |TypesPart(a)|;
            var at2 := at1 + |ImportsPart(a)|;
            var at3 := at2 + |IndicesPart(a)|;
            var at4 := at3 + |MemoryPart(a)|;
            var at5 := at4 + |ExportsPart(a)|;
            var at6 := at5 + |CodePart(a)|;
            && Holds(bytes, 0, MAGIC + VERSION)
            && Holds(bytes, 8, TypesPart(a))
            && Holds(bytes, at1, ImportsPart(a))
            && Holds(bytes, at2, IndicesPart(a))
            && Holds(bytes, at3, MemoryPart(a))
            && Holds(bytes, at4, ExportsPart(a))
            && Holds(bytes, at5, CodePart(a))
            && Holds(bytes, at6, DataPart(a))
            && |bytes| == at6 + |DataPart(a)|
  {
    hide Holds, TypesPart, ImportsPart, IndicesPart, MemoryPart, ExportsPart, CodePart, DataPart;
    var bytes := Finish(a);
    var at1 := 8 + |TypesPart(a)|;
    var at2 := at1 + |ImportsPart(a)|;
    var at3 := at2 + |IndicesPart(a)|;
    var at4 := at3 + |MemoryPart(a)|;
    var from6 := CodePart(a) + DataPart(a);
    var from5 := ExportsPart(a) + from6;
    var from4 := MemoryPart(a) + from5;
    var from3 := IndicesPart(a) + from4;
    var from2 := ImportsPart(a) + from3;
    HoldsWhole(bytes);
    HoldsSplit(bytes, 0, MAGIC + VERSION, TypesPart(a) + from2);
    HoldsSplit(bytes, 8, TypesPart(a), from2);
    HoldsSplit(bytes, at1, ImportsPart(a), from3);
    HoldsSplit(bytes, at2, IndicesPart(a), from4);
    HoldsSplit(bytes, at3, MemoryPart(a), from5);
    HoldsSplit(bytes, at4, ExportsPart(a), from6);
    HoldsSplit(bytes, at4 + |ExportsPart(a)|, CodePart(a), DataPart(a));
  }

  lemma HoldsWhole(bytes: seq<byte>)
    ensures Holds(bytes, 0, bytes)
  {
  }

  lemma HeaderUndoes(bytes: seq<byte>)
    requires Holds(bytes, 0, MAGIC + VERSION)
    ensures DecodeSlice(bytes, 0, 4) == Ok(Leb.Read(MAGIC, 4)) && DecodeSlice(bytes, 4, 4) == Ok(Leb.Read(VERSION, 8))
  {
    HoldsSplit(bytes, 0, MAGIC, VERSION);
  }

  lemma SectionsEnd(bytes: seq<byte>, previous: byte, b: Building)
    ensures Sections(bytes, |bytes|, previous, b) == Ok(b)
  {
  }

  lemma TypesSection(bytes: seq<byte>, at: nat, previous: byte, b: Building, a: Assembly)
    returns (b': Building, last: byte)
    requires Acceptable(a) && |bytes| < TWO_32 && previous < 1 && b.m.types == []
    requires Holds(bytes, at, TypesPart(a))
    ensures last <= 1 && b' == b.(m := b.m.(types := a.types))
    ensures Sections(bytes, at, previous, b)
         == Sections(bytes, at + |TypesPart(a)|, last, b')
  {
    hide Sections, Holds, Vector, Finish;
    var payload := PrintVector(PrintType, a.types);
    b' := b.(m := b.m.(types := a.types));
    assert b.m.types + a.types == a.types;
    if a.types != [] {
      PayloadHeld(bytes, at, 1, payload);
      TypesRead(bytes, PayloadAt(at, payload), a);
    }
    last := SectionUndoes(bytes, at, previous, b, a.types != [], 1, payload, b');
  }

  lemma ImportsSection(bytes: seq<byte>, at: nat, previous: byte, b: Building, a: Assembly)
    returns (b': Building, last: byte)
    requires Acceptable(a) && |bytes| < TWO_32 && previous < 2 && b.m.imports == []
    requires Holds(bytes, at, ImportsPart(a))
    ensures last <= 2 && b' == b.(m := b.m.(imports := a.imports))
    ensures Sections(bytes, at, previous, b)
         == Sections(bytes, at + |ImportsPart(a)|, last, b')
  {
    hide Sections, Holds, Vector, Finish;
    var payload := PrintVector(PrintImport, a.imports);
    b' := b.(m := b.m.(imports := a.imports));
    assert b.m.imports + a.imports == a.imports;
    if a.imports != [] {
      PayloadHeld(bytes, at, 2, payload);
      ImportsRead(bytes, PayloadAt(at, payload), a);
    }
    last := SectionUndoes(bytes, at, previous, b, a.imports != [], 2, payload, b');
  }

  lemma IndicesSection(bytes: seq<byte>, at: nat, previous: byte, b: Building, a: Assembly)
    returns (b': Building, last: byte)
    requires |a.functions| <= MAX_FUNCTIONS && |bytes| < TWO_32 && previous < 3 && b.functionTypes == []
    requires Holds(bytes, at, IndicesPart(a))
    ensures last <= 3 && b' == b.(functionTypes := TypeIndices(a.functions))
    ensures Sections(bytes, at, previous, b)
         == Sections(bytes, at + |IndicesPart(a)|, last, b')
  {
    hide Sections, Holds, Vector, Finish, Acceptable, TypeIndices;
    var payload := PrintVector(PrintIndex, TypeIndices(a.functions));
    b' := b.(functionTypes := TypeIndices(a.functions));
    assert b.functionTypes + TypeIndices(a.functions) == TypeIndices(a.functions);
    if a.functions != [] {
      PayloadHeld(bytes, at, 3, payload);
      IndicesRead(bytes, PayloadAt(at, payload), TypeIndices(a.functions));
    }
    last := SectionUndoes(bytes, at, previous, b, a.functions != [], 3, payload, b');
  }

  lemma MemorySection(bytes: seq<byte>, at: nat, previous: byte, b: Building, a: Assembly)
    returns (b': Building, last: byte)
    requires Acceptable(a) && |bytes| < TWO_32 && previous < 5 && b.m.memoryPages == None
    requires Holds(bytes, at, MemoryPart(a))
    ensures last <= 5
    ensures b' ==
              b.(m := b.m.(memoryPages := if a.memory.Some? then Some((a.memory.value, MAX_MEMORY_PAGES)) else None))
    ensures Sections(bytes, at, previous, b)
         == Sections(bytes, at + |MemoryPart(a)|, last, b')
  {
    hide Sections, Holds, Vector, Finish, DecodeIndex, DecodeLimits, PrintMemory;
    var payload := if a.memory.Some? then PrintMemory(a.memory.value) else [];
    b' := b.(m := b.m.(memoryPages := if a.memory.Some? then Some((a.memory.value, MAX_MEMORY_PAGES)) else None));
    if a.memory.Some? {
      PayloadHeld(bytes, at, 5, payload);
      MemoryRead(bytes, PayloadAt(at, payload), a.memory.value);
    }
    last := SectionUndoes(bytes, at, previous, b, a.memory.Some?, 5, payload, b');
  }

  lemma ExportsSection(bytes: seq<byte>, at: nat, previous: byte, b: Building, a: Assembly)
    returns (b': Building, last: byte)
    requires Acceptable(a) && |bytes| < TWO_32 && previous < 7 && b.m.exports == []
    requires Holds(bytes, at, ExportsPart(a))
    ensures last <= 7 && b' == b.(m := b.m.(exports := a.exports))
    ensures Sections(bytes, at, previous, b)
         == Sections(bytes, at + |ExportsPart(a)|, last, b')
  {
    hide Sections, Holds, Vector, Finish, Kept;
    var payload := PrintVector(PrintExport, a.exports);
    b' := b.(m := b.m.(exports := a.exports));
    assert b.m.exports + a.exports == a.exports;
    if a.exports != [] {
      PayloadHeld(bytes, at, 7, payload);
      ExportsRead(bytes, PayloadAt(at, payload), a);
    }
    last := SectionUndoes(bytes, at, previous, b, a.exports != [], 7, payload, b');
  }

  lemma CodeSection(bytes: seq<byte>, at: nat, previous: byte, b: Building, a: Assembly)
    returns (b': Building, last: byte)
    requires Acceptable(a) && |bytes| < TWO_32 && previous < 10
    requires b.m.functions == [] && b.functionTypes == TypeIndices(a.functions)
    requires Holds(bytes, at, CodePart(a))
    ensures last <= 10 && b' == b.(m := b.m.(functions := b'.m.functions))
    ensures FunctionsRecovered(b'.m.functions, bytes, a)
    ensures Sections(bytes, at, previous, b)
         == Sections(bytes, at + |CodePart(a)|, last, b')
  {
    hide Sections, Holds, DecodeSection, Finish;
    var payload := PrintVector(PrintBody, a.functions);
    b' := b;
    if a.functions != [] {
      PayloadHeld(bytes, at, 10, payload);
      CodeRead(bytes, PayloadAt(at, payload), a, b);
      b' := DecodeSection(10, bytes, PayloadAt(at, payload), b).value;
    }
    last := SectionUndoes(bytes, at, previous, b, a.functions != [], 10, payload, b');
  }

  lemma DataSection(bytes: seq<byte>, at: nat, previous: byte, b: Building, a: Assembly)
    returns (b': Building, last: byte)
    requires Acceptable(a) && |bytes| < TWO_32 && previous < 11 && b.m.data == []
    requires Holds(bytes, at, DataPart(a)) && NearData(a.data)
    ensures last <= 11 && b' == b.(m := b.m.(data := a.data))
    ensures Sections(bytes, at, previous, b)
         == Sections(bytes, at + |DataPart(a)|, last, b')
  {
    hide Sections, Holds, Vector, Finish, NearData;
    var payload := PrintVector(PrintSegment, a.data);
    b' := b.(m := b.m.(data := a.data));
    assert b.m.data + a.data == a.data;
    if a.data != [] {
      PayloadHeld(bytes, at, 11, payload);
      DataRead(bytes, PayloadAt(at, payload), a);
    }
    last := SectionUndoes(bytes, at, previous, b, a.data != [], 11, payload, b');
  }

  /** One far offset, wherever among the segments, and the whole module is refused. */
  lemma FarDataSection(bytes: seq<byte>, at: nat, previous: byte, b: Building, a: Assembly)
    requires Acceptable(a) && |bytes| < TWO_32 && previous < 11
    requires Holds(bytes, at, DataPart(a)) && !NearData(a.data)
    ensures Sections(bytes, at, previous, b) == Err(Error.Malformed)
  {
    hide Holds, Vector, Finish, Sections, NearData, Acceptable;
    var payload := PrintVector(PrintSegment, a.data);
    assert a.data != [] by {
      NothingIsFar();
    }
    PayloadHeld(bytes, at, 11, payload);
    DataRead(bytes, PayloadAt(at, payload), a);
    SectionFails(bytes, at, previous, b, 11, payload, Error.Malformed);
  }

  lemma SectionFails(bytes: seq<byte>, at: nat, previous: byte, b: Building, id: byte, payload: seq<byte>, error: Error)
    requires Holds(bytes, at, PrintSection(id, payload)) && |bytes| < TWO_32 && previous < id
    requires DecodeSection(id, bytes, PayloadAt(at, payload), b) == Err(error)
    ensures Sections(bytes, at, previous, b) == Err(error)
  {
    hide DecodeSection, Holds, DecodeIndex, PrintSection;
    PayloadHeld(bytes, at, id, payload);
    IndexUndoes(bytes, at + 1, |payload|);
  }
}
