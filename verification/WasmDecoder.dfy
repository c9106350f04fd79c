/** The decoder's loops: a cursor that moves, vectors that grow, and a section order that is kept. */
module WasmDecoder {
  import opened Basics
  import opened WasmSyntax
  import opened WasmModule
  import Leb

  /** A method read what `spec` says: same value and same position after it, or the same error. */
  ghost predicate Reads<T>(spec: Reading<T>, r: Result<T, Error>, position: nat) {
    match spec
    case Ok(read) => r == Ok(read.value) && position == read.next
    case Err(e) => r == Err(e)
  }

  /** What a loop that has gathered `done` still owes. */
  ghost function Joined<T>(done: seq<T>, rest: Reading<seq<T>>): Reading<seq<T>> {
    match rest
    case Ok(read) => Ok(Leb.Read(done + read.value, read.next))
    case Err(e) => Err(e)
  }

  lemma OneMore<T>(item: (seq<byte>, nat) -> Reading<T>, bytes: seq<byte>, at: nat, left: nat, done: seq<T>)
    requires left > 0
    ensures item(bytes, at).Err? ==> Joined(done, Items(item, bytes, at, left)) == Err(item(bytes, at).error)
    ensures item(bytes, at).Ok? ==>
              var read := item(bytes, at).value;
              Joined(done, Items(item, bytes, at, left)) ==
                Joined(done + [read.value], Items(item, bytes, read.next, left - 1))
  {
    if item(bytes, at).Ok? {
      var rest := Items(item, bytes, item(bytes, at).value.next, left - 1);
      if rest.Ok? {
        var x := item(bytes, at).value.value;
        assert done + ([x] + rest.value.value) == (done + [x]) + rest.value.value;
      }
    }
  }

  lemma NoneLeft<T>(item: (seq<byte>, nat) -> Reading<T>, bytes: seq<byte>, at: nat, done: seq<T>)
    ensures Joined(done, Items(item, bytes, at, 0)) == Ok(Leb.Read(done, at))
  {
    assert done + [] == done;
  }

  lemma NothingYet<T>(rest: Reading<seq<T>>)
    ensures Joined([], rest) == rest
  {
    if rest.Ok? {
      assert [] + rest.value.value == rest.value.value;
    }
  }

  method ReadIndex(reader: Leb.Reader) returns (r: Result<u32, Error>)
    modifies reader
    ensures Reads(DecodeIndex(reader.bytes, old(reader.position)), r, reader.position)
  {
    var read := reader.ReadU32();
    r := Lift(read);
  }

  method ReadByte(reader: Leb.Reader) returns (r: Result<byte, Error>)
    modifies reader
    ensures Reads(DecodeByte(reader.bytes, old(reader.position)), r, reader.position)
  {
    var read := reader.ReadByte();
    r := Lift(read);
  }

  method ReadSlice(reader: Leb.Reader, length: nat) returns (r: Result<seq<byte>, Error>)
    modifies reader
    ensures Reads(DecodeSlice(reader.bytes, old(reader.position), length), r, reader.position)
  {
    var read := reader.ReadSlice(length);
    r := Lift(read);
  }

  method ReadValueType(reader: Leb.Reader) returns (r: Result<ValueType, Error>)
    modifies reader
    ensures Reads(DecodeValueType(reader.bytes, old(reader.position)), r, reader.position)
  {
    var b :- ReadByte(reader);
    r := ValueTypeOf(b);
  }

  method ReadName(reader: Leb.Reader) returns (r: Result<seq<byte>, Error>)
    modifies reader
    ensures Reads(DecodeName(reader.bytes, old(reader.position)), r, reader.position)
  {
    hide IsUtf8;
    var length :- ReadIndex(reader);
    var text :- ReadSlice(reader, length);
    if !IsUtf8(text) {
      return Err(Error.Malformed);
    }
    return Ok(text);
  }

  method ReadValueTypes(reader: Leb.Reader, count: nat) returns (r: Result<seq<ValueType>, Error>)
    modifies reader
    ensures Reads(Items(DecodeValueType, reader.bytes, old(reader.position), count), r, reader.position)
  {
    hide DecodeValueType, Items;
    var types := [];
    ghost var all := Items(DecodeValueType, reader.bytes, reader.position, count);
    NothingYet(all);
    for i := 0 to count
      invariant all == Joined(types, Items(DecodeValueType, reader.bytes, reader.position, count - i))
    {
      OneMore(DecodeValueType, reader.bytes, reader.position, count - i, types);
      var valueType :- ReadValueType(reader);
      types := types + [valueType];
    }
    NoneLeft(DecodeValueType, reader.bytes, reader.position, types);
    return Ok(types);
  }

  method ReadType(reader: Leb.Reader) returns (r: Result<FuncType, Error>)
    modifies reader
    ensures Reads(DecodeType(reader.bytes, old(reader.position)), r, reader.position)
  {
    hide DecodeIndex, DecodeByte, Items;
    var form :- ReadByte(reader);
    if form != 0x60 {
      return Err(Error.Malformed);
    }
    var paramCount :- ReadIndex(reader);
    var params :- ReadValueTypes(reader, paramCount);
    var resultCount :- ReadIndex(reader);
    if resultCount > 1 {
      return Err(Error.Unsupported);
    }
    var results :- ReadValueTypes(reader, resultCount);
    return Ok(FuncType(params, results));
  }

  method ReadTypes(reader: Leb.Reader) returns (r: Result<seq<FuncType>, Error>)
    modifies reader
    ensures Reads(Vector(DecodeType, reader.bytes, old(reader.position), MAX_TYPES), r, reader.position)
  {
    hide DecodeType, DecodeIndex, Items;
    var count :- ReadIndex(reader);
    if count > MAX_TYPES {
      return Err(TooLarge);
    }
    var types := [];
    ghost var all := Items(DecodeType, reader.bytes, reader.position, count);
    NothingYet(all);
    for i := 0 to count
      invariant all == Joined(types, Items(DecodeType, reader.bytes, reader.position, count - i))
    {
      OneMore(DecodeType, reader.bytes, reader.position, count - i, types);
      var t :- ReadType(reader);
      types := types + [t];
    }
    NoneLeft(DecodeType, reader.bytes, reader.position, types);
    return Ok(types);
  }

  method ReadImport(reader: Leb.Reader) returns (r: Result<ImportRef, Error>)
    modifies reader
    ensures Reads(DecodeImport(reader.bytes, old(reader.position)), r, reader.position)
  {
    hide DecodeIndex, DecodeByte, DecodeName;
    var moduleName :- ReadName(reader);
    var name :- ReadName(reader);
    var kind :- ReadByte(reader);
    if kind == 0x00 {
      var typeIndex :- ReadIndex(reader);
      return Ok(ImportRef(moduleName, name, typeIndex));
    }
    return Err(if kind <= 0x03 then Error.Unsupported else Error.Malformed);
  }

  method ReadImports(reader: Leb.Reader) returns (r: Result<seq<ImportRef>, Error>)
    modifies reader
    ensures Reads(Vector(DecodeImport, reader.bytes, old(reader.position), MAX_IMPORTS), r, reader.position)
  {
    hide DecodeImport, DecodeIndex, Items;
    var count :- ReadIndex(reader);
    if count > MAX_IMPORTS {
      return Err(TooLarge);
    }
    var imports := [];
    ghost var all := Items(DecodeImport, reader.bytes, reader.position, count);
    NothingYet(all);
    for i := 0 to count
      invariant all == Joined(imports, Items(DecodeImport, reader.bytes, reader.position, count - i))
    {
      OneMore(DecodeImport, reader.bytes, reader.position, count - i, imports);
      var x :- ReadImport(reader);
      imports := imports + [x];
    }
    NoneLeft(DecodeImport, reader.bytes, reader.position, imports);
    return Ok(imports);
  }

  method ReadIndices(reader: Leb.Reader) returns (r: Result<seq<u32>, Error>)
    modifies reader
    ensures Reads(Vector(DecodeIndex, reader.bytes, old(reader.position), MAX_FUNCTIONS), r, reader.position)
  {
    hide DecodeIndex, Items;
    var count :- ReadIndex(reader);
    if count > MAX_FUNCTIONS {
      return Err(TooLarge);
    }
    var indices := [];
    ghost var all := Items(DecodeIndex, reader.bytes, reader.position, count);
    NothingYet(all);
    for i := 0 to count
      invariant all == Joined(indices, Items(DecodeIndex, reader.bytes, reader.position, count - i))
    {
      OneMore(DecodeIndex, reader.bytes, reader.position, count - i, indices);
      var x :- ReadIndex(reader);
      indices := indices + [x];
    }
    NoneLeft(DecodeIndex, reader.bytes, reader.position, indices);
    return Ok(indices);
  }

  method ReadMemory(reader: Leb.Reader) returns (r: Result<Option<(u32, u32)>, Error>)
    modifies reader
    ensures var count := DecodeIndex(reader.bytes, old(reader.position));
            match count
            case Err(e) => r == Err(e)
            case Ok(n) =>
              if n.value > 1 then r == Err(Error.Unsupported)
              else if n.value == 0 then r == Ok(None)
              else match DecodeLimits(reader.bytes, n.next)
                   case Err(e) => r == Err(e)
                   case Ok(limits) => r == Ok(Some(limits.value))
  {
    hide DecodeIndex, DecodeByte;
    var count :- ReadIndex(reader);
    if count > 1 {
      return Err(Error.Unsupported);
    }
    if count == 0 {
      return Ok(None);
    }
    var flag :- ReadByte(reader);
    if flag > 0x01 {
      return Err(Error.Malformed);
    }
    var minimum :- ReadIndex(reader);
    var maximum: u32 := MAX_MEMORY_PAGES;
    if flag == 0x01 {
      maximum :- ReadIndex(reader);
    }
    if minimum > MAX_MEMORY_PAGES || maximum > MAX_MEMORY_PAGES {
      return Err(TooLarge);
    }
    return Ok(Some((minimum, maximum)));
  }

  method ReadExport(reader: Leb.Reader) returns (r: Result<Option<Export>, Error>)
    modifies reader
    ensures Reads(DecodeExport(reader.bytes, old(reader.position)), r, reader.position)
  {
    hide DecodeIndex, DecodeByte, DecodeName;
    var name :- ReadName(reader);
    var kind :- ReadByte(reader);
    var index :- ReadIndex(reader);
    return Ok(if kind == 0x00 then Some(Export(name, index)) else None);
  }

  lemma {:induction false} KeptAppend<T>(items: seq<Option<T>>, x: Option<T>)
    ensures Kept(items + [x]) == Kept(items) + if x.Some? then [x.value] else []
  {
    var longer := items + [x];
    if items == [] {
      assert longer[1..] == [];
    } else {
      KeptAppend(items[1..], x);
      assert longer[0] == items[0] && longer[1..] == items[1..] + [x];
    }
  }

  method ReadExports(reader: Leb.Reader) returns (r: Result<seq<Export>, Error>)
    modifies reader
    ensures match Vector(DecodeExport, reader.bytes, old(reader.position), MAX_EXPORTS)
            case Ok(read) => r == Ok(Kept(read.value)) && reader.position == read.next
            case Err(e) => r == Err(e)
  {
    hide DecodeExport, DecodeIndex, Items, Kept;
    var count :- ReadIndex(reader);
    if count > MAX_EXPORTS {
      return Err(TooLarge);
    }
    var exports := [];
    ghost var entries: seq<Option<Export>> := [];
    ghost var all := Items(DecodeExport, reader.bytes, reader.position, count);
    NothingYet(all);
    KeptNone<Export>();
    for i := 0 to count
      invariant exports == Kept(entries)
      invariant all == Joined(entries, Items(DecodeExport, reader.bytes, reader.position, count - i))
    {
      OneMore(DecodeExport, reader.bytes, reader.position, count - i, entries);
      var entry :- ReadExport(reader);
      KeptAppend(entries, entry);
      entries := entries + [entry];
      if entry.Some? {
        exports := exports + [entry.value];
      }
    }
    NoneLeft(DecodeExport, reader.bytes, reader.position, entries);
    return Ok(exports);
  }

  lemma KeptNone<T>()
    ensures Kept<T>([]) == []
  {
  }

  method ReadLocals(reader: Leb.Reader, groups: nat) returns (r: Result<seq<ValueType>, Error>)
    modifies reader
    ensures Reads(LocalGroups(reader.bytes, old(reader.position), groups, []), r, reader.position)
  {
    hide DecodeIndex, DecodeValueType;
    var locals := [];
    ghost var all := LocalGroups(reader.bytes, reader.position, groups, []);
    for i := 0 to groups
      invariant all == LocalGroups(reader.bytes, reader.position, groups - i, locals)
    {
      var repeat :- ReadIndex(reader);
      var valueType :- ReadValueType(reader);
      if |locals| + repeat > MAX_LOCALS {
        return Err(TooLarge);
      }
      locals := locals + Repeat(repeat, valueType);
    }
    return Ok(locals);
  }

  method ReadBody(reader: Leb.Reader) returns (r: Result<Body, Error>)
    modifies reader
    ensures Reads(DecodeBody(reader.bytes, old(reader.position)), r, reader.position)
  {
    hide DecodeIndex, LocalGroups;
    var size :- ReadIndex(reader);
    var end := reader.position + size;
    if end > |reader.bytes| {
      return Err(Truncated);
    }
    var groups :- ReadIndex(reader);
    var locals :- ReadLocals(reader, groups);
    r := Ok(Body(locals, reader.position, end));
    var moved := reader.Seek(end);
  }

  method ReadBodies(reader: Leb.Reader, count: nat) returns (r: Result<seq<Body>, Error>)
    modifies reader
    ensures Reads(Items(DecodeBody, reader.bytes, old(reader.position), count), r, reader.position)
  {
    hide DecodeBody, Items;
    var bodies := [];
    ghost var all := Items(DecodeBody, reader.bytes, reader.position, count);
    NothingYet(all);
    for i := 0 to count
      invariant all == Joined(bodies, Items(DecodeBody, reader.bytes, reader.position, count - i))
    {
      OneMore(DecodeBody, reader.bytes, reader.position, count - i, bodies);
      var body :- ReadBody(reader);
      bodies := bodies + [body];
    }
    NoneLeft(DecodeBody, reader.bytes, reader.position, bodies);
    return Ok(bodies);
  }

  method ReadSegment(reader: Leb.Reader) returns (r: Result<(u32, seq<byte>), Error>)
    modifies reader
    ensures Reads(DecodeSegment(reader.bytes, old(reader.position)), r, reader.position)
  {
    hide DecodeIndex, DecodeByte, DecodeSlice;
    var memory :- ReadIndex(reader);
    if memory != 0 {
      return Err(Error.Unsupported);
    }
    var opcode :- ReadByte(reader);
    if opcode != 0x41 {
      return Err(Error.Unsupported);
    }
    Pow2At31();
    var constant := reader.ReadSigned(32);
    var offset :- Lift(constant);
    var end :- ReadByte(reader);
    if end != 0x0b {
      return Err(Error.Malformed);
    }
    var length :- ReadIndex(reader);
    var content :- ReadSlice(reader, length);
    return Ok((ToU32(offset), content));
  }

  method ReadData(reader: Leb.Reader) returns (r: Result<seq<(u32, seq<byte>)>, Error>)
    modifies reader
    ensures Reads(Vector(DecodeSegment, reader.bytes, old(reader.position), MAX_DATA_SEGMENTS), r, reader.position)
  {
    hide DecodeSegment, DecodeIndex, Items;
    var count :- ReadIndex(reader);
    if count > MAX_DATA_SEGMENTS {
      return Err(TooLarge);
    }
    var data := [];
    ghost var all := Items(DecodeSegment, reader.bytes, reader.position, count);
    NothingYet(all);
    for i := 0 to count
      invariant all == Joined(data, Items(DecodeSegment, reader.bytes, reader.position, count - i))
    {
      OneMore(DecodeSegment, reader.bytes, reader.position, count - i, data);
      var segment :- ReadSegment(reader);
      data := data + [segment];
    }
    NoneLeft(DecodeSegment, reader.bytes, reader.position, data);
    return Ok(data);
  }

  method ReadSection(reader: Leb.Reader, id: byte, b: Building) returns (r: Result<Building, Error>)
    modifies reader
    ensures r == DecodeSection(id, reader.bytes, old(reader.position), b)
  {
    hide Vector, Items, DecodeIndex, DecodeLimits, Kept;
    r := Ok(b);
    match id {
      case 0 =>
      case 1 => {
        var types :- ReadTypes(reader);
        return Ok(b.(m := b.m.(types := b.m.types + types)));
      }
      case 2 => {
        var imports :- ReadImports(reader);
        return Ok(b.(m := b.m.(imports := b.m.imports + imports)));
      }
      case 3 => {
        var indices :- ReadIndices(reader);
        return Ok(b.(functionTypes := b.functionTypes + indices));
      }
      case 5 => {
        var limits :- ReadMemory(reader);
        return Ok(if limits.Some? then b.(m := b.m.(memoryPages := limits)) else b);
      }
      case 7 => {
        var exports :- ReadExports(reader);
        return Ok(b.(m := b.m.(exports := b.m.exports + exports)));
      }
      case 10 => {
        r := ReadCode(reader, b);
      }
      case 11 => {
        var data :- ReadData(reader);
        return Ok(b.(m := b.m.(data := b.m.data + data)));
      }
      case _ =>
        return Err(if id == 4 || id == 6 || id == 8 || id == 9 then Error.Unsupported else Error.Malformed);
    }
  }

  method ReadCode(reader: Leb.Reader, b: Building) returns (r: Result<Building, Error>)
    modifies reader
    ensures r == DecodeSection(10, reader.bytes, old(reader.position), b)
  {
    hide Items, DecodeIndex, DecodeBody;
    var count :- ReadIndex(reader);
    if count != |b.functionTypes| {
      return Err(Error.Malformed);
    }
    var bodies :- ReadBodies(reader, count);
    return Ok(b.(m := b.m.(functions := b.m.functions + Match(b.functionTypes, bodies))));
  }

  /** The section loop: each at most once and in order, each trusted for the length it declared. */
  method ReadSections(reader: Leb.Reader, start: Building) returns (r: Result<Building, Error>)
    requires reader.position <= |reader.bytes|
    modifies reader
    ensures r == Sections(reader.bytes, old(reader.position), 0, start)
  {
    hide DecodeSection, DecodeIndex;
    var bytes := reader.bytes;
    var b := start;
    var previous: byte := 0;
    ghost var answer := Sections(bytes, reader.position, 0, b);
    while reader.position < |bytes|
      invariant answer == Sections(bytes, reader.position, previous, b)
      decreases |bytes| - reader.position
    {
      var first := ReadByte(reader);
      var id := first.value;
      if id != 0 {
        if id <= previous {
          return Err(Error.Malformed);
        }
        previous := id;
      }
      var size :- ReadIndex(reader);
      var end := reader.position + size;
      if end > |bytes| {
        return Err(Truncated);
      }
      b :- ReadSection(reader, id, b);
      var moved := reader.Seek(end);
    }
    return Ok(b);
  }

  /** `Module::decode`. Whatever it accepts respects every ceiling. */
  method DecodeModule(bytes: seq<byte>) returns (r: Result<Module, Error>)
    ensures r == Decode(bytes)
    ensures r.Ok? ==> WithinCeilings(r.value) && r.value.bytes == bytes
  {
    hide Sections, WithinCeilings;
    if |bytes| > MAX_MODULE_BYTES {
      return Err(TooLarge);
    }
    var reader := new Leb.Reader(bytes);
    var magic :- ReadSlice(reader, 4);
    if magic != MAGIC {
      return Err(NotWasm);
    }
    var version :- ReadSlice(reader, 4);
    if version != VERSION {
      return Err(UnsupportedVersion);
    }
    var b :- ReadSections(reader, Empty(bytes));
    AcceptedIsBounded(bytes);
    return Ok(b.m);
  }
}
