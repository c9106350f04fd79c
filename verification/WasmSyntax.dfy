/** Modules, values and instructions of the WebAssembly subset, and how one instruction is read. */
module WasmSyntax {
  import opened Basics
  import Leb

  datatype Trap = OutOfBounds | OutOfFuel | Faulted | StackOverflow | Unsupported | HostDenied | Malformed

  datatype ValueType = TypeI32 | TypeI64

  datatype Value = I32(narrow: i32) | I64(wide: i64) {
    function AsI32(): i32 {
      match this
      case I32(v) => v
      case I64(v) => WrapI32(v)
    }

    function AsI64(): i64 {
      match this
      case I32(v) => v
      case I64(v) => v
    }

    static function Zero(valueType: ValueType): Value {
      match valueType
      case TypeI32 => I32(0)
      case TypeI64 => I64(0)
    }
  }

  datatype FuncType = FuncType(params: seq<ValueType>, results: seq<ValueType>)

  datatype ImportRef = ImportRef(moduleName: seq<byte>, name: seq<byte>, typeIndex: u32)

  datatype Export = Export(name: seq<byte>, functionIndex: u32)

  /** A body is the byte range `[start, end)` of the module. */
  datatype Function = Function(typeIndex: u32, locals: seq<ValueType>, start: nat, end: nat)

  datatype Module = Module(
    bytes: seq<byte>,
    types: seq<FuncType>,
    imports: seq<ImportRef>,
    functions: seq<Function>,
    exports: seq<Export>,
    memoryPages: Option<(u32, u32)>,
    data: seq<(u32, seq<byte>)>)
  {
    /** Imported functions occupy the low indices. */
    function FunctionType(index: u32): Option<FuncType> {
      var typeIndex :=
        if index < |imports| then Some(imports[index].typeIndex)
        else if index - |imports| < |functions| then Some(functions[index - |imports|].typeIndex)
        else None;
      if typeIndex.Some? && typeIndex.value < |types| then Some(types[typeIndex.value]) else None
    }

    /** The first export of that name. */
    function ExportFrom(name: seq<byte>, i: nat): (r: Option<u32>)
      ensures r.Some? ==> exists j :: i <= j < |exports| && exports[j] == Export(name, r.value)
                                      && forall k :: i <= k < j ==> exports[k].name != name
      ensures r.None? ==> forall j :: i <= j < |exports| ==> exports[j].name != name
      decreases |exports| - i
    {
      if i >= |exports| then None
      else if exports[i].name == name then Some(exports[i].functionIndex)
      else ExportFrom(name, i + 1)
    }

    predicate BodiesInBounds() {
      forall i :: 0 <= i < |functions| ==> functions[i].end <= |bytes|
    }
  }

  /** Instructions that neither branch nor call: everything but control flow. */
  datatype PlainOp =
    | Unreachable
    | Nop
    | Drop
    | Select
    | LocalGet(local: u32)
    | LocalSet(local: u32)
    | LocalTee(local: u32)
    | Load(opcode: byte, align: u32, offset: u32)
    | Store(opcode: byte, align: u32, offset: u32)
    | MemorySize(reserved: byte)
    | Const32(value32: i32)
    | Const64(value64: i64)
    | Numeric(opcode: byte)

  datatype BlockKind = BlockKind | LoopKind | IfKind

  /** An instruction as the dispatch loop meets it: block markers are instructions of their own. */
  datatype Op =
    | Plain(plain: PlainOp)
    | Enter(kind: BlockKind, blockType: byte)
    | Else
    | End
    | Br(target: u32)
    | BrIf(target: u32)
    | Return
    | Call(index: u32)

  const EMPTY_BLOCK: byte := 0x40

  predicate IsBlockType(b: byte) {
    b == 0x40 || b == 0x7f || b == 0x7e
  }

  predicate IsNumeric(b: byte) {
    0x45 <= b <= 0x5a || 0x6a <= b <= 0x76 || 0x7c <= b <= 0x88 || b == 0xa7 || b == 0xac || b == 0xad
  }

  predicate IsLoad(b: byte) {
    b == 0x28 || b == 0x2d || b == 0x2f
  }

  predicate IsStore(b: byte) {
    b == 0x36 || b == 0x3a
  }

  /** Any decoding error inside a body is the same trap to the interpreter. */
  function OrMalformed<T>(r: Result<T, Leb.Error>): Result<T, Trap> {
    match r
    case Ok(v) => Ok(v)
    case Err(_) => Err(Malformed)
  }

  function FetchIndex(code: seq<byte>, at: nat, make: u32 -> Op): (r: Result<Leb.Read<Op>, Trap>)
    ensures r.Ok? ==> at < r.value.next <= |code|
  {
    var index :- OrMalformed(Leb.U32(code, at));
    Ok(Leb.Read(make(index.value), index.next))
  }

  function FetchMemory(code: seq<byte>, at: nat, make: (u32, u32) -> Op): (r: Result<Leb.Read<Op>, Trap>)
    ensures r.Ok? ==> at < r.value.next <= |code|
  {
    var align :- OrMalformed(Leb.U32(code, at));
    var offset :- OrMalformed(Leb.U32(code, align.next));
    Ok(Leb.Read(make(align.value, offset.value), offset.next))
  }

  /** Read the instruction at `at`: its opcode and every immediate the interpreter consumes. */
  function Fetch(code: seq<byte>, at: nat): (r: Result<Leb.Read<Op>, Trap>)
    ensures r.Ok? ==> at < r.value.next <= |code|
    ensures r.Ok? && r.value.value.Enter? ==> IsBlockType(r.value.value.blockType) && r.value.next == at + 2
  {
    if at >= |code| then
      Err(Malformed)
    else
      var b := code[at];
      if b == 0x00 then Ok(Leb.Read(Plain(Unreachable), at + 1))
      else if b == 0x01 then Ok(Leb.Read(Plain(Nop), at + 1))
      else if 0x02 <= b <= 0x04 then
        if at + 1 >= |code| then Err(Malformed)
        else if !IsBlockType(code[at + 1]) then Err(Unsupported)
        else
          var kind := if b == 0x02 then BlockKind else if b == 0x03 then LoopKind else IfKind;
          Ok(Leb.Read(Enter(kind, code[at + 1]), at + 2))
      else if b == 0x05 then Ok(Leb.Read(Else, at + 1))
      else if b == 0x0b then Ok(Leb.Read(End, at + 1))
      else if b == 0x0c then FetchIndex(code, at + 1, (n: u32) => Br(n))
      else if b == 0x0d then FetchIndex(code, at + 1, (n: u32) => BrIf(n))
      else if b == 0x0f then Ok(Leb.Read(Return, at + 1))
      else if b == 0x10 then FetchIndex(code, at + 1, (n: u32) => Call(n))
      else if b == 0x1a then Ok(Leb.Read(Plain(Drop), at + 1))
      else if b == 0x1b then Ok(Leb.Read(Plain(Select), at + 1))
      else if b == 0x20 then FetchIndex(code, at + 1, (n: u32) => Plain(LocalGet(n)))
      else if b == 0x21 then FetchIndex(code, at + 1, (n: u32) => Plain(LocalSet(n)))
      else if b == 0x22 then FetchIndex(code, at + 1, (n: u32) => Plain(LocalTee(n)))
      else if IsLoad(b) then FetchMemory(code, at + 1, (align: u32, offset: u32) => Plain(Load(b, align, offset)))
      else if IsStore(b) then FetchMemory(code, at + 1, (align: u32, offset: u32) => Plain(Store(b, align, offset)))
      else if b == 0x3f then
        if at + 1 >= |code| then Err(Malformed) else Ok(Leb.Read(Plain(MemorySize(code[at + 1])), at + 2))
      else if b == 0x41 then
        var constant :- OrMalformed(Leb.I32(code, at + 1));
        Ok(Leb.Read(Plain(Const32(constant.value)), constant.next))
      else if b == 0x42 then
        var constant :- OrMalformed(Leb.Signed(code, at + 1, 64));
        Ok(Leb.Read(Plain(Const64(constant.value)), constant.next))
      else if IsNumeric(b) then Ok(Leb.Read(Plain(Numeric(b)), at + 1))
      else Err(Unsupported)
  }

  /** How far the block scanner steps over an instruction that is not a block marker. */
  function Skip(code: seq<byte>, at: nat): (r: Result<nat, Trap>)
    requires at < |code|
    ensures r.Ok? ==> at < r.value <= |code|
  {
    var b := code[at];
    if b == 0x0c || b == 0x0d || b == 0x10 || 0x20 <= b <= 0x24 then
      var index :- OrMalformed(Leb.U32(code, at + 1));
      Ok(index.next)
    else if 0x28 <= b <= 0x3e then
      var align :- OrMalformed(Leb.U32(code, at + 1));
      var offset :- OrMalformed(Leb.U32(code, align.next));
      Ok(offset.next)
    else if b == 0x3f || b == 0x40 then
      if at + 1 >= |code| then Err(Malformed) else Ok(at + 2)
    else if b == 0x41 then
      var constant :- OrMalformed(Leb.Signed(code, at + 1, 32));
      Ok(constant.next)
    else if b == 0x42 then
      var constant :- OrMalformed(Leb.Signed(code, at + 1, 64));
      Ok(constant.next)
    else if b == 0x0e then
      Err(Unsupported)
    else
      Ok(at + 1)
  }

  predicate IsMarker(op: Op) {
    op.Enter? || op.Else? || op.End?
  }

  /**
   * Scanner and interpreter agree on where every instruction ends, whatever the bytes: an
   * immediate that looks like `end` or `else` is never taken for one.
   */
  lemma SameWidth(code: seq<byte>, at: nat)
    requires Fetch(code, at).Ok?
    ensures var read := Fetch(code, at).value;
            && at < |code|
            && (!IsMarker(read.value) ==> Skip(code, at) == Ok(read.next) && code[at] != 0x05 && code[at] != 0x0b
                                          && !(0x02 <= code[at] <= 0x04))
            && (read.value.Enter? <==> 0x02 <= code[at] <= 0x04)
            && (read.value.Else? <==> code[at] == 0x05)
            && (read.value.End? <==> code[at] == 0x0b)
  {
    hide Leb.U32, Leb.Signed;
  }
}
