/** Attribute decoding: the name dispatch of AttributeFactory.create and the
    field-by-field decoding of a Code attribute, which calls the dispatch again
    for each nested attribute.  Both are functions from a byte sequence and a
    cursor to the decoded attribute and the cursor after it; they are mutually
    recursive and terminate because every level consumes bytes. */
module ClassReader {
  import opened Bytes
  import opened ConstantPool

  /** The nine attribute names AttributeFactory knows (sections 4.7.2 to
      4.7.10 of the Java Virtual Machine Specification). */
  const CONSTANT_VALUE: string := "ConstantValue"
  const CODE: string := "Code"
  const EXCEPTIONS: string := "Exceptions"
  const INNER_CLASSES: string := "InnerClasses"
  const SYNTHETIC: string := "Synthetic"
  const SOURCE_FILE: string := "SourceFile"
  const LINE_NUMBER_TABLE: string := "LineNumberTable"
  const LOCAL_VARIABLE_TABLE: string := "LocalVariableTable"
  const DEPRECATED: string := "Deprecated"

  datatype Kind =
    | ConstantValueKind | CodeKind | ExceptionsKind | InnerClassesKind | SyntheticKind
    | SourceFileKind | LineNumberTableKind | LocalVariableTableKind | DeprecatedKind

  /** The name constant of each known kind; AttributeProperties.KindOfName
      proves that the name chain of create maps it back to that kind. */
  function KindName(kind: Kind): string {
    match kind
    case ConstantValueKind => CONSTANT_VALUE
    case CodeKind => CODE
    case ExceptionsKind => EXCEPTIONS
    case InnerClassesKind => INNER_CLASSES
    case SyntheticKind => SYNTHETIC
    case SourceFileKind => SOURCE_FILE
    case LineNumberTableKind => LINE_NUMBER_TABLE
    case LocalVariableTableKind => LOCAL_VARIABLE_TABLE
    case DeprecatedKind => DEPRECATED
  }

  /** The if/else chain of create: the known kind whose name equals the given
      name exactly, or None when the name is none of the nine. */
  function KindOf(name: string): (r: Option<Kind>)
    ensures r.Some? ==> KindName(r.value) == name
    ensures r.None? ==> forall kind: Kind :: KindName(kind) != name
  {
    if name == CONSTANT_VALUE then Some(ConstantValueKind)
    else if name == CODE then Some(CodeKind)
    else if name == EXCEPTIONS then Some(ExceptionsKind)
    else if name == INNER_CLASSES then Some(InnerClassesKind)
    else if name == SYNTHETIC then Some(SyntheticKind)
    else if name == SOURCE_FILE then Some(SourceFileKind)
    else if name == LINE_NUMBER_TABLE then Some(LineNumberTableKind)
    else if name == LOCAL_VARIABLE_TABLE then Some(LocalVariableTableKind)
    else if name == DEPRECATED then Some(DeprecatedKind)
    else None
  }

  /** The structure an attribute belongs to.  Attributes nested in a Code
      attribute belong to that Code attribute, named by its own owner. */
  datatype Owner =
    | ClassfileOwner
    | FieldOwner(fieldIndex: nat)
    | MethodOwner(methodIndex: nat)
    | CodeOwner(holder: Owner)

  /** One row of a Code attribute's exception table (section 4.7.3 of the Java
      Virtual Machine Specification); catchType 0 catches everything. */
  datatype ExceptionHandler = ExceptionHandler(startPc: nat, endPc: nat, handlerPc: nat, catchType: nat)

  /** The attribute variants create builds.  The decoders of the eight known
      kinds other than Code are not part of this model: Known keeps the kind
      and the undecoded body.  Custom carries its name only when the name
      index named a UTF8 entry. */
  datatype Attribute =
    | Code(owner: Owner, maxStack: nat, maxLocals: nat, code: seq<byte>,
           exceptionHandlers: seq<ExceptionHandler>, attributes: seq<Attribute>)
    | Known(kind: Kind, owner: Owner, body: seq<byte>)
    | Custom(owner: Owner, name: Option<string>, body: seq<byte>)
  {
    /** The known kind of this attribute, None for Custom. */
    function KnownKind(): Option<Kind> {
      match this
      case Code(_, _, _, _, _, _) => Some(CodeKind)
      case Known(kind, _, _) => Some(kind)
      case Custom(_, _, _) => None
    }
  }

  /** Decoding fails only on a short stream, a negative code length, or a
      name index beyond the pool: unknown and invalid names never fail. */
  predicate StructuralError(pool: Pool, e: Error) {
    e == Truncated || e.NegativeLength? || (e.InvalidIndex? && e.index > |pool|)
  }

  /** What an attribute's name index denotes: no name (index 0), an entry
      that is not UTF8, or a UTF8 name. */
  datatype AttributeName = NoName | InvalidName | Name(text: string)

  /** Index 0 is answered without consulting the pool; any other index is
      looked up, and an index outside the pool is an error. */
  function ResolveName(pool: Pool, nameIndex: nat): (r: Result<AttributeName>)
    ensures nameIndex == 0 ==> r == Ok(NoName)
    ensures nameIndex > 0 ==> (r.Ok? <==> nameIndex <= |pool|)
    ensures r.Ok? && nameIndex > 0 ==>
      (r.value.Name? <==> pool[nameIndex - 1].Utf8?) &&
      (r.value.Name? ==> pool[nameIndex - 1] == Utf8(r.value.text))
    ensures r.Err? ==> r.error == InvalidIndex(nameIndex) && nameIndex > |pool|
  {
    if nameIndex == 0 then Ok(NoName)
    else
      var entry :- Get(pool, nameIndex);
      if entry.Utf8? then Ok(Name(entry.text)) else Ok(InvalidName)
  }

  /** The generic attribute body: a u4 length and that many bytes. */
  function DecodeBody(bytes: seq<byte>, pos: nat): (r: Result<Decoded<seq<byte>>>)
    ensures r.Ok? ==> r.value.next == pos + 4 + |r.value.item| <= |bytes|
    ensures r.Err? ==> r.error == Truncated
  {
    var length :- ReadU4(bytes, pos);
    ReadBytes(bytes, length.next, length.item)
  }

  /** Custom_attribute: an unknown or unnamed attribute keeps its body as bytes. */
  function DecodeCustom(owner: Owner, name: Option<string>, bytes: seq<byte>, pos: nat): (r: Result<Decoded<Attribute>>)
    ensures r.Ok? ==> r.value.item.Custom? && r.value.item.owner == owner && r.value.item.name == name
    ensures r.Ok? ==> r.value.next == pos + 4 + |r.value.item.body| <= |bytes|
    ensures r.Err? ==> r.error == Truncated
  {
    var body :- DecodeBody(bytes, pos);
    Ok(Decoded(Custom(owner, name, body.item), body.next))
  }

  /** AttributeFactory.create: read the u2 name index, classify it, and hand
      the rest of the stream to the decoder the name selects. */
  function CreateAttribute(pool: Pool, owner: Owner, bytes: seq<byte>, pos: nat): (r: Result<Decoded<Attribute>>)
    ensures r.Ok? ==> pos + 6 <= r.value.next <= |bytes|
    ensures r.Ok? ==> r.value.item.owner == owner
    ensures r.Err? ==> StructuralError(pool, r.error)
    decreases |bytes| - pos, 0, 0
  {
    var nameIndex :- ReadU2(bytes, pos);
    var name :- ResolveName(pool, nameIndex.item);
    Dispatch(pool, owner, name, bytes, nameIndex.next)
  }

  /** The if/else chain of create on the resolved name: no name and an invalid
      name give an unnamed Custom attribute, an unknown name a Custom attribute
      carrying it, a known name its own variant. */
  function Dispatch(pool: Pool, owner: Owner, name: AttributeName, bytes: seq<byte>, pos: nat): (r: Result<Decoded<Attribute>>)
    ensures r.Ok? ==> pos + 4 <= r.value.next <= |bytes|
    ensures r.Ok? ==> r.value.item.owner == owner
    ensures r.Err? ==> StructuralError(pool, r.error)
    decreases |bytes| - pos, 0, 1
  {
    match name
    case NoName => DecodeCustom(owner, None, bytes, pos)
    case InvalidName => DecodeCustom(owner, None, bytes, pos)
    case Name(text) =>
      var kind := KindOf(text);
      if kind.None? then DecodeCustom(owner, Some(text), bytes, pos)
      else if kind.value == CodeKind then DecodeCode(pool, owner, bytes, pos)
      else
        var body :- DecodeBody(bytes, pos);
        Ok(Decoded(Known(kind.value, owner, body.item), body.next))
  }

  /** ExceptionHandler: four u2 fields. */
  function DecodeHandler(bytes: seq<byte>, pos: nat): (r: Result<Decoded<ExceptionHandler>>)
    ensures r.Ok? <==> pos + 8 <= |bytes|
    ensures r.Err? ==> r.error == Truncated
    ensures r.Ok? ==> r.value.next == pos + 8
  {
    var startPc :- ReadU2(bytes, pos);
    var endPc :- ReadU2(bytes, startPc.next);
    var handlerPc :- ReadU2(bytes, endPc.next);
    var catchType :- ReadU2(bytes, handlerPc.next);
    Ok(Decoded(ExceptionHandler(startPc.item, endPc.item, handlerPc.item, catchType.item), catchType.next))
  }

  /** count exception handlers, one after the other, in stream order. */
  function DecodeHandlers(bytes: seq<byte>, pos: nat, count: nat): (r: Result<Decoded<seq<ExceptionHandler>>>)
    requires pos <= |bytes|
    ensures r.Ok? <==> pos + 8 * count <= |bytes|
    ensures r.Err? ==> r.error == Truncated
    ensures r.Ok? ==> |r.value.item| == count && r.value.next == pos + 8 * count
    decreases count
  {
    if count == 0 then Ok(Decoded([], pos))
    else
      var first :- DecodeHandler(bytes, pos);
      var rest :- DecodeHandlers(bytes, first.next, count - 1);
      Ok(Decoded([first.item] + rest.item, rest.next))
  }

  /** count nested attributes, each through CreateAttribute, in stream order. */
  function DecodeAttributes(pool: Pool, owner: Owner, bytes: seq<byte>, pos: nat, count: nat): (r: Result<Decoded<seq<Attribute>>>)
    requires pos <= |bytes|
    ensures r.Ok? ==> |r.value.item| == count && pos <= r.value.next <= |bytes|
    ensures r.Ok? ==> forall a <- r.value.item :: a.owner == owner
    ensures r.Err? ==> StructuralError(pool, r.error)
    decreases |bytes| - pos, 1, count
  {
    if count == 0 then Ok(Decoded([], pos))
    else
      var first :- CreateAttribute(pool, owner, bytes, pos);
      var rest :- DecodeAttributes(pool, owner, bytes, first.next, count - 1);
      Ok(Decoded([first.item] + rest.item, rest.next))
  }

  /** The fields of a decoded Code attribute fit the widths they were read
      with: u2 for max_stack, max_locals and both counts, a non-negative s4
      for the code length. */
  predicate WithinLimits(c: Attribute)
    requires c.Code?
  {
    c.maxStack < U2_LIMIT && c.maxLocals < U2_LIMIT && |c.code| < S4_LIMIT
    && |c.exceptionHandlers| < U2_LIMIT && |c.attributes| < U2_LIMIT
  }

  /** The Code_attribute constructor, from the u4 attribute length on: the
      length is read and never consulted. */
  function DecodeCode(pool: Pool, owner: Owner, bytes: seq<byte>, pos: nat): (r: Result<Decoded<Attribute>>)
    ensures r.Ok? ==> r.value.item.Code? && r.value.item.owner == owner && WithinLimits(r.value.item)
    ensures r.Ok? ==> pos + 16 <= r.value.next <= |bytes|
    ensures r.Err? ==> StructuralError(pool, r.error)
    decreases |bytes| - pos, 0, 0
  {
    var length :- ReadS4(bytes, pos);
    DecodeCodeFields(pool, owner, bytes, length.next)
  }

  /** max_stack and max_locals, each a u2. */
  function DecodeCodeFields(pool: Pool, owner: Owner, bytes: seq<byte>, pos: nat): (r: Result<Decoded<Attribute>>)
    ensures r.Ok? ==> r.value.item.Code? && r.value.item.owner == owner && WithinLimits(r.value.item)
    ensures r.Ok? ==> pos + 12 <= r.value.next <= |bytes|
    ensures r.Err? ==> StructuralError(pool, r.error)
    decreases |bytes| - pos, 0, 0
  {
    var maxStack :- ReadU2(bytes, pos);
    var maxLocals :- ReadU2(bytes, maxStack.next);
    DecodeCodeBytes(pool, owner, maxStack.item, maxLocals.item, bytes, maxLocals.next)
  }

  /** The signed s4 code length and that many bytes of code; a negative
      length is an error, as allocating the array fails. */
  function DecodeCodeBytes(pool: Pool, owner: Owner, maxStack: nat, maxLocals: nat,
                           bytes: seq<byte>, pos: nat): (r: Result<Decoded<Attribute>>)
    ensures r.Ok? ==> r.value.item.Code? && r.value.item.owner == owner
    ensures r.Ok? ==> r.value.item.maxStack == maxStack && r.value.item.maxLocals == maxLocals
    ensures r.Ok? ==> |r.value.item.code| < S4_LIMIT && |r.value.item.exceptionHandlers| < U2_LIMIT
                      && |r.value.item.attributes| < U2_LIMIT
    ensures r.Ok? ==> pos + 8 <= r.value.next <= |bytes|
    ensures r.Err? ==> StructuralError(pool, r.error)
    ensures ReadS4(bytes, pos).Ok? && ReadS4(bytes, pos).value.item < 0 ==>
      r == Err(NegativeLength(ReadS4(bytes, pos).value.item))
    decreases |bytes| - pos, 0, 0
  {
    var codeLength :- ReadS4(bytes, pos);
    if codeLength.item < 0 then Err(NegativeLength(codeLength.item))
    else
      var code :- ReadBytes(bytes, codeLength.next, codeLength.item);
      DecodeExceptionTable(pool, owner, maxStack, maxLocals, code.item, bytes, code.next)
  }

  /** The u2 handler count and that many exception handlers. */
  function DecodeExceptionTable(pool: Pool, owner: Owner, maxStack: nat, maxLocals: nat, code: seq<byte>,
                                bytes: seq<byte>, pos: nat): (r: Result<Decoded<Attribute>>)
    ensures r.Ok? ==> r.value.item.Code?
    ensures r.Ok? ==> r.value.item == Code(owner, maxStack, maxLocals, code, r.value.item.exceptionHandlers, r.value.item.attributes)
    ensures r.Ok? ==> |r.value.item.exceptionHandlers| < U2_LIMIT && |r.value.item.attributes| < U2_LIMIT
    ensures r.Ok? ==> pos + 4 <= r.value.next <= |bytes|
    ensures r.Err? ==> StructuralError(pool, r.error)
    decreases |bytes| - pos, 0, 0
  {
    var handlerCount :- ReadU2(bytes, pos);
    var handlers :- DecodeHandlers(bytes, handlerCount.next, handlerCount.item);
    DecodeCodeAttributes(pool, owner, maxStack, maxLocals, code, handlers.item, bytes, handlers.next)
  }

  /** The nested attribute table that ends a Code attribute: a u2 count and
      that many attributes, owned by the Code attribute. */
  function DecodeCodeAttributes(pool: Pool, owner: Owner, maxStack: nat, maxLocals: nat, code: seq<byte>,
                                handlers: seq<ExceptionHandler>, bytes: seq<byte>, pos: nat): (r: Result<Decoded<Attribute>>)
    ensures r.Ok? ==> r.value.item.Code? && r.value.item == Code(owner, maxStack, maxLocals, code, handlers, r.value.item.attributes)
    ensures r.Ok? ==> |r.value.item.attributes| < U2_LIMIT
    ensures r.Ok? ==> pos + 2 <= r.value.next <= |bytes|
    ensures r.Err? ==> StructuralError(pool, r.error)
    decreases |bytes| - pos, 0, 0
  {
    var attributeCount :- ReadU2(bytes, pos);
    var attributes :- DecodeAttributes(pool, CodeOwner(owner), bytes, attributeCount.next, attributeCount.item);
    Ok(Decoded(Code(owner, maxStack, maxLocals, code, handlers, attributes.item), attributes.next))
  }
}
