/** The Code_attribute constructor as the program runs it: a stream object
    whose cursor advances with every read, and a Code attribute object whose
    fields are assigned one by one and whose two lists grow by appending.
    Each method is proved to compute what the decoder functions of
    ClassReader describe. */
module CodeReader {
  import opened Bytes
  import opened ConstantPool
  import opened ClassReader

  /** java.io.DataInputStream over a fixed byte sequence.  A read that runs
      past the end fails with Truncated and leaves the cursor where it was. */
  class DataInput {
    const bytes: seq<byte>
    var pos: nat

    constructor (bytes: seq<byte>)
      ensures this.bytes == bytes && pos == 0
    {
      this.bytes := bytes;
      pos := 0;
    }

    predicate Valid()
      reads this
    {
      pos <= |bytes|
    }

    /** readUnsignedShort. */
    method ReadUnsignedShort() returns (r: Result<nat>)
      requires Valid()
      modifies this
      ensures Valid()
      ensures r == ItemOf(ReadU2(bytes, old(pos)))
      ensures pos == NextOf(ReadU2(bytes, old(pos)), old(pos))
    {
      if pos + 2 > |bytes| {
        return Err(Truncated);
      }
      r := Ok(bytes[pos] as nat * 0x100 + bytes[pos + 1] as nat);
      pos := pos + 2;
    }

    /** readInt: a big-endian two's-complement 32-bit integer. */
    method ReadInt() returns (r: Result<int>)
      requires Valid()
      modifies this
      ensures Valid()
      ensures r == ItemOf(ReadS4(bytes, old(pos)))
      ensures pos == NextOf(ReadS4(bytes, old(pos)), old(pos))
    {
      if pos + 4 > |bytes| {
        return Err(Truncated);
      }
      var u := ((bytes[pos] as nat * 0x100 + bytes[pos + 1] as nat) * 0x100
                + bytes[pos + 2] as nat) * 0x100 + bytes[pos + 3] as nat;
      r := Ok(if u < S4_LIMIT then u else u - U4_LIMIT);
      pos := pos + 4;
    }

    /** read(byte[n]) for an array the stream can fill: exactly n bytes. */
    method ReadFully(n: nat) returns (r: Result<seq<byte>>)
      requires Valid()
      modifies this
      ensures Valid()
      ensures r == ItemOf(ReadBytes(bytes, old(pos), n))
      ensures pos == NextOf(ReadBytes(bytes, old(pos), n), old(pos))
    {
      if pos + n > |bytes| {
        return Err(Truncated);
      }
      r := Ok(bytes[pos..pos + n]);
      pos := pos + n;
    }
  }

  /** The decoded item of a decoder result, or its error. */
  function ItemOf<T>(r: Result<Decoded<T>>): (x: Result<T>)
    ensures x.Ok? <==> r.Ok?
    ensures r.Ok? ==> x.value == r.value.item
    ensures r.Err? ==> x.error == r.error
  {
    match r
    case Ok(d) => Ok(d.item)
    case Err(e) => Err(e)
  }

  /** Where the cursor stands after a read that started at pos. */
  function NextOf<T>(r: Result<Decoded<T>>, pos: nat): (next: nat)
    ensures r.Ok? ==> next == r.value.next
    ensures r.Err? ==> next == pos
  {
    if r.Ok? then r.value.next else pos
  }

  /** A decoded list with xs in front of it. */
  function Prepend<T>(xs: seq<T>, r: Result<Decoded<seq<T>>>): (p: Result<Decoded<seq<T>>>)
    ensures p.Ok? <==> r.Ok?
    ensures r.Ok? ==> p.value == Decoded(xs + r.value.item, r.value.next)
    ensures r.Err? ==> p.error == r.error
  {
    match r
    case Ok(d) => Ok(Decoded(xs + d.item, d.next))
    case Err(e) => Err(e)
  }

  /** The ExceptionHandler constructor: four u2 reads. */
  method ReadExceptionHandler(input: DataInput) returns (r: Result<ExceptionHandler>)
    requires input.Valid()
    modifies input
    ensures input.Valid()
    ensures r == ItemOf(DecodeHandler(input.bytes, old(input.pos)))
    ensures r.Ok? ==> input.pos == old(input.pos) + 8
  {
    var startPc := input.ReadUnsignedShort();
    if startPc.Err? { return Err(startPc.error); }
    var endPc := input.ReadUnsignedShort();
    if endPc.Err? { return Err(endPc.error); }
    var handlerPc := input.ReadUnsignedShort();
    if handlerPc.Err? { return Err(handlerPc.error); }
    var catchType := input.ReadUnsignedShort();
    if catchType.Err? { return Err(catchType.error); }
    r := Ok(ExceptionHandler(startPc.value, endPc.value, handlerPc.value, catchType.value));
  }

  /** A Code attribute object: the fields the constructor assigns. */
  class CodeAttribute {
    const owner: Owner
    var maxStack: nat
    var maxLocals: nat
    var code: seq<byte>
    var exceptionHandlers: seq<ExceptionHandler>
    var attributes: seq<Attribute>

    /** The attribute value the object holds: what getMaxStack, getMaxLocals,
        getCode, getExceptionHandlers and getAttributes return, field by field. */
    function Value(): (v: Attribute)
      reads this
      ensures v.Code? && v.owner == owner
      ensures v.maxStack == maxStack && v.maxLocals == maxLocals && v.code == code
      ensures v.exceptionHandlers == exceptionHandlers && v.attributes == attributes
    {
      Code(owner, maxStack, maxLocals, code, exceptionHandlers, attributes)
    }

    /** A fresh object: both lists empty, as their initialisers leave them. */
    constructor Empty(owner: Owner)
      ensures this.owner == owner && maxStack == 0 && maxLocals == 0 && code == []
      ensures exceptionHandlers == [] && attributes == []
    {
      this.owner := owner;
      maxStack, maxLocals, code := 0, 0, [];
      exceptionHandlers, attributes := [], [];
    }

    /** The Code_attribute constructor, from the attribute length on: it
        succeeds exactly when DecodeCode does, with the same attribute and
        the stream left where DecodeCode stops, and otherwise fails with the
        same error. */
    static method Read(pool: Pool, owner: Owner, input: DataInput) returns (r: Result<CodeAttribute>)
      requires input.Valid()
      modifies input
      ensures input.Valid()
      ensures var d := DecodeCode(pool, owner, input.bytes, old(input.pos));
        && (r.Ok? <==> d.Ok?)
        && (r.Err? ==> r.error == d.error)
        && (r.Ok? ==> fresh(r.value) && r.value.Value() == d.value.item && input.pos == d.value.next)
    {
      var c := new CodeAttribute.Empty(owner);
      var byteCount := input.ReadInt();
      if byteCount.Err? {
        return Err(byteCount.error);
      }
      var failure := c.ReadFields(pool, input);
      if failure.Some? {
        return Err(failure.value);
      }
      return Ok(c);
    }

    /** max_stack, max_locals, the code and the two tables. */
    method ReadFields(pool: Pool, input: DataInput) returns (failure: Option<Error>)
      requires input.Valid() && exceptionHandlers == [] && attributes == []
      modifies this, input
      ensures input.Valid()
      ensures var d := DecodeCodeFields(pool, owner, input.bytes, old(input.pos));
        && (failure.None? <==> d.Ok?)
        && (failure.Some? ==> failure.value == d.error)
        && (d.Ok? ==> Value() == d.value.item && input.pos == d.value.next)
    {
      var start := input.pos;
      var stack := input.ReadUnsignedShort();
      if stack.Err? {
        return Some(stack.error);
      }
      maxStack := stack.value;
      var locals := input.ReadUnsignedShort();
      if locals.Err? {
        return Some(locals.error);
      }
      maxLocals := locals.value;
      assert DecodeCodeFields(pool, owner, input.bytes, start)
          == DecodeCodeBytes(pool, owner, maxStack, maxLocals, input.bytes, input.pos);
      failure := ReadCode(pool, input);
    }

    /** The code length, the code bytes, then the exception table and the
        nested attributes.  A negative length fails before anything is read,
        as the array cannot be allocated. */
    method ReadCode(pool: Pool, input: DataInput) returns (failure: Option<Error>)
      requires input.Valid() && exceptionHandlers == [] && attributes == []
      modifies this, input
      ensures input.Valid()
      ensures var d := DecodeCodeBytes(pool, owner, old(maxStack), old(maxLocals), input.bytes, old(input.pos));
        && (failure.None? <==> d.Ok?)
        && (failure.Some? ==> failure.value == d.error)
        && (d.Ok? ==> Value() == d.value.item && input.pos == d.value.next)
      ensures var n := ReadS4(input.bytes, old(input.pos));
        n.Ok? && n.value.item < 0 ==>
          failure == Some(NegativeLength(n.value.item)) && input.pos == old(input.pos) + 4
    {
      var start := input.pos;
      var codeLength := input.ReadInt();
      if codeLength.Err? {
        return Some(codeLength.error);
      }
      if codeLength.value < 0 {
        return Some(NegativeLength(codeLength.value));
      }
      var bytesRead := input.ReadFully(codeLength.value);
      if bytesRead.Err? {
        return Some(bytesRead.error);
      }
      code := bytesRead.value;
      assert DecodeCodeBytes(pool, owner, maxStack, maxLocals, input.bytes, start)
          == DecodeExceptionTable(pool, owner, maxStack, maxLocals, code, input.bytes, input.pos);
      var tableStart := input.pos;
      var exceptionTableLength := input.ReadUnsignedShort();
      if exceptionTableLength.Err? {
        return Some(exceptionTableLength.error);
      }
      var handlersStart := input.pos;
      failure := ReadExceptionHandlers(exceptionTableLength.value, input);
      if failure.Some? {
        return;
      }
      assert DecodeExceptionTable(pool, owner, maxStack, maxLocals, code, input.bytes, tableStart)
          == DecodeCodeAttributes(pool, owner, maxStack, maxLocals, code, exceptionHandlers, input.bytes, input.pos);
      var attributesStart := input.pos;
      var attributeCount := input.ReadUnsignedShort();
      if attributeCount.Err? {
        return Some(attributeCount.error);
      }
      failure := ReadAttributes(pool, attributeCount.value, input);
    }

    /** The exception-handler loop: count handlers appended in stream order. */
    method ReadExceptionHandlers(count: nat, input: DataInput) returns (failure: Option<Error>)
      requires input.Valid() && exceptionHandlers == []
      modifies this, input
      ensures input.Valid()
      ensures maxStack == old(maxStack) && maxLocals == old(maxLocals) && code == old(code)
      ensures attributes == old(attributes)
      ensures var d := DecodeHandlers(input.bytes, old(input.pos), count);
        && (failure.None? <==> d.Ok?)
        && (failure.Some? ==> failure.value == d.error)
        && (d.Ok? ==> exceptionHandlers == d.value.item && input.pos == d.value.next)
    {
      hide DecodeHandlers, DecodeHandler;
      var start := input.pos;
      var i := 0;
      PrependNothing(DecodeHandlers(input.bytes, start, count));
      while i < count
        invariant 0 <= i <= count && input.Valid()
        invariant maxStack == old(maxStack) && maxLocals == old(maxLocals) && code == old(code)
        invariant attributes == old(attributes)
        invariant DecodeHandlers(input.bytes, start, count)
               == Prepend(exceptionHandlers, DecodeHandlers(input.bytes, input.pos, count - i))
      {
        var p := input.pos;
        HandlersUnfold(input.bytes, p, count - i, exceptionHandlers);
        var handler := ReadExceptionHandler(input);
        if handler.Err? {
          return Some(handler.error);
        }
        exceptionHandlers := exceptionHandlers + [handler.value];
        i := i + 1;
      }
      return None;
    }

    /** The nested-attribute loop: count attributes, each read by the
        attribute dispatch with this Code attribute as owner, appended in
        stream order. */
    method ReadAttributes(pool: Pool, count: nat, input: DataInput) returns (failure: Option<Error>)
      requires input.Valid() && attributes == []
      modifies this, input
      ensures input.Valid()
      ensures maxStack == old(maxStack) && maxLocals == old(maxLocals) && code == old(code)
      ensures exceptionHandlers == old(exceptionHandlers)
      ensures var d := DecodeAttributes(pool, CodeOwner(owner), input.bytes, old(input.pos), count);
        && (failure.None? <==> d.Ok?)
        && (failure.Some? ==> failure.value == d.error)
        && (d.Ok? ==> attributes == d.value.item && input.pos == d.value.next)
    {
      hide CreateAttribute;
      var start := input.pos;
      var i := 0;
      PrependNothing(DecodeAttributes(pool, CodeOwner(owner), input.bytes, start, count));
      while i < count
        invariant 0 <= i <= count && input.Valid()
        invariant maxStack == old(maxStack) && maxLocals == old(maxLocals) && code == old(code)
        invariant exceptionHandlers == old(exceptionHandlers)
        invariant DecodeAttributes(pool, CodeOwner(owner), input.bytes, start, count)
               == Prepend(attributes, DecodeAttributes(pool, CodeOwner(owner), input.bytes, input.pos, count - i))
      {
        var p := input.pos;
        AttributesUnfold(pool, CodeOwner(owner), input.bytes, p, count - i, attributes);
        var created := CreateAttribute(pool, CodeOwner(owner), input.bytes, p);
        if created.Err? {
          return Some(created.error);
        }
        attributes := attributes + [created.value.item];
        input.pos := created.value.next;
        i := i + 1;
      }
      return None;
    }
  }

  lemma {:induction false} PrependNothing<T>(r: Result<Decoded<seq<T>>>)
    ensures Prepend([], r) == r
  {
    if r.Ok? {
      assert [] + r.value.item == r.value.item;
    }
  }

  /** One more handler read: the decoded list so far grows by it. */
  lemma {:induction false} HandlersUnfold(bytes: seq<byte>, pos: nat, count: nat, xs: seq<ExceptionHandler>)
    requires pos <= |bytes| && count > 0
    ensures DecodeHandler(bytes, pos).Err? ==>
      Prepend(xs, DecodeHandlers(bytes, pos, count)) == Err(DecodeHandler(bytes, pos).error)
    ensures DecodeHandler(bytes, pos).Ok? ==>
      Prepend(xs, DecodeHandlers(bytes, pos, count))
      == Prepend(xs + [DecodeHandler(bytes, pos).value.item],
                 DecodeHandlers(bytes, DecodeHandler(bytes, pos).value.next, count - 1))
  {
    if DecodeHandler(bytes, pos).Ok? {
      var h := DecodeHandler(bytes, pos).value;
      var rest := DecodeHandlers(bytes, h.next, count - 1);
      if rest.Ok? {
        assert xs + ([h.item] + rest.value.item) == xs + [h.item] + rest.value.item;
      }
    }
  }

  /** One more attribute read: the decoded list so far grows by it. */
  lemma {:induction false} AttributesUnfold(pool: Pool, owner: Owner, bytes: seq<byte>, pos: nat, count: nat,
                                            xs: seq<Attribute>)
    requires pos <= |bytes| && count > 0
    ensures CreateAttribute(pool, owner, bytes, pos).Err? ==>
      Prepend(xs, DecodeAttributes(pool, owner, bytes, pos, count)) == Err(CreateAttribute(pool, owner, bytes, pos).error)
    ensures CreateAttribute(pool, owner, bytes, pos).Ok? ==>
      Prepend(xs, DecodeAttributes(pool, owner, bytes, pos, count))
      == Prepend(xs + [CreateAttribute(pool, owner, bytes, pos).value.item],
                 DecodeAttributes(pool, owner, bytes, CreateAttribute(pool, owner, bytes, pos).value.next, count - 1))
  {
    if CreateAttribute(pool, owner, bytes, pos).Ok? {
      var a := CreateAttribute(pool, owner, bytes, pos).value;
      var rest := DecodeAttributes(pool, owner, bytes, a.next, count - 1);
      if rest.Ok? {
        assert xs + ([a.item] + rest.value.item) == xs + [a.item] + rest.value.item;
      }
    }
  }
}
