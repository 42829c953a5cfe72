/** The inverse of the attribute decoder: every attribute the model can
    represent has an encoding, and decoding that encoding, wherever it sits
    in a stream, gives the attribute back and stops right after it. */
module AttributeEncoding {
  import opened Bytes
  import opened ConstantPool
  import opened ClassReader
  import AttributeProperties

  /** The name index an encoder writes: the first UTF8 entry holding the
      attribute's name, and 0 for an unnamed Custom attribute. */
  function NameIndex(pool: Pool, a: Attribute): (i: nat)
    ensures i <= |pool|
    ensures a.Custom? && a.name.None? ==> i == 0
    ensures a.Code? ==> i == IndexOfUtf8(pool, CODE)
  {
    match a
    case Code(_, _, _, _, _, _) => IndexOfUtf8(pool, CODE)
    case Known(kind, _, _) => IndexOfUtf8(pool, KindName(kind))
    case Custom(_, name, _) => if name.Some? then IndexOfUtf8(pool, name.value) else 0
  }

  /** Every field of the handler fits its u2. */
  predicate HandlerFits(h: ExceptionHandler) {
    h.startPc < U2_LIMIT && h.endPc < U2_LIMIT && h.handlerPc < U2_LIMIT && h.catchType < U2_LIMIT
  }

  /** The attributes an encoding exists for: the name is in the pool at an
      index that fits a u2 (an unnamed Custom attribute needs no entry), a
      Known attribute is not a Code attribute in disguise, a Custom name is
      none of the nine, every length fits its field, and the attributes
      nested in a Code attribute are encodable and owned by it. */
  predicate Encodable(pool: Pool, a: Attribute)
    decreases a, 1
  {
    && NameIndex(pool, a) < U2_LIMIT
    && ((a.Custom? && a.name.None?) || NameIndex(pool, a) > 0)
    && match a
       case Code(owner, _, _, code, handlers, attributes) =>
         && WithinLimits(a)
         && (forall h <- handlers :: HandlerFits(h))
         && AllEncodable(pool, attributes)
         && OwnedBy(CodeOwner(owner), attributes)
       case Known(kind, _, body) => kind != CodeKind && |body| < U4_LIMIT
       case Custom(_, name, body) => (name.Some? ==> forall kind: Kind :: KindName(kind) != name.value) && |body| < U4_LIMIT
  }

  /** Every attribute of the sequence is encodable. */
  predicate AllEncodable(pool: Pool, attrs: seq<Attribute>)
    decreases attrs, 0
  {
    attrs == [] || (Encodable(pool, attrs[0]) && AllEncodable(pool, attrs[1..]))
  }

  /** Every attribute of the sequence belongs to owner. */
  predicate OwnedBy(owner: Owner, attrs: seq<Attribute>) {
    attrs == [] || (attrs[0].owner == owner && OwnedBy(owner, attrs[1..]))
  }

  function EncodeHandler(h: ExceptionHandler): (s: seq<byte>)
    requires HandlerFits(h)
    ensures |s| == 8
  {
    U2(h.startPc) + (U2(h.endPc) + (U2(h.handlerPc) + U2(h.catchType)))
  }

  function EncodeHandlers(hs: seq<ExceptionHandler>): (s: seq<byte>)
    requires forall h <- hs :: HandlerFits(h)
    ensures |s| == 8 * |hs|
  {
    if hs == [] then [] else EncodeHandler(hs[0]) + EncodeHandlers(hs[1..])
  }

  /** The encoding of one attribute: u2 name index, u4 length, then the
      body.  The length field is the body's length modulo 2^32; for a Code
      attribute the decoder never reads it back. */
  function Encode(pool: Pool, a: Attribute): (s: seq<byte>)
    requires Encodable(pool, a)
    ensures |s| == 6 + |AttributeBody(pool, a)|
    decreases a, 3
  {
    U2(NameIndex(pool, a)) + (U4(|AttributeBody(pool, a)| % U4_LIMIT) + AttributeBody(pool, a))
  }

  /** What follows the length: a Code attribute's fields in stream order, or
      the undecoded body of any other attribute. */
  function AttributeBody(pool: Pool, a: Attribute): (s: seq<byte>)
    requires Encodable(pool, a)
    ensures !a.Code? ==> s == a.body
    decreases a, 2
  {
    if a.Code? then CodeFieldsBytes(a.maxStack, a.maxLocals, a.code, a.exceptionHandlers,
                                    |a.attributes|, EncodeAll(pool, a.attributes))
    else a.body
  }

  /** The encodings of a sequence of attributes, one after the other. */
  function EncodeAll(pool: Pool, attrs: seq<Attribute>): (s: seq<byte>)
    requires AllEncodable(pool, attrs)
    ensures |s| >= 6 * |attrs|
    decreases attrs, 0
  {
    if attrs == [] then [] else Encode(pool, attrs[0]) + EncodeAll(pool, attrs[1..])
  }

  /** The widths a Code attribute's fields must fit. */
  predicate FieldsFit(maxStack: nat, maxLocals: nat, code: seq<byte>, handlers: seq<ExceptionHandler>, count: nat) {
    maxStack < U2_LIMIT && maxLocals < U2_LIMIT && |code| < S4_LIMIT
    && |handlers| < U2_LIMIT && (forall h <- handlers :: HandlerFits(h)) && count < U2_LIMIT
  }

  /** The body of a Code attribute after the length, in the stages the
      decoder reads it: max_stack and max_locals, the code, the exception
      table, the nested attribute table (given already encoded). */
  function CodeFieldsBytes(maxStack: nat, maxLocals: nat, code: seq<byte>, handlers: seq<ExceptionHandler>,
                           count: nat, nested: seq<byte>): (s: seq<byte>)
    requires FieldsFit(maxStack, maxLocals, code, handlers, count)
    ensures |s| == 12 + |code| + 8 * |handlers| + |nested|
  {
    U2(maxStack) + (U2(maxLocals) + CodeBytesBytes(code, handlers, count, nested))
  }

  function CodeBytesBytes(code: seq<byte>, handlers: seq<ExceptionHandler>, count: nat, nested: seq<byte>): (s: seq<byte>)
    requires |code| < S4_LIMIT && |handlers| < U2_LIMIT && (forall h <- handlers :: HandlerFits(h)) && count < U2_LIMIT
    ensures |s| == 8 + |code| + 8 * |handlers| + |nested|
  {
    U4(|code|) + (code + ExceptionTableBytes(handlers, count, nested))
  }

  function ExceptionTableBytes(handlers: seq<ExceptionHandler>, count: nat, nested: seq<byte>): (s: seq<byte>)
    requires |handlers| < U2_LIMIT && (forall h <- handlers :: HandlerFits(h)) && count < U2_LIMIT
    ensures |s| == 4 + 8 * |handlers| + |nested|
  {
    U2(|handlers|) + (EncodeHandlers(handlers) + (U2(count) + nested))
  }

  /** The name the decoder resolves for an encodable attribute. */
  function EncodedName(a: Attribute): (name: AttributeName)
    ensures a.Custom? && a.name.None? <==> name.NoName?
  {
    if a.Custom? && a.name.None? then NoName
    else Name(if a.Custom? then a.name.value else KindName(a.KnownKind().value))
  }

  // ---------------------------------------------------------------------
  // Decoding inverts encoding

  /** The round trip: an encodable attribute, encoded at the cursor, decodes
      to itself and the cursor ends right after its encoding. */
  lemma {:induction false} RoundTrip(pool: Pool, a: Attribute, bytes: seq<byte>, pos: nat)
    requires Encodable(pool, a)
    requires pos + |Encode(pool, a)| <= |bytes| && bytes[pos..pos + |Encode(pool, a)|] == Encode(pool, a)
    ensures CreateAttribute(pool, a.owner, bytes, pos) == Ok(Decoded(a, pos + |Encode(pool, a)|))
  {
    hide *;
    AtSlice(bytes, pos, Encode(pool, a));
    CreateEncoded(pool, a, bytes, pos);
  }

  /** The round trip on the encoding alone. */
  lemma {:induction false} DecodeEncode(pool: Pool, a: Attribute)
    requires Encodable(pool, a)
    ensures CreateAttribute(pool, a.owner, Encode(pool, a), 0) == Ok(Decoded(a, |Encode(pool, a)|))
  {
    hide *;
    var e := Encode(pool, a);
    assert e[0..|e|] == e;
    RoundTrip(pool, a, e, 0);
  }

  // The lemmas below hide every function body and take the facts they need
  // from the step lemmas at the end of the module, which keeps each proof small.

  lemma {:induction false} CreateEncoded(pool: Pool, a: Attribute, bytes: seq<byte>, pos: nat)
    requires Encodable(pool, a) && At(bytes, pos, Encode(pool, a))
    ensures CreateAttribute(pool, a.owner, bytes, pos) == Ok(Decoded(a, pos + |Encode(pool, a)|))
    decreases 4 * (|bytes| - pos) + 3
  {
    hide *;
    Limits();
    EncodeParts(pool, a);
    var body := AttributeBody(pool, a);
    AtSplit(bytes, pos, U2(NameIndex(pool, a)), U4(|body| % U4_LIMIT) + body, pos + 2);
    AtBound(bytes, pos, Encode(pool, a));
    NameEncoded(pool, a, bytes, pos);
    if a.Code? {
      CodeEncoded(pool, a, bytes, pos + 2);
    } else {
      BodyEncoded(pool, a, bytes, pos + 2);
    }
    CreateStep(pool, a.owner, bytes, pos, pos + 2, NameIndex(pool, a), EncodedName(a),
               a, pos + 2 + 4 + |body|, pos + |Encode(pool, a)|);
  }

  /** The name index reads back and resolves to the attribute's name. */
  lemma {:induction false} NameEncoded(pool: Pool, a: Attribute, bytes: seq<byte>, pos: nat)
    requires Encodable(pool, a) && At(bytes, pos, U2(NameIndex(pool, a)))
    ensures ReadU2(bytes, pos) == Ok(Decoded(NameIndex(pool, a), pos + 2))
    ensures ResolveName(pool, NameIndex(pool, a)) == Ok(EncodedName(a))
  {
    ReadU2At(bytes, pos, NameIndex(pool, a));
  }

  /** A Known or Custom attribute: the dispatch reads the u4 length and the body. */
  lemma {:induction false} BodyEncoded(pool: Pool, a: Attribute, bytes: seq<byte>, pos: nat)
    requires Encodable(pool, a) && !a.Code?
    requires At(bytes, pos, U4(|AttributeBody(pool, a)| % U4_LIMIT) + AttributeBody(pool, a))
    ensures Dispatch(pool, a.owner, EncodedName(a), bytes, pos) == Ok(Decoded(a, pos + 4 + |AttributeBody(pool, a)|))
  {
    hide *;
    Limits();
    BodyParts(pool, a);
    var body := AttributeBody(pool, a);
    AtSplit(bytes, pos, U4(|body| % U4_LIMIT), body, pos + 4);
    ReadU4At(bytes, pos, |body| % U4_LIMIT);
    ReadBytesAt(bytes, pos + 4, body);
    BodyStep(pool, a, bytes, pos, pos + 4 + |body|);
  }

  /** A Code attribute: the dispatch skips the length and decodes the fields;
      the nested attribute table is decoded by recursion, the fields before it
      step by step. */
  lemma {:induction false} CodeEncoded(pool: Pool, a: Attribute, bytes: seq<byte>, pos: nat)
    requires Encodable(pool, a) && a.Code?
    requires At(bytes, pos, U4(|AttributeBody(pool, a)| % U4_LIMIT) + AttributeBody(pool, a))
    ensures Dispatch(pool, a.owner, EncodedName(a), bytes, pos) == Ok(Decoded(a, pos + 4 + |AttributeBody(pool, a)|))
    decreases 4 * (|bytes| - pos) + 2
  {
    hide *;
    Limits();
    CodeParts(pool, a);
    var body := AttributeBody(pool, a);
    var nested := EncodeAll(pool, a.attributes);
    var q := pos + 4 + 8 + |a.code| + 2 + 8 * |a.exceptionHandlers|;
    AtSplit(bytes, pos, U4(|body| % U4_LIMIT), body, pos + 4);
    AtBound(bytes, pos + 4, body);
    FieldsRead(bytes, pos + 4, a.maxStack, a.maxLocals, a.code, a.exceptionHandlers, |a.attributes|, nested);
    CodeAttributesEncoded(pool, a.owner, a.maxStack, a.maxLocals, a.code, a.exceptionHandlers, a.attributes, bytes, q);
    FieldsEncoded(pool, a.owner, a.maxStack, a.maxLocals, a.code, a.exceptionHandlers, bytes, pos + 4,
                  Decoded(Code(a.owner, a.maxStack, a.maxLocals, a.code, a.exceptionHandlers, a.attributes), q + 2 + |nested|));
    CodeStep(pool, a, bytes, pos, q + 2 + |nested|, pos + 4 + |body|);
  }

  /** What each read of the Code decoder finds in an encoded Code body, up
      to the nested attribute table. */
  lemma {:induction false} FieldsRead(bytes: seq<byte>, pos: nat, maxStack: nat, maxLocals: nat, code: seq<byte>,
                                      handlers: seq<ExceptionHandler>, count: nat, nested: seq<byte>)
    requires FieldsFit(maxStack, maxLocals, code, handlers, count)
    requires At(bytes, pos, CodeFieldsBytes(maxStack, maxLocals, code, handlers, count, nested))
    ensures ReadU2(bytes, pos) == Ok(Decoded(maxStack, pos + 2))
    ensures ReadU2(bytes, pos + 2) == Ok(Decoded(maxLocals, pos + 4))
    ensures ReadS4(bytes, pos + 4) == Ok(Decoded(|code|, pos + 8))
    ensures ReadBytes(bytes, pos + 8, |code|) == Ok(Decoded(code, pos + 8 + |code|))
    ensures ReadU2(bytes, pos + 8 + |code|) == Ok(Decoded(|handlers|, pos + 8 + |code| + 2))
    ensures DecodeHandlers(bytes, pos + 8 + |code| + 2, |handlers|)
         == Ok(Decoded(handlers, pos + 8 + |code| + 2 + 8 * |handlers|))
    ensures At(bytes, pos + 8 + |code| + 2 + 8 * |handlers|, U2(count) + nested)
  {
    hide *;
    Limits();
    FieldsParts(maxStack, maxLocals, code, handlers, count, nested);
    var t := pos + 8 + |code|;
    var table := ExceptionTableBytes(handlers, count, nested);
    AtSplit(bytes, pos, U2(maxStack), U2(maxLocals) + CodeBytesBytes(code, handlers, count, nested), pos + 2);
    AtSplit(bytes, pos + 2, U2(maxLocals), CodeBytesBytes(code, handlers, count, nested), pos + 4);
    AtSplit(bytes, pos + 4, U4(|code|), code + table, pos + 8);
    AtSplit(bytes, pos + 8, code, table, t);
    AtSplit(bytes, t, U2(|handlers|), EncodeHandlers(handlers) + (U2(count) + nested), t + 2);
    AtSplit(bytes, t + 2, EncodeHandlers(handlers), U2(count) + nested, t + 2 + 8 * |handlers|);
    ReadU2At(bytes, pos, maxStack);
    ReadU2At(bytes, pos + 2, maxLocals);
    ReadS4At(bytes, pos + 4, |code|);
    ReadBytesAt(bytes, pos + 8, code);
    ReadU2At(bytes, t, |handlers|);
    HandlersEncoded(handlers, bytes, t + 2);
  }

  /** Given that the nested attribute table decodes, the fields before it
      decode to the same result. */
  lemma {:induction false} FieldsEncoded(pool: Pool, owner: Owner, maxStack: nat, maxLocals: nat, code: seq<byte>,
                                         handlers: seq<ExceptionHandler>, bytes: seq<byte>, pos: nat, d: Decoded<Attribute>)
    requires ReadU2(bytes, pos) == Ok(Decoded(maxStack, pos + 2))
    requires ReadU2(bytes, pos + 2) == Ok(Decoded(maxLocals, pos + 4))
    requires ReadS4(bytes, pos + 4) == Ok(Decoded(|code|, pos + 8))
    requires ReadBytes(bytes, pos + 8, |code|) == Ok(Decoded(code, pos + 8 + |code|))
    requires ReadU2(bytes, pos + 8 + |code|) == Ok(Decoded(|handlers|, pos + 8 + |code| + 2))
    requires DecodeHandlers(bytes, pos + 8 + |code| + 2, |handlers|)
          == Ok(Decoded(handlers, pos + 8 + |code| + 2 + 8 * |handlers|))
    requires DecodeCodeAttributes(pool, owner, maxStack, maxLocals, code, handlers, bytes,
                                  pos + 8 + |code| + 2 + 8 * |handlers|) == Ok(d)
    ensures DecodeCodeFields(pool, owner, bytes, pos) == Ok(d)
  {
    hide *;
    FieldsStep(pool, owner, bytes, pos, pos + 2, pos + 4, maxStack, maxLocals);
    CodeBytesStep(pool, owner, maxStack, maxLocals, code, bytes, pos + 4, pos + 8, pos + 8 + |code|);
    ExceptionTableStep(pool, owner, maxStack, maxLocals, code, handlers, bytes, pos + 8 + |code|,
                       pos + 8 + |code| + 2, pos + 8 + |code| + 2 + 8 * |handlers|);
  }

  /** The nested attribute table: the count, then each attribute by the round trip. */
  lemma {:induction false} CodeAttributesEncoded(pool: Pool, owner: Owner, maxStack: nat, maxLocals: nat, code: seq<byte>,
                                                 handlers: seq<ExceptionHandler>, attrs: seq<Attribute>, bytes: seq<byte>, pos: nat)
    requires |attrs| < U2_LIMIT && AllEncodable(pool, attrs) && OwnedBy(CodeOwner(owner), attrs)
    requires At(bytes, pos, U2(|attrs|) + EncodeAll(pool, attrs))
    ensures DecodeCodeAttributes(pool, owner, maxStack, maxLocals, code, handlers, bytes, pos)
         == Ok(Decoded(Code(owner, maxStack, maxLocals, code, handlers, attrs), pos + 2 + |EncodeAll(pool, attrs)|))
    decreases 4 * (|bytes| - pos)
  {
    hide *;
    AtSplit(bytes, pos, U2(|attrs|), EncodeAll(pool, attrs), pos + 2);
    ReadU2At(bytes, pos, |attrs|);
    AttributesEncoded(pool, CodeOwner(owner), attrs, bytes, pos + 2);
    CodeAttributesStep(pool, owner, maxStack, maxLocals, code, handlers, attrs, bytes, pos, pos + 2,
                       pos + 2 + |EncodeAll(pool, attrs)|);
  }

  /** A sequence of encodings decodes to the sequence of attributes. */
  lemma {:induction false} AttributesEncoded(pool: Pool, owner: Owner, attrs: seq<Attribute>, bytes: seq<byte>, pos: nat)
    requires AllEncodable(pool, attrs) && OwnedBy(owner, attrs)
    requires At(bytes, pos, EncodeAll(pool, attrs))
    ensures pos <= |bytes|
    ensures DecodeAttributes(pool, owner, bytes, pos, |attrs|) == Ok(Decoded(attrs, pos + |EncodeAll(pool, attrs)|))
    decreases 4 * (|bytes| - pos) + 4
  {
    hide *;
    AtBound(bytes, pos, EncodeAll(pool, attrs));
    if attrs == [] {
      AttributesNone(pool, owner, bytes, pos);
    } else {
      AllEncodableCons(pool, attrs);
      OwnedByCons(owner, attrs);
      var first := Encode(pool, attrs[0]);
      var rest := EncodeAll(pool, attrs[1..]);
      var mid := pos + |first|;
      var next := mid + |rest|;
      AtSplit(bytes, pos, first, rest, mid);
      CreateEncoded(pool, attrs[0], bytes, pos);
      AttributesEncoded(pool, owner, attrs[1..], bytes, mid);
      AttributesStep(pool, owner, bytes, pos, attrs[0], mid, attrs[1..], next, attrs, next);
    }
  }

  /** The exception handlers, one after the other. */
  lemma {:induction false} HandlersEncoded(hs: seq<ExceptionHandler>, bytes: seq<byte>, pos: nat)
    requires forall h <- hs :: HandlerFits(h)
    requires At(bytes, pos, EncodeHandlers(hs))
    ensures pos <= |bytes|
    ensures DecodeHandlers(bytes, pos, |hs|) == Ok(Decoded(hs, pos + 8 * |hs|))
    decreases |hs|
  {
    hide *;
    AtBound(bytes, pos, EncodeHandlers(hs));
    if hs == [] {
      HandlersNone(bytes, pos);
    } else {
      HandlersCons(hs);
      AtSplit(bytes, pos, EncodeHandler(hs[0]), EncodeHandlers(hs[1..]), pos + 8);
      HandlerEncoded(hs[0], bytes, pos);
      HandlersEncoded(hs[1..], bytes, pos + 8);
      HandlersStep(bytes, pos, hs[0], hs[1..], pos + 8 + 8 * |hs[1..]|, hs, pos + 8 * |hs|);
    }
  }

  lemma {:induction false} HandlerEncoded(h: ExceptionHandler, bytes: seq<byte>, pos: nat)
    requires HandlerFits(h) && At(bytes, pos, EncodeHandler(h))
    ensures DecodeHandler(bytes, pos) == Ok(Decoded(h, pos + 8))
  {
    AtSplit(bytes, pos, U2(h.startPc), U2(h.endPc) + (U2(h.handlerPc) + U2(h.catchType)), pos + 2);
    AtSplit(bytes, pos + 2, U2(h.endPc), U2(h.handlerPc) + U2(h.catchType), pos + 4);
    AtSplit(bytes, pos + 4, U2(h.handlerPc), U2(h.catchType), pos + 6);
    ReadU2At(bytes, pos, h.startPc);
    ReadU2At(bytes, pos + 2, h.endPc);
    ReadU2At(bytes, pos + 4, h.handlerPc);
    ReadU2At(bytes, pos + 6, h.catchType);
  }

  // ---------------------------------------------------------------------
  // One step of each decoder, stated on the results of the reads it makes

  lemma {:induction false} CreateStep(pool: Pool, owner: Owner, bytes: seq<byte>, pos: nat, p2: nat,
                                      nameIndex: nat, name: AttributeName, a: Attribute, next: nat, end: nat)
    requires ReadU2(bytes, pos) == Ok(Decoded(nameIndex, p2))
    requires ResolveName(pool, nameIndex) == Ok(name)
    requires Dispatch(pool, owner, name, bytes, p2) == Ok(Decoded(a, next))
    requires end == next
    ensures CreateAttribute(pool, owner, bytes, pos) == Ok(Decoded(a, end))
  {
  }

  lemma {:induction false} CodeStep(pool: Pool, a: Attribute, bytes: seq<byte>, pos: nat, next: nat, end: nat)
    requires a.Code? && pos + 4 <= |bytes|
    requires DecodeCodeFields(pool, a.owner, bytes, pos + 4)
          == Ok(Decoded(Code(a.owner, a.maxStack, a.maxLocals, a.code, a.exceptionHandlers, a.attributes), next))
    requires end == next
    ensures Dispatch(pool, a.owner, EncodedName(a), bytes, pos) == Ok(Decoded(a, end))
  {
    AttributeProperties.KindOfName(CodeKind);
    AttributeProperties.CodeSkipsLength(pool, a.owner, bytes, pos);
  }

  lemma {:induction false} FieldsStep(pool: Pool, owner: Owner, bytes: seq<byte>, pos: nat, p2: nat, p4: nat,
                                      maxStack: nat, maxLocals: nat)
    requires ReadU2(bytes, pos) == Ok(Decoded(maxStack, p2))
    requires ReadU2(bytes, p2) == Ok(Decoded(maxLocals, p4))
    ensures DecodeCodeFields(pool, owner, bytes, pos) == DecodeCodeBytes(pool, owner, maxStack, maxLocals, bytes, p4)
  {
  }

  lemma {:induction false} CodeBytesStep(pool: Pool, owner: Owner, maxStack: nat, maxLocals: nat, code: seq<byte>,
                                         bytes: seq<byte>, pos: nat, p4: nat, next: nat)
    requires ReadS4(bytes, pos) == Ok(Decoded(|code|, p4))
    requires ReadBytes(bytes, p4, |code|) == Ok(Decoded(code, next))
    ensures DecodeCodeBytes(pool, owner, maxStack, maxLocals, bytes, pos)
         == DecodeExceptionTable(pool, owner, maxStack, maxLocals, code, bytes, next)
  {
  }

  lemma {:induction false} ExceptionTableStep(pool: Pool, owner: Owner, maxStack: nat, maxLocals: nat, code: seq<byte>,
                                              handlers: seq<ExceptionHandler>, bytes: seq<byte>, pos: nat, p2: nat, next: nat)
    requires ReadU2(bytes, pos) == Ok(Decoded(|handlers|, p2))
    requires DecodeHandlers(bytes, p2, |handlers|) == Ok(Decoded(handlers, next))
    ensures DecodeExceptionTable(pool, owner, maxStack, maxLocals, code, bytes, pos)
         == DecodeCodeAttributes(pool, owner, maxStack, maxLocals, code, handlers, bytes, next)
  {
  }

  lemma {:induction false} CodeAttributesStep(pool: Pool, owner: Owner, maxStack: nat, maxLocals: nat, code: seq<byte>,
                                              handlers: seq<ExceptionHandler>, attrs: seq<Attribute>, bytes: seq<byte>,
                                              pos: nat, p2: nat, next: nat)
    requires ReadU2(bytes, pos) == Ok(Decoded(|attrs|, p2))
    requires DecodeAttributes(pool, CodeOwner(owner), bytes, p2, |attrs|) == Ok(Decoded(attrs, next))
    ensures DecodeCodeAttributes(pool, owner, maxStack, maxLocals, code, handlers, bytes, pos)
         == Ok(Decoded(Code(owner, maxStack, maxLocals, code, handlers, attrs), next))
  {
  }

  lemma {:induction false} HandlersStep(bytes: seq<byte>, pos: nat, h: ExceptionHandler, rest: seq<ExceptionHandler>,
                                        next: nat, all: seq<ExceptionHandler>, end: nat)
    requires DecodeHandler(bytes, pos) == Ok(Decoded(h, pos + 8))
    requires DecodeHandlers(bytes, pos + 8, |rest|) == Ok(Decoded(rest, next))
    requires |all| > 0 && all[0] == h && all[1..] == rest && end == next
    ensures DecodeHandlers(bytes, pos, |all|) == Ok(Decoded(all, end))
  {
    assert all == [h] + rest;
  }

  lemma {:induction false} AttributesStep(pool: Pool, owner: Owner, bytes: seq<byte>, pos: nat,
                                          a: Attribute, mid: nat, rest: seq<Attribute>, next: nat,
                                          all: seq<Attribute>, end: nat)
    requires pos <= |bytes| && a.owner == owner
    requires CreateAttribute(pool, a.owner, bytes, pos) == Ok(Decoded(a, mid))
    requires DecodeAttributes(pool, owner, bytes, mid, |rest|) == Ok(Decoded(rest, next))
    requires |all| > 0 && all[0] == a && all[1..] == rest && end == next
    ensures DecodeAttributes(pool, owner, bytes, pos, |all|) == Ok(Decoded(all, end))
  {
    assert all == [a] + rest;
  }

  lemma {:induction false} AttributesNone(pool: Pool, owner: Owner, bytes: seq<byte>, pos: nat)
    requires pos <= |bytes|
    ensures DecodeAttributes(pool, owner, bytes, pos, 0) == Ok(Decoded([], pos))
    ensures EncodeAll(pool, []) == []
  {
  }

  lemma {:induction false} AllEncodableCons(pool: Pool, attrs: seq<Attribute>)
    requires attrs != [] && AllEncodable(pool, attrs)
    ensures Encodable(pool, attrs[0]) && AllEncodable(pool, attrs[1..])
    ensures EncodeAll(pool, attrs) == Encode(pool, attrs[0]) + EncodeAll(pool, attrs[1..])
  {
  }

  lemma {:induction false} OwnedByCons(owner: Owner, attrs: seq<Attribute>)
    requires attrs != [] && OwnedBy(owner, attrs)
    ensures attrs[0].owner == owner && OwnedBy(owner, attrs[1..])
  {
  }

  lemma {:induction false} HandlersNone(bytes: seq<byte>, pos: nat)
    requires pos <= |bytes|
    ensures DecodeHandlers(bytes, pos, 0) == Ok(Decoded([], pos))
    ensures EncodeHandlers([]) == []
  {
  }

  lemma {:induction false} HandlersCons(hs: seq<ExceptionHandler>)
    requires hs != [] && forall h <- hs :: HandlerFits(h)
    ensures HandlerFits(hs[0]) && forall h <- hs[1..] :: HandlerFits(h)
    ensures EncodeHandlers(hs) == EncodeHandler(hs[0]) + EncodeHandlers(hs[1..])
  {
  }

  lemma {:induction false} EncodeParts(pool: Pool, a: Attribute)
    requires Encodable(pool, a)
    ensures NameIndex(pool, a) < U2_LIMIT
    ensures Encode(pool, a) == U2(NameIndex(pool, a)) + (U4(|AttributeBody(pool, a)| % U4_LIMIT) + AttributeBody(pool, a))
  {
  }

  lemma {:induction false} BodyParts(pool: Pool, a: Attribute)
    requires Encodable(pool, a) && !a.Code?
    ensures AttributeBody(pool, a) == a.body && |a.body| < U4_LIMIT && |a.body| % U4_LIMIT == |a.body|
    ensures a.Known? ==> a.kind != CodeKind
    ensures a.Custom? && a.name.Some? ==> forall kind: Kind :: KindName(kind) != a.name.value
  {
  }

  lemma {:induction false} CodeParts(pool: Pool, a: Attribute)
    requires Encodable(pool, a) && a.Code?
    ensures FieldsFit(a.maxStack, a.maxLocals, a.code, a.exceptionHandlers, |a.attributes|)
    ensures |a.attributes| < U2_LIMIT && AllEncodable(pool, a.attributes) && OwnedBy(CodeOwner(a.owner), a.attributes)
    ensures AttributeBody(pool, a) == CodeFieldsBytes(a.maxStack, a.maxLocals, a.code, a.exceptionHandlers,
                                                      |a.attributes|, EncodeAll(pool, a.attributes))
  {
  }

  lemma {:induction false} FieldsParts(maxStack: nat, maxLocals: nat, code: seq<byte>, handlers: seq<ExceptionHandler>,
                                       count: nat, nested: seq<byte>)
    requires FieldsFit(maxStack, maxLocals, code, handlers, count)
    ensures maxStack < U2_LIMIT && maxLocals < U2_LIMIT && |code| < S4_LIMIT
    ensures |handlers| < U2_LIMIT && (forall h <- handlers :: HandlerFits(h)) && count < U2_LIMIT
    ensures CodeFieldsBytes(maxStack, maxLocals, code, handlers, count, nested)
         == U2(maxStack) + (U2(maxLocals) + CodeBytesBytes(code, handlers, count, nested))
    ensures CodeBytesBytes(code, handlers, count, nested) == U4(|code|) + (code + ExceptionTableBytes(handlers, count, nested))
    ensures ExceptionTableBytes(handlers, count, nested) == U2(|handlers|) + (EncodeHandlers(handlers) + (U2(count) + nested))
  {
  }

  /** A Known or Custom attribute whose length and body read back. */
  lemma {:induction false} BodyStep(pool: Pool, a: Attribute, bytes: seq<byte>, pos: nat, end: nat)
    requires !a.Code? && (a.Known? ==> a.kind != CodeKind)
    requires a.Custom? && a.name.Some? ==> forall kind: Kind :: KindName(kind) != a.name.value
    requires ReadU4(bytes, pos) == Ok(Decoded(|a.body|, pos + 4))
    requires ReadBytes(bytes, pos + 4, |a.body|) == Ok(Decoded(a.body, end))
    ensures Dispatch(pool, a.owner, EncodedName(a), bytes, pos) == Ok(Decoded(a, end))
  {
    if a.Known? {
      AttributeProperties.KindOfName(a.kind);
    }
  }
}
