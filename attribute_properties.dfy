/** What AttributeFactory.create and the Code_attribute constructor promise:
    the three-way dispatch on the name index, the field order of a Code
    attribute, and that decoding depends only on the bytes it consumes. */
module AttributeProperties {
  import opened Bytes
  import opened ConstantPool
  import opened ClassReader

  // ---------------------------------------------------------------------
  // The nine names

  /** Every known kind is selected by its own name. */
  lemma {:induction false} KindOfName(kind: Kind)
    ensures KindOf(KindName(kind)) == Some(kind)
  {
    match kind
    case ConstantValueKind =>
    case CodeKind =>
    case ExceptionsKind =>
    case InnerClassesKind =>
    case SyntheticKind =>
    case SourceFileKind =>
    case LineNumberTableKind =>
    case LocalVariableTableKind =>
    case DeprecatedKind =>
  }

  /** The nine names are pairwise distinct, so at most one branch of the
      dispatch applies. */
  lemma {:induction false} NamesDistinct(k1: Kind, k2: Kind)
    ensures KindName(k1) == KindName(k2) <==> k1 == k2
  {
    KindOfName(k1);
    KindOfName(k2);
  }

  // ---------------------------------------------------------------------
  // The dispatch

  /** The u2 name index at the cursor. */
  function NameIndexAt(bytes: seq<byte>, pos: nat): nat
    requires pos + 2 <= |bytes|
  {
    ReadU2(bytes, pos).value.item
  }

  /** The u4 length and the body it announces both fit in the stream. */
  predicate BodyFits(bytes: seq<byte>, pos: nat) {
    pos + 4 <= |bytes| && pos + 4 + ReadU4(bytes, pos).value.item <= |bytes|
  }

  /** Name index 0: an unnamed Custom attribute read from the byte after the
      index; the pool is not consulted, and only a short stream fails. */
  lemma {:induction false} CreateWithoutName(pool: Pool, otherPool: Pool, owner: Owner, bytes: seq<byte>, pos: nat)
    requires pos + 2 <= |bytes| && NameIndexAt(bytes, pos) == 0
    ensures CreateAttribute(pool, owner, bytes, pos) == DecodeCustom(owner, None, bytes, pos + 2)
    ensures CreateAttribute(pool, owner, bytes, pos) == CreateAttribute(otherPool, owner, bytes, pos)
    ensures CreateAttribute(pool, owner, bytes, pos).Ok? <==> BodyFits(bytes, pos + 2)
  {
  }

  /** A name index whose entry is not UTF8: an unnamed Custom attribute. */
  lemma {:induction false} CreateWithInvalidName(pool: Pool, owner: Owner, bytes: seq<byte>, pos: nat)
    requires pos + 2 <= |bytes|
    requires 0 < NameIndexAt(bytes, pos) <= |pool| && !pool[NameIndexAt(bytes, pos) - 1].Utf8?
    ensures CreateAttribute(pool, owner, bytes, pos) == DecodeCustom(owner, None, bytes, pos + 2)
    ensures CreateAttribute(pool, owner, bytes, pos).Ok? <==> BodyFits(bytes, pos + 2)
  {
  }

  /** A UTF8 name that is none of the nine: a Custom attribute carrying it. */
  lemma {:induction false} CreateWithUnknownName(pool: Pool, owner: Owner, bytes: seq<byte>, pos: nat, name: string)
    requires pos + 2 <= |bytes|
    requires 0 < NameIndexAt(bytes, pos) <= |pool| && pool[NameIndexAt(bytes, pos) - 1] == Utf8(name)
    requires forall kind: Kind :: KindName(kind) != name
    ensures CreateAttribute(pool, owner, bytes, pos) == DecodeCustom(owner, Some(name), bytes, pos + 2)
    ensures CreateAttribute(pool, owner, bytes, pos).Ok? <==> BodyFits(bytes, pos + 2)
  {
    assert KindOf(name) == None;
  }

  /** A UTF8 name equal to one of the nine: that variant, decoded from the
      byte after the index; Code goes to the Code decoder. */
  lemma {:induction false} CreateWithKnownName(pool: Pool, owner: Owner, bytes: seq<byte>, pos: nat, kind: Kind)
    requires pos + 2 <= |bytes|
    requires 0 < NameIndexAt(bytes, pos) <= |pool| && pool[NameIndexAt(bytes, pos) - 1] == Utf8(KindName(kind))
    ensures kind == CodeKind ==> CreateAttribute(pool, owner, bytes, pos) == DecodeCode(pool, owner, bytes, pos + 2)
    ensures kind != CodeKind ==>
      (CreateAttribute(pool, owner, bytes, pos).Ok? <==> BodyFits(bytes, pos + 2))
    ensures kind != CodeKind && CreateAttribute(pool, owner, bytes, pos).Ok? ==>
      CreateAttribute(pool, owner, bytes, pos).value.item == Known(kind, owner, DecodeBody(bytes, pos + 2).value.item)
    ensures CreateAttribute(pool, owner, bytes, pos).Ok? ==>
      CreateAttribute(pool, owner, bytes, pos).value.item.KnownKind() == Some(kind)
  {
    KindOfName(kind);
  }

  /** A nonzero name index beyond the pool is the only failure the name can cause. */
  lemma {:induction false} CreateWithIndexOutsidePool(pool: Pool, owner: Owner, bytes: seq<byte>, pos: nat)
    requires pos + 2 <= |bytes| && NameIndexAt(bytes, pos) > |pool|
    ensures CreateAttribute(pool, owner, bytes, pos) == Err(InvalidIndex(NameIndexAt(bytes, pos)))
  {
  }

  // ---------------------------------------------------------------------
  // The Code attribute's layout

  /** The u4 attribute length is read and skipped: a Code attribute is
      decoded from the byte after it, whatever its value. */
  lemma {:induction false} CodeSkipsLength(pool: Pool, owner: Owner, bytes: seq<byte>, pos: nat)
    ensures pos + 4 <= |bytes| ==> DecodeCode(pool, owner, bytes, pos) == DecodeCodeFields(pool, owner, bytes, pos + 4)
    ensures pos + 4 > |bytes| ==> DecodeCode(pool, owner, bytes, pos) == Err(Truncated)
  {
  }

  /** max_stack and max_locals are the first two u2 fields after the length. */
  lemma {:induction false} FieldsLayout(pool: Pool, owner: Owner, bytes: seq<byte>, pos: nat)
    requires DecodeCodeFields(pool, owner, bytes, pos).Ok?
    ensures var c := DecodeCodeFields(pool, owner, bytes, pos).value.item;
            && bytes[pos..pos + 2] == U2(c.maxStack)
            && bytes[pos + 2..pos + 4] == U2(c.maxLocals)
            && DecodeCodeBytes(pool, owner, c.maxStack, c.maxLocals, bytes, pos + 4)
               == DecodeCodeFields(pool, owner, bytes, pos)
  {
    var c := DecodeCodeFields(pool, owner, bytes, pos).value.item;
    ReadU2Inverse(bytes, pos, c.maxStack);
    ReadU2Inverse(bytes, pos + 2, c.maxLocals);
  }

  /** Then the code length as a u4 and exactly that many bytes of code. */
  lemma {:induction false} CodeBytesLayout(pool: Pool, owner: Owner, maxStack: nat, maxLocals: nat, bytes: seq<byte>, pos: nat)
    requires DecodeCodeBytes(pool, owner, maxStack, maxLocals, bytes, pos).Ok?
    ensures var c := DecodeCodeBytes(pool, owner, maxStack, maxLocals, bytes, pos).value.item;
            var n := |c.code|;
            && pos + 4 + n <= |bytes|
            && bytes[pos..pos + 4] == U4(n)
            && bytes[pos + 4..pos + 4 + n] == c.code
            && DecodeExceptionTable(pool, owner, maxStack, maxLocals, c.code, bytes, pos + 4 + n)
               == DecodeCodeBytes(pool, owner, maxStack, maxLocals, bytes, pos)
  {
    var n := |DecodeCodeBytes(pool, owner, maxStack, maxLocals, bytes, pos).value.item.code|;
    var u := ReadU4(bytes, pos).value.item;
    assert ToSigned(u) == n;
    ReadU4Inverse(bytes, pos, n);
  }

  /** Then the handler count as a u2 and the handlers, 8 bytes each. */
  lemma {:induction false} ExceptionTableLayout(pool: Pool, owner: Owner, maxStack: nat, maxLocals: nat, code: seq<byte>,
                             bytes: seq<byte>, pos: nat)
    requires DecodeExceptionTable(pool, owner, maxStack, maxLocals, code, bytes, pos).Ok?
    ensures var c := DecodeExceptionTable(pool, owner, maxStack, maxLocals, code, bytes, pos).value.item;
            var k := |c.exceptionHandlers|;
            && pos + 2 + 8 * k <= |bytes|
            && bytes[pos..pos + 2] == U2(k)
            && DecodeHandlers(bytes, pos + 2, k) == Ok(Decoded(c.exceptionHandlers, pos + 2 + 8 * k))
            && DecodeCodeAttributes(pool, owner, maxStack, maxLocals, code, c.exceptionHandlers, bytes, pos + 2 + 8 * k)
               == DecodeExceptionTable(pool, owner, maxStack, maxLocals, code, bytes, pos)
  {
    var c := DecodeExceptionTable(pool, owner, maxStack, maxLocals, code, bytes, pos).value.item;
    ReadU2Inverse(bytes, pos, |c.exceptionHandlers|);
  }

  /** Last the attribute count as a u2 and the nested attributes, each owned
      by the Code attribute. */
  lemma {:induction false} CodeAttributesLayout(pool: Pool, owner: Owner, maxStack: nat, maxLocals: nat, code: seq<byte>,
                             handlers: seq<ExceptionHandler>, bytes: seq<byte>, pos: nat)
    requires DecodeCodeAttributes(pool, owner, maxStack, maxLocals, code, handlers, bytes, pos).Ok?
    ensures var r := DecodeCodeAttributes(pool, owner, maxStack, maxLocals, code, handlers, bytes, pos).value;
            && bytes[pos..pos + 2] == U2(|r.item.attributes|)
            && DecodeAttributes(pool, CodeOwner(owner), bytes, pos + 2, |r.item.attributes|)
               == Ok(Decoded(r.item.attributes, r.next))
  {
    var r := DecodeCodeAttributes(pool, owner, maxStack, maxLocals, code, handlers, bytes, pos).value;
    ReadU2Inverse(bytes, pos, |r.item.attributes|);
  }

  // ---------------------------------------------------------------------
  // Decoding reads only what it consumes

  /** b1 and b2 hold the same bytes on [from, to). */
  ghost predicate Agree(b1: seq<byte>, b2: seq<byte>, from: nat, to: nat)
    decreases if from <= to then to - from else 0
  {
    from <= to <= |b1| && to <= |b2| && (from == to || (b1[from] == b2[from] && Agree(b1, b2, from + 1, to)))
  }

  lemma {:induction false} AgreeAt(b1: seq<byte>, b2: seq<byte>, from: nat, to: nat, i: nat)
    requires Agree(b1, b2, from, to) && from <= i < to
    ensures b1[i] == b2[i]
    decreases (to as int) - (from as int)
  {
    if from < i {
      AgreeAt(b1, b2, from + 1, to, i);
    }
  }

  lemma {:induction false} AgreeSlice(b1: seq<byte>, b2: seq<byte>, from: nat, to: nat)
    requires from <= to <= |b1| && to <= |b2|
    ensures Agree(b1, b2, from, to) <==> b1[from..to] == b2[from..to]
    decreases (to as int) - (from as int)
  {
    if from < to {
      AgreeSlice(b1, b2, from + 1, to);
      assert b1[from..to] == [b1[from]] + b1[from + 1..to];
      assert b2[from..to] == [b2[from]] + b2[from + 1..to];
    }
  }

  /** A stream and its prefix agree wherever the prefix reaches. */
  lemma {:induction false} AgreePrefix(bytes: seq<byte>, cut: nat, from: nat, to: nat)
    requires from <= to <= cut <= |bytes|
    ensures Agree(bytes[..cut], bytes, from, to) && Agree(bytes, bytes[..cut], from, to)
  {
    assert bytes[..cut][from..to] == bytes[from..to];
    AgreeSlice(bytes[..cut], bytes, from, to);
    AgreeSlice(bytes, bytes[..cut], from, to);
  }

  lemma {:induction false} AgreeNarrow(b1: seq<byte>, b2: seq<byte>, from: nat, to: nat, from': nat, to': nat)
    requires Agree(b1, b2, from, to) && from <= from' <= to' <= to
    ensures Agree(b1, b2, from', to')
  {
    AgreeSlice(b1, b2, from, to);
    AgreeSlice(b1, b2, from', to');
    forall i | from' <= i < to' ensures b1[i] == b2[i] {
      AgreeAt(b1, b2, from, to, i);
    }
    assert b1[from'..to'] == b2[from'..to'];
  }

  lemma {:induction false} ReadsAgree(b1: seq<byte>, b2: seq<byte>, from: nat, to: nat, pos: nat)
    requires Agree(b1, b2, from, to) && from <= pos
    ensures pos + 2 <= to ==> ReadU2(b1, pos) == ReadU2(b2, pos)
    ensures pos + 4 <= to ==> ReadU4(b1, pos) == ReadU4(b2, pos) && ReadS4(b1, pos) == ReadS4(b2, pos)
  {
    forall i | pos <= i < pos + 4 && i < to ensures b1[i] == b2[i] {
      AgreeAt(b1, b2, from, to, i);
    }
  }

  lemma {:induction false} ReadBytesAgree(b1: seq<byte>, b2: seq<byte>, from: nat, to: nat, pos: nat, n: nat)
    requires Agree(b1, b2, from, to) && from <= pos && pos + n <= to
    ensures ReadBytes(b1, pos, n) == ReadBytes(b2, pos, n)
  {
    AgreeNarrow(b1, b2, from, to, pos, pos + n);
    AgreeSlice(b1, b2, pos, pos + n);
  }

  lemma {:induction false} HandlersLocal(b1: seq<byte>, b2: seq<byte>, pos: nat, count: nat)
    requires pos <= |b1| && pos <= |b2|
    requires DecodeHandlers(b1, pos, count).Ok?
    requires Agree(b1, b2, pos, DecodeHandlers(b1, pos, count).value.next)
    ensures DecodeHandlers(b2, pos, count) == DecodeHandlers(b1, pos, count)
    decreases count
  {
    if count > 0 {
      var to := DecodeHandlers(b1, pos, count).value.next;
      ReadsAgree(b1, b2, pos, to, pos);
      ReadsAgree(b1, b2, pos, to, pos + 2);
      ReadsAgree(b1, b2, pos, to, pos + 4);
      ReadsAgree(b1, b2, pos, to, pos + 6);
      assert DecodeHandler(b1, pos) == DecodeHandler(b2, pos);
      AgreeNarrow(b1, b2, pos, to, pos + 8, to);
      HandlersLocal(b1, b2, pos + 8, count - 1);
    }
  }

  /** A successful decode gives the same result on any stream that holds the
      same bytes from the cursor up to where the decode stopped. */
  lemma {:induction false} CreateLocal(pool: Pool, owner: Owner, b1: seq<byte>, b2: seq<byte>, pos: nat)
    requires CreateAttribute(pool, owner, b1, pos).Ok?
    requires Agree(b1, b2, pos, CreateAttribute(pool, owner, b1, pos).value.next)
    ensures CreateAttribute(pool, owner, b2, pos) == CreateAttribute(pool, owner, b1, pos)
    decreases 4 * (|b1| - pos) + 3
  {
    var to := CreateAttribute(pool, owner, b1, pos).value.next;
    ReadsAgree(b1, b2, pos, to, pos);
    AgreeNarrow(b1, b2, pos, to, pos + 2, to);
    DispatchLocal(pool, owner, ResolveName(pool, NameIndexAt(b1, pos)).value, b1, b2, pos + 2);
  }

  lemma {:induction false} DispatchLocal(pool: Pool, owner: Owner, name: AttributeName, b1: seq<byte>, b2: seq<byte>, pos: nat)
    requires Dispatch(pool, owner, name, b1, pos).Ok?
    requires Agree(b1, b2, pos, Dispatch(pool, owner, name, b1, pos).value.next)
    ensures Dispatch(pool, owner, name, b2, pos) == Dispatch(pool, owner, name, b1, pos)
    decreases 4 * (|b1| - pos) + 2
  {
    var to := Dispatch(pool, owner, name, b1, pos).value.next;
    if name.Name? && KindOf(name.text) == Some(CodeKind) {
      AgreeNarrow(b1, b2, pos, to, pos + 4, to);
      CodeSkipsLength(pool, owner, b1, pos);
      CodeSkipsLength(pool, owner, b2, pos);
      FieldsLocal(pool, owner, b1, b2, pos + 4);
    } else {
      ReadsAgree(b1, b2, pos, to, pos);
      ReadBytesAgree(b1, b2, pos, to, pos + 4, ReadU4(b1, pos).value.item);
    }
  }

  lemma {:induction false} FieldsLocal(pool: Pool, owner: Owner, b1: seq<byte>, b2: seq<byte>, pos: nat)
    requires DecodeCodeFields(pool, owner, b1, pos).Ok?
    requires Agree(b1, b2, pos, DecodeCodeFields(pool, owner, b1, pos).value.next)
    ensures DecodeCodeFields(pool, owner, b2, pos) == DecodeCodeFields(pool, owner, b1, pos)
    decreases 4 * (|b1| - pos)
  {
    var to := DecodeCodeFields(pool, owner, b1, pos).value.next;
    ReadsAgree(b1, b2, pos, to, pos);
    ReadsAgree(b1, b2, pos, to, pos + 2);
    AgreeNarrow(b1, b2, pos, to, pos + 4, to);
    CodeBytesLocal(pool, owner, ReadU2(b1, pos).value.item, ReadU2(b1, pos + 2).value.item, b1, b2, pos + 4);
  }

  lemma {:induction false} CodeBytesLocal(pool: Pool, owner: Owner, maxStack: nat, maxLocals: nat,
                                          b1: seq<byte>, b2: seq<byte>, pos: nat)
    requires DecodeCodeBytes(pool, owner, maxStack, maxLocals, b1, pos).Ok?
    requires Agree(b1, b2, pos, DecodeCodeBytes(pool, owner, maxStack, maxLocals, b1, pos).value.next)
    ensures DecodeCodeBytes(pool, owner, maxStack, maxLocals, b2, pos)
         == DecodeCodeBytes(pool, owner, maxStack, maxLocals, b1, pos)
    decreases 4 * (|b1| - pos)
  {
    var to := DecodeCodeBytes(pool, owner, maxStack, maxLocals, b1, pos).value.next;
    var n := ReadS4(b1, pos).value.item;
    ReadsAgree(b1, b2, pos, to, pos);
    ReadBytesAgree(b1, b2, pos, to, pos + 4, n);
    AgreeNarrow(b1, b2, pos, to, pos + 4 + n, to);
    ExceptionTableLocal(pool, owner, maxStack, maxLocals, b1[pos + 4..pos + 4 + n], b1, b2, pos + 4 + n);
  }

  lemma {:induction false} ExceptionTableLocal(pool: Pool, owner: Owner, maxStack: nat, maxLocals: nat, code: seq<byte>,
                                               b1: seq<byte>, b2: seq<byte>, pos: nat)
    requires DecodeExceptionTable(pool, owner, maxStack, maxLocals, code, b1, pos).Ok?
    requires Agree(b1, b2, pos, DecodeExceptionTable(pool, owner, maxStack, maxLocals, code, b1, pos).value.next)
    ensures DecodeExceptionTable(pool, owner, maxStack, maxLocals, code, b2, pos)
         == DecodeExceptionTable(pool, owner, maxStack, maxLocals, code, b1, pos)
    decreases 4 * (|b1| - pos)
  {
    var to := DecodeExceptionTable(pool, owner, maxStack, maxLocals, code, b1, pos).value.next;
    var count := ReadU2(b1, pos).value.item;
    var handlers := DecodeHandlers(b1, pos + 2, count);
    var h := handlers.value.next;
    ReadsAgree(b1, b2, pos, to, pos);
    AgreeNarrow(b1, b2, pos, to, pos + 2, h);
    HandlersLocal(b1, b2, pos + 2, count);
    AgreeNarrow(b1, b2, pos, to, h, to);
    CodeAttributesLocal(pool, owner, maxStack, maxLocals, code, handlers.value.item, b1, b2, h);
  }

  lemma {:induction false} CodeAttributesLocal(pool: Pool, owner: Owner, maxStack: nat, maxLocals: nat, code: seq<byte>,
                                               handlers: seq<ExceptionHandler>, b1: seq<byte>, b2: seq<byte>, pos: nat)
    requires DecodeCodeAttributes(pool, owner, maxStack, maxLocals, code, handlers, b1, pos).Ok?
    requires Agree(b1, b2, pos, DecodeCodeAttributes(pool, owner, maxStack, maxLocals, code, handlers, b1, pos).value.next)
    ensures DecodeCodeAttributes(pool, owner, maxStack, maxLocals, code, handlers, b2, pos)
         == DecodeCodeAttributes(pool, owner, maxStack, maxLocals, code, handlers, b1, pos)
    decreases 4 * (|b1| - pos)
  {
    var to := DecodeCodeAttributes(pool, owner, maxStack, maxLocals, code, handlers, b1, pos).value.next;
    ReadsAgree(b1, b2, pos, to, pos);
    AgreeNarrow(b1, b2, pos, to, pos + 2, to);
    AttributesLocal(pool, CodeOwner(owner), b1, b2, pos + 2, ReadU2(b1, pos).value.item);
  }

  lemma {:induction false} AttributesLocal(pool: Pool, owner: Owner, b1: seq<byte>, b2: seq<byte>, pos: nat, count: nat)
    requires pos <= |b1| && pos <= |b2|
    requires DecodeAttributes(pool, owner, b1, pos, count).Ok?
    requires Agree(b1, b2, pos, DecodeAttributes(pool, owner, b1, pos, count).value.next)
    ensures DecodeAttributes(pool, owner, b2, pos, count) == DecodeAttributes(pool, owner, b1, pos, count)
    decreases 4 * (|b1| - pos) + 4
  {
    if count > 0 {
      var to := DecodeAttributes(pool, owner, b1, pos, count).value.next;
      var first := CreateAttribute(pool, owner, b1, pos);
      assert first.Ok?;
      var rest := DecodeAttributes(pool, owner, b1, first.value.next, count - 1);
      assert rest.Ok? && rest.value.next == to;
      AgreeNarrow(b1, b2, pos, to, pos, first.value.next);
      CreateLocal(pool, owner, b1, b2, pos);
      AgreeNarrow(b1, b2, pos, to, first.value.next, to);
      AttributesLocal(pool, owner, b1, b2, first.value.next, count - 1);
    }
  }

  /** Cutting the stream anywhere before a decoded attribute's end makes
      decoding fail; cutting it at or after the end changes nothing.  So a
      truncated stream never yields a wrong attribute. */
  lemma {:induction false} CreateOnTruncatedStream(pool: Pool, owner: Owner, bytes: seq<byte>, pos: nat, cut: nat)
    requires CreateAttribute(pool, owner, bytes, pos).Ok?
    requires cut <= |bytes|
    ensures cut < CreateAttribute(pool, owner, bytes, pos).value.next ==>
      CreateAttribute(pool, owner, bytes[..cut], pos).Err?
    ensures cut >= CreateAttribute(pool, owner, bytes, pos).value.next ==>
      CreateAttribute(pool, owner, bytes[..cut], pos) == CreateAttribute(pool, owner, bytes, pos)
  {
    var short := bytes[..cut];
    var r := CreateAttribute(pool, owner, short, pos);
    if r.Ok? {
      AgreePrefix(bytes, cut, pos, r.value.next);
      CreateLocal(pool, owner, short, bytes, pos);
    } else if cut >= CreateAttribute(pool, owner, bytes, pos).value.next {
      AgreePrefix(bytes, cut, pos, CreateAttribute(pool, owner, bytes, pos).value.next);
      CreateLocal(pool, owner, bytes, short, pos);
    }
  }

  /** The u4 attribute length that starts a Code attribute decides nothing:
      two streams that differ only there decode alike. */
  lemma {:induction false} CodeIgnoresAttributeLength(pool: Pool, owner: Owner, b1: seq<byte>, b2: seq<byte>, pos: nat)
    requires pos + 4 <= |b1| == |b2| && b1[pos + 4..] == b2[pos + 4..]
    ensures DecodeCode(pool, owner, b1, pos).Ok? <==> DecodeCode(pool, owner, b2, pos).Ok?
    ensures DecodeCode(pool, owner, b1, pos).Ok? ==> DecodeCode(pool, owner, b1, pos) == DecodeCode(pool, owner, b2, pos)
  {
    CodeSkipsLength(pool, owner, b1, pos);
    CodeSkipsLength(pool, owner, b2, pos);
    FieldsOnSameSuffix(pool, owner, b1, b2, pos + 4);
  }

  /** Two streams of one length that agree from the cursor on decode the
      Code fields alike. */
  lemma {:induction false} FieldsOnSameSuffix(pool: Pool, owner: Owner, b1: seq<byte>, b2: seq<byte>, pos: nat)
    requires pos <= |b1| == |b2| && b1[pos..] == b2[pos..]
    ensures DecodeCodeFields(pool, owner, b1, pos).Ok? <==> DecodeCodeFields(pool, owner, b2, pos).Ok?
    ensures DecodeCodeFields(pool, owner, b1, pos).Ok? ==>
      DecodeCodeFields(pool, owner, b1, pos) == DecodeCodeFields(pool, owner, b2, pos)
  {
    if DecodeCodeFields(pool, owner, b1, pos).Ok? {
      SuffixAgree(b1, b2, pos, DecodeCodeFields(pool, owner, b1, pos).value.next);
      FieldsLocal(pool, owner, b1, b2, pos);
    } else if DecodeCodeFields(pool, owner, b2, pos).Ok? {
      SuffixAgree(b2, b1, pos, DecodeCodeFields(pool, owner, b2, pos).value.next);
      FieldsLocal(pool, owner, b2, b1, pos);
    }
  }

  lemma {:induction false} SuffixAgree(b1: seq<byte>, b2: seq<byte>, from: nat, to: nat)
    requires from <= to <= |b1| == |b2| && b1[from..] == b2[from..]
    ensures Agree(b1, b2, from, to)
  {
    assert b1[from..to] == b1[from..][..to - from];
    assert b2[from..to] == b2[from..][..to - from];
    AgreeSlice(b1, b2, from, to);
  }
}
