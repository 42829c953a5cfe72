# DependencyFinder core, modelled in Dafny

This project models four parts of DependencyFinder.

- **Attribute decoding.** `AttributeFactory.create` reads a u2 constant-pool name index and sorts it into one of three cases:
  - index 0: no name;
  - an entry that is not UTF8: an invalid name;
  - a UTF8 name.

  A UTF8 name that equals one of the nine known attribute names builds that kind of attribute. Any other name, and the no-name and invalid-name cases, build a Custom attribute, which never fails. `Code_attribute` decodes its fields in the order of section 4.7.3 of the Java Virtual Machine Specification:
  - a u4 attribute length, then u2 max_stack and u2 max_locals;
  - a signed s4 code length, then that many code bytes;
  - a u2 handler count, then that many exception handlers;
  - a u2 count, then that many nested attributes, each built by `create` with the Code attribute as owner.

  `create` and `Code_attribute` call each other. In the model they are mutually recursive functions over a byte sequence and a cursor. Each returns the decoded value and the cursor after it, or an error. The model proves three things about them. Each branch of the dispatch is stated as its own lemma. Decoding depends only on the bytes it consumes. An independent encoder is given, and decoding inverts it.
- **The Code attribute object, as the constructor builds it step by step.** A stream object with a moving cursor feeds a class whose fields are assigned in turn. Its two loops append handlers and nested attributes in place. Each method is proved to compute exactly what the decoder functions describe, both on success and on failure.
- **The opcode classification of the debug listing.** The sixteen cases of the listing's switch, named by their instructions, are listed with the constant-pool entry their operand names, and every other instruction with its length. invokedynamic (0xba) is not among the cases, although chapter 6 of the Java Virtual Machine Specification gives it a constant-pool operand too.
- **RegularExpressionSelectionCriteria.matches**, as its test fixes it:
  - first the gate on the node's kind (package, class, feature);
  - then the global excludes, which win;
  - then the global includes.

  The test's three scenarios are proved with their exact expected answers.
- **MultipleValuesSwitch.** Values accumulate in command-line order. `getValue` returns the defaults until the first value arrives. `parse` rejects a missing value and otherwise consumes two arguments.

Modules:
- `Bytes`: big-endian reads and writes, and the error type;
- `ConstantPool`: the pool as a sequence of tagged entries;
- `ClassReader`: the decoder functions;
- `AttributeProperties`: dispatch, layout and locality lemmas;
- `AttributeEncoding`: the encoder and the round trip;
- `CodeReader`: the imperative constructor;
- `Opcodes`;
- `Selection`;
- `CommandLine`.

## Model

| member | source | states |
|---|---|---|
| ClassReader.KindOf | DependencyFinder/src/com/jeantessier/classreader/AttributeFactory.java:61-82 | the name chain: a result kind has exactly the given name, and None means the name is none of the nine |
| ClassReader.ResolveName | DependencyFinder/src/com/jeantessier/classreader/AttributeFactory.java:53-58 | index 0 gives NoName without the pool; a nonzero index succeeds iff it lies in the pool; the result is Name(text) iff the entry is UTF8 with that text; the only error is InvalidIndex for an index beyond the pool |
| ClassReader.CreateAttribute | DependencyFinder/src/com/jeantessier/classreader/AttributeFactory.java:50-97 | create consumes at least the name index and a length; the owner is passed unchanged to the built attribute; the only failures are a short stream, a negative code length or a name index beyond the pool, never an unknown or invalid name |
| ClassReader.Dispatch | DependencyFinder/src/com/jeantessier/classreader/AttributeFactory.java:54-94 | the if/else chain on the resolved name: the owner is kept, at least a length is consumed, and only structural errors occur |
| ClassReader.DecodeCustom | DependencyFinder/src/com/jeantessier/classreader/AttributeFactory.java:79-94 | the Custom fallback carries the owner and exactly the given name (or none) and consumes a u4 length plus the body; it fails only on truncation |
| ClassReader.DecodeCode | DependencyFinder/src/com/jeantessier/classreader/impl/Code_attribute.java:51-115 | a decoded Code attribute has the given owner, and its max_stack, max_locals, handler count and attribute count fit in u2 and its code length in a non-negative s4; it spans at least 16 bytes; failures are structural |
| ClassReader.DecodeCodeFields | DependencyFinder/src/com/jeantessier/classreader/impl/Code_attribute.java:57-60 | two u2 fields, so max_stack and max_locals are below 65536 |
| ClassReader.DecodeCodeBytes | DependencyFinder/src/com/jeantessier/classreader/impl/Code_attribute.java:63-67 | the result keeps the given max_stack and max_locals; the code is shorter than 2^31; a negative s4 code length is the NegativeLength error with that value, the counterpart of the failing array allocation |
| ClassReader.DecodeExceptionTable | DependencyFinder/src/com/jeantessier/classreader/impl/Code_attribute.java:102-107 | the result is the Code attribute of the given fields with the decoded handlers and attributes, both counts below 65536 |
| ClassReader.DecodeCodeAttributes | DependencyFinder/src/com/jeantessier/classreader/impl/Code_attribute.java:109-114 | the result carries the given fields and handlers unchanged and fewer than 65536 nested attributes |
| ClassReader.DecodeHandler | DependencyFinder/src/com/jeantessier/classreader/impl/Code_attribute.java:106 | a handler is decoded iff 8 bytes remain, and then exactly 8 are consumed; otherwise Truncated |
| ClassReader.DecodeHandlers | DependencyFinder/src/com/jeantessier/classreader/impl/Code_attribute.java:102-107 | count handlers decode iff 8·count bytes remain; exactly count handlers, consuming exactly 8·count bytes |
| ClassReader.DecodeAttributes | DependencyFinder/src/com/jeantessier/classreader/impl/Code_attribute.java:109-114 | exactly count attributes, each owned by the given owner, within the stream; failures are structural |
| AttributeProperties.KindOfName | DependencyFinder/src/com/jeantessier/classreader/AttributeFactory.java:61-78 | each of the nine names selects its own kind |
| AttributeProperties.NamesDistinct | DependencyFinder/src/com/jeantessier/classreader/AttributeFactory.java:40-48 | the nine names are pairwise distinct, so at most one branch applies |
| AttributeProperties.CreateWithoutName | DependencyFinder/src/com/jeantessier/classreader/AttributeFactory.java:89-94 | index 0: an unnamed Custom attribute decoded from the byte after the index; the result is the same for any pool; it succeeds iff the length and body fit |
| AttributeProperties.CreateWithInvalidName | DependencyFinder/src/com/jeantessier/classreader/AttributeFactory.java:83-88 | an index whose entry is not UTF8: an unnamed Custom attribute from the next byte; it succeeds iff the body fits |
| AttributeProperties.CreateWithUnknownName | DependencyFinder/src/com/jeantessier/classreader/AttributeFactory.java:79-82 | a UTF8 name that is none of the nine: a Custom attribute carrying that name; it succeeds iff the body fits |
| AttributeProperties.CreateWithKnownName | DependencyFinder/src/com/jeantessier/classreader/AttributeFactory.java:61-78 | a UTF8 name equal to a known name gives that kind, decoded from the byte after the index; Code goes to the Code decoder, and the other kinds succeed iff the body fits and keep it |
| AttributeProperties.CreateWithIndexOutsidePool | DependencyFinder/src/com/jeantessier/classreader/AttributeFactory.java:55 | a nonzero index beyond the pool is the InvalidIndex error |
| AttributeProperties.CodeSkipsLength | DependencyFinder/src/com/jeantessier/classreader/impl/Code_attribute.java:54-57 | the u4 attribute length is read and skipped: decoding continues 4 bytes on, or fails with Truncated |
| AttributeProperties.FieldsLayout | DependencyFinder/src/com/jeantessier/classreader/impl/Code_attribute.java:57-60 | the decoded max_stack and max_locals are the two u2 values at the cursor, and decoding continues right after them |
| AttributeProperties.CodeBytesLayout | DependencyFinder/src/com/jeantessier/classreader/impl/Code_attribute.java:63-67 | the code length is the u4 at the cursor; the code is exactly the next that-many bytes; the table follows them |
| AttributeProperties.ExceptionTableLayout | DependencyFinder/src/com/jeantessier/classreader/impl/Code_attribute.java:102-107 | the handler count is the u2 at the cursor; the handlers are the next 8·count bytes in stream order; the attribute table follows them |
| AttributeProperties.CodeAttributesLayout | DependencyFinder/src/com/jeantessier/classreader/impl/Code_attribute.java:109-114 | the attribute count is the u2 at the cursor; the nested attributes are exactly what create decodes from the next byte on, owned by the Code attribute |
| AttributeProperties.HandlersLocal | DependencyFinder/src/com/jeantessier/classreader/impl/Code_attribute.java:102-107 | the handler table depends only on the bytes it consumes |
| AttributeProperties.CreateLocal | DependencyFinder/src/com/jeantessier/classreader/AttributeFactory.java:50-97 | create depends only on the bytes it consumes: any stream that agrees on them decodes alike |
| AttributeProperties.DispatchLocal | DependencyFinder/src/com/jeantessier/classreader/AttributeFactory.java:54-94 | the dispatch depends only on the bytes it consumes |
| AttributeProperties.FieldsLocal | DependencyFinder/src/com/jeantessier/classreader/impl/Code_attribute.java:57-114 | the Code fields depend only on the bytes they consume |
| AttributeProperties.CodeBytesLocal | DependencyFinder/src/com/jeantessier/classreader/impl/Code_attribute.java:63-114 | the code and what follows it depend only on the bytes consumed |
| AttributeProperties.ExceptionTableLocal | DependencyFinder/src/com/jeantessier/classreader/impl/Code_attribute.java:102-114 | the exception table and what follows it depend only on the bytes consumed |
| AttributeProperties.CodeAttributesLocal | DependencyFinder/src/com/jeantessier/classreader/impl/Code_attribute.java:109-114 | the nested-attribute table depends only on the bytes it consumes |
| AttributeProperties.AttributesLocal | DependencyFinder/src/com/jeantessier/classreader/impl/Code_attribute.java:111-114 | a run of nested attributes depends only on the bytes it consumes |
| AttributeProperties.CreateOnTruncatedStream | DependencyFinder/src/com/jeantessier/classreader/AttributeFactory.java:50-97 | cutting the stream before a decoded attribute's end makes create fail; cutting it at or after the end changes nothing; a short stream never yields a wrong attribute |
| AttributeProperties.CodeIgnoresAttributeLength | DependencyFinder/src/com/jeantessier/classreader/impl/Code_attribute.java:54-55 | two streams that differ only in the attribute length decode alike, with the same success or failure |
| AttributeProperties.FieldsOnSameSuffix | DependencyFinder/src/com/jeantessier/classreader/impl/Code_attribute.java:57-114 | streams that agree from the cursor on decode the Code fields alike |
| AttributeEncoding.RoundTrip | DependencyFinder/src/com/jeantessier/classreader/AttributeFactory.java:50-97 | any encodable attribute, written at any cursor of any stream, is decoded by create back to itself, and the cursor ends right after its encoding |
| AttributeEncoding.DecodeEncode | DependencyFinder/src/com/jeantessier/classreader/AttributeFactory.java:50-97 | create applied to an attribute's encoding alone gives back the attribute and consumes all of it |
| AttributeEncoding.CodeEncoded | DependencyFinder/src/com/jeantessier/classreader/impl/Code_attribute.java:51-115 | an encoded Code attribute, nested attributes included, decodes back to itself |
| AttributeEncoding.HandlersEncoded | DependencyFinder/src/com/jeantessier/classreader/impl/Code_attribute.java:102-107 | encoded handlers decode back to the same list, in order |
| AttributeEncoding.AttributesEncoded | DependencyFinder/src/com/jeantessier/classreader/impl/Code_attribute.java:109-114 | a list of encoded attributes decodes back to the same list, in order |
| CodeReader.DataInput.ReadUnsignedShort | DependencyFinder/src/com/jeantessier/classreader/impl/Code_attribute.java:57 | the stream read returns the u2 the decoder reads and moves the cursor exactly as far, or fails with the decoder's error |
| CodeReader.DataInput.ReadInt | DependencyFinder/src/com/jeantessier/classreader/impl/Code_attribute.java:54 | the signed s4 read agrees with the decoder's value and cursor |
| CodeReader.DataInput.ReadFully | DependencyFinder/src/com/jeantessier/classreader/impl/Code_attribute.java:66-67 | exactly n bytes are read, as the decoder reads them, or Truncated |
| CodeReader.ReadExceptionHandler | DependencyFinder/src/com/jeantessier/classreader/impl/Code_attribute.java:106 | four u2 reads yield the decoder's handler and advance 8 bytes, or fail as the decoder does |
| CodeReader.CodeAttribute.Read | DependencyFinder/src/com/jeantessier/classreader/impl/Code_attribute.java:51-139 | the constructor succeeds iff DecodeCode does; the new object's fields (what the getters return) are the decoded attribute; the stream stops where DecodeCode stops; on failure the error is the same |
| CodeReader.CodeAttribute.ReadFields | DependencyFinder/src/com/jeantessier/classreader/impl/Code_attribute.java:57-114 | field by field from max_stack on, the object ends up holding what DecodeCodeFields decodes, or the same error |
| CodeReader.CodeAttribute.ReadCode | DependencyFinder/src/com/jeantessier/classreader/impl/Code_attribute.java:63-114 | from the code length on, the object ends up holding what DecodeCodeBytes decodes, or the same error; a negative code length fails with NegativeLength after reading only the 4 length bytes |
| CodeReader.CodeAttribute.ReadExceptionHandlers | DependencyFinder/src/com/jeantessier/classreader/impl/Code_attribute.java:104-107 | the loop appends exactly the handlers DecodeHandlers decodes, in stream order, and touches no other field |
| CodeReader.CodeAttribute.ReadAttributes | DependencyFinder/src/com/jeantessier/classreader/impl/Code_attribute.java:111-114 | the loop appends exactly the attributes DecodeAttributes decodes with this Code attribute as owner, in stream order, and touches no other field |
| CodeReader.CodeAttribute.Value | DependencyFinder/src/com/jeantessier/classreader/impl/Code_attribute.java:117-139 | the getters: the attribute the object holds is a Code attribute whose owner, max_stack, max_locals, code, handlers and nested attributes are exactly the object's fields |
| CodeReader.CodeAttribute.Empty | DependencyFinder/src/com/jeantessier/classreader/impl/Code_attribute.java:48-49 | both lists start empty |
| Opcodes.ReferencesConstantPool | DependencyFinder/src/com/jeantessier/classreader/impl/Code_attribute.java:76-92 | the switch's sixteen cases are exactly the opcodes to which MnemonicOf gives an instruction |
| Opcodes.ListingOf | DependencyFinder/src/com/jeantessier/classreader/impl/Code_attribute.java:76-98 | an instruction is listed with its constant-pool entry iff its opcode is the opcode of one of the sixteen named instructions, and with its length otherwise |
| Opcodes.InvokedynamicByLength | DependencyFinder/src/com/jeantessier/classreader/impl/Code_attribute.java:95-97 | invokedynamic (0xba) falls to the length-only branch |
| Opcodes.MnemonicOf | DependencyFinder/src/com/jeantessier/classreader/impl/Code_attribute.java:77-92 | a recognised opcode maps to an instruction with that opcode |
| Opcodes.ConstantPoolOpcodes | DependencyFinder/src/com/jeantessier/classreader/impl/Code_attribute.java:76-98 | the switch's cases are exactly the opcodes of the sixteen named instructions |
| Opcodes.MnemonicRoundTrip | DependencyFinder/src/com/jeantessier/classreader/impl/Code_attribute.java:77-92 | the sixteen instructions have distinct opcodes, and MnemonicOf inverts OpcodeOf |
| Opcodes.SixteenOpcodes | DependencyFinder/src/com/jeantessier/classreader/impl/Code_attribute.java:76-98 | the set of classified opcodes is exactly 0x12-0x14, 0xb2-0xb9, 0xbb, 0xbd, 0xc0, 0xc1 and 0xc5 |
| Selection.AnyMatchesSome | DependencyFinder/tests/com/jeantessier/dependency/TestRegularExpressionSelectionCriteria.java:74-78 | a pattern list matches a name iff one of its patterns does |
| Selection.RegularExpressionSelectionCriteria.Matches | DependencyFinder/tests/com/jeantessier/dependency/TestRegularExpressionSelectionCriteria.java:81-217 | matches iff the node's kind is enabled, no exclude pattern matches the name, and some include pattern does (so a disabled kind, or a matching exclude, rejects the node whatever the includes say) |
| Selection.PatternForms | DependencyFinder/tests/com/jeantessier/dependency/TestRegularExpressionSelectionCriteria.java:75-82 | `//` matches every name, `/^x/` exactly the names whose first character is x, and an empty list nothing |
| Selection.RegularExpressionSelectionCriteria.constructor | DependencyFinder/tests/com/jeantessier/dependency/TestRegularExpressionSelectionCriteria.java:58 | a fresh criteria object includes everything, excludes nothing and matches every kind |
| Selection.RegularExpressionSelectionCriteria.SetGlobalIncludes | DependencyFinder/tests/com/jeantessier/dependency/TestRegularExpressionSelectionCriteria.java:127 | replaces the includes and nothing else |
| Selection.RegularExpressionSelectionCriteria.SetGlobalExcludes | DependencyFinder/tests/com/jeantessier/dependency/TestRegularExpressionSelectionCriteria.java:174 | replaces the excludes and nothing else |
| Selection.RegularExpressionSelectionCriteria.SetMatchingPackages | DependencyFinder/tests/com/jeantessier/dependency/TestRegularExpressionSelectionCriteria.java:83 | sets the package flag only; the verdict for every class and feature node is unchanged |
| Selection.RegularExpressionSelectionCriteria.SetMatchingClasses | DependencyFinder/tests/com/jeantessier/dependency/TestRegularExpressionSelectionCriteria.java:84 | sets the class flag only; the verdict for every package and feature node is unchanged |
| Selection.RegularExpressionSelectionCriteria.SetMatchingFeatures | DependencyFinder/tests/com/jeantessier/dependency/TestRegularExpressionSelectionCriteria.java:85 | sets the feature flag only; the verdict for every package and class node is unchanged |
| Selection.MatchOnly | DependencyFinder/tests/com/jeantessier/dependency/TestRegularExpressionSelectionCriteria.java:83-85 | the three flag setters in a row leave exactly the requested flags and the patterns unchanged |
| Selection.TestMatch | DependencyFinder/tests/com/jeantessier/dependency/TestRegularExpressionSelectionCriteria.java:81-124 | with include `//`, packages-only, classes-only and features-only each select exactly the three nodes of that kind |
| Selection.TestGlobalIncludes | DependencyFinder/tests/com/jeantessier/dependency/TestRegularExpressionSelectionCriteria.java:126-170 | include `/^b/` selects exactly the b node of the enabled kind, with the whole qualified name tested |
| Selection.TestGlobalExcludes | DependencyFinder/tests/com/jeantessier/dependency/TestRegularExpressionSelectionCriteria.java:172-217 | include `//` with exclude `/^c/` selects the a and b nodes of the enabled kind and no c node |
| CommandLine.MultipleValuesSwitch.constructor | DependencyFinder/src/com/jeantessier/commandline/MultipleValuesSwitch.java:71-75 | the defaults are the given list, taken as a value (a copy), and no value is set yet |
| CommandLine.MultipleValuesSwitch.WithoutDefault | DependencyFinder/src/com/jeantessier/commandline/MultipleValuesSwitch.java:59-61 | no defaults and no values |
| CommandLine.MultipleValuesSwitch.WithDefault | DependencyFinder/src/com/jeantessier/commandline/MultipleValuesSwitch.java:63-65 | a one-element default list |
| CommandLine.MultipleValuesSwitch.WithDefaults | DependencyFinder/src/com/jeantessier/commandline/MultipleValuesSwitch.java:67-69 | the defaults are the array's elements in order, copied so later changes to the array do not reach the switch |
| CommandLine.MultipleValuesSwitch.GetValue | DependencyFinder/src/com/jeantessier/commandline/MultipleValuesSwitch.java:77-85 | the accumulated values whenever at least one is set, and the defaults only while none is; the two lists are never merged |
| CommandLine.MultipleValuesSwitch.SetValue | DependencyFinder/src/com/jeantessier/commandline/MultipleValuesSwitch.java:87-90 | the value goes at the end of the list, and from then on getValue answers with the accumulated values alone |
| CommandLine.MultipleValuesSwitch.Parse | DependencyFinder/src/com/jeantessier/commandline/MultipleValuesSwitch.java:92-100 | a missing value is the missing-value error and changes nothing; a value is appended and two arguments are consumed |
| CommandLine.Scenario | DependencyFinder/src/com/jeantessier/commandline/MultipleValuesSwitch.java:71-99 | a fresh switch answers with its defaults, still does after a rejected parse, and after two values answers with exactly those two in order, never mixed with the defaults |

## Left out

- Logging, `Hex.toString` and the debug listing's output are side effects only, so the model leaves them out. The opcode classification the listing performs is modelled in `Opcodes`. Decoding never depends on whether the listing runs, because the model has no listing.
- Decoding instructions through `CodeIterator` (instruction lengths, switch padding, `wide`) is not part of this model. Neither is the `iterator()` getter.
- The decoders of the eight known kinds other than Code, of `Custom_attribute` and of `ExceptionHandler` are not part of this model. They are read with the generic layout of section 4.7 of the Java Virtual Machine Specification: a u4 length and that many bytes. `ExceptionHandler` is read as four u2 fields, following section 4.7.3. The eight kinds share one variant, `Known(kind, owner, body)`.
- `ConstantPool.get` is not part of this model. An out-of-range nonzero index is modelled as an `InvalidIndex` error, not as a precondition, because the index comes from the byte stream.
- `DataInputStream` is modelled as a cursor over a fixed byte sequence.
  - A read past the end fails with `Truncated`.
  - A single failed read leaves the cursor where it was. After a failure in the middle of an attribute, the methods promise nothing about the cursor, except after a negative code length; the Java stream's position after an exception is not modelled.
  - Partial reads of `read(byte[])` are not modelled: the read takes exactly the code length or fails.
  - A negative code length fails as `NegativeLength`, in place of Java's exception on allocating the array.
- The classfile reference that is passed along is left out; only the owner is modelled.
- Nested attributes are values inside the Code attribute's value, not separate objects.
  - The getters are the fields themselves; `CodeAttribute.Value` gathers them.
  - `Read` is a static method returning the new object instead of a constructor, so that it can fail with the decoder's error.
- `AttributeEncoding.RoundTrip`: holds only for attributes that fit the field widths (the `Encodable` predicate).
- Java's 32-bit `int` arithmetic is kept only where it matters, in the signed reads of the attribute length and the code length. All other fields are unsigned reads.
- The regular-expression engine is reduced to the two forms the test uses:
  - `MatchAll` for `//`;
  - `StartsWith(prefix)` for `/^prefix/`.
  - Malformed patterns are not modelled.
- `setGlobalIncludes(String)` is modelled by passing a one-element list.
- The implementation of `RegularExpressionSelectionCriteria` is not part of this model; the rule is the one its test fixes. The constructor's defaults (include everything, exclude nothing, every kind on) are assumed.
- `NodeFactory` and the node graph are not part of this model. A node is its kind and fully qualified name.
- The internals of `CommandLineSwitchBase` are not part of this model. This includes the "present" flag and the base-class `setValue` that the switch also calls. The `accept` visitor methods are left out too.
- The four `MultipleValuesSwitch` constructors without a `mandatory` argument are left out. Each is the same as its counterpart with `mandatory` false.
- The missing-value failure of `parse` is reported as a result value, not as an exception.
- Unanchored (search) matching of general patterns is not modelled. For the two pattern forms the test uses, a search and the model agree.
- The Code attribute constructor never checks that instruction lengths cover the code, so the model has no malformed-code error.
- CommandLine.MultipleValuesSwitch.GetValue: answers with a value, not with the switch's own list. In Java, `getValue` returns the live list: either `value` or the copy of the defaults made by the constructor. So a caller that adds to the returned list changes every later answer, defaults included. The model does not capture this aliasing.
- CodeReader.CodeAttribute.Value: the getters `getCode`, `getExceptionHandlers` and `getAttributes` return the object's own array and collections, which a caller could change in place. The model returns them by value, so that aliasing is not captured.
