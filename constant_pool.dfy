/** The constant pool as the attribute decoder sees it: a table of tagged
    entries addressed from 1.  Parsing the pool itself is not part of this model. */
module ConstantPool {
  import opened Bytes

  /** One entry of the pool (the tags of section 4.4 of the Java Virtual
      Machine Specification).  Unusable stands for the slot that follows a
      Long or a Double entry. */
  datatype Entry =
    | Utf8(text: string)
    | Integer(bits: nat)
    | Float(bits: nat)
    | Long(bits: nat)
    | Double(bits: nat)
    | Class(nameIndex: nat)
    | String(stringIndex: nat)
    | Fieldref(classIndex: nat, nameAndTypeIndex: nat)
    | Methodref(classIndex: nat, nameAndTypeIndex: nat)
    | InterfaceMethodref(classIndex: nat, nameAndTypeIndex: nat)
    | NameAndType(nameIndex: nat, descriptorIndex: nat)
    | Unusable

  /** Entry i, for 1 <= i <= |pool|, is pool[i - 1]; index 0 is reserved. */
  type Pool = seq<Entry>

  /** ConstantPool.get: the entry at a 1-based index, or InvalidIndex. */
  function Get(pool: Pool, index: nat): (r: Result<Entry>)
    ensures r.Ok? <==> 1 <= index <= |pool|
    ensures r.Ok? ==> r.value == pool[index - 1]
    ensures r.Err? ==> r.error == InvalidIndex(index)
  {
    if 1 <= index <= |pool| then Ok(pool[index - 1]) else Err(InvalidIndex(index))
  }

  /** The first index whose entry is the UTF8 string text, or 0 if there is none. */
  function IndexOfUtf8(pool: Pool, text: string): (i: nat)
    ensures i <= |pool|
    ensures i > 0 ==> pool[i - 1] == Utf8(text)
    ensures i == 0 ==> Utf8(text) !in pool
  {
    if |pool| == 0 then 0
    else if pool[0] == Utf8(text) then 1
    else
      var j := IndexOfUtf8(pool[1..], text);
      if j == 0 then 0 else j + 1
  }
}
