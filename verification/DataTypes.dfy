/**
 Column types and the bytes of a value in a row.  Numbers are stored in little-endian order; a real is
 four bytes this model does not look into; a pointer into the heap is an index into the table's strings.
 */
module DataTypes {
  type Byte = x: int | 0 <= x < 256

  type Int32 = x: int | -0x8000_0000 <= x < 0x8000_0000

  type Word = bits: seq<Byte> | |bits| == 4 witness [0, 0, 0, 0]

  datatype DataType = Varchar | Integer | Real

  datatype Value = Text(chars: string) | Int(n: Int32) | Float(bits: Word)

  function TypeOf(v: Value): DataType {
    match v
    case Text(_) => Varchar
    case Int(_) => Integer
    case Float(_) => Real
  }

  predicate IsTypeValid(name: string) {
    name == "integer" || name == "varchar" || name == "real"
  }

  function FromString(name: string): DataType
    requires IsTypeValid(name)
  {
    if name == "integer" then Integer else if name == "varchar" then Varchar else Real
  }

  /** The bytes a value of the type takes in a row. */
  function FindOffset(t: DataType): (size: nat)
    ensures size >= 4
  {
    match t
    case Varchar => 2 + 8
    case Integer => 4
    case Real => 4
  }

  // ----- numbers -----

  function LittleEndian(n: nat, width: nat): (bytes: seq<Byte>)
    ensures |bytes| == width
  {
    if width == 0 then [] else [n % 256] + LittleEndian(n / 256, width - 1)
  }

  function Number(bytes: seq<Byte>): nat {
    if bytes == [] then 0 else bytes[0] + 256 * Number(bytes[1..])
  }

  function Limit(width: nat): nat {
    if width == 0 then 1 else 256 * Limit(width - 1)
  }

  lemma {:induction false} NumberReadBack(n: nat, width: nat)
    requires n < Limit(width)
    ensures Number(LittleEndian(n, width)) == n
  {
    if width > 0 {
      NumberReadBack(n / 256, width - 1);
      assert LittleEndian(n, width)[1..] == LittleEndian(n / 256, width - 1);
    }
  }

  /** The largest lengths and string counts that the two parts of a stored string have room for. */
  const LENGTHS: nat := 0x1_0000
  const ADDRESSES: nat := 0x1_0000_0000_0000_0000

  lemma Limits()
    ensures Limit(2) == LENGTHS && Limit(4) == 0x1_0000_0000 && Limit(8) == ADDRESSES
  {
    assert Limit(1) == 256 && Limit(2) == 256 * Limit(1);
    assert Limit(3) == 256 * Limit(2) && Limit(4) == 256 * Limit(3);
    assert Limit(5) == 256 * Limit(4) && Limit(6) == 256 * Limit(5);
    assert Limit(7) == 256 * Limit(6) && Limit(8) == 256 * Limit(7);
  }

  /** A signed number as its two's complement, and back. */
  function Unsigned(n: Int32): nat {
    if n < 0 then n + 0x1_0000_0000 else n
  }

  function Signed(u: nat): Int32
    requires u < 0x1_0000_0000
  {
    if u >= 0x8000_0000 then u - 0x1_0000_0000 else u
  }

  // ----- values in a row -----

  /** What is appended to the row data for a value; `address` is where its characters, if any, are kept. */
  function Encoded(v: Value, address: nat): (bytes: seq<Byte>)
    ensures |bytes| == FindOffset(TypeOf(v))
  {
    match v
    case Text(chars) => LittleEndian(|chars| % LENGTHS, 2) + LittleEndian(address, 8)
    case Int(n) => LittleEndian(Unsigned(n), 4)
    case Float(bits) => bits
  }

  /** What is appended to the table's strings: the length is cut to sixteen bits before the characters are copied. */
  function Kept(v: Value): seq<string> {
    match v
    case Text(chars) => [chars[..|chars| % LENGTHS]]
    case _ => []
  }

  function Stored(v: Value): Value {
    match v
    case Text(chars) => Text(chars[..|chars| % LENGTHS])
    case _ => v
  }

  /** Exactly the strings shorter than 65536 characters are stored whole. */
  lemma StoredWhole(v: Value)
    ensures Stored(v) == v <==> (v.Text? ==> |v.chars| < LENGTHS)
  {
  }

  /** The slots at position `pos` are there, and a string's address is one. */
  predicate Readable(t: DataType, data: seq<Byte>, strings: seq<string>, pos: nat) {
    && pos + FindOffset(t) <= |data|
    && match t
       case Varchar =>
         var address := Number(data[pos + 2..pos + 10]);
         address < |strings| && Number(data[pos..pos + 2]) <= |strings[address]|
       case Integer => Number(data[pos..pos + 4]) < 0x1_0000_0000
       case Real => true
  }

  function Decode(t: DataType, data: seq<Byte>, strings: seq<string>, pos: nat): Value
    requires Readable(t, data, strings, pos)
  {
    match t
    case Varchar => Text(strings[Number(data[pos + 2..pos + 10])][..Number(data[pos..pos + 2])])
    case Integer => Int(Signed(Number(data[pos..pos + 4])))
    case Real => Float(data[pos..pos + 4])
  }

  /** A value reads back as it was stored. */
  lemma ReadsBack(v: Value, data: seq<Byte>, strings: seq<string>)
    requires |strings| < ADDRESSES
    ensures var after, kept := data + Encoded(v, |strings|), strings + Kept(v);
            && Readable(TypeOf(v), after, kept, |data|)
            && Decode(TypeOf(v), after, kept, |data|) == Stored(v)
  {
    match v
    case Text(chars) => TextReadsBack(chars, data, strings);
    case Int(n) => IntReadsBack(n, data, strings);
    case Float(bits) => assert (data + bits)[|data|..|data| + 4] == bits;
  }

  lemma IntReadsBack(n: Int32, data: seq<Byte>, strings: seq<string>)
    ensures var after := data + Encoded(Int(n), |strings|);
            Readable(Integer, after, strings, |data|) && Decode(Integer, after, strings, |data|) == Int(n)
  {
    Limits();
    var bytes := LittleEndian(Unsigned(n), 4);
    assert (data + bytes)[|data|..|data| + 4] == bytes;
    NumberReadBack(Unsigned(n), 4);
  }

  lemma TextReadsBack(chars: string, data: seq<Byte>, strings: seq<string>)
    requires |strings| < ADDRESSES
    ensures var after, kept := data + Encoded(Text(chars), |strings|), strings + Kept(Text(chars));
            && Readable(Varchar, after, kept, |data|)
            && Decode(Varchar, after, kept, |data|) == Stored(Text(chars))
  {
    hide LittleEndian, Number;
    var pos, after := |data|, data + Encoded(Text(chars), |strings|);
    Limits();
    assert after[pos..pos + 2] == LittleEndian(|chars| % LENGTHS, 2);
    assert after[pos + 2..pos + 10] == LittleEndian(|strings|, 8);
    NumberReadBack(|chars| % LENGTHS, 2);
    NumberReadBack(|strings|, 8);
  }

  /** What is appended later does not disturb what was stored before. */
  lemma StillReads(
    t: DataType, data: seq<Byte>, strings: seq<string>, pos: nat, moreData: seq<Byte>, moreStrings: seq<string>)
    requires Readable(t, data, strings, pos)
    ensures Readable(t, data + moreData, strings + moreStrings, pos)
    ensures Decode(t, data + moreData, strings + moreStrings, pos) == Decode(t, data, strings, pos)
  {
    var after := data + moreData;
    match t
    case Varchar =>
      assert after[pos..pos + 2] == data[pos..pos + 2] && after[pos + 2..pos + 10] == data[pos + 2..pos + 10];
    case Integer =>
      assert after[pos..pos + 4] == data[pos..pos + 4];
    case Real =>
      assert after[pos..pos + 4] == data[pos..pos + 4];
  }
}
