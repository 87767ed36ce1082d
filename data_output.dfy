/**
 * The java.io.DataOutputStream primitives the graph writers use, as byte sequences:
 * big-endian integers that keep only the low bits of their argument, UTF-8 (RFC 3629)
 * and Java's length-prefixed modified UTF-8 (`writeUTF`).
 */
module DataOutput {
  import opened Wrappers

  newtype byte = b: int | 0 <= b < 0x100

  function Low8(v: int): byte { (v % 0x100) as byte }

  /** writeByte(v): the low 8 bits of v. */
  function WriteByte(v: int): (r: seq<byte>)
    ensures |r| == 1 && r[0] as int == v % 0x100
  {
    [Low8(v)]
  }

  /** writeShort(v): the low 16 bits of v, high byte first. */
  function WriteShort(v: int): (r: seq<byte>)
    ensures |r| == 2 && r[1] as int == v % 0x100
  {
    [Low8(v / 0x100), Low8(v)]
  }

  /** writeInt(v): the low 32 bits of v, high byte first. */
  function WriteInt(v: int): (r: seq<byte>)
    ensures |r| == 4 && r[3] as int == v % 0x100
  {
    WriteShort(v / 0x1_0000) + WriteShort(v)
  }

  /** writeLong(v): the 64 bits of v, high byte first. */
  function WriteLong(v: bv64): (r: seq<byte>)
    ensures |r| == 8 && r[7] as int == v as int % 0x100
  {
    WriteInt(v as int / 0x1_0000_0000) + WriteInt(v as int)
  }

  /** The big-endian readers matching the writers above (DataInputStream's unsigned reads). */
  function ReadShort(bs: seq<byte>): nat
    requires |bs| == 2
  {
    bs[0] as nat * 0x100 + bs[1] as nat
  }

  function ReadInt(bs: seq<byte>): nat
    requires |bs| == 4
  {
    ReadShort(bs[..2]) * 0x1_0000 + ReadShort(bs[2..])
  }

  function ReadLong(bs: seq<byte>): nat
    requires |bs| == 8
  {
    ReadInt(bs[..4]) * 0x1_0000_0000 + ReadInt(bs[4..])
  }

  /** A written short reads back as the low 16 bits of its argument. */
  lemma WriteShortValue(v: int)
    ensures ReadShort(WriteShort(v)) == v % 0x1_0000
  {
    var q := v / 0x100;
    assert v == 0x100 * q + v % 0x100;
    assert q == 0x100 * (q / 0x100) + q % 0x100;
    assert v == 0x1_0000 * (q / 0x100) + ((q % 0x100) * 0x100 + v % 0x100);
  }

  /** A written int reads back as the low 32 bits of its argument. */
  lemma WriteIntValue(v: int)
    ensures ReadInt(WriteInt(v)) == v % 0x1_0000_0000
  {
    var w := WriteInt(v);
    assert w[..2] == WriteShort(v / 0x1_0000) && w[2..] == WriteShort(v);
    WriteShortValue(v / 0x1_0000);
    WriteShortValue(v);
    var q := v / 0x1_0000;
    assert v == 0x1_0000 * q + v % 0x1_0000;
    assert q == 0x1_0000 * (q / 0x1_0000) + q % 0x1_0000;
    assert v == 0x1_0000_0000 * (q / 0x1_0000) + ((q % 0x1_0000) * 0x1_0000 + v % 0x1_0000);
  }

  /** A written long reads back as its 64-bit argument. */
  lemma WriteLongValue(v: bv64)
    ensures ReadLong(WriteLong(v)) == v as int
  {
    LongBytesValue(v as int);
  }

  lemma LongBytesValue(x: int)
    requires 0 <= x < 0x1_0000_0000_0000_0000
    ensures ReadLong(WriteInt(x / 0x1_0000_0000) + WriteInt(x)) == x
  {
    var q := x / 0x1_0000_0000;
    var hi, lo := WriteInt(q), WriteInt(x);
    var w := hi + lo;
    assert w[..4] == hi && w[4..] == lo;
    assert x == 0x1_0000_0000 * q + x % 0x1_0000_0000;
    assert 0 <= q < 0x1_0000_0000;
    WriteIntValue(q);
    WriteIntValue(x);
    assert ReadInt(hi) == q;
    assert ReadLong(w) == ReadInt(hi) * 0x1_0000_0000 + ReadInt(lo);
  }

  /** The bytes of one Unicode scalar value in UTF-8 (RFC 3629, section 3). */
  function Utf8Char(c: char): (r: seq<byte>)
    ensures 1 <= |r| <= 4
    ensures (c as int < 0x80) <==> |r| == 1
    ensures |r| == 1 ==> r[0] as int == c as int
    ensures |r| > 1 ==> forall i :: 1 <= i < |r| ==> 0x80 <= r[i] < 0xC0
  {
    var v := c as int;
    if v < 0x80 then [v as byte]
    else if v < 0x800 then [(0xC0 + v / 0x40) as byte, (0x80 + v % 0x40) as byte]
    else if v < 0x1_0000 then
      [(0xE0 + v / 0x1000) as byte, (0x80 + v / 0x40 % 0x40) as byte, (0x80 + v % 0x40) as byte]
    else
      [(0xF0 + v / 0x4_0000) as byte, (0x80 + v / 0x1000 % 0x40) as byte,
       (0x80 + v / 0x40 % 0x40) as byte, (0x80 + v % 0x40) as byte]
  }

  /** String.getBytes("UTF-8"). */
  function Utf8(s: string): (r: seq<byte>)
    ensures |r| >= |s|
  {
    if s == [] then [] else Utf8(s[..|s| - 1]) + Utf8Char(s[|s| - 1])
  }

  predicate IsAscii(s: string) { forall i :: 0 <= i < |s| ==> s[i] as int < 0x80 }

  /** An ASCII string encodes to one byte per character, each byte the character's code. */
  lemma {:induction false} Utf8OfAscii(s: string)
    requires IsAscii(s)
    ensures |Utf8(s)| == |s|
    ensures forall i :: 0 <= i < |s| ==> Utf8(s)[i] as int == s[i] as int
  {
    if s != [] {
      Utf8OfAscii(s[..|s| - 1]);
    }
  }

  /** The UTF-16 code units of a scalar value: one, or a surrogate pair above U+FFFF. */
  function Utf16Units(c: char): (r: seq<int>)
    ensures |r| == 1 || |r| == 2
    ensures forall i :: 0 <= i < |r| ==> 0 <= r[i] < 0x1_0000
  {
    var v := c as int;
    if v < 0x1_0000 then [v]
    else [0xD800 + (v - 0x1_0000) / 0x400, 0xDC00 + (v - 0x1_0000) % 0x400]
  }

  /** DataOutputStream's encoding of one UTF-16 code unit: NUL takes two bytes, a unit above U+07FF three. */
  function ModifiedUnit(u: int): (r: seq<byte>)
    requires 0 <= u < 0x1_0000
    ensures 1 <= |r| <= 3
    ensures |r| == 1 <==> 1 <= u <= 0x7F
  {
    if 1 <= u <= 0x7F then [u as byte]
    else if u <= 0x7FF then [(0xC0 + u / 0x40) as byte, (0x80 + u % 0x40) as byte]
    else [(0xE0 + u / 0x1000) as byte, (0x80 + u / 0x40 % 0x40) as byte, (0x80 + u % 0x40) as byte]
  }

  function ModifiedUnits(us: seq<int>): (r: seq<byte>)
    requires forall i :: 0 <= i < |us| ==> 0 <= us[i] < 0x1_0000
  {
    if us == [] then [] else ModifiedUnits(us[..|us| - 1]) + ModifiedUnit(us[|us| - 1])
  }

  /** The modified UTF-8 body that writeUTF emits after its length prefix. */
  function ModifiedUtf8(s: string): (r: seq<byte>)
    ensures |r| >= |s|
  {
    if s == [] then [] else ModifiedUtf8(s[..|s| - 1]) + ModifiedUnits(Utf16Units(s[|s| - 1]))
  }

  /** For ASCII text without NUL the modified encoding coincides with UTF-8. */
  lemma {:induction false} ModifiedUtf8OfAscii(s: string)
    requires IsAscii(s) && '\0' !in s
    ensures ModifiedUtf8(s) == Utf8(s)
  {
    if s != [] {
      ModifiedUtf8OfAscii(s[..|s| - 1]);
      assert ModifiedUnits([s[|s| - 1] as int]) == ModifiedUnits([]) + ModifiedUnit(s[|s| - 1] as int);
    }
  }

  datatype IoError = UtfDataFormat(length: nat)

  /**
   * writeUTF(s): a two-byte length, then the modified UTF-8 body; a body longer than
   * 65535 bytes is a UTFDataFormatException and nothing is written.
   */
  function WriteUtf(s: string): (r: Result<seq<byte>, IoError>)
    ensures r.Err? <==> |ModifiedUtf8(s)| > 0xFFFF
    ensures r.Ok? ==> r.value == WriteShort(|ModifiedUtf8(s)|) + ModifiedUtf8(s)
      {
    var body := ModifiedUtf8(s);
    if |body| > 0xFFFF then Err(UtfDataFormat(|body|))
    else
      Ok(WriteShort(|body|) + body)
  }
}
