/** Page indices as four bytes, the lowest first. */
module Words {
  import opened ByteStrings

  type PageIndex = n: nat | n < 0x1_0000_0000

  function IdBytes(id: PageIndex): seq<Byte> {
    [id % 256, id / 256 % 256, id / 256 / 256 % 256, id / 256 / 256 / 256]
  }

  function IdOf(bytes: seq<Byte>): PageIndex
    requires |bytes| == 4
  {
    bytes[0] as int + 256 * (bytes[1] as int + 256 * (bytes[2] as int + 256 * bytes[3] as int))
  }

  lemma IdRoundTrip(id: PageIndex)
    ensures IdOf(IdBytes(id)) == id
  {
    var a := id / 256;
    var b := a / 256;
    assert id == 256 * a + id % 256 && a == 256 * b + a % 256 && b == 256 * (b / 256) + b % 256;
  }
}
