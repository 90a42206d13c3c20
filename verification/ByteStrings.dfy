// Byte strings.  A byte is written as the character with its code, so that
// protocol constants can be given as string literals.
module ByteStrings {
  type Byte = c: char | c as int < 256

  type Bytes = seq<Byte>

  // `Vec<u8>`: a growable buffer that the printers append to in place.
  class ByteBuffer {
    var bytes: Bytes

    constructor ()
      ensures bytes == []
    {
      bytes := [];
    }

    method Push(b: Byte)
      modifies this
      ensures bytes == old(bytes) + [b]
    {
      bytes := bytes + [b];
    }

    method Extend(s: Bytes)
      modifies this
      ensures bytes == old(bytes) + s
    {
      bytes := bytes + s;
    }
  }
}
