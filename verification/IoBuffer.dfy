/** The growing buffers that mongoose reads into and writes from (`struct iobuf`). */
module IoBuffer {
  import opened Basics

  /** The first `len` bytes of `buf` are data. */
  class IoBuf {
    var buf: array<Byte>
    var len: nat

    ghost predicate Valid()
      reads this
    {
      len <= buf.Length
    }

    ghost function Content(): Octets
      requires Valid()
      reads this, buf
    {
      buf[..len]
    }

    constructor ()
      ensures Valid() && Content() == [] && fresh(buf)
    {
      buf := new Byte[0];
      len := 0;
    }

    /** Appends to the buffer, which is reallocated with a fifth to spare when it is full. */
    method Spool(data: Octets)
      requires Valid()
      modifies this`buf, this`len, buf
      ensures Valid() && Content() == old(Content()) + data
      ensures buf == old(buf) || fresh(buf)
    {
      var newLen := len + |data|;
      if |data| == 0 {
        return;
      }
      if newLen >= buf.Length {
        var p := new Byte[newLen * 12 / 10];
        forall i | 0 <= i < len {
          p[i] := buf[i];
        }
        buf := p;
      }
      forall i | 0 <= i < |data| {
        buf[len + i] := data[i];
      }
      len := newLen;
    }

    /** Moves what follows the first `n` bytes to the front. */
    method Shift(n: nat)
      requires Valid() && n <= len
      modifies this`len, buf
      ensures Valid() && Content() == old(Content())[n..]
    {
      forall i | 0 <= i < len - n {
        buf[i] := buf[n + i];
      }
      len := len - n;
    }
  }
}
