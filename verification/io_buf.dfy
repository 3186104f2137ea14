// One fixed-size block of the memory pool: the bytes in use lie at head, length of them.

module IOBufs {
  import opened Framing

  class IOBuf {
    const capacity: nat
    const data: array<byte>
    var length: nat
    var head: nat
    var next: IOBuf?

    ghost predicate Valid()
      reads this
    {
      data.Length == capacity && head + length <= capacity
    }

    ghost function Content(): seq<byte>
      requires Valid()
      reads this, data
    {
      data[head..head + length]
    }

    constructor (size: nat)
      ensures capacity == size && data.Length == size && fresh(data)
      ensures length == 0 && head == 0 && next == null
    {
      capacity := size;
      data := new byte[size];
      length, head, next := 0, 0, null;
    }

    method Clear()
      requires Valid()
      modifies this`length, this`head
      ensures Valid() && Content() == [] && head == 0
    {
      length, head := 0, 0;
    }

    // Moves the unprocessed bytes to the front of the block (memmove).
    method Adjust()
      requires Valid()
      modifies this`head, data
      ensures Valid() && head == 0 && Content() == old(Content())
    {
      if head != 0 {
        if length != 0 {
          forall i | 0 <= i < length {
            data[i] := data[head + i];
          }
        }
        head := 0;
      }
    }

    // Takes over the bytes of another block.
    method Copy(other: IOBuf)
      requires data.Length == capacity && other.Valid()
      requires other.length <= capacity && other.data != data && other != this
      modifies this`head, this`length, data
      ensures Valid() && head == 0 && Content() == old(other.Content())
    {
      forall i | 0 <= i < other.length {
        data[i] := other.data[other.head + i];
      }
      head := 0;
      length := other.length;
    }

    method Pop(len: nat)
      requires Valid() && len <= length
      modifies this`length, this`head
      ensures Valid() && Content() == old(Content())[len..]
      ensures head == old(head) + len
    {
      length := length - len;
      head := head + len;
    }
  }
}
