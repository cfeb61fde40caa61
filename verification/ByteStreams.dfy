/** `utils::ByteStream`: a growing vector to write to, and an offset that moves over it, or over a
    borrowed span, on reads. */
module ByteStreams {
  import opened Bytes

  class ByteStream {
    var dataVec: seq<Byte>
    var dataSpan: seq<Byte>
    var readOffset: nat

    /** What `get_raw_ptr` and `get_size` give: the span as long as nothing has been written. */
    function Data(): seq<Byte>
      reads this
    {
      if dataVec == [] then dataSpan else dataVec
    }

    ghost predicate Valid()
      reads this
    {
      readOffset <= |Data()|
    }

    /** Nothing has been written, and the span is `data`. */
    ghost predicate Reads(data: seq<Byte>)
      reads this
    {
      dataVec == [] && dataSpan == data
    }

    /** What is still to be read. */
    ghost function Rest(): seq<Byte>
      reads this
      requires Valid()
    {
      Data()[readOffset..]
    }

    constructor (span: seq<Byte>)
      ensures Valid() && dataVec == [] && dataSpan == span && Rest() == span
    {
      dataVec := [];
      dataSpan := span;
      readOffset := 0;
    }

    method WriteData(bytes: seq<Byte>)
      modifies this`dataVec
      ensures dataVec == old(dataVec) + bytes
    {
      dataVec := dataVec + bytes;
    }

    method WriteByte(value: Byte)
      modifies this`dataVec
      ensures dataVec == old(dataVec) + [value]
    {
      WriteData([value]);
    }

    method WriteU32(value: U32)
      modifies this`dataVec
      ensures dataVec == old(dataVec) + Le32(value)
    {
      WriteData(Le32(value));
    }

    /** With a 16-bit `LengthType`. */
    method WriteText16(text: Text, writeLengthInfo: bool)
      modifies this`dataVec
      ensures dataVec == old(dataVec) + (if writeLengthInfo then Le16(ToU16(|text|)) else []) + text
    {
      if writeLengthInfo {
        WriteData(Le16(ToU16(|text|)));
      }
      WriteData(text);
    }

    /** With a 32-bit `LengthType`, and a length prefix. */
    method WriteText32(text: Text)
      modifies this`dataVec
      ensures dataVec == old(dataVec) + (Le32(ToU32(|text|)) + text)
    {
      WriteData(Le32(ToU32(|text|)));
      WriteData(text);
    }

    method ReadData(size: nat) returns (ok: bool, bytes: seq<Byte>)
      requires Valid()
      modifies this`readOffset
      ensures Valid() && Reading(ok, bytes, Rest()) == ReadBytes(old(Rest()), size)
    {
      if |Data()| - readOffset < size {
        return false, [];
      }
      bytes := Data()[readOffset..readOffset + size];
      assert Rest()[..size] == bytes && Rest()[size..] == Data()[readOffset + size..];
      readOffset := readOffset + size;
      ok := true;
    }

    method ReadOneByte() returns (ok: bool, value: Byte)
      requires Valid()
      modifies this`readOffset
      ensures Valid() && Reading(ok, value, Rest()) == ReadByte(old(Rest()))
    {
      var bytes;
      ok, bytes := ReadData(1);
      value := if ok then bytes[0] else 0;
    }

    method ReadWord16() returns (ok: bool, value: U16)
      requires Valid()
      modifies this`readOffset
      ensures Valid() && Reading(ok, value, Rest()) == ReadU16(old(Rest()))
    {
      var bytes;
      ok, bytes := ReadData(2);
      value := if ok then FromLe16(bytes[0], bytes[1]) else 0;
    }

    method ReadWord32() returns (ok: bool, value: U32)
      requires Valid()
      modifies this`readOffset
      ensures Valid() && Reading(ok, value, Rest()) == ReadU32(old(Rest()))
    {
      var bytes;
      ok, bytes := ReadData(4);
      value := if ok then FromLe32(bytes[0], bytes[1], bytes[2], bytes[3]) else 0;
    }

    /** With a 16-bit `LengthType`, into a string that holds `was`. */
    method ReadString16(given: U16, was: Text) returns (ok: bool, text: Text)
      requires Valid()
      modifies this`readOffset
      ensures Valid() && Reading(ok, text, Rest()) == Into(ReadText16(old(Rest()), given), was)
    {
      var length := given;
      if length == 0 {
        var read;
        read, length := ReadWord16();
        if !read {
          return false, was;
        }
      }
      ok, text := ReadData(length);
      if !ok {
        text := was;
      }
    }

    /** With a 32-bit `LengthType`. */
    method ReadString32(given: U32, was: Text) returns (ok: bool, text: Text)
      requires Valid()
      modifies this`readOffset
      ensures Valid() && Reading(ok, text, Rest()) == Into(ReadText32(old(Rest()), given), was)
    {
      var length := given;
      if length == 0 {
        var read;
        read, length := ReadWord32();
        if !read {
          return false, was;
        }
      }
      ok, text := ReadData(length);
      if !ok {
        text := was;
      }
    }
  }
}
