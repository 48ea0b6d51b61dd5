// A byte buffer that stops one byte past its limit and remembers that it overflowed.
module OutputBuffer {
  import opened Utf8
  import opened Magnitude
  import opened JsonCodec

  class Buffer {
    const limit: nat
    var data: seq<Byte>
    var overflow: bool
    // Everything that was ever appended.
    ghost var written: seq<Byte>

    constructor (limit: nat)
      ensures Valid() && this.limit == limit && written == []
    {
      this.limit := limit;
      data, overflow, written := [], false, [];
    }

    ghost predicate Valid()
      reads this
    {
      && data == (if |written| <= limit then written else written[..limit + 1])
      && (overflow <==> |written| > limit)
    }

    method AppendString(value: seq<Byte>)
      requires Valid()
      modifies this
      ensures Valid() && written == old(written) + value
    {
      var maximum := limit + 1;
      written := written + value;
      if |data| >= maximum {
        if value != [] {
          overflow := true;
        }
        assert written[..limit + 1] == old(written)[..limit + 1];
        return;
      }
      var remaining := maximum - |data|;
      if |value| > remaining {
        data := data + value[..remaining];
        overflow := true;
        assert data == written[..limit + 1];
        return;
      }
      data := data + value;
      if |data| > limit {
        overflow := true;
        assert data == written[..limit + 1];
      }
    }

    method AppendByte(value: Byte)
      requires Valid()
      modifies this
      ensures Valid() && written == old(written) + [value]
    {
      var maximum := limit + 1;
      written := written + [value];
      if |data| >= maximum {
        overflow := true;
        assert written[..limit + 1] == old(written)[..limit + 1];
        return;
      }
      data := data + [value];
      if |data| > limit {
        overflow := true;
        assert data == written[..limit + 1];
      }
    }

    method AppendUint(value: nat)
      requires Valid()
      modifies this
      ensures Valid() && written == old(written) + FormatUint(value)
    {
      AppendString(FormatUint(value));
    }

    // Appends a quoted text; nothing is appended when it is not valid UTF-8.
    method Quote(value: seq<Byte>) returns (ok: bool)
      requires Valid()
      modifies this
      ensures Valid() && (ok <==> Utf8.Valid(value))
      ensures written == old(written) + (if ok then Quoted(value) else [])
    {
      var emitted;
      ok, emitted := EncodeQuotedScalar(value);
      AppendString(emitted);
    }

    // What was appended, if it fits: the whole text, and never a cut one.
    method Finish() returns (text: seq<Byte>, ok: bool)
      requires Valid()
      ensures ok <==> |written| <= limit
      ensures ok ==> text == written
    {
      return data, !overflow;
    }
  }
}
