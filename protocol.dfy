/**
 * `ProtocolEndpoint` (rfb.py:385-507): the record layer over one TCP
 * connection.  The socket is modelled by what it carries: `input` is what
 * the server has sent and the client has not read yet, `output` everything
 * the client has written.  Each read is proved against the pure reader of
 * `Wire` that describes it, each write against the packer.
 */
module Protocol {
  import opened Wrappers
  import opened BigEndian
  import opened Errors
  import opened Wire

  class ProtocolEndpoint {
    var input: seq<byte>
    var output: seq<byte>
    var closed: bool

    /** A connected endpoint whose server will send `serverBytes`. */
    constructor (serverBytes: seq<byte>)
      ensures input == serverBytes && output == [] && !closed
    {
      input := serverBytes;
      output := [];
      closed := false;
    }

    method Close()
      modifies this
      ensures closed && input == old(input) && output == old(output)
    {
      closed := true;
    }

    /**
     * `__simpleread`'s receive loop: `n` bytes, gathered piece by piece.
     * When the server has fewer to give, the source waits for ever; here
     * the read fails with `EndOfStream` and consumes nothing.
     */
    method Receive(n: nat) returns (r: Result<seq<byte>, RfbError>)
      modifies this
      ensures closed == old(closed) && output == old(output)
      ensures old(closed) ==> r == Err(Closed) && input == old(input)
      ensures !old(closed) ==> Taken(r, input) == TakeBytes(n, old(input))
    {
      if closed {
        return Err(Closed);
      }
      if |input| < n {
        return Err(EndOfStream);
      }
      var got: seq<byte> := [];
      while |got| < n
        invariant |got| <= n && |input| >= n - |got|
        invariant old(input) == got + input
        invariant closed == old(closed) && output == old(output)
      {
        got := got + [input[0]];
        input := input[1..];
      }
      assert got == old(input)[..n] && input == old(input)[n..];
      return Ok(got);
    }

    /** `__simplewrite`'s send loop: the bytes go out piece by piece until none are left. */
    method Send(bytes: seq<byte>) returns (r: Result<(), RfbError>)
      modifies this
      ensures closed == old(closed) && input == old(input)
      ensures r == if closed then Err(Closed) else Ok(())
      ensures output == if closed then old(output) else old(output) + bytes
    {
      if closed {
        return Err(Closed);
      }
      var tmp := bytes;
      while |tmp| > 0
        invariant |tmp| <= |bytes| && tmp == bytes[|bytes| - |tmp|..]
        invariant output == old(output) + bytes[..|bytes| - |tmp|]
        invariant closed == old(closed) && input == old(input)
      {
        output := output + [tmp[0]];
        tmp := tmp[1..];
      }
      return Ok(());
    }

    /** `readlist` (and `readele`, which keeps the one value): one record of descriptor `fmt`. */
    method ReadFields(fmt: seq<Field>) returns (r: Result<seq<int>, RfbError>)
      modifies this
      ensures closed == old(closed) && output == old(output)
      ensures old(closed) ==> r == Err(Closed) && input == old(input)
      ensures !old(closed) ==> Taken(r, input) == TakeFields(fmt, old(input))
    {
      var b := Receive(Size(fmt));
      if b.Err? {
        return Err(b.error);
      }
      return Ok(Decode(fmt, b.value));
    }

    /** `readstring`: a length record, then that many bytes. */
    method ReadString(lenFmt: seq<Field>) returns (r: Result<seq<byte>, RfbError>)
      requires LengthFormat(lenFmt)
      modifies this
      ensures closed == old(closed) && output == old(output)
      ensures old(closed) ==> r == Err(Closed) && input == old(input)
      ensures !old(closed) ==> Taken(r, input) == TakeString(lenFmt, old(input))
    {
      var l := ReadFields(lenFmt);
      if l.Err? {
        return Err(l.error);
      }
      r := Receive(l.value[|l.value| - 1]);
    }

    /** `readvarlist`: a count record, then the elements, read as one record. */
    method ReadList(lf: ListFormat) returns (r: Result<seq<seq<int>>, RfbError>)
      requires LengthFormat(lf.count)
      modifies this
      ensures closed == old(closed) && output == old(output)
      ensures old(closed) ==> r == Err(Closed) && input == old(input)
      ensures !old(closed) ==> Taken(r, input) == TakeList(lf, old(input))
    {
      var l := ReadFields(lf.count);
      if l.Err? {
        return Err(l.error);
      }
      var n: nat := l.value[|l.value| - 1];
      var b := Receive(n * Size(lf.elem));
      if b.Err? {
        return Err(b.error);
      }
      return Ok(DecodeList(lf.elem, n, b.value));
    }

    /** `writeargs`: one record of descriptor `fmt`. */
    method WriteFields(fmt: seq<Field>, vs: seq<int>) returns (r: Result<(), RfbError>)
      requires Conforms(fmt, vs)
      modifies this
      ensures closed == old(closed) && input == old(input)
      ensures r == if closed then Err(Closed) else Ok(())
      ensures output == if closed then old(output) else old(output) + Pack(fmt, vs)
    {
      r := Send(Pack(fmt, vs));
    }

    /** `writestring`: the length in `lenFmt`, then the bytes. */
    method WriteString(lenFmt: seq<Field>, s: seq<byte>) returns (r: Result<(), RfbError>)
      requires LengthFormat(lenFmt) && Holds(lenFmt[|lenFmt| - 1], |s|)
      modifies this
      ensures closed == old(closed) && input == old(input)
      ensures r == if closed then Err(Closed) else Ok(())
      ensures output == if closed then old(output) else old(output) + PackString(lenFmt, s)
    {
      var len := Pack(lenFmt, LengthValues(lenFmt, |s|));
      assert PackString(lenFmt, s) == len + s;
      Appended(output, len, s);
      r := WriteFields(lenFmt, LengthValues(lenFmt, |s|));
      if r.Ok? {
        r := Send(s);
      }
    }

    /** `writevarlist`: the count, then the elements flattened into one record. */
    method WriteList(lf: ListFormat, es: seq<seq<int>>) returns (r: Result<(), RfbError>)
      requires LengthFormat(lf.count) && Holds(lf.count[|lf.count| - 1], |es|)
      requires forall k :: 0 <= k < |es| ==> Conforms(lf.elem, es[k])
      modifies this
      ensures closed == old(closed) && input == old(input)
      ensures r == if closed then Err(Closed) else Ok(())
      ensures output == if closed then old(output) else old(output) + PackList(lf, es)
    {
      var count := Pack(lf.count, LengthValues(lf.count, |es|));
      var elems := PackAll(lf.elem, es);
      PackListParts(lf, es);
      Appended(output, count, elems);
      r := Send(count);
      if r.Ok? {
        r := Send(elems);
      }
    }
  }
}
