/** The RESP readers and writers as the code has them: loops over a stateful reader, appends to a stateful writer. */
module RespStreams {
  import opened Prelude
  import opened Resp

  datatype Outcome<+T> = Ok(value: T) | Err(error: Error)

  /** A buffered reader over everything its connection will deliver. */
  class Reader {
    const data: Bytes
    var pos: nat

    constructor (data: Bytes)
      ensures this.data == data && pos == 0
    {
      this.data, this.pos := data, 0;
    }

    function Remaining(): Bytes
      requires pos <= |data|
      reads this
    {
      data[pos..]
    }

    /** The outcome and the position agree with what the decoder says about the bytes that were left. */
    ghost predicate Follows<T>(r: Outcome<T>, parsed: Parsed<T>)
      reads this
    {
      match parsed
      case Parsed(value, rest) => pos <= |data| && r == Ok(value) && Remaining() == rest
      case Failed(e, left) => pos <= |data| && r == Err(e) && Remaining() == left
    }

    /** Take what a decoder takes; the standard library's buffered reader provides these. */
    method Take(n: nat) returns (taken: Bytes)
      requires pos + n <= |data|
      modifies this
      ensures pos == old(pos) + n && taken == old(Remaining())[..n] && Remaining() == old(Remaining())[n..]
    {
      taken := data[pos..pos + n];
      pos := pos + n;
    }

    method ReadOne() returns (r: Outcome<Byte>)
      requires pos <= |data|
      modifies this
      ensures pos <= |data| && Follows(r, ReadByte(old(Remaining())))
    {
      if pos == |data| { return Err(EndOfInput); }
      var taken := Take(1);
      return Ok(taken[0]);
    }

    method ReadDelimited() returns (r: Outcome<Bytes>)
      requires pos <= |data|
      modifies this
      ensures pos <= |data| && Follows(r, ReadString(old(Remaining())))
    {
      var i := pos;
      while i < |data| && data[i] != LF
        invariant pos == old(pos) <= i <= |data|
        invariant forall k | pos <= k < i :: data[k] != LF
      {
        i := i + 1;
      }
      var line := data[pos..i];
      if i == |data| {
        NoDelimiter(line);
        assert Remaining() == line;
        pos := i;
        return Err(EndOfInput);
      }
      assert Remaining() == line + [LF] + data[i + 1..];
      ReadStringStops(line, data[i + 1..]);
      pos := i + 1;
      return Ok(line + [LF]);
    }

    method ReadExactly(n: nat) returns (r: Outcome<Bytes>)
      requires pos <= |data|
      modifies this
      ensures pos <= |data| && Follows(r, ReadFull(old(Remaining()), n))
    {
      if |data| - pos < n {
        r := Err(if pos == |data| then EndOfInput else UnexpectedEnd);
        pos := |data|;
        return;
      }
      var taken := Take(n);
      return Ok(taken);
    }
  }

  lemma {:induction false} NoDelimiter(b: Bytes)
    requires forall i | 0 <= i < |b| :: b[i] != LF
    ensures ReadString(b) == Failed(EndOfInput, [])
  {
    if b != [] { NoDelimiter(b[1..]); }
  }

  // ---------------------------------------------------------------- the queue server's reader

  method ReadRespLine(reader: Reader) returns (r: Outcome<Bytes>)
    requires reader.pos <= |reader.data|
    modifies reader
    ensures reader.pos <= |reader.data| && reader.Follows(r, ReadLine(old(reader.Remaining())))
  {
    var line := reader.ReadDelimited();
    if line.Err? { return Err(line.error); }
    return Ok(TrimSuffix(TrimSuffix(line.value, LF), CR));
  }

  method ReadRespBulkString(reader: Reader) returns (r: Outcome<Bytes>)
    requires reader.pos <= |reader.data|
    modifies reader
    ensures reader.pos <= |reader.data| && reader.Follows(r, ReadBulkString(old(reader.Remaining())))
  {
    var line := ReadRespLine(reader);
    if line.Err? { return Err(line.error); }
    var length := Atoi(line.value);
    if length.None? { return Err(ProtocolError); }
    if length.value < 0 { return Ok([]); }
    var buf := reader.ReadExactly(length.value + 2);
    if buf.Err? { return Err(buf.error); }
    if buf.value[length.value] != CR || buf.value[length.value + 1] != LF { return Err(ProtocolError); }
    return Ok(buf.value[..length.value]);
  }

  method ReadRespString(reader: Reader) returns (r: Outcome<Bytes>)
    requires reader.pos <= |reader.data|
    modifies reader
    ensures reader.pos <= |reader.data| && reader.Follows(r, ReadValue(old(reader.Remaining())))
  {
    var prefix := reader.ReadOne();
    if prefix.Err? { return Err(prefix.error); }
    if prefix.value == DOLLAR {
      r := ReadRespBulkString(reader);
    } else if prefix.value == PLUS || prefix.value == COLON {
      r := ReadRespLine(reader);
    } else {
      return Err(ProtocolError);
    }
  }

  method ReadRespArray(reader: Reader) returns (r: Outcome<seq<Bytes>>)
    requires reader.pos <= |reader.data|
    modifies reader
    ensures reader.pos <= |reader.data| && reader.Follows(r, ReadArray(old(reader.Remaining())))
  {
    var prefix := reader.ReadOne();
    if prefix.Err? { return Err(prefix.error); }
    if prefix.value != STAR { return Err(ProtocolError); }
    var line := ReadRespLine(reader);
    if line.Err? { return Err(line.error); }
    var count := Atoi(line.value);
    if count.None? || count.value < 0 { return Err(ProtocolError); }
    ghost var body := reader.Remaining();
    var args := [];
    for i := 0 to count.value
      invariant reader.pos <= |reader.data|
      invariant ReadValues(body, i) == Parsed(args, reader.Remaining())
    {
      ReadValuesAppend(body, i);
      var value := ReadRespString(reader);
      if value.Err? {
        ReadValuesFailsEarly(body, i + 1, count.value);
        return Err(value.error);
      }
      args := args + [value.value];
    }
    return Ok(args);
  }

  /** A failure among the first values is the failure of all. */
  lemma {:induction false} ReadValuesFailsEarly(b: Bytes, i: nat, n: nat)
    requires i <= n && ReadValues(b, i).Failed?
    ensures ReadValues(b, n) == ReadValues(b, i)
    decreases n - i
  {
    if i < n {
      ReadValuesAppend(b, i);
      ReadValuesFailsEarly(b, i + 1, n);
    }
  }

  // ---------------------------------------------------------------- the certificate client's reader

  method ReadRespBulk(reader: Reader) returns (r: Outcome<Bytes>)
    requires reader.pos <= |reader.data|
    modifies reader
    ensures reader.pos <= |reader.data| && reader.Follows(r, ReadReply(old(reader.Remaining())))
  {
    var prefix := reader.ReadOne();
    if prefix.Err? { return Err(prefix.error); }
    if prefix.value == DOLLAR {
      var line := reader.ReadDelimited();
      if line.Err? { return Err(line.error); }
      var size := Atoi(TrimBytes(line.value));
      if size.None? { return Err(BadSize); }
      if size.value < 0 { return Err(NilReply); }
      var payload := reader.ReadExactly(size.value + 2);
      if payload.Err? { return Err(payload.error); }
      return Ok(payload.value[..size.value]);
    } else if prefix.value == MINUS {
      var line := reader.ReadDelimited();
      if line.Err? { return Err(line.error); }
      return Err(ServerError(TrimBytes(line.value)));
    } else {
      return Err(UnsupportedPrefix(prefix.value));
    }
  }

  // ---------------------------------------------------------------- the writers

  class Writer {
    var out: Bytes

    constructor ()
      ensures out == []
    {
      out := [];
    }

    method Write(b: Bytes)
      modifies this
      ensures out == old(out) + b
    {
      out := out + b;
    }
  }

  lemma {:induction false} EncodeBulksAppend(args: seq<Bytes>, last: Bytes)
    ensures EncodeBulks(args + [last]) == EncodeBulks(args) + EncodeBulk(last)
  {
    if args == [] {
      assert (args + [last])[1..] == [] && EncodeBulk(last) + [] == EncodeBulk(last) == [] + EncodeBulk(last);
    } else {
      EncodeBulksAppend(args[1..], last);
      assert (args + [last])[0] == args[0] && (args + [last])[1..] == args[1..] + [last];
      Associate(EncodeBulk(args[0]), EncodeBulks(args[1..]), EncodeBulk(last));
    }
  }

  lemma {:induction false} EncodeOptionalsAppend(items: seq<Option<Bytes>>, last: Option<Bytes>)
    ensures EncodeOptionals(items + [last]) == EncodeOptionals(items) + EncodeOptional(last)
  {
    if items == [] {
      assert (items + [last])[1..] == [] && EncodeOptional(last) + [] == EncodeOptional(last)
          == [] + EncodeOptional(last);
    } else {
      EncodeOptionalsAppend(items[1..], last);
      assert (items + [last])[0] == items[0] && (items + [last])[1..] == items[1..] + [last];
      Associate(EncodeOptional(items[0]), EncodeOptionals(items[1..]), EncodeOptional(last));
    }
  }

  method EncodeRespArray(args: seq<Bytes>) returns (encoded: Bytes)
    ensures encoded == EncodeArray(args)
  {
    encoded := [STAR] + Itoa(|args|) + CRLF;
    for i := 0 to |args|
      invariant encoded == EncodeHeader(STAR, |args|) + EncodeBulks(args[..i])
    {
      assert args[..i + 1] == args[..i] + [args[i]];
      EncodeBulksAppend(args[..i], args[i]);
      AppendBulk(EncodeHeader(STAR, |args|), EncodeBulks(args[..i]), args[i]);
      encoded := encoded + [DOLLAR] + Itoa(|args[i]|) + CRLF + args[i] + CRLF;
    }
    assert args[..|args|] == args;
  }

  lemma AppendBulk(a: Bytes, b: Bytes, arg: Bytes)
    ensures a + b + [DOLLAR] + Itoa(|arg|) + CRLF + arg + CRLF == a + (b + EncodeBulk(arg))
  {}

  method WriteRedisBulkString(writer: Writer, payload: Option<Bytes>)
    modifies writer
    ensures writer.out == old(writer.out) + EncodeOptional(payload)
  {
    if payload.None? {
      writer.Write([DOLLAR, MINUS, 49, CR, LF]);
      assert EncodeOptional(payload) == [DOLLAR, MINUS, 49, CR, LF];
      return;
    }
    writer.Write([DOLLAR] + Itoa(|payload.value|) + CRLF);
    writer.Write(payload.value);
    writer.Write(CRLF);
  }

  lemma OneMoreOptional(items: seq<Option<Bytes>>, i: nat)
    requires i < |items|
    ensures EncodeOptionals(items[..i + 1]) == EncodeOptionals(items[..i]) + EncodeOptional(items[i])
  {
    assert items[..i + 1] == items[..i] + [items[i]];
    EncodeOptionalsAppend(items[..i], items[i]);
  }

  method WriteRedisArrayOfBulkStrings(writer: Writer, items: seq<Option<Bytes>>)
    modifies writer
    ensures writer.out == old(writer.out) + EncodeOptionalArray(items)
  {
    ghost var before := writer.out;
    writer.Write([STAR] + Itoa(|items|) + CRLF);
    ghost var start := before + EncodeHeader(STAR, |items|);
    for i := 0 to |items|
      invariant writer.out == start + EncodeOptionals(items[..i])
    {
      OneMoreOptional(items, i);
      Associate(start, EncodeOptionals(items[..i]), EncodeOptional(items[i]));
      WriteRedisBulkString(writer, items[i]);
    }
    assert items[..|items|] == items;
    Associate(before, EncodeHeader(STAR, |items|), EncodeOptionals(items));
  }

  // ---------------------------------------------------------------- the two ends together

  /** A client's encoded request, read by the server, is the request, and nothing of what follows is touched. */
  method SendAndReceive(args: seq<Bytes>, following: Bytes) returns (received: Outcome<seq<Bytes>>, left: Bytes)
    requires Fits(args)
    ensures received == Ok(args) && left == following
  {
    var encoded := EncodeRespArray(args);
    var reader := new Reader(encoded + following);
    assert reader.Remaining() == encoded + following;
    ArrayRoundTrip(args, following);
    received := ReadRespArray(reader);
    left := reader.Remaining();
  }
}
