/**
  The bytes on the wire, as the Redis serialization protocol (RESP2) has them in its sections "Bulk strings" and
  "Arrays", and what the readers make of everything else that can begin a value.
 */
module RespWire {
  import opened Prelude
  import opened Resp

  // Bytes are written as numbers: 36 is $, 42 is *, 43 is +, 45 is -, 48 to 57 are the digits, 58 is :, and 13, 10 is
  // the line break.

  // ---------------------------------------------------------------- decimal numbers

  /** The decimal digits: one for a number below ten, and one more behind for ten times a number and a rest. */
  lemma DecimalDigits(n: nat, last: nat)
    requires last < 10
    ensures Digits(last) == [48 + last as Byte]
    ensures n > 0 ==> Digits(10 * n + last) == Digits(n) + [48 + last as Byte]
    ensures Itoa(n) == Digits(n) && (n > 0 ==> Itoa(0 - n as int) == [45] + Digits(n))
  {}

  // ---------------------------------------------------------------- what is written

  /** A bulk string is its length, its bytes and a line break; the missing one has the length -1. */
  lemma BulkOnTheWire(payload: Bytes)
    ensures EncodeBulk(payload) == [36] + Digits(|payload|) + [13, 10] + payload + [13, 10]
    ensures EncodeOptional(Some(payload)) == EncodeBulk(payload)
    ensures EncodeOptional(None) == [36, 45, 49, 13, 10]
  {
    assert Itoa(-1) == [45, 49];
  }

  /** An array is its length and its bulk strings, one after the other. */
  lemma ArrayOnTheWire(args: seq<Bytes>, last: Bytes)
    ensures EncodeArray(args) == [42] + Digits(|args|) + [13, 10] + EncodeBulks(args)
    ensures EncodeBulks([]) == [] && EncodeBulks([last] + args) == EncodeBulk(last) + EncodeBulks(args)
  {
    assert ([last] + args)[1..] == args;
  }

  lemma OptionalArrayOnTheWire(items: seq<Option<Bytes>>, last: Option<Bytes>)
    ensures EncodeOptionalArray(items) == [42] + Digits(|items|) + [13, 10] + EncodeOptionals(items)
    ensures EncodeOptionals([]) == []
    ensures EncodeOptionals([last] + items) == EncodeOptional(last) + EncodeOptionals(items)
  {
    assert ([last] + items)[1..] == items;
  }

  // ---------------------------------------------------------------- what is read besides

  lemma LineIsRead(line: Bytes, rest: Bytes)
    requires LF !in line
    ensures ReadString(line + [13, 10] + rest) == Parsed(line + [13, 10], rest)
    ensures ReadLine(line + [13, 10] + rest) == Parsed(line, rest)
  {
    var whole := line + [CR];
    assert line + [13, 10] == whole + [LF];
    ReadStringStops(whole, rest);
    assert (whole + [LF])[..|whole|] == whole && whole[..|line|] == line;
  }

  /** Simple strings and integers are read as their line. */
  lemma LinesAreRead(line: Bytes, rest: Bytes)
    requires LF !in line
    ensures ReadValue([43] + (line + [13, 10] + rest)) == Parsed(line, rest)
    ensures ReadValue([58] + (line + [13, 10] + rest)) == Parsed(line, rest)
  {
    LineIsRead(line, rest);
  }

  /** Anything else that is not a bulk string is an error, and so is anything but an array where one is expected. */
  lemma OtherPrefixesAreErrors(prefix: Byte, rest: Bytes)
    ensures prefix != 36 && prefix != 43 && prefix != 58 ==> ReadValue([prefix] + rest) == Failed(ProtocolError, rest)
    ensures prefix != 42 ==> ReadArray([prefix] + rest) == Failed(ProtocolError, rest)
    ensures prefix != 36 && prefix != 45 ==> ReadReply([prefix] + rest) == Failed(UnsupportedPrefix(prefix), rest)
  {}

  /** A negative length is the empty string for the server's reader and no reply for the client's; no array has one. */
  lemma NegativeLengths(n: int, rest: Bytes)
    requires -MAX_INT <= n < 0
    ensures ReadValue([36] + (Itoa(n) + [13, 10] + rest)) == Parsed([], rest)
    ensures ReadArray([42] + (Itoa(n) + [13, 10] + rest)) == Failed(ProtocolError, rest)
  {
    ReadHeader(n, rest);
  }

  /** A payload without its closing line break is an error. */
  lemma UnclosedPayload(payload: Bytes, a: Byte, b: Byte, rest: Bytes)
    requires |payload| <= MAX_INT && (a != 13 || b != 10)
    ensures ReadPayload(payload + [a, b] + rest, |payload|) == Failed(ProtocolError, rest)
    ensures ReadValue([36] + (Itoa(|payload|) + [13, 10] + (payload + [a, b] + rest))) == Failed(ProtocolError, rest)
  {
    var n, body := |payload|, payload + [a, b] + rest;
    assert body[..n + 2] == payload + [a, b] && body[n + 2..] == rest;
    ReadHeader(n, body);
  }

  lemma {:induction false} NoValue(s: Bytes, i: nat)
    requires i < |s| && !IsDigit(s[i])
    ensures Value(s) == None
  {
    if i < |s| - 1 { NoValue(s[..|s| - 1], i); }
  }

  /** A length has only digits after its sign; without that it is an error, for bulk strings and arrays. */
  lemma BadLengths(line: Bytes, i: nat, rest: Bytes)
    requires LF !in line && i < |line| && !(48 <= line[i] <= 57) && (i == 0 ==> line[0] != 43 && line[0] != 45)
    ensures ReadValue([36] + (line + [13, 10] + rest)) == Failed(ProtocolError, rest)
    ensures ReadArray([42] + (line + [13, 10] + rest)) == Failed(ProtocolError, rest)
  {
    if line[0] == MINUS || line[0] == PLUS {
      NoValue(line[1..], i - 1);
    } else {
      NoValue(line, i);
    }
    assert Atoi(line) == None;
    LineIsRead(line, rest);
  }

  // ---------------------------------------------------------------- error replies

  predicate Tight(s: Bytes) { s != [] ==> !IsSpace(s[0]) && !IsSpace(s[|s| - 1]) }

  lemma {:induction false} TrimBytesBehind(x: Bytes, post: Bytes)
    requires Tight(x) && forall i | 0 <= i < |post| :: IsSpace(post[i])
    ensures TrimBytes(x + post) == x
    decreases |post|
  {
    if post == [] {
      assert x + post == x;
    } else if x == [] {
      assert x + post == post && [] + post[1..] == post[1..];
      TrimBytesBehind([], post[1..]);
    } else {
      assert (x + post)[0] == x[0] && (x + post)[..|x + post| - 1] == x + post[..|post| - 1];
      TrimBytesBehind(x, post[..|post| - 1]);
    }
  }

  lemma {:induction false} TrimBytesOf(pre: Bytes, x: Bytes, post: Bytes)
    requires Tight(x) && forall i | 0 <= i < |pre| :: IsSpace(pre[i])
    requires forall i | 0 <= i < |post| :: IsSpace(post[i])
    ensures TrimBytes(pre + x + post) == x
  {
    if pre == [] {
      assert pre + x + post == x + post;
      TrimBytesBehind(x, post);
    } else {
      assert (pre + x + post)[1..] == pre[1..] + x + post;
      TrimBytesOf(pre[1..], x, post);
    }
  }

  /** An error reply is reported with its message. */
  lemma ErrorReplyIsReported(message: Bytes, rest: Bytes)
    requires LF !in message && Tight(message)
    ensures ReadReply([45] + (message + [13, 10] + rest)) == Failed(ServerError(message), rest)
  {
    LineIsRead(message, rest);
    assert message + [13, 10] == [] + message + [13, 10];
    TrimBytesOf([], message, [13, 10]);
  }
}
