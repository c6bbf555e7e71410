/**
  The wire format of the Redis serialization protocol (RESP2), sections "Bulk strings" and "Arrays": encoders and
  decoders as functions on byte strings, and the laws between them.
 */
module Resp {
  import opened Prelude

  const LF: Byte := 10
  const CR: Byte := 13
  const SPACE: Byte := 32
  const DOLLAR: Byte := 36
  const STAR: Byte := 42
  const PLUS: Byte := 43
  const MINUS: Byte := 45
  const ZERO: Byte := 48
  const COLON: Byte := 58

  const CRLF: Bytes := [CR, LF]

  const MAX_INT: int := 0x7FFF_FFFF_FFFF_FFFF

  // ---------------------------------------------------------------- decimal numbers

  function Digits(n: nat): (s: Bytes)
    ensures s != []
  {
    if n < 10 then [ZERO + n as Byte] else Digits(n / 10) + [ZERO + (n % 10) as Byte]
  }

  function Itoa(n: int): Bytes { if n < 0 then [MINUS] + Digits(-n) else Digits(n) }

  predicate IsDigit(b: Byte) { 48 <= b <= 57 }

  /** The value of a non-empty run of digits. */
  function Value(s: Bytes): Option<nat> {
    if s == [] then None
    else if !IsDigit(s[|s| - 1]) then None
    else
      var low := (s[|s| - 1] - ZERO) as nat;
      if |s| == 1 then Some(low)
      else match Value(s[..|s| - 1])
        case None => None
        case Some(high) => Some(10 * high + low)
  }

  /** Decimal integers with an optional sign, within 64 bits. */
  function Atoi(s: Bytes): Option<int> {
    if s == [] then None
    else
      var negative := s[0] == MINUS;
      match Value(if s[0] == MINUS || s[0] == PLUS then s[1..] else s)
      case None => None
      case Some(v) =>
        var n := if negative then 0 - v as int else v as int;
        if -MAX_INT - 1 <= n <= MAX_INT then Some(n) else None
  }

  lemma {:induction false} DigitsValue(n: nat)
    ensures Value(Digits(n)) == Some(n)
    ensures forall i | 0 <= i < |Digits(n)| :: IsDigit(Digits(n)[i])
  {
    if n >= 10 {
      DigitsValue(n / 10);
      assert Digits(n)[..|Digits(n)| - 1] == Digits(n / 10);
    }
  }

  lemma AtoiItoa(n: nat)
    requires n <= MAX_INT
    ensures Atoi(Itoa(n)) == Some(n)
    ensures forall i | 0 <= i < |Itoa(n)| :: IsDigit(Itoa(n)[i])
  {
    DigitsValue(n);
  }

  lemma AtoiNegative(n: int)
    requires -MAX_INT <= n < 0
    ensures Atoi(Itoa(n)) == Some(n)
    ensures Itoa(n)[0] == MINUS && forall i | 1 <= i < |Itoa(n)| :: IsDigit(Itoa(n)[i])
  {
    DigitsValue(-n);
    assert Itoa(n)[1..] == Digits(-n);
    forall i | 1 <= i < |Itoa(n)| ensures IsDigit(Itoa(n)[i]) { assert Itoa(n)[i] == Digits(-n)[i - 1]; }
  }

  // ---------------------------------------------------------------- reading from the front of a byte string

  /** The input ends where something was to begin, or in the middle of a payload. */
  datatype Error =
    | EndOfInput
    | UnexpectedEnd
    | ProtocolError
    | BadSize
    | NilReply
    | ServerError(message: Bytes)
    | UnsupportedPrefix(prefix: Byte)

  /** What was read, or why not, and what of the input is left after it. */
  datatype Parsed<+T> = Parsed(value: T, rest: Bytes) | Failed(error: Error, left: Bytes)

  function Prepend<T>(first: T, others: Parsed<seq<T>>): Parsed<seq<T>> {
    match others
    case Failed(e, left) => Failed(e, left)
    case Parsed(values, rest) => Parsed([first] + values, rest)
  }

  function ReadByte(b: Bytes): Parsed<Byte> {
    if b == [] then Failed(EndOfInput, []) else Parsed(b[0], b[1..])
  }

  /** Everything up to and including the first line feed. */
  function ReadString(b: Bytes): Parsed<Bytes> {
    if b == [] then Failed(EndOfInput, [])
    else if b[0] == LF then Parsed([LF], b[1..])
    else Prepend(b[0], ReadString(b[1..]))
  }

  function ReadFull(b: Bytes, n: nat): Parsed<Bytes> {
    if |b| >= n then Parsed(b[..n], b[n..]) else Failed(if b == [] then EndOfInput else UnexpectedEnd, [])
  }

  function TrimSuffix(s: Bytes, c: Byte): Bytes {
    if s != [] && s[|s| - 1] == c then s[..|s| - 1] else s
  }

  function ReadLine(b: Bytes): Parsed<Bytes> {
    match ReadString(b)
    case Failed(e, left) => Failed(e, left)
    case Parsed(line, rest) => Parsed(TrimSuffix(TrimSuffix(line, LF), CR), rest)
  }

  /** A bulk string's payload and closing line break. */
  function ReadPayload(b: Bytes, length: nat): Parsed<Bytes> {
    match ReadFull(b, length + 2)
    case Failed(e, left) => Failed(e, left)
    case Parsed(buf, rest) =>
      if buf[length] != CR || buf[length + 1] != LF then Failed(ProtocolError, rest) else Parsed(buf[..length], rest)
  }

  /** A bulk string after its prefix; a negative length is read as the empty string. */
  function ReadBulkString(b: Bytes): Parsed<Bytes> {
    match ReadLine(b)
    case Failed(e, left) => Failed(e, left)
    case Parsed(line, afterLine) =>
      match Atoi(line)
      case None => Failed(ProtocolError, afterLine)
      case Some(length) => if length < 0 then Parsed([], afterLine) else ReadPayload(afterLine, length)
  }

  /** A value after its prefix byte. */
  function ReadPrefixed(prefix: Byte, b: Bytes): Parsed<Bytes> {
    if prefix == DOLLAR then ReadBulkString(b)
    else if prefix == PLUS || prefix == COLON then ReadLine(b)
    else Failed(ProtocolError, b)
  }

  function ReadValue(b: Bytes): Parsed<Bytes> {
    match ReadByte(b)
    case Failed(e, left) => Failed(e, left)
    case Parsed(prefix, rest) => ReadPrefixed(prefix, rest)
  }

  function ReadValues(b: Bytes, count: nat): Parsed<seq<Bytes>>
    decreases count
  {
    if count == 0 then Parsed([], b)
    else match ReadValue(b)
      case Failed(e, left) => Failed(e, left)
      case Parsed(first, afterFirst) => Prepend(first, ReadValues(afterFirst, count - 1))
  }

  /** An array after its prefix. */
  function ReadCounted(b: Bytes): Parsed<seq<Bytes>> {
    match ReadLine(b)
    case Failed(e, left) => Failed(e, left)
    case Parsed(line, afterLine) =>
      match Atoi(line)
      case None => Failed(ProtocolError, afterLine)
      case Some(count) => if count < 0 then Failed(ProtocolError, afterLine) else ReadValues(afterLine, count)
  }

  function ReadArray(b: Bytes): Parsed<seq<Bytes>> {
    match ReadByte(b)
    case Failed(e, left) => Failed(e, left)
    case Parsed(prefix, afterPrefix) =>
      if prefix != STAR then Failed(ProtocolError, afterPrefix) else ReadCounted(afterPrefix)
  }

  /** The certificate client's reader: one bulk string or an error line; what follows the payload is not looked at. */
  function ReadReply(b: Bytes): Parsed<Bytes> {
    match ReadByte(b)
    case Failed(e, left) => Failed(e, left)
    case Parsed(prefix, afterPrefix) =>
      if prefix == DOLLAR then
        match ReadString(afterPrefix)
        case Failed(e, left) => Failed(e, left)
        case Parsed(line, afterLine) =>
          match Atoi(TrimBytes(line))
          case None => Failed(BadSize, afterLine)
          case Some(size) =>
            if size < 0 then Failed(NilReply, afterLine)
            else match ReadFull(afterLine, size + 2)
              case Failed(e, left) => Failed(e, left)
              case Parsed(payload, rest) => Parsed(payload[..size], rest)
      else if prefix == MINUS then
        match ReadString(afterPrefix)
        case Failed(e, left) => Failed(e, left)
        case Parsed(line, afterLine) => Failed(ServerError(TrimBytes(line)), afterLine)
      else Failed(UnsupportedPrefix(prefix), afterPrefix)
  }

  predicate IsSpace(c: Byte) { 9 <= c <= 13 || c == SPACE }

  function TrimBytes(s: Bytes): Bytes {
    if s != [] && IsSpace(s[0]) then TrimBytes(s[1..])
    else if s != [] && IsSpace(s[|s| - 1]) then TrimBytes(s[..|s| - 1])
    else s
  }

  // ---------------------------------------------------------------- encoding

  function EncodeHeader(prefix: Byte, n: int): Bytes { [prefix] + Itoa(n) + CRLF }

  function EncodeBulk(payload: Bytes): Bytes { EncodeHeader(DOLLAR, |payload|) + payload + CRLF }

  function EncodeBulks(args: seq<Bytes>): Bytes {
    if args == [] then [] else EncodeBulk(args[0]) + EncodeBulks(args[1..])
  }

  function EncodeArray(args: seq<Bytes>): Bytes { EncodeHeader(STAR, |args|) + EncodeBulks(args) }

  /** A missing payload is the null bulk string. */
  function EncodeOptional(payload: Option<Bytes>): Bytes {
    if payload.None? then EncodeHeader(DOLLAR, -1) else EncodeBulk(payload.value)
  }

  function EncodeOptionals(items: seq<Option<Bytes>>): Bytes {
    if items == [] then [] else EncodeOptional(items[0]) + EncodeOptionals(items[1..])
  }

  function EncodeOptionalArray(items: seq<Option<Bytes>>): Bytes {
    EncodeHeader(STAR, |items|) + EncodeOptionals(items)
  }

  /** Sizes a byte string or a list can have in the original. */
  predicate Fits(args: seq<Bytes>) { |args| <= MAX_INT && forall i | 0 <= i < |args| :: |args[i]| <= MAX_INT }

  // ---------------------------------------------------------------- decoding undoes encoding

  lemma {:induction false} ReadStringStops(line: Bytes, rest: Bytes)
    requires forall i | 0 <= i < |line| :: line[i] != LF
    ensures ReadString(line + [LF] + rest) == Parsed(line + [LF], rest)
  {
    if line == [] {
      assert (line + [LF] + rest)[1..] == rest && line + [LF] == [LF];
    } else {
      assert (line + [LF] + rest)[1..] == line[1..] + [LF] + rest;
      ReadStringStops(line[1..], rest);
      assert [line[0]] + (line[1..] + [LF]) == line + [LF];
    }
  }

  lemma ReadHeader(n: int, rest: Bytes)
    requires -MAX_INT <= n <= MAX_INT
    ensures ReadString(Itoa(n) + CRLF + rest) == Parsed(Itoa(n) + CRLF, rest)
    ensures ReadLine(Itoa(n) + CRLF + rest) == Parsed(Itoa(n), rest)
    ensures Atoi(Itoa(n)) == Some(n)
  {
    if n >= 0 { AtoiItoa(n); } else { AtoiNegative(n); }
    var line := Itoa(n) + [CR];
    assert Itoa(n) + CRLF == line + [LF];
    ReadStringStops(line, rest);
  }

  lemma BulkRoundTrip(payload: Bytes, rest: Bytes)
    requires |payload| <= MAX_INT
    ensures ReadValue(EncodeBulk(payload) + rest) == Parsed(payload, rest)
  {
    var b := EncodeBulk(payload) + rest;
    var n := |payload|;
    assert b[1..] == Itoa(n) + CRLF + (payload + CRLF + rest);
    ReadHeader(n, payload + CRLF + rest);
    assert (payload + CRLF + rest)[..n + 2] == payload + CRLF;
    assert (payload + CRLF + rest)[n + 2..] == rest;
    assert (payload + CRLF)[..n] == payload;
  }

  lemma OptionalRoundTrip(payload: Option<Bytes>, rest: Bytes)
    requires |Fill(payload)| <= MAX_INT
    ensures ReadValue(EncodeOptional(payload) + rest) == Parsed(Fill(payload), rest)
  {
    if payload.Some? {
      BulkRoundTrip(payload.value, rest);
    } else {
      assert (EncodeOptional(payload) + rest)[1..] == Itoa(-1) + CRLF + rest;
      ReadHeader(-1, rest);
    }
  }

  lemma {:induction false} ReadValuesAppend(b: Bytes, n: nat)
    ensures ReadValues(b, n + 1)
            == match ReadValues(b, n)
               case Failed(e, left) => Failed(e, left)
               case Parsed(front, afterFront) =>
                 match ReadValue(afterFront)
                 case Failed(e, left) => Failed(e, left)
                 case Parsed(last, rest) => Parsed(front + [last], rest)
    decreases n
  {
    if n == 0 {
      match ReadValue(b)
      case Failed(_, _) =>
      case Parsed(v, rest) => assert [v] + [] == [] + [v];
    } else {
      match ReadValue(b)
      case Failed(_, _) =>
      case Parsed(first, afterFirst) =>
        ReadValuesAppend(afterFirst, n - 1);
        match ReadValues(afterFirst, n - 1)
        case Failed(_, _) =>
        case Parsed(front, afterFront) =>
          if ReadValue(afterFront).Parsed? {
            assert [first] + (front + [ReadValue(afterFront).value]) == [first] + front + [ReadValue(afterFront).value];
          }
    }
  }

  lemma {:induction false} BulksRoundTrip(args: seq<Bytes>, rest: Bytes)
    requires Fits(args)
    ensures ReadValues(EncodeBulks(args) + rest, |args|) == Parsed(args, rest)
  {
    if args == [] {
      assert EncodeBulks(args) + rest == rest;
    } else {
      Associate(EncodeBulk(args[0]), EncodeBulks(args[1..]), rest);
      BulkRoundTrip(args[0], EncodeBulks(args[1..]) + rest);
      BulksRoundTrip(args[1..], rest);
      assert [args[0]] + args[1..] == args;
    }
  }

  lemma ReadArrayHeader(n: nat, body: Bytes)
    requires n <= MAX_INT
    ensures ReadArray(EncodeHeader(STAR, n) + body) == ReadValues(body, n)
  {
    assert (EncodeHeader(STAR, n) + body)[1..] == Itoa(n) + CRLF + body;
    ReadHeader(n, body);
  }

  /** Reading an encoded argument list gives it back and consumes exactly its bytes, whatever the arguments contain. */
  lemma ArrayRoundTrip(args: seq<Bytes>, rest: Bytes)
    requires Fits(args)
    ensures ReadArray(EncodeArray(args) + rest) == Parsed(args, rest)
  {
    Associate(EncodeHeader(STAR, |args|), EncodeBulks(args), rest);
    ReadArrayHeader(|args|, EncodeBulks(args) + rest);
    BulksRoundTrip(args, rest);
  }

  function Fill(item: Option<Bytes>): Bytes { if item.None? then [] else item.value }

  /** A reply list read back: missing payloads come back as empty ones, the others as they were. */
  function Filled(items: seq<Option<Bytes>>): seq<Bytes> {
    if items == [] then [] else [Fill(items[0])] + Filled(items[1..])
  }

  predicate AllFit(items: seq<Option<Bytes>>) {
    |items| <= MAX_INT && forall i | 0 <= i < |items| :: |Fill(items[i])| <= MAX_INT
  }

  lemma {:induction false} OptionalsRoundTrip(items: seq<Option<Bytes>>, rest: Bytes)
    requires AllFit(items)
    ensures ReadValues(EncodeOptionals(items) + rest, |items|) == Parsed(Filled(items), rest)
  {
    if items == [] {
      assert EncodeOptionals(items) + rest == rest;
    } else {
      Associate(EncodeOptional(items[0]), EncodeOptionals(items[1..]), rest);
      OptionalRoundTrip(items[0], EncodeOptionals(items[1..]) + rest);
      OptionalsRoundTrip(items[1..], rest);
    }
  }

  lemma OptionalArrayRoundTrip(items: seq<Option<Bytes>>, rest: Bytes)
    requires AllFit(items)
    ensures ReadArray(EncodeOptionalArray(items) + rest) == Parsed(Filled(items), rest)
  {
    Associate(EncodeHeader(STAR, |items|), EncodeOptionals(items), rest);
    ReadArrayHeader(|items|, EncodeOptionals(items) + rest);
    OptionalsRoundTrip(items, rest);
  }

  lemma {:induction false} TrimDigits(s: Bytes)
    requires forall i | 0 <= i < |s| :: IsDigit(s[i])
    ensures TrimBytes(s + CRLF) == s
  {
    if s == [] {
      assert s + CRLF == CRLF && CRLF[1..] == [LF] && [LF][1..] == [];
      assert TrimBytes(CRLF) == TrimBytes([LF]) == TrimBytes([]);
    } else {
      assert (s + CRLF)[..|s| + 1] == s + [CR] && (s + CRLF)[0] == s[0];
      assert TrimBytes(s + CRLF) == TrimBytes(s + [CR]);
      assert (s + [CR])[..|s|] == s && (s + [CR])[0] == s[0];
      assert TrimBytes(s + [CR]) == TrimBytes(s);
      assert IsDigit(s[0]) && IsDigit(s[|s| - 1]);
    }
  }

  /** The certificate client's reader undoes the server's bulk writer on payloads that are present. */
  lemma ReplyRoundTrip(payload: Bytes, rest: Bytes)
    requires |payload| <= MAX_INT
    ensures ReadReply(EncodeOptional(Some(payload)) + rest) == Parsed(payload, rest)
    ensures ReadReply(EncodeOptional(None) + rest) == Failed(NilReply, rest)
  {
    var b, n := EncodeBulk(payload) + rest, |payload|;
    assert b[1..] == Itoa(n) + CRLF + (payload + CRLF + rest);
    ReadHeader(n, payload + CRLF + rest);
    AtoiItoa(n);
    TrimDigits(Itoa(n));
    assert (payload + CRLF + rest)[..n + 2] == payload + CRLF;
    assert (payload + CRLF + rest)[n + 2..] == rest;
    assert (payload + CRLF)[..n] == payload;
    NilReplyIsRefused(rest);
  }

  lemma NilReplyIsRefused(rest: Bytes)
    ensures ReadReply(EncodeOptional(None) + rest) == Failed(NilReply, rest)
  {
    assert (EncodeOptional(None) + rest)[1..] == Itoa(-1) + CRLF + rest;
    ReadHeader(-1, rest);
    var line := Itoa(-1) + CRLF;
    assert line == [MINUS, 49, CR, LF];
    assert line[..3] == [MINUS, 49, CR] && line[..3][..2] == [MINUS, 49];
    assert TrimBytes(line) == TrimBytes(line[..3]);
    assert TrimBytes(line[..3]) == TrimBytes([MINUS, 49]);
    assert TrimBytes([MINUS, 49]) == [MINUS, 49] == Itoa(-1);
  }

  // ---------------------------------------------------------------- whole streams

  function EncodeAll(requests: seq<seq<Bytes>>): Bytes {
    if requests == [] then [] else EncodeArray(requests[0]) + EncodeAll(requests[1..])
  }

  /** Reading n arrays one after the other. */
  function ReadArrays(b: Bytes, n: nat): Parsed<seq<seq<Bytes>>>
    decreases n
  {
    if n == 0 then Parsed([], b)
    else match ReadArray(b)
      case Failed(e, left) => Failed(e, left)
      case Parsed(first, afterFirst) => Prepend(first, ReadArrays(afterFirst, n - 1))
  }

  /** A concatenation of encoded argument lists is read back as those lists in order, to its last byte. */
  lemma {:induction false} StreamRoundTrip(requests: seq<seq<Bytes>>, rest: Bytes)
    requires forall i | 0 <= i < |requests| :: Fits(requests[i])
    ensures ReadArrays(EncodeAll(requests) + rest, |requests|) == Parsed(requests, rest)
  {
    if requests == [] {
      assert EncodeAll(requests) + rest == rest;
    } else {
      var others := EncodeAll(requests[1..]) + rest;
      Associate(EncodeArray(requests[0]), EncodeAll(requests[1..]), rest);
      ArrayRoundTrip(requests[0], others);
      StreamRoundTrip(requests[1..], rest);
      var b := EncodeArray(requests[0]) + others;
      assert EncodeAll(requests) + rest == b;
      FirstArrayRead(b, requests, others, rest);
    }
  }

  lemma FirstArrayRead(b: Bytes, requests: seq<seq<Bytes>>, others: Bytes, rest: Bytes)
    requires requests != [] && ReadArray(b) == Parsed(requests[0], others)
    requires ReadArrays(others, |requests| - 1) == Parsed(requests[1..], rest)
    ensures ReadArrays(b, |requests|) == Parsed(requests, rest)
  {
    assert [requests[0]] + requests[1..] == requests;
  }

  // ---------------------------------------------------------------- arriving in pieces

  /** Everything was consumed and more was wanted. */
  predicate RanOut<T>(part: Parsed<T>) {
    part.Failed? && part.left == [] && (part.error == EndOfInput || part.error == UnexpectedEnd)
  }

  ghost predicate IsTail(rest: Bytes, b: Bytes) { |rest| <= |b| && rest == b[|b| - |rest|..] }

  /** What a reader makes of the first k bytes, given what it makes of all of b. */
  ghost predicate Incremental<T>(whole: Parsed<T>, b: Bytes, part: Parsed<T>, k: nat)
    requires k <= |b|
  {
    whole.Parsed? ==>
      && IsTail(whole.rest, b)
      && if k < |b| - |whole.rest| then RanOut(part) else part == Parsed(whole.value, b[|b| - |whole.rest|..k])
  }

  lemma SliceOfRest(b: Bytes, u: nat, v: nat, k: nat)
    requires u + v <= k <= |b|
    ensures b[u..][..k - u] == b[u..k]
    ensures b[u..][v..] == b[u + v..]
    ensures b[u..][v..k - u] == b[u + v..k]
  {}

  lemma {:induction false} ReadStringIncremental(b: Bytes, k: nat)
    requires k <= |b|
    ensures Incremental(ReadString(b), b, ReadString(b[..k]), k)
  {
    if b != [] {
      ReadByteIncremental(b, k);
      if k > 0 { PartOfRest(b, k, ReadByte(b), ReadByte(b[..k])); }
      if b[0] != LF && ReadString(b).Parsed? {
        var more := if k > 0 then k - 1 else 0;
        ReadStringIncremental(b[1..], more);
        PrependIncremental(b, k, ReadByte(b), ReadByte(b[..k]), ReadString(b[1..]), ReadString(b[1..][..more]));
      }
    }
  }

  lemma ReadFullIncremental(b: Bytes, n: nat, k: nat)
    requires k <= |b|
    ensures Incremental(ReadFull(b, n), b, ReadFull(b[..k], n), k)
  {
    if n <= k { assert b[..k][..n] == b[..n]; }
  }

  lemma ReadLineIncremental(b: Bytes, k: nat)
    requires k <= |b|
    ensures Incremental(ReadLine(b), b, ReadLine(b[..k]), k)
  {
    ReadStringIncremental(b, k);
  }

  /**
    Reading one thing after another is incremental if both are: the second reader gets what the first one leaves of
    the part, and the end of input met by the first is the end of input of both.
   */
  lemma Sequel<A, B>(b: Bytes, k: nat, first: Parsed<A>, firstPart: Parsed<A>, second: Parsed<B>, secondPart: Parsed<B>)
    requires k <= |b| && first.Parsed? && second.Parsed? && Incremental(first, b, firstPart, k)
    requires IsTail(second.rest, first.rest)
    requires firstPart.Parsed? ==> Incremental(second, first.rest, secondPart, |firstPart.rest|)
    ensures Incremental(second, b, if firstPart.Failed? then Failed(firstPart.error, firstPart.left) else secondPart, k)
  {
    var used, usedAfter := |b| - |first.rest|, |first.rest| - |second.rest|;
    SliceOfRest(b, used, usedAfter, |b|);
    if k >= used + usedAfter { SliceOfRest(b, used, usedAfter, k); }
  }

  lemma PartOfRest<A>(b: Bytes, k: nat, first: Parsed<A>, firstPart: Parsed<A>)
    requires k <= |b| && first.Parsed? && firstPart.Parsed? && Incremental(first, b, firstPart, k)
    ensures |firstPart.rest| <= |first.rest| && firstPart.rest == first.rest[..|firstPart.rest|]
  {
    var used := |b| - |first.rest|;
    SliceOfRest(b, used, 0, k);
  }

  lemma ReadPayloadIncremental(b: Bytes, length: nat, k: nat)
    requires k <= |b|
    ensures Incremental(ReadPayload(b, length), b, ReadPayload(b[..k], length), k)
  {
    ReadFullIncremental(b, length + 2, k);
  }

  lemma ReadBulkStringIncremental(b: Bytes, k: nat)
    requires k <= |b|
    ensures Incremental(ReadBulkString(b), b, ReadBulkString(b[..k]), k)
  {
    if ReadBulkString(b).Parsed? {
      var first, firstPart := ReadLine(b), ReadLine(b[..k]);
      ReadLineIncremental(b, k);
      var length := Atoi(first.value).value;
      if length >= 0 {
        var more := if firstPart.Parsed? then |firstPart.rest| else 0;
        if firstPart.Parsed? { PartOfRest(b, k, first, firstPart); }
        ReadPayloadIncremental(first.rest, length, more);
        Sequel(b, k, first, firstPart, ReadPayload(first.rest, length), ReadPayload(first.rest[..more], length));
      }
    }
  }

  lemma ReadPrefixedIncremental(prefix: Byte, b: Bytes, k: nat)
    requires k <= |b|
    ensures Incremental(ReadPrefixed(prefix, b), b, ReadPrefixed(prefix, b[..k]), k)
  {
    if prefix == DOLLAR {
      ReadBulkStringIncremental(b, k);
    } else if prefix == PLUS || prefix == COLON {
      ReadLineIncremental(b, k);
    }
  }

  lemma ReadByteIncremental(b: Bytes, k: nat)
    requires k <= |b|
    ensures Incremental(ReadByte(b), b, ReadByte(b[..k]), k)
  {
    if b != [] && k > 0 { assert b[..k][1..] == b[1..k]; }
  }

  lemma ReadValueIncremental(b: Bytes, k: nat)
    requires k <= |b|
    ensures Incremental(ReadValue(b), b, ReadValue(b[..k]), k)
  {
    if ReadValue(b).Parsed? {
      var first, firstPart := ReadByte(b), ReadByte(b[..k]);
      ReadByteIncremental(b, k);
      var more := if firstPart.Parsed? then |firstPart.rest| else 0;
      if firstPart.Parsed? { PartOfRest(b, k, first, firstPart); }
      ReadPrefixedIncremental(b[0], first.rest, more);
      Sequel(b, k, first, firstPart, ReadPrefixed(b[0], first.rest), ReadPrefixed(b[0], first.rest[..more]));
    }
  }

  /** The sequel of a first value by a list of further ones. */
  lemma PrependIncremental<T>(b: Bytes, k: nat, first: Parsed<T>, firstPart: Parsed<T>, others: Parsed<seq<T>>,
                              othersPart: Parsed<seq<T>>)
    requires k <= |b| && first.Parsed? && others.Parsed? && Incremental(first, b, firstPart, k)
    requires IsTail(others.rest, first.rest)
    requires firstPart.Parsed? ==> Incremental(others, first.rest, othersPart, |firstPart.rest|)
    ensures firstPart.Failed? ==>
              Incremental(Prepend(first.value, others), b, Failed(firstPart.error, firstPart.left), k)
    ensures firstPart.Parsed? ==> Incremental(Prepend(first.value, others), b, Prepend(firstPart.value, othersPart), k)
  {
    Sequel(b, k, first, firstPart, others, othersPart);
  }

  lemma ReadValuesSplit(b: Bytes, n: nat)
    requires n > 0
    ensures ReadValues(b, n)
            == match ReadValue(b)
               case Failed(e, left) => Failed(e, left)
               case Parsed(first, rest) => Prepend(first, ReadValues(rest, n - 1))
    ensures ReadValues(b, n).Parsed? && ReadValue(b).Parsed? ==> ReadValues(ReadValue(b).rest, n - 1).Parsed?
  {}

  /** What a part makes of the values after the first. */
  function AfterFirst(firstPart: Parsed<Bytes>, othersPart: Parsed<seq<Bytes>>): Parsed<seq<Bytes>> {
    match firstPart
    case Failed(e, left) => Failed(e, left)
    case Parsed(value, _) => Prepend(value, othersPart)
  }

  lemma ValuesIncremental(b: Bytes, k: nat, first: Parsed<Bytes>, firstPart: Parsed<Bytes>,
                          others: Parsed<seq<Bytes>>, othersPart: Parsed<seq<Bytes>>)
    requires k <= |b| && first.Parsed? && others.Parsed? && Incremental(first, b, firstPart, k)
    requires if firstPart.Parsed? then Incremental(others, first.rest, othersPart, |firstPart.rest|)
             else Incremental(others, first.rest, othersPart, |first.rest|)
    requires firstPart.Parsed? ==> |firstPart.rest| <= |first.rest|
    ensures Incremental(Prepend(first.value, others), b, AfterFirst(firstPart, othersPart), k)
  {
    PrependIncremental(b, k, first, firstPart, others, othersPart);
  }

  lemma {:induction false} ReadValuesIncremental(b: Bytes, n: nat, k: nat)
    requires k <= |b|
    ensures Incremental(ReadValues(b, n), b, ReadValues(b[..k], n), k)
    decreases n
  {
    if n > 0 && ReadValues(b, n).Parsed? {
      ReadValuesSplit(b, n);
      ReadValuesSplit(b[..k], n);
      var first, firstPart := ReadValue(b), ReadValue(b[..k]);
      ReadValueIncremental(b, k);
      var more := if firstPart.Parsed? then |firstPart.rest| else |first.rest|;
      if firstPart.Parsed? { PartOfRest(b, k, first, firstPart); }
      ReadValuesIncremental(first.rest, n - 1, more);
      ValuesIncremental(b, k, first, firstPart, ReadValues(first.rest, n - 1), ReadValues(first.rest[..more], n - 1));
    }
  }

  lemma ReadCountedIncremental(b: Bytes, k: nat)
    requires k <= |b|
    ensures Incremental(ReadCounted(b), b, ReadCounted(b[..k]), k)
  {
    if ReadCounted(b).Parsed? {
      var first, firstPart := ReadLine(b), ReadLine(b[..k]);
      ReadLineIncremental(b, k);
      var count := Atoi(first.value).value;
      var more := if firstPart.Parsed? then |firstPart.rest| else 0;
      if firstPart.Parsed? { PartOfRest(b, k, first, firstPart); }
      ReadValuesIncremental(first.rest, count, more);
      Sequel(b, k, first, firstPart, ReadValues(first.rest, count), ReadValues(first.rest[..more], count));
    }
  }

  /**
    A request that has arrived only in part reads as the end of input, never as a value or a protocol error; once its
    last byte is there it reads as itself, whatever follows.
   */
  lemma ReadArrayIncremental(b: Bytes, k: nat)
    requires k <= |b|
    ensures Incremental(ReadArray(b), b, ReadArray(b[..k]), k)
  {
    if ReadArray(b).Parsed? {
      var first, firstPart := ReadByte(b), ReadByte(b[..k]);
      ReadByteIncremental(b, k);
      var more := if firstPart.Parsed? then |firstPart.rest| else 0;
      if firstPart.Parsed? { PartOfRest(b, k, first, firstPart); }
      ReadCountedIncremental(first.rest, more);
      Sequel(b, k, first, firstPart, ReadCounted(first.rest), ReadCounted(first.rest[..more]));
    }
  }

  /** In particular no proper prefix of an encoded request is taken for anything. */
  lemma PartialRequestWaits(args: seq<Bytes>, k: nat)
    requires Fits(args) && k < |EncodeArray(args)|
    ensures RanOut(ReadArray(EncodeArray(args)[..k]))
  {
    assert EncodeArray(args) + [] == EncodeArray(args);
    ArrayRoundTrip(args, []);
    ReadArrayIncremental(EncodeArray(args), k);
  }
}
