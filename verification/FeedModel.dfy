/** The quote feed's frames and what the client makes of a byte stream, independent of how it is fragmented. */
module FeedModel {
  import opened Bytes

  const HEADER := 11
  const BODY_BUFFER := 2480

  // ----- C strings and numbers -----

  /** The bytes of a C string: everything before the first NUL. */
  function CString(s: seq<Byte>): seq<Byte> {
    if s == [] || s[0] == 0 then [] else [s[0]] + CString(s[1..])
  }

  predicate IsDigit(b: Byte) {
    48 <= b <= 57
  }

  function DigitsValue(s: seq<Byte>, acc: int): int
    decreases s
  {
    if s == [] || !IsDigit(s[0]) then acc else DigitsValue(s[1..], 10 * acc + (s[0] - 48))
  }

  /** `atoi`: leading white space, one sign, digits; anything else ends the number. */
  function Atoi(s: seq<Byte>): int {
    if s == [] then 0
    else if s[0] == 32 || 9 <= s[0] <= 13 then Atoi(s[1..])
    else if s[0] == 45 then -DigitsValue(s[1..], 0)
    else if s[0] == 43 then DigitsValue(s[1..], 0)
    else DigitsValue(s, 0)
  }

  /** Four decimal digits. */
  function Digits4(n: nat): (s: seq<Byte>)
    requires n < 10000
  {
    [48 + n / 1000, 48 + n / 100 % 10, 48 + n / 10 % 10, 48 + n % 10]
  }

  // ----- Reading a stream -----

  function Take(s: seq<Byte>, n: nat): seq<Byte> {
    if n <= |s| then s[..n] else s
  }

  function Drop(s: seq<Byte>, n: nat): seq<Byte> {
    if n <= |s| then s[n..] else []
  }

  /** A zero-initialised buffer of `size` bytes whose front has been overwritten. */
  function Padded(s: seq<Byte>, size: nat): (b: seq<Byte>)
    requires |s| <= size
    ensures |b| == size
  {
    s + seq(size - |s|, _ => 0)
  }

  /** What one call of `recvData` produces. `Undefined`: the stated length does not fit the buffer, or the buffer is
      left without a terminating NUL; the language says nothing about what happens then. */
  datatype Result = Message(data: seq<Byte>) | Heartbeat | Unknown | Undefined

  const QUOTE: seq<Byte> := [48, 50, 48, 49]
  const BEAT: seq<Byte> := [48, 50, 48, 51]
  const LOGIN: seq<Byte> := [48, 50, 48, 52]
  const ACCEPTED: seq<Byte> := [48, 50, 48, 48]

  function Receive(stream: seq<Byte>): (Result, seq<Byte>) {
    var head := Padded(Take(stream, HEADER), 12);
    var rest := Drop(stream, HEADER);
    var n := Atoi(CString(head[5..9])) + 1;
    if head[1..5] == QUOTE then
      if 0 <= n <= BODY_BUFFER then
        var body := Padded(Take(rest, n), BODY_BUFFER);
        (if 0 in body then Message(CString(body)) else Undefined, Drop(rest, n))
      else (Undefined, rest)
    else if head[1..5] == BEAT then (Heartbeat, Drop(rest, 1))
    else (Unknown, rest)
  }

  // ----- Frames -----

  datatype Frame =
    | Quote(mark: Byte, kind: seq<Byte>, body: seq<Byte>, trailer: Byte)
    | Beat(mark: Byte, length: seq<Byte>, kind: seq<Byte>, last: Byte)

  /** Body and trailer fit the buffer and leave, or bring, a terminating NUL. */
  predicate WellFormed(f: Frame) {
    match f
    case Quote(_, kind, body, trailer) =>
      |kind| == 2 && |body| + 1 <= BODY_BUFFER && (|body| + 1 < BODY_BUFFER || 0 in body || trailer == 0)
    case Beat(_, length, kind, _) => |length| == 4 && |kind| == 2
  }

  /** An 11-byte header, the body, one more byte. */
  function Layout(mark: Byte, command: seq<Byte>, length: seq<Byte>, kind: seq<Byte>,
    body: seq<Byte>, last: Byte): seq<Byte> {
    [mark] + command + length + kind + body + [last]
  }

  function Encode(f: Frame): seq<Byte>
    requires WellFormed(f)
  {
    match f
    case Quote(mark, kind, body, trailer) => Layout(mark, QUOTE, Digits4(|body|), kind, body, trailer)
    case Beat(mark, length, kind, last) => Layout(mark, BEAT, length, kind, [], last)
  }

  function Expected(f: Frame): Result {
    match f
    case Quote(_, _, body, trailer) => Message(CString(body + [trailer]))
    case Beat(_, _, _, _) => Heartbeat
  }

  function EncodeAll(fs: seq<Frame>): seq<Byte>
    requires forall f :: f in fs ==> WellFormed(f)
  {
    if fs == [] then [] else Encode(fs[0]) + EncodeAll(fs[1..])
  }

  // ----- Lengths round trip -----

  lemma DigitsStep(d: Byte, s: seq<Byte>, acc: int)
    requires IsDigit(d)
    ensures DigitsValue([d] + s, acc) == DigitsValue(s, 10 * acc + (d - 48))
  {
    assert ([d] + s)[1..] == s;
  }

  lemma Digits4Value(n: nat)
    requires n < 10000
    ensures Atoi(CString(Digits4(n))) == n
  {
    var s := Digits4(n);
    var a, b, c, d: Byte := s[0], s[1], s[2], s[3];
    var x: int := a - 48;
    var y: int := 10 * x + (b - 48);
    var z: int := 10 * y + (c - 48);
    NoNul(s);
    assert s == [a] + ([b] + ([c] + ([d] + [])));
    DigitsStep(a, [b] + ([c] + ([d] + [])), 0);
    DigitsStep(b, [c] + ([d] + []), x);
    DigitsStep(c, [d] + [], y);
    DigitsStep(d, [], z);
    Decimal(n);
  }

  lemma Decimal(n: nat)
    requires n < 10000
    ensures 10 * (10 * (10 * (n / 1000) + n / 100 % 10) + n / 10 % 10) + n % 10 == n
  {
    assert n / 100 == 10 * (n / 1000) + n / 100 % 10;
    assert n / 10 == 10 * (n / 100) + n / 10 % 10;
  }

  lemma {:induction false} NoNul(s: seq<Byte>)
    requires 0 !in s
    ensures CString(s) == s
  {
    if s != [] {
      NoNul(s[1..]);
      assert s == [s[0]] + s[1..];
    }
  }

  /** Zero padding does not show in a C string. */
  lemma {:induction false} CStringPadded(s: seq<Byte>, size: nat)
    requires |s| <= size
    ensures CString(Padded(s, size)) == CString(s)
  {
    var b := Padded(s, size);
    if s == [] {
      assert b == [] || b[0] == 0;
    } else if s[0] != 0 {
      assert b[1..] == Padded(s[1..], size - 1);
      CStringPadded(s[1..], size - 1);
    }
  }

  lemma PaddedNul(s: seq<Byte>, size: nat)
    requires |s| <= size
    ensures 0 in Padded(s, size) <==> |s| < size || 0 in s
  {
    if |s| < size {
      assert Padded(s, size)[size - 1] == 0;
    }
  }

  // ----- Synchronisation -----

  /** One call on a well-formed frame consumes exactly that frame and yields its body and trailer up to the first
      NUL. */
  lemma ReceiveFrame(f: Frame, rest: seq<Byte>)
    requires WellFormed(f)
    ensures Receive(Encode(f) + rest) == (Expected(f), rest)
  {
    match f
    case Quote(mark, kind, body, trailer) =>
      var payload := body + [trailer];
      Header(mark, QUOTE, Digits4(|body|), kind, body, trailer, rest);
      Digits4Value(|body|);
      assert Take(payload + rest, |payload|) == payload && Drop(payload + rest, |payload|) == rest;
      CStringPadded(payload, BODY_BUFFER);
      PaddedNul(payload, BODY_BUFFER);
    case Beat(mark, length, kind, last) =>
      Header(mark, BEAT, length, kind, [], last, rest);
      assert [] + [last] + rest == [last] + rest;
      assert Drop([last] + rest, 1) == rest;
  }

  /** The header fields sit where the receiver looks for them. */
  lemma Header(mark: Byte, command: seq<Byte>, length: seq<Byte>, kind: seq<Byte>,
      body: seq<Byte>, last: Byte, rest: seq<Byte>)
    requires |command| == 4 && |length| == 4 && |kind| == 2
    ensures var stream := Layout(mark, command, length, kind, body, last) + rest;
            var head := Padded(Take(stream, HEADER), 12);
            head[1..5] == command && head[5..9] == length && Drop(stream, HEADER) == body + [last] + rest
  {
    var h := [mark] + command + length + kind;
    var stream := Layout(mark, command, length, kind, body, last) + rest;
    assert stream == h + (body + [last] + rest);
    assert Take(stream, HEADER) == h;
  }

  // ----- The protocol, byte by byte -----

  /** A C string is what stands before the first NUL. */
  lemma {:induction false} CStringMeans(s: seq<Byte>)
    ensures var c := CString(s);
            c <= s && 0 !in c && (|c| == |s| || s[|c|] == 0)
  {
    if s != [] && s[0] != 0 {
      CStringMeans(s[1..]);
      var c := CString(s[1..]);
      assert s == [s[0]] + s[1..];
      assert CString(s) == [s[0]] + c && c <= s[1..];
    }
  }

  /** A quote is a mark, "0201", its body length in four decimal digits, two bytes of kind, the body and a trailer. */
  lemma QuoteBytes(f: Frame)
    requires f.Quote? && |f.kind| == 2 && |f.body| + 1 < 2480
    ensures WellFormed(f)
    ensures var b := Encode(f);
            && |b| == 12 + |f.body| && b[0] == f.mark && b[1..5] == [48, 50, 48, 49]
            && (forall i :: 5 <= i < 9 ==> 48 <= b[i] <= 57)
            && 1000 * (b[5] as int - 48) + 100 * (b[6] as int - 48) + 10 * (b[7] as int - 48) + (b[8] as int - 48)
                 == |f.body|
            && b[9..11] == f.kind && b[11..11 + |f.body|] == f.body && b[11 + |f.body|] == f.trailer
  {
    Decimal(|f.body|);
  }

  /** A heartbeat is a mark, "0203" and seven more bytes. */
  lemma BeatBytes(f: Frame)
    requires f.Beat? && |f.length| == 4 && |f.kind| == 2
    ensures WellFormed(f)
    ensures var b := Encode(f);
            |b| == 12 && b[0] == f.mark && b[1..5] == [48, 50, 48, 51] && b[5..9] == f.length && b[9..11] == f.kind &&
            b[11] == f.last
  {
  }

  /** After a header that is neither a quote's nor a heartbeat's only the header is gone. */
  lemma OtherCommand(stream: seq<Byte>)
    requires |stream| >= 11 && stream[1..5] != [48, 50, 48, 49] && stream[1..5] != [48, 50, 48, 51]
    ensures Receive(stream) == (Unknown, stream[11..])
  {
    TakeHeader(stream);
  }

  /** A quote whose stated length does not fit the 2480 bytes of the buffer is read no further. */
  lemma TooLong(stream: seq<Byte>, n: nat)
    requires |stream| >= 11 && stream[1..5] == [48, 50, 48, 49] && n < 10000 && n + 1 > 2480
    requires stream[5..9] == Digits4(n)
    ensures Receive(stream) == (Undefined, stream[11..])
  {
    TakeHeader(stream);
    Digits4Value(n);
  }

  lemma TakeHeader(stream: seq<Byte>)
    requires |stream| >= 11
    ensures var head := Padded(Take(stream, HEADER), 12);
            head[1..5] == stream[1..5] && head[5..9] == stream[5..9] && Drop(stream, HEADER) == stream[11..]
  {
  }

  /** At the end of the stream nothing is received. */
  lemma EndOfStream(stream: seq<Byte>)
    requires |stream| < 5
    ensures Receive(stream) == (Unknown, [])
  {
    var head := Padded(Take(stream, HEADER), 12);
    assert head[4] == 0 && head[1..5][3] == 0;
  }

  /** Results of `n` successive calls, with the stream left after them. */
  function ReceiveMany(stream: seq<Byte>, n: nat): (seq<Result>, seq<Byte>)
    decreases n
  {
    if n == 0 then ([], stream)
    else
      var (first, rest) := Receive(stream);
      var (more, left) := ReceiveMany(rest, n - 1);
      ([first] + more, left)
  }

  function ExpectedAll(fs: seq<Frame>): seq<Result> {
    seq(|fs|, i requires 0 <= i < |fs| => Expected(fs[i]))
  }

  /** The receiver never loses the frame boundary: on any sequence of well-formed frames successive calls consume
      one frame each, in order, and leave what follows them. */
  lemma {:induction false} Synchronised(fs: seq<Frame>, tail: seq<Byte>)
    requires forall f :: f in fs ==> WellFormed(f)
    ensures ReceiveMany(EncodeAll(fs) + tail, |fs|) == (ExpectedAll(fs), tail)
  {
    hide Receive, Encode, Expected, WellFormed;
    if fs == [] {
      assert EncodeAll(fs) + tail == tail;
    } else {
      var rest := EncodeAll(fs[1..]) + tail;
      assert EncodeAll(fs) + tail == Encode(fs[0]) + rest;
      ReceiveFrame(fs[0], rest);
      Synchronised(fs[1..], tail);
      assert ExpectedAll(fs) == [Expected(fs[0])] + ExpectedAll(fs[1..]);
    }
  }

  // ----- What is sent on -----

  /** A message is sent on without its last byte; an empty one is not sent. */
  function Relayed(r: Result): seq<seq<Byte>> {
    if r.Message? && r.data != [] then [r.data[..|r.data| - 1]] else []
  }

  function RelayedAll(rs: seq<Result>): seq<seq<Byte>> {
    if rs == [] then [] else Relayed(rs[0]) + RelayedAll(rs[1..])
  }

  function Bodies(fs: seq<Frame>): seq<seq<Byte>> {
    if fs == [] then [] else (if fs[0].Quote? then [fs[0].body] else []) + Bodies(fs[1..])
  }

  /** A quote's body is sent on as it came exactly when neither the body nor the trailer holds a NUL. */
  lemma RelayedBody(f: Frame)
    requires f.Quote?
    ensures Relayed(Expected(f)) == [f.body] <==> 0 !in f.body && f.trailer != 0
  {
    var payload := f.body + [f.trailer];
    assert forall b :: b in payload <==> b in f.body || b == f.trailer;
    if 0 !in payload {
      NoNul(payload);
      assert payload[..|f.body|] == f.body;
    } else {
      ShorterThan(payload);
    }
  }

  lemma {:induction false} ShorterThan(s: seq<Byte>)
    requires 0 in s
    ensures |CString(s)| < |s|
  {
    if s[0] != 0 {
      ShorterThan(s[1..]);
    }
  }

  lemma {:induction false} RelaysAtMost(fs: seq<Frame>)
    ensures |RelayedAll(ExpectedAll(fs))| <= |Bodies(fs)|
  {
    if fs != [] {
      RelaysAtMost(fs[1..]);
      assert ExpectedAll(fs)[1..] == ExpectedAll(fs[1..]);
    }
  }

  /** Whatever heartbeats come between, exactly the bodies are sent on, in order, if and only if no quote holds a
      NUL. */
  lemma {:induction false} RelaysBodies(fs: seq<Frame>)
    ensures RelayedAll(ExpectedAll(fs)) == Bodies(fs) <==> forall f :: f in fs && f.Quote? ==> NulFree(f)
  {
    hide Expected, Relayed, NulFree;
    if fs != [] {
      RelaysBodies(fs[1..]);
      RelaysAtMost(fs[1..]);
      assert ExpectedAll(fs)[1..] == ExpectedAll(fs[1..]);
      RelaysOne(fs[0]);
      var head, rest := Relayed(Expected(fs[0])), RelayedAll(ExpectedAll(fs[1..]));
      assert RelayedAll(ExpectedAll(fs)) == head + rest;
      var body := if fs[0].Quote? then [fs[0].body] else [];
      SameParts(head, rest, body, Bodies(fs[1..]));
      assert forall f :: f in fs <==> f == fs[0] || f in fs[1..];
    }
  }

  predicate NulFree(f: Frame)
    requires f.Quote?
  {
    0 !in f.body && f.trailer != 0
  }

  lemma RelaysOne(f: Frame)
    ensures |Relayed(Expected(f))| <= if f.Quote? then 1 else 0
    ensures f.Quote? ==> (Relayed(Expected(f)) == [f.body] <==> NulFree(f))
  {
    if f.Quote? {
      RelayedBody(f);
    }
  }

  lemma SameParts(a: seq<seq<Byte>>, b: seq<seq<Byte>>, c: seq<seq<Byte>>, d: seq<seq<Byte>>)
    requires |a| <= |c| && |b| <= |d|
    ensures a + b == c + d <==> a == c && b == d
  {
    if a + b == c + d {
      assert |a| == |c| by {
        assert |a + b| == |c + d|;
      }
      assert a == (a + b)[..|a|] && b == (a + b)[|a|..];
    }
  }
}
