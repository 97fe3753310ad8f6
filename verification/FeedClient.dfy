/** The feed client over a socket that may deliver any number of bytes per call, be interrupted finitely often, and
    fail at any call. */
module FeedClient {
  import opened Bytes
  import opened FeedModel

  /** A connected socket: the bytes the peer will still send (then end of file), and those sent to it. `interrupts`
      bounds how often a call is interrupted; `failures` counts the calls on the open socket that failed otherwise. */
  class Socket {
    var incoming: seq<Byte>
    var outgoing: seq<Byte>
    var open: bool
    var interrupts: nat
    ghost var failures: nat

    constructor (incoming: seq<Byte>, interrupts: nat)
      ensures this.incoming == incoming && outgoing == [] && open
      ensures this.interrupts == interrupts && failures == 0
    {
      this.incoming, outgoing, open := incoming, [], true;
      this.interrupts, failures := interrupts, 0;
    }

    /** `read` into a buffer: any non-empty prefix of what is left, 0 at the end of file, or an error. */
    method Read(buf: array<Byte>, at: nat, max: nat) returns (n: int, eintr: bool)
      requires max > 0 && at + max <= buf.Length
      modifies this`incoming, this`interrupts, this`failures, buf
      ensures -1 <= n <= max && n <= |old(incoming)|
      ensures n > 0 ==> incoming == old(incoming)[n..] &&
                        buf[..] == old(buf[..])[..at] + old(incoming)[..n] + old(buf[..])[at + n..]
      ensures n <= 0 ==> incoming == old(incoming) && buf[..] == old(buf[..])
      ensures n == 0 ==> open && incoming == []
      ensures failures == old(failures) + if n < 0 && !eintr && open then 1 else 0
      ensures interrupts == old(interrupts) - if n < 0 && eintr then 1 else 0
    {
      n, eintr := -1, false;
      if !open {
        return;
      }
      var interrupted, failed: bool := *, *;
      if interrupts > 0 && interrupted {
        eintr, interrupts := true, interrupts - 1;
      } else if failed {
        failures := failures + 1;
      } else if incoming == [] {
        n := 0;
      } else {
        var k: nat :| 1 <= k <= max && k <= |incoming|;
        Memcpy(buf, at, incoming[..k]);
        n, incoming := k, incoming[k..];
      }
    }

    /** `write`: any non-empty prefix of what was offered is sent, or an error. */
    method Write(data: seq<Byte>) returns (n: int, eintr: bool)
      requires data != []
      modifies this`outgoing, this`interrupts, this`failures
      ensures -1 <= n <= |data| && n != 0
      ensures outgoing == old(outgoing) + if n < 0 then [] else data[..n]
      ensures failures == old(failures) + if n < 0 && !eintr && open then 1 else 0
      ensures interrupts == old(interrupts) - if n < 0 && eintr then 1 else 0
    {
      n, eintr := -1, false;
      if !open {
        return;
      }
      var interrupted, failed: bool := *, *;
      if interrupts > 0 && interrupted {
        eintr, interrupts := true, interrupts - 1;
      } else if failed {
        failures := failures + 1;
      } else {
        var k: nat :| 1 <= k <= |data|;
        n, outgoing := k, outgoing + data[..k];
      }
    }
  }

  method Memcpy(buf: array<Byte>, at: nat, data: seq<Byte>)
    requires at + |data| <= buf.Length
    modifies buf
    ensures buf[..] == old(buf[..])[..at] + data + old(buf[..])[at + |data|..]
  {
    forall i | 0 <= i < |data| {
      buf[at + i] := data[i];
    }
  }

  /** Copying the next bytes of a stream behind its first `at` bytes. */
  lemma Advance(stream: seq<Byte>, was: seq<Byte>, at: nat, m: nat)
    requires at + m <= |stream| && at + m <= |was|
    ensures var now := stream[..at] + was[at..];
            now[..at] + stream[at..at + m] + now[at + m..] == stream[..at + m] + was[at + m..]
    ensures stream[at..][m..] == stream[at + m..]
  {
  }

  /** Reads until `n` bytes have arrived, the stream ends (which closes the socket), or a read fails. However the
      bytes were fragmented, what arrived is the front of the stream, in order, and nothing else was consumed. */
  method NetReadn(s: Socket, buf: array<Byte>, n: nat) returns (ret: int, ghost k: nat)
    requires n <= buf.Length
    modifies s`incoming, s`open, s`interrupts, s`failures, buf
    ensures k <= n && k <= |old(s.incoming)|
    ensures buf[..] == old(s.incoming)[..k] + old(buf[..])[k..] && s.incoming == old(s.incoming)[k..]
    ensures s.failures >= old(s.failures) && (ret == k || (ret == -1 && (s.failures > old(s.failures) || !old(s.open))))
    ensures ret == k ==> k == n || (s.incoming == [] && !s.open)
    ensures s.open ==> old(s.open)
    ensures s.open == old(s.open) || s.incoming == []
    ensures k == n ==> ret == n && s.open == old(s.open)
  {
    ghost var stream, was := s.incoming, buf[..];
    var nleft: nat, ptr: nat := n, 0;
    assert stream[0..] == stream && stream[..0] + was[0..] == was;
    while nleft > 0
      invariant ptr + nleft == n && ptr <= |stream| && s.open == old(s.open) && s.failures == old(s.failures)
      invariant buf[..] == stream[..ptr] + was[ptr..] && s.incoming == stream[ptr..]
      decreases nleft, s.interrupts
    {
      var nread, eintr := ReadMore(s, buf, ptr, nleft, stream, was);
      if nread < 0 {
        if eintr {
          nread := 0;
        } else {
          return -1, ptr;
        }
      } else if nread == 0 {
        s.open := false;
        break;
      }
      nleft := nleft - nread;
      ptr := ptr + nread;
    }
    ret := n - nleft;
    k := ptr;
  }

  /** One call of `read` behind the bytes that have already arrived. */
  method ReadMore(s: Socket, buf: array<Byte>, ptr: nat, nleft: nat, ghost stream: seq<Byte>, ghost was: seq<Byte>)
    returns (nread: int, eintr: bool)
    requires nleft > 0 && ptr + nleft <= buf.Length == |was| && ptr <= |stream|
    requires buf[..] == stream[..ptr] + was[ptr..] && s.incoming == stream[ptr..]
    modifies s`incoming, s`interrupts, s`failures, buf
    ensures -1 <= nread <= nleft
    ensures var at := if nread < 0 then ptr else ptr + nread;
            at <= |stream| && buf[..] == stream[..at] + was[at..] && s.incoming == stream[at..]
    ensures nread == 0 ==> s.open && s.incoming == []
    ensures s.failures == old(s.failures) + if nread < 0 && !eintr && s.open then 1 else 0
    ensures s.interrupts == old(s.interrupts) - if nread < 0 && eintr then 1 else 0
  {
    nread, eintr := s.Read(buf, ptr, nleft);
    if nread > 0 {
      assert stream[ptr..][..nread] == stream[ptr..ptr + nread];
      Advance(stream, was, ptr, nread);
    }
  }

  /** Writes all `n` bytes, in order, or reports failure having written a prefix of them. */
  method NetWriten(s: Socket, buf: array<Byte>, n: nat) returns (ret: int, ghost k: nat)
    requires n <= buf.Length
    modifies s`outgoing, s`interrupts, s`failures
    ensures k <= n && s.outgoing == old(s.outgoing) + buf[..k]
    ensures s.failures >= old(s.failures)
    ensures (ret == n && k == n) || (ret == -1 && (s.failures > old(s.failures) || !s.open))
  {
    var nleft: nat, ptr: nat := n, 0;
    while nleft > 0
      invariant ptr + nleft == n && s.outgoing == old(s.outgoing) + buf[..ptr] && s.failures == old(s.failures)
      decreases nleft, s.interrupts
    {
      var nwritten, eintr := s.Write(buf[ptr..n]);
      if nwritten <= 0 {
        if nwritten < 0 && eintr {
          nwritten := 0;
        } else {
          return -1, ptr;
        }
      }
      assert buf[..ptr] + buf[ptr..n][..nwritten] == buf[..ptr + nwritten];
      nleft := nleft - nwritten;
      ptr := ptr + nwritten;
    }
    ret, k := n, n;
  }

  /** What is left of a stream after some bytes from its front. */
  predicate IsRest(rest: seq<Byte>, stream: seq<Byte>) {
    |rest| <= |stream| && rest == stream[|stream| - |rest|..]
  }

  /** Reads `n` bytes into a zeroed buffer, whose former bytes past those that arrive stay zero. */
  method ReadZeroed(s: Socket, buf: array<Byte>, n: nat)
    requires n <= buf.Length && buf[..] == Padded([], buf.Length) && (s.open || s.incoming == [])
    modifies s`incoming, s`open, s`interrupts, s`failures, buf
    ensures s.failures >= old(s.failures) && IsRest(s.incoming, old(s.incoming))
    ensures s.failures == old(s.failures) ==>
              buf[..] == Padded(Take(old(s.incoming), n), buf.Length) && s.incoming == Drop(old(s.incoming), n)
    ensures s.open || s.incoming == []
    ensures s.failures == old(s.failures) && n > 0 && old(s.open) ==> (s.open <==> |old(s.incoming)| >= n)
  {
    var ret, k := NetReadn(s, buf, n);
    if s.failures == old(s.failures) {
      assert old(s.incoming)[..k] == Take(old(s.incoming), n);
      PaddedRest(old(s.incoming)[..k], buf.Length);
    }
  }

  lemma PaddedRest(s: seq<Byte>, size: nat)
    requires |s| <= size
    ensures s + Padded([], size)[|s|..] == Padded(s, size)
  {
  }

  /** One frame. Unless a call on the socket fails, the outcome is `Receive` of the stream, however it was fragmented.
      After a failure the stream has still only been read from its front. */
  method RecvData(s: Socket) returns (r: Result)
    requires s.open || s.incoming == []
    modifies s`incoming, s`open, s`interrupts, s`failures
    ensures s.failures >= old(s.failures) && IsRest(s.incoming, old(s.incoming))
    ensures s.failures == old(s.failures) ==> (r, s.incoming) == Receive(old(s.incoming))
    ensures s.open || s.incoming == []
  {
    hide Padded, Take, Drop, CString, Atoi;
    var headBuffer := new Byte[12](_ => 0);
    ZeroPadded(headBuffer[..]);
    ReadZeroed(s, headBuffer, 11);
    var head := headBuffer[..];
    var messageLen := Atoi(CString(head[5..9]));
    if head[1..5] == QUOTE {
      if messageLen + 1 < 0 || messageLen + 1 > BODY_BUFFER {
        return Undefined;
      }
      var messageBody := new Byte[BODY_BUFFER](_ => 0);
      ZeroPadded(messageBody[..]);
      ReadZeroed(s, messageBody, messageLen + 1);
      var body := messageBody[..];
      r := if 0 in body then Message(CString(body)) else Undefined;
    } else if head[1..5] == BEAT {
      r := Heartbeat;
      SkipByte(s, headBuffer);
    } else {
      r := Unknown;
    }
  }

  lemma ZeroPadded(s: seq<Byte>)
    requires forall i :: 0 <= i < |s| ==> s[i] == 0
    ensures s == Padded([], |s|)
  {
  }

  /** The twelfth byte of a heartbeat, read over the first of its header. */
  method SkipByte(s: Socket, headBuffer: array<Byte>)
    requires headBuffer.Length == 12 && (s.open || s.incoming == [])
    modifies s`incoming, s`open, s`interrupts, s`failures, headBuffer
    ensures s.failures >= old(s.failures) && IsRest(s.incoming, old(s.incoming))
    ensures s.failures == old(s.failures) ==> s.incoming == Drop(old(s.incoming), 1)
    ensures s.open || s.incoming == []
  {
    var ret, k := NetReadn(s, headBuffer, 1);
  }

  const LOGIN_KIND: seq<Byte> := [48, 50]
  const ACCOUNT: seq<Byte> := [80, 77, 69, 67, 49, 56, 48]

  /** A reply of which less than five bytes arrived does not carry the accepting command. */
  lemma AcceptedBytes(reply: seq<Byte>)
    ensures Padded(Take(reply, 12), 12)[1..5] == ACCEPTED <==> |reply| >= 5 && reply[1..5] == [48, 50, 48, 48]
  {
    var b := Padded(Take(reply, 12), 12);
    if |reply| >= 5 {
      assert b[1..5] == reply[1..5];
    } else {
      assert b[1..5][3] == 0;
    }
  }

  /** Copying right behind the part of a zeroed buffer that is already filled. */
  method Append(buf: array<Byte>, ghost front: seq<Byte>, at: nat, data: seq<Byte>)
    requires at == |front| && at + |data| <= buf.Length && buf[..] == Padded(front, buf.Length)
    modifies buf
    ensures buf[..] == Padded(front + data, buf.Length)
  {
    Memcpy(buf, at, data);
  }

  method FillLogin(loginBuffer: array<Byte>)
    requires loginBuffer.Length == 19 && loginBuffer[..] == Padded([], 19)
    modifies loginBuffer
    ensures loginBuffer[..] == Layout(255, LOGIN, Digits4(|ACCOUNT|), LOGIN_KIND, ACCOUNT, 0)
  {
    ghost var mark: seq<Byte> := [255];
    var length: seq<Byte> := [48, 48, 48, 55];
    Append(loginBuffer, [], 0, [255]);
    Append(loginBuffer, mark, 1, LOGIN);
    Append(loginBuffer, mark + LOGIN, 5, length);
    Append(loginBuffer, mark + LOGIN + length, 9, LOGIN_KIND);
    Append(loginBuffer, mark + LOGIN + length + LOGIN_KIND, 11, ACCOUNT);
    assert length == Digits4(|ACCOUNT|);
  }

  lemma LoginBytes()
    ensures Layout(255, LOGIN, Digits4(|ACCOUNT|), LOGIN_KIND, ACCOUNT, 0) ==
            [255, 48, 50, 48, 52, 48, 48, 48, 55, 48, 50, 80, 77, 69, 67, 49, 56, 48, 0]
  {
  }

  /** The 19 login bytes are a frame of the feed's own layout, with the account as its 7-byte body; login succeeds
      exactly when the 12-byte reply carries the accepting command. */
  method VerifyLogin(s: Socket) returns (ok: bool)
    requires s.open
    modifies s
    ensures s.failures >= old(s.failures) && IsRest(s.incoming, old(s.incoming))
    ensures s.failures == old(s.failures) ==>
              && s.outgoing == old(s.outgoing) + Layout(255, LOGIN, Digits4(|ACCOUNT|), LOGIN_KIND, ACCOUNT, 0)
              && s.outgoing == old(s.outgoing) +
                   [255, 48, 50, 48, 52, 48, 48, 48, 55, 48, 50, 80, 77, 69, 67, 49, 56, 48, 0]
              && (ok <==> |old(s.incoming)| >= 5 && old(s.incoming)[1..5] == [48, 50, 48, 48])
              && s.incoming == (if |old(s.incoming)| >= 12 then old(s.incoming)[12..] else [])
              && (s.open <==> |old(s.incoming)| >= 12)
    ensures s.open || s.incoming == []
  {
    var loginBuffer := new Byte[19](_ => 0);
    assert loginBuffer[..] == Padded([], 19);
    FillLogin(loginBuffer);
    assert loginBuffer[..19] == loginBuffer[..];
    var writeCount, sent := NetWriten(s, loginBuffer, 19);
    var recvLogin := new Byte[12](_ => 0);
    ZeroPadded(recvLogin[..]);
    ReadZeroed(s, recvLogin, 12);
    AcceptedBytes(old(s.incoming));
    LoginBytes();
    ok := recvLogin[..][1..5] == ACCEPTED;
  }

  /** The client's endless main loop, for any number of turns (or until the language no longer says what happens):
      unless a call on the socket fails, what it sends on is determined by the stream alone. */
  method Pump(s: Socket, turns: nat) returns (results: seq<Result>, sent: seq<seq<Byte>>)
    requires s.open || s.incoming == []
    modifies s
    ensures s.failures >= old(s.failures) && |results| <= turns
    ensures s.failures == old(s.failures) ==> (results, s.incoming) == ReceiveMany(old(s.incoming), |results|)
    ensures sent == RelayedAll(results)
    ensures |results| < turns ==> results != [] && results[|results| - 1] == Undefined
  {
    hide Receive, ReceiveMany, RelayedAll;
    ReceiveNone(s.incoming);
    results, sent := [], [];
    var i := 0;
    while i < turns && (results == [] || results[|results| - 1] != Undefined)
      invariant s.open || s.incoming == []
      invariant |results| == i <= turns
      invariant s.failures >= old(s.failures)
      invariant s.failures == old(s.failures) ==> (results, s.incoming) == ReceiveMany(old(s.incoming), i)
      invariant sent == RelayedAll(results)
    {
      var str: seq<Byte> := [];
      var before := s.incoming;
      var r := RecvData(s);
      ReceiveOneMore(old(s.incoming), i);
      if r.Message? {
        str := r.data;
      }
      RelayedAppend(results, r);
      results := results + [r];
      if str != [] {
        sent := sent + [str[..|str| - 1]];
      }
      i := i + 1;
    }
  }

  lemma ReceiveNone(stream: seq<Byte>)
    ensures ReceiveMany(stream, 0) == ([], stream) && RelayedAll([]) == []
  {
  }

  lemma {:induction false} ReceiveOneMore(stream: seq<Byte>, n: nat)
    ensures var (rs, rest) := ReceiveMany(stream, n);
            var (r, left) := Receive(rest);
            ReceiveMany(stream, n + 1) == (rs + [r], left)
    decreases n
  {
    if n == 0 {
      var (r, left) := Receive(stream);
      assert ReceiveMany(left, 0) == ([], left);
      assert [r] + [] == [] + [r];
    } else {
      var (first, rest) := Receive(stream);
      ReceiveOneMore(rest, n - 1);
      var (more, after) := ReceiveMany(rest, n - 1);
      var (r, left) := Receive(after);
      assert [first] + (more + [r]) == [first] + more + [r];
    }
  }

  lemma {:induction false} RelayedAppend(rs: seq<Result>, r: Result)
    ensures RelayedAll(rs + [r]) == RelayedAll(rs) + Relayed(r)
  {
    if rs == [] {
      assert (rs + [r])[1..] == [];
    } else {
      assert (rs + [r])[1..] == rs[1..] + [r];
      RelayedAppend(rs[1..], r);
    }
  }

  /** A whole session: an accepting reply, then any well-formed frames, in whatever pieces they arrive. Every frame is
      received, what is sent on is what the frames say, and the bytes after them are left alone, unless a call on the
      socket fails. */
  method Session(s: Socket, turns: nat, ghost reply: seq<Byte>, ghost fs: seq<Frame>, ghost tail: seq<Byte>)
    returns (sent: seq<seq<Byte>>)
    requires s.open && turns == |fs| && forall f :: f in fs ==> WellFormed(f)
    requires s.incoming == reply + (EncodeAll(fs) + tail) && |reply| == 12 && reply[1..5] == [48, 50, 48, 48]
    modifies s
    ensures s.failures == old(s.failures) ==> sent == RelayedAll(ExpectedAll(fs)) && s.incoming == tail
    ensures s.failures == old(s.failures) ==> (sent == Bodies(fs) <==> forall f :: f in fs && f.Quote? ==> NulFree(f))
  {
    ghost var stream := EncodeAll(fs) + tail;
    assert Take(s.incoming, 12) == reply == Take(reply, 12) && Drop(s.incoming, 12) == stream;
    var logFlag := VerifyLogin(s);
    sent := [];
    if logFlag {
      var results;
      results, sent := Pump(s, turns);
      PrefixReceived(fs, tail, |results|);
      Synchronised(fs, tail);
      assert fs[..|fs|] == fs;
    }
    RelaysBodies(fs);
  }

  lemma PrefixReceived(fs: seq<Frame>, tail: seq<Byte>, n: nat)
    requires n <= |fs| && forall f :: f in fs ==> WellFormed(f)
    ensures ReceiveMany(EncodeAll(fs) + tail, n).0 == ExpectedAll(fs[..n])
    ensures n > 0 ==> ExpectedAll(fs[..n])[n - 1] != Undefined
  {
    hide Encode, EncodeAll, ReceiveMany, Receive;
    EncodeSplit(fs, n);
    Synchronised(fs[..n], EncodeAll(fs[n..]) + tail);
    assert EncodeAll(fs[..n]) + (EncodeAll(fs[n..]) + tail) == EncodeAll(fs) + tail;
  }

  lemma {:induction false} EncodeSplit(fs: seq<Frame>, n: nat)
    requires n <= |fs| && forall f :: f in fs ==> WellFormed(f)
    ensures EncodeAll(fs) == EncodeAll(fs[..n]) + EncodeAll(fs[n..])
  {
    hide Encode, WellFormed;
    if n > 0 {
      EncodeSplit(fs[1..], n - 1);
      assert fs[1..][..n - 1] == fs[..n][1..] && fs[1..][n - 1..] == fs[n..];
    } else {
      assert fs[0..] == fs;
    }
  }
}
