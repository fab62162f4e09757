/**
  The server end of the named pipe.  The Win32 plumbing (overlapped I/O, event
  waits with a 5000 ms timeout, handle management) is replaced by an abstract
  stream: `inbox` holds the bytes the client has sent and the server has not yet
  read, `outbox` the bytes the server has written, and each overlapped read or
  write step ends as the next entry of a completion script says: with a transfer
  of at most `grant` bytes, or with an error or a timeout.  An exhausted script
  is a wait that timed out.
*/
module Pipe {
  import opened Wrappers
  import opened Wire

  /** How one overlapped read or write step ends. */
  datatype Completion = Completed(grant: nat) | Failed

  /** The states `CNamedPipeServer` reports. */
  datatype State = Error | Waiting | Connected

  /** What the pending ConnectNamedPipe has done by the time `Connect` polls it. */
  datatype ConnectEvent = NotSignalled | Succeeded | Broken

  /** `after` is `before` followed by some prefix of `bytes`. */
  ghost predicate WrotePrefix(before: Bytes, after: Bytes, bytes: Bytes)
  {
    |before| <= |after| <= |before| + |bytes| && after == before + bytes[..|after| - |before|]
  }

  /** A write that went out whole, followed by a partial one, is a partial write of both. */
  lemma WrotePrefixThen(before: Bytes, mid: Bytes, after: Bytes, a: Bytes, b: Bytes)
    requires mid == before + a
    requires WrotePrefix(mid, after, b)
    ensures WrotePrefix(before, after, a + b)
    ensures after == before + (a + b) <==> after == mid + b
  {
    assert (a + b)[..|after| - |before|] == a + b[..|after| - |mid|];
  }

  /** A write that stopped short leaves the rest unwritten. */
  lemma WrotePrefixStopped(before: Bytes, after: Bytes, a: Bytes, b: Bytes)
    requires WrotePrefix(before, after, a) && after != before + a
    ensures WrotePrefix(before, after, a + b)
    ensures after != before + (a + b)
  {
    assert (a + b)[..|after| - |before|] == a[..|after| - |before|];
    if b == [] {
      assert a + b == a;
    } else {
      assert |after| < |before + (a + b)|;
    }
  }

  function MinOf(a: nat, b: nat): nat { if a < b then a else b }

  /**
    Whether the overlapped read loop gets the `remaining` bytes it wants out of
    a stream holding `available`: a failed step or a timed-out wait (the script
    has run out) ends it with false, and each completed step moves at most its
    grant, the bytes still wanted and the bytes there.
  */
  function ReadSucceeds(script: seq<Completion>, available: nat, remaining: nat): bool
    decreases |script|
  {
    if script == [] || script[0].Failed? then false
    else
      var n := MinOf(MinOf(script[0].grant, remaining), available);
      remaining == n || ReadSucceeds(script[1..], available - n, remaining - n)
  }

  /** The same for the overlapped write loop, which moves at most the grant each step. */
  function WriteSucceeds(script: seq<Completion>, remaining: nat): bool
    decreases |script|
  {
    if script == [] || script[0].Failed? then false
    else
      var n := MinOf(script[0].grant, remaining);
      remaining == n || WriteSucceeds(script[1..], remaining - n)
  }

  /** The script left once the read loop for `remaining` bytes has ended, however it ended. */
  function ReadLeft(script: seq<Completion>, available: nat, remaining: nat): seq<Completion>
    decreases |script|
  {
    if script == [] then []
    else if script[0].Failed? then script[1..]
    else
      var n := MinOf(MinOf(script[0].grant, remaining), available);
      if remaining == n then script[1..] else ReadLeft(script[1..], available - n, remaining - n)
  }

  /** The same for the write loop. */
  function WriteLeft(script: seq<Completion>, remaining: nat): seq<Completion>
    decreases |script|
  {
    if script == [] then []
    else if script[0].Failed? then script[1..]
    else
      var n := MinOf(script[0].grant, remaining);
      if remaining == n then script[1..] else WriteLeft(script[1..], remaining - n)
  }

  /**
    Whether a compressed unsigned 32-bit value arrives out of `bs`: its first
    byte, and, when that byte is the marker 255, the four bytes after it.
  */
  ghost predicate CompressedUInt32Arrives(script: seq<Completion>, bs: Bytes)
  {
    && ReadSucceeds(script, |bs|, 1) && 1 <= |bs|
    && (bs[0] < 255 || ReadSucceeds(ReadLeft(script, |bs|, 1), |bs| - 1, 4))
  }

  /** The script left once a compressed unsigned 32-bit value has been read, or has failed to arrive. */
  function CompressedUInt32ReadLeft(script: seq<Completion>, bs: Bytes): seq<Completion>
  {
    var first := ReadLeft(script, |bs|, 1);
    if ReadSucceeds(script, |bs|, 1) && 1 <= |bs| && bs[0] == 255 then ReadLeft(first, |bs| - 1, 4) else first
  }

  /** The same for the compressed signed form, whose marker is the signed byte 127. */
  ghost predicate CompressedInt32Arrives(script: seq<Completion>, bs: Bytes)
  {
    && ReadSucceeds(script, |bs|, 1) && 1 <= |bs|
    && (bs[0] != 127 || ReadSucceeds(ReadLeft(script, |bs|, 1), |bs| - 1, 4))
  }

  /** Whether a string arrives: its compressed length, then that many bytes. */
  ghost predicate StringArrives(script: seq<Completion>, bs: Bytes)
  {
    && CompressedUInt32Arrives(script, bs)
    && match DecodeCompressedUInt32(bs)
       case None => false
       case Some((n, rest)) => ReadSucceeds(CompressedUInt32ReadLeft(script, bs), |rest|, n)
  }

  /** Whether a compressed unsigned 32-bit value goes out: one byte, then four more above 254. */
  ghost predicate CompressedUInt32Sent(script: seq<Completion>, v: uint32)
  {
    WriteSucceeds(script, 1) && (v <= 254 || WriteSucceeds(WriteLeft(script, 1), 4))
  }

  /** The script left once a compressed unsigned 32-bit value has been written, or has failed to. */
  function CompressedUInt32WriteLeft(script: seq<Completion>, v: uint32): seq<Completion>
  {
    if WriteSucceeds(script, 1) && 254 < v then WriteLeft(WriteLeft(script, 1), 4) else WriteLeft(script, 1)
  }

  /** Whether a compressed signed 32-bit value goes out: one byte, then four more outside -128..126. */
  ghost predicate CompressedInt32Sent(script: seq<Completion>, v: int32)
  {
    WriteSucceeds(script, 1) && (-128 <= v <= 126 || WriteSucceeds(WriteLeft(script, 1), 4))
  }

  /** Whether a string goes out: its compressed length, then its (truncated) bytes. */
  ghost predicate StringSent(script: seq<Completion>, s: Bytes)
  {
    var n := |s| % UINT32_LIMIT;
    CompressedUInt32Sent(script, n) && WriteSucceeds(CompressedUInt32WriteLeft(script, n), n)
  }

  /** A read succeeds only when the bytes it wants are there. */
  lemma {:induction false} ReadNeedsBytes(script: seq<Completion>, available: nat, remaining: nat)
    requires ReadSucceeds(script, available, remaining)
    ensures remaining <= available
    decreases |script|
  {
    var n := MinOf(MinOf(script[0].grant, remaining), available);
    if remaining != n {
      ReadNeedsBytes(script[1..], available - n, remaining - n);
    }
  }

  /** Every step completing with some progress, and enough steps, make a read succeed when the bytes are there. */
  lemma {:induction false} ReadProgresses(script: seq<Completion>, available: nat, remaining: nat)
    requires forall i :: 0 <= i < |script| ==> script[i].Completed? && script[i].grant > 0
    requires 0 < |script| && remaining <= |script| && remaining <= available
    ensures ReadSucceeds(script, available, remaining)
    decreases |script|
  {
    var n := MinOf(MinOf(script[0].grant, remaining), available);
    if remaining != n {
      ReadProgresses(script[1..], available - n, remaining - n);
    }
  }

  /** Every step completing with some progress, and enough steps, make a write succeed. */
  lemma {:induction false} WriteProgresses(script: seq<Completion>, remaining: nat)
    requires forall i :: 0 <= i < |script| ==> script[i].Completed? && script[i].grant > 0
    requires 0 < |script| && remaining <= |script|
    ensures WriteSucceeds(script, remaining)
    decreases |script|
  {
    var n := MinOf(script[0].grant, remaining);
    if remaining != n {
      WriteProgresses(script[1..], remaining - n);
    }
  }

  /** A write stops short when a step fails before the bytes are out. */
  lemma {:induction false} WriteFailsAtFailure(script: seq<Completion>, remaining: nat, k: nat)
    requires k < |script| && script[k].Failed?
    requires forall i :: 0 <= i < k ==> script[i].Completed? && script[i].grant == 0
    ensures remaining > 0 ==> !WriteSucceeds(script, remaining)
    decreases k
  {
    if k > 0 && remaining > 0 {
      WriteFailsAtFailure(script[1..], remaining, k - 1);
    }
  }

  /** A string arrives only when the whole of it is there: the length and every byte it announces. */
  lemma StringArrivesNeedsBytes(script: seq<Completion>, bs: Bytes)
    requires StringArrives(script, bs)
    ensures DecodeString(bs).Some?
  {
    if bs[0] == 255 {
      ReadNeedsBytes(ReadLeft(script, |bs|, 1), |bs| - 1, 4);
    }
    var (n, rest) := DecodeCompressedUInt32(bs).value;
    ReadNeedsBytes(CompressedUInt32ReadLeft(script, bs), |rest|, n);
  }

  class PipeServer {
    var state: State
    var inbox: Bytes
    var outbox: Bytes
    var readCompletions: seq<Completion>
    var writeCompletions: seq<Completion>
    var flushResults: seq<bool>
    /** Everything the client sends over this connection, read or not. */
    ghost const stream: Bytes

    /** What is left to read is always the tail of the client's stream. */
    ghost predicate Intact()
      reads this`inbox
    {
      Consumed(stream, inbox)
    }

    /**
      Creating the pipe and issuing ConnectNamedPipe ends in `initial`: Waiting when
      the connect is pending, Connected when a client was already there, Error otherwise.
    */
    constructor (initial: State, received: Bytes, readScript: seq<Completion>, writeScript: seq<Completion>, flushScript: seq<bool>)
      ensures state == initial && inbox == received && outbox == [] && Intact()
      ensures readCompletions == readScript && writeCompletions == writeScript && flushResults == flushScript
    {
      state := initial;
      stream := received;
      inbox := received;
      outbox := [];
      readCompletions := readScript;
      writeCompletions := writeScript;
      flushResults := flushScript;
    }

    /** Polls a pending connect: only a Waiting pipe changes state, and only once the event is signalled. */
    method Connect(event: ConnectEvent) returns (s: State)
      modifies this`state
      ensures s == state
      ensures old(state) == Waiting && event == Succeeded ==> state == Connected
      ensures old(state) == Waiting && event == Broken ==> state == Error
      ensures old(state) != Waiting || event == NotSignalled ==> state == old(state)
    {
      if state == Waiting {
        if event != NotSignalled {
          if event == Broken {
            state := Error;
          } else {
            state := Connected;
          }
        }
      }
      s := state;
    }

    // -------------------------------------------------------------------------
    // The transfer loops

    /**
      Reads exactly `length` bytes, one overlapped step at a time.  It succeeds only
      once all of them have arrived; any failed or timed-out step ends it with false.
    */
    method ReadBytes(length: uint32) returns (ok: bool, data: Bytes)
      modifies this`inbox, this`readCompletions
      ensures ok <==> ReadSucceeds(old(readCompletions), |old(inbox)|, length)
      ensures readCompletions == ReadLeft(old(readCompletions), |old(inbox)|, length)
      ensures ok ==> DecodeRaw(old(inbox), length) == Some((data, inbox))
      ensures old(inbox) == data + inbox && |data| <= length
      ensures !ok ==> |data| < length || length == 0
      requires Intact()
      ensures Intact() && Consumed(old(inbox), inbox)
    {
      var offset: nat := 0;
      var remaining: nat := length;
      data := [];
      ghost var original := inbox;
      ghost var outcome := ReadSucceeds(readCompletions, |inbox|, length);
      ghost var left := ReadLeft(readCompletions, |inbox|, length);
      while true
        invariant offset + remaining == length
        invariant offset <= |original| && data == original[..offset] && inbox == original[offset..]
        invariant ReadSucceeds(readCompletions, |inbox|, remaining) == outcome
        invariant ReadLeft(readCompletions, |inbox|, remaining) == left
        invariant remaining == 0 ==> offset == 0
        decreases |readCompletions|
      {
        if readCompletions == [] {
          return false, data;
        }
        var step := readCompletions[0];
        readCompletions := readCompletions[1..];
        if step.Failed? {
          return false, data;
        }
        var n := MinOf(MinOf(step.grant, remaining), |inbox|);
        data := data + inbox[..n];
        inbox := inbox[n..];
        offset := offset + n;
        remaining := remaining - n;
        if remaining == 0 {
          break;
        }
      }
      assert DecodeRaw(original, length).value.0 == data;
      assert original == data + inbox;
      ok := true;
    }

    /**
      Writes `bytes` one overlapped step at a time; on success all of them were
      written, and in any case what was written is a prefix of them.
    */
    method WriteBytes(bytes: Bytes) returns (ok: bool)
      requires |bytes| < UINT32_LIMIT
      modifies this`outbox, this`writeCompletions
      ensures WrotePrefix(old(outbox), outbox, bytes)
      ensures ok ==> outbox == old(outbox) + bytes
      ensures !ok && bytes != [] ==> |outbox| < |old(outbox)| + |bytes|
      ensures ok <==> WriteSucceeds(old(writeCompletions), |bytes|)
      ensures writeCompletions == WriteLeft(old(writeCompletions), |bytes|)
    {
      var offset: nat := 0;
      var remaining: nat := |bytes|;
      ghost var original := outbox;
      ghost var outcome := WriteSucceeds(writeCompletions, |bytes|);
      ghost var left := WriteLeft(writeCompletions, |bytes|);
      while true
        invariant offset + remaining == |bytes|
        invariant outbox == original + bytes[..offset]
        invariant bytes != [] ==> remaining > 0
        invariant WriteSucceeds(writeCompletions, remaining) == outcome
        invariant WriteLeft(writeCompletions, remaining) == left
        decreases |writeCompletions|
      {
        if writeCompletions == [] {
          return false;
        }
        var step := writeCompletions[0];
        writeCompletions := writeCompletions[1..];
        if step.Failed? {
          return false;
        }
        var n := MinOf(step.grant, remaining);
        outbox := outbox + bytes[offset..offset + n];
        assert bytes[..offset] + bytes[offset..offset + n] == bytes[..offset + n];
        offset := offset + n;
        remaining := remaining - n;
        if remaining == 0 {
          break;
        }
      }
      assert bytes[..offset] == bytes;
      ok := true;
    }

    /** FlushFileBuffers: waits until the client has read everything; it may fail. */
    method Flush() returns (ok: bool)
      modifies this`flushResults
      ensures ok <==> old(flushResults) != [] && old(flushResults)[0]
      ensures flushResults == if old(flushResults) == [] then [] else old(flushResults)[1..]
    {
      if flushResults == [] {
        ok := false;
      } else {
        ok := flushResults[0];
        flushResults := flushResults[1..];
      }
    }

    // -------------------------------------------------------------------------
    // Typed reads

    method ReadBoolean() returns (ok: bool, value: bool)
      modifies this`inbox, this`readCompletions
      ensures ok ==> DecodeBoolean(old(inbox)) == Some((value, inbox))
      ensures !ok ==> BrokeOff(old(inbox), inbox, DecodeBoolean(old(inbox)))
      ensures ok <==> ReadSucceeds(old(readCompletions), |old(inbox)|, 1)
      ensures readCompletions == ReadLeft(old(readCompletions), |old(inbox)|, 1)
      requires Intact()
      ensures Intact()
    {
      var data;
      ok, data := ReadBytes(1);
      if !ok {
        return false, false;
      }
      value := data[0] != 0;
    }

    method ReadByte() returns (ok: bool, value: uint8)
      modifies this`inbox, this`readCompletions
      ensures ok ==> DecodeByte(old(inbox)) == Some((value, inbox))
      ensures !ok ==> BrokeOff(old(inbox), inbox, DecodeByte(old(inbox)))
      ensures ok <==> ReadSucceeds(old(readCompletions), |old(inbox)|, 1)
      ensures readCompletions == ReadLeft(old(readCompletions), |old(inbox)|, 1)
      requires Intact()
      ensures Intact()
    {
      var data;
      ok, data := ReadBytes(1);
      if !ok {
        return false, 0;
      }
      value := data[0];
    }

    method ReadSByte() returns (ok: bool, value: int8)
      modifies this`inbox, this`readCompletions
      ensures ok ==> DecodeSByte(old(inbox)) == Some((value, inbox))
      ensures !ok ==> BrokeOff(old(inbox), inbox, DecodeSByte(old(inbox)))
      ensures ok <==> ReadSucceeds(old(readCompletions), |old(inbox)|, 1)
      ensures readCompletions == ReadLeft(old(readCompletions), |old(inbox)|, 1)
      requires Intact()
      ensures Intact()
    {
      var data;
      ok, data := ReadBytes(1);
      if !ok {
        return false, 0;
      }
      value := if data[0] < 0x80 then data[0] else data[0] as int - 0x100;
    }

    method ReadInt16() returns (ok: bool, value: int16)
      modifies this`inbox, this`readCompletions
      ensures ok ==> DecodeInt16(old(inbox)) == Some((value, inbox))
      ensures !ok ==> BrokeOff(old(inbox), inbox, DecodeInt16(old(inbox)))
      ensures ok <==> ReadSucceeds(old(readCompletions), |old(inbox)|, 2)
      ensures readCompletions == ReadLeft(old(readCompletions), |old(inbox)|, 2)
      requires Intact()
      ensures Intact()
    {
      var data;
      ok, data := ReadBytes(2);
      if ok {
        Pow256Values();
        var u: int := DecodeLE(data);
        value := if u < 0x8000 then u else u - 0x1_0000;
      } else {
        value := 0;
      }
    }

    method ReadUInt32() returns (ok: bool, value: uint32)
      modifies this`inbox, this`readCompletions
      ensures ok ==> DecodeUInt32(old(inbox)) == Some((value, inbox))
      ensures !ok ==> BrokeOff(old(inbox), inbox, DecodeUInt32(old(inbox)))
      ensures ok <==> ReadSucceeds(old(readCompletions), |old(inbox)|, 4)
      ensures readCompletions == ReadLeft(old(readCompletions), |old(inbox)|, 4)
      requires Intact()
      ensures Intact()
    {
      var data;
      ok, data := ReadBytes(4);
      if ok {
        Pow256Values();
        value := DecodeLE(data);
      } else {
        value := 0;
      }
    }

    method ReadInt32() returns (ok: bool, value: int32)
      modifies this`inbox, this`readCompletions
      ensures ok ==> DecodeInt32(old(inbox)) == Some((value, inbox))
      ensures !ok ==> BrokeOff(old(inbox), inbox, DecodeInt32(old(inbox)))
      ensures ok <==> ReadSucceeds(old(readCompletions), |old(inbox)|, 4)
      ensures readCompletions == ReadLeft(old(readCompletions), |old(inbox)|, 4)
      requires Intact()
      ensures Intact()
    {
      var data;
      ok, data := ReadBytes(4);
      if ok {
        Pow256Values();
        var u: int := DecodeLE(data);
        value := if u < 0x8000_0000 then u else u - 0x1_0000_0000;
      } else {
        value := 0;
      }
    }

    method ReadUInt64() returns (ok: bool, value: uint64)
      modifies this`inbox, this`readCompletions
      ensures ok ==> DecodeUInt64(old(inbox)) == Some((value, inbox))
      ensures !ok ==> BrokeOff(old(inbox), inbox, DecodeUInt64(old(inbox)))
      ensures ok <==> ReadSucceeds(old(readCompletions), |old(inbox)|, 8)
      ensures readCompletions == ReadLeft(old(readCompletions), |old(inbox)|, 8)
      requires Intact()
      ensures Intact()
    {
      var data;
      ok, data := ReadBytes(8);
      if ok {
        Pow256Values();
        value := DecodeLE(data);
      } else {
        value := 0;
      }
    }

    method ReadSingle() returns (ok: bool, value: Single)
      modifies this`inbox, this`readCompletions
      ensures ok ==> DecodeSingle(old(inbox)) == Some((value, inbox))
      ensures !ok ==> BrokeOff(old(inbox), inbox, DecodeSingle(old(inbox)))
      ensures ok <==> ReadSucceeds(old(readCompletions), |old(inbox)|, 4)
      ensures readCompletions == ReadLeft(old(readCompletions), |old(inbox)|, 4)
      requires Intact()
      ensures Intact()
    {
      var data;
      ok, data := ReadBytes(4);
      value := if ok then data else [0, 0, 0, 0];
    }

    method ReadCompressedUInt32() returns (ok: bool, value: uint32)
      modifies this`inbox, this`readCompletions
      ensures ok ==> DecodeCompressedUInt32(old(inbox)) == Some((value, inbox))
      ensures !ok ==> BrokeOff(old(inbox), inbox, DecodeCompressedUInt32(old(inbox)))
      ensures ok <==> CompressedUInt32Arrives(old(readCompletions), old(inbox))
      ensures readCompletions == CompressedUInt32ReadLeft(old(readCompletions), old(inbox))
      requires Intact()
      ensures Intact()
    {
      var b;
      ok, b := ReadByte();
      if !ok {
        return false, 0;
      }
      if b < 255 {
        return true, b;
      }
      ok, value := ReadUInt32();
    }

    /** The reader with the intended status; see `Wire.DecodeCompressedInt32AsWritten` for the one as written. */
    method ReadCompressedInt32() returns (ok: bool, value: int32)
      modifies this`inbox, this`readCompletions
      ensures ok ==> DecodeCompressedInt32(old(inbox)) == Some((value, inbox))
      ensures !ok ==> BrokeOff(old(inbox), inbox, DecodeCompressedInt32(old(inbox)))
      ensures ok <==> CompressedInt32Arrives(old(readCompletions), old(inbox))
      requires Intact()
      ensures Intact()
    {
      ghost var bs := inbox;
      var s;
      ok, s := ReadSByte();
      if !ok {
        return false, 0;
      }
      assert s < 127 <==> bs[0] != 127;
      if s < 127 {
        return true, s;
      }
      ok, value := ReadInt32();
    }

    /**
      On failure `value` is what the source's target string holds: untouched
      (empty) when the length did not arrive, otherwise resized to the length
      with the bytes that did arrive in front.
    */
    method ReadStringUTF8() returns (ok: bool, value: Bytes)
      modifies this`inbox, this`readCompletions
      ensures ok ==> DecodeString(old(inbox)) == Some((value, inbox))
      ensures !ok ==> BrokenString(old(inbox), inbox, value)
      ensures ok <==> StringArrives(old(readCompletions), old(inbox))
      requires Intact()
      ensures Intact()
    {
      var length;
      ok, length := ReadCompressedUInt32();
      if !ok {
        return false, [];
      }
      ghost var rest := inbox;
      var data;
      ok, data := ReadBytes(length);
      if !ok {
        assert rest[..|rest| - |inbox|] == data;
        value := data + Zeros(length - |data|);
      } else {
        value := data;
      }
    }

    // -------------------------------------------------------------------------
    // Typed writes

    method WriteBoolean(value: bool) returns (ok: bool)
      modifies this`outbox, this`writeCompletions
      ensures ok <==> outbox == old(outbox) + EncodeBoolean(value)
      ensures WrotePrefix(old(outbox), outbox, EncodeBoolean(value))
      ensures ok <==> WriteSucceeds(old(writeCompletions), |EncodeBoolean(value)|)
      ensures writeCompletions == WriteLeft(old(writeCompletions), |EncodeBoolean(value)|)
    {
      ok := WriteBytes(EncodeBoolean(value));
    }

    method WriteByte(value: uint8) returns (ok: bool)
      modifies this`outbox, this`writeCompletions
      ensures ok <==> outbox == old(outbox) + EncodeByte(value)
      ensures WrotePrefix(old(outbox), outbox, EncodeByte(value))
      ensures ok <==> WriteSucceeds(old(writeCompletions), |EncodeByte(value)|)
      ensures writeCompletions == WriteLeft(old(writeCompletions), |EncodeByte(value)|)
    {
      ok := WriteBytes(EncodeByte(value));
    }

    method WriteSByte(value: int8) returns (ok: bool)
      modifies this`outbox, this`writeCompletions
      ensures ok <==> outbox == old(outbox) + EncodeSByte(value)
      ensures WrotePrefix(old(outbox), outbox, EncodeSByte(value))
      ensures ok <==> WriteSucceeds(old(writeCompletions), |EncodeSByte(value)|)
      ensures writeCompletions == WriteLeft(old(writeCompletions), |EncodeSByte(value)|)
    {
      ok := WriteBytes(EncodeSByte(value));
    }

    method WriteUInt32(value: uint32) returns (ok: bool)
      modifies this`outbox, this`writeCompletions
      ensures ok <==> outbox == old(outbox) + EncodeUInt32(value)
      ensures WrotePrefix(old(outbox), outbox, EncodeUInt32(value))
      ensures ok <==> WriteSucceeds(old(writeCompletions), |EncodeUInt32(value)|)
      ensures writeCompletions == WriteLeft(old(writeCompletions), |EncodeUInt32(value)|)
    {
      ok := WriteBytes(EncodeUInt32(value));
    }

    method WriteInt32(value: int32) returns (ok: bool)
      modifies this`outbox, this`writeCompletions
      ensures ok <==> outbox == old(outbox) + EncodeInt32(value)
      ensures WrotePrefix(old(outbox), outbox, EncodeInt32(value))
      ensures ok <==> WriteSucceeds(old(writeCompletions), |EncodeInt32(value)|)
      ensures writeCompletions == WriteLeft(old(writeCompletions), |EncodeInt32(value)|)
    {
      ok := WriteBytes(EncodeInt32(value));
    }

    method WriteHandle(value: uint32) returns (ok: bool)
      modifies this`outbox, this`writeCompletions
      ensures ok <==> outbox == old(outbox) + EncodeHandle(value)
      ensures WrotePrefix(old(outbox), outbox, EncodeHandle(value))
      ensures ok <==> WriteSucceeds(old(writeCompletions), |EncodeHandle(value)|)
      ensures writeCompletions == WriteLeft(old(writeCompletions), |EncodeHandle(value)|)
    {
      ok := WriteBytes(EncodeHandle(value));
    }

    method WriteSingle(value: Single) returns (ok: bool)
      modifies this`outbox, this`writeCompletions
      ensures ok <==> outbox == old(outbox) + EncodeSingle(value)
      ensures WrotePrefix(old(outbox), outbox, EncodeSingle(value))
      ensures ok <==> WriteSucceeds(old(writeCompletions), |EncodeSingle(value)|)
      ensures writeCompletions == WriteLeft(old(writeCompletions), |EncodeSingle(value)|)
    {
      ok := WriteBytes(EncodeSingle(value));
    }

    method WriteCompressedUInt32(value: uint32) returns (ok: bool)
      modifies this`outbox, this`writeCompletions
      ensures ok <==> outbox == old(outbox) + EncodeCompressedUInt32(value)
      ensures WrotePrefix(old(outbox), outbox, EncodeCompressedUInt32(value))
      ensures ok <==> CompressedUInt32Sent(old(writeCompletions), value)
      ensures writeCompletions == CompressedUInt32WriteLeft(old(writeCompletions), value)
    {
      if value <= 255 - 1 {
        ok := WriteByte(value);
      } else {
        ghost var before := outbox;
        ok := WriteByte(255);
        if ok {
          ghost var mid := outbox;
          ok := WriteUInt32(value);
          WrotePrefixThen(before, mid, outbox, EncodeByte(255), EncodeUInt32(value));
        } else {
          WrotePrefixStopped(before, outbox, EncodeByte(255), EncodeUInt32(value));
        }
      }
    }

    /**
      The writer with the intended status: true exactly when the whole compressed
      form went out.  See `Wire.CompressedInt32WriteStatusAsWritten` for the one as written.
    */
    method WriteCompressedInt32(value: int32) returns (ok: bool)
      modifies this`outbox, this`writeCompletions
      ensures ok <==> outbox == old(outbox) + EncodeCompressedInt32(value)
      ensures WrotePrefix(old(outbox), outbox, EncodeCompressedInt32(value))
      ensures ok <==> CompressedInt32Sent(old(writeCompletions), value)
    {
      if -128 <= value <= 127 - 1 {
        ok := WriteSByte(value);
      } else {
        ghost var before := outbox;
        ok := WriteSByte(127);
        if ok {
          ghost var mid := outbox;
          ok := WriteInt32(value);
          WrotePrefixThen(before, mid, outbox, EncodeSByte(127), EncodeInt32(value));
        } else {
          WrotePrefixStopped(before, outbox, EncodeSByte(127), EncodeInt32(value));
        }
      }
    }

    method WriteStringUTF8(value: Bytes) returns (ok: bool)
      modifies this`outbox, this`writeCompletions
      ensures ok ==> outbox == old(outbox) + EncodeString(value)
      ensures WrotePrefix(old(outbox), outbox, EncodeString(value))
      ensures ok <==> StringSent(old(writeCompletions), value)
    {
      var length := |value| % UINT32_LIMIT;
      ghost var before := outbox;
      ok := WriteCompressedUInt32(length);
      if ok {
        ghost var mid := outbox;
        ok := WriteBytes(value[..length]);
        WrotePrefixThen(before, mid, outbox, EncodeCompressedUInt32(length), value[..length]);
      } else {
        WrotePrefixStopped(before, outbox, EncodeCompressedUInt32(length), value[..length]);
      }
    }
  }
}
