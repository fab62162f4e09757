/**
  The drawing side of the interop (`CDrawingInterop`): before the browser draws
  into the shared texture it asks the game, over the drawing pipe, whether the
  texture holds the frame it is about to draw, and the game answers Skip, Retry
  or Continue.  The connection logic common to both interops (`CInterop`) is
  written out here for the drawing interop and again, with its handshake, in
  module Engine.
*/
module Interop {
  import opened Wrappers
  import opened Wire
  import opened Pipe

  // ---------------------------------------------------------------------------
  // Frame synchronisation, as pure functions

  /** The texture the game last announced with `Connection(frameCount, ...)`. */
  datatype Texture = Texture(frameCount: int32, handle: uint32, width: uint32, height: uint32)

  /** The replies to a draw request. */
  const Skip: int32 := 1
  const Retry: int32 := 2
  const Continue: int32 := 3

  /** Pixel format announced with Continue (D3DFMT_A8R8G8B8). */
  const TextureFormat: uint32 := 21

  /** The message codes a drawing client may send (all but Invalid and PreapareDraw). */
  predicate IsDrawingMessage(m: int32)
  {
    2 <= m <= 8
  }

  /** Two's-complement truncation of an integer to 32 bits. */
  function WrapInt32(x: int): (r: int32)
    ensures (r - x) % UINT32_LIMIT == 0
  {
    var m := x % UINT32_LIMIT;
    if m < 0x8000_0000 then m else m - UINT32_LIMIT
  }

  /** How the game judges a draw request for client frame `client`. */
  datatype Verdict = NoData | ClientAhead | ClientBehind | InStep

  function Judge(data: Option<Texture>, client: int32): Verdict
  {
    if data.None? then NoData
    else
      var diff := WrapInt32(data.value.frameCount - client);
      if diff < 0 then ClientAhead
      else if diff > 0 then ClientBehind
      else InStep
  }

  /** The reply code each verdict is answered with. */
  function ReplyCode(v: Verdict): int32
  {
    match v
    case NoData => Skip
    case ClientAhead => Retry
    case ClientBehind => Skip
    case InStep => Continue
  }

  /** The reply that lets the client draw: the texture and its geometry. */
  function ContinueReply(t: Texture): Bytes
  {
    EncodeInt32(Continue) + EncodeHandle(t.handle) + EncodeUInt32(t.width)
      + EncodeUInt32(t.height) + EncodeUInt32(TextureFormat)
  }

  /** `w` written in front of what the rest of an exchange writes. */
  function Prepend(w: Bytes, e: Option<(bool, Bytes, Bytes)>): Option<(bool, Bytes, Bytes)>
  {
    match e
    case None => None
    case Some((result, written, rest)) => Some((result, w + written, rest))
  }

  /**
    One call of the drawing loop on client input `bs`, when no write fails: the
    value it returns, the bytes it writes and the input it leaves unread; None
    when the input runs out.  A client that is behind is told to Skip and the
    loop reads its next request.
  */
  function Exchange(data: Option<Texture>, bs: Bytes): (r: Option<(bool, Bytes, Bytes)>)
    ensures r.Some? ==> |r.value.2| < |bs|
    decreases |bs|
  {
    var message :- DecodeInt32(bs);
    if !IsDrawingMessage(message.0) then Some((false, [], message.1))
    else
      var client :- DecodeInt32(message.1);
      var verdict := Judge(data, client.0);
      match verdict
      case ClientBehind =>
        Prepend(EncodeInt32(Skip), Exchange(data, client.1))
      case InStep =>
        var finished :- DecodeBoolean(client.1);
        Some((finished.0, ContinueReply(data.value), finished.1))
      case _ =>
        Some((true, EncodeInt32(ReplyCode(verdict)), client.1))
  }

  /** A successful run of the drawing loop took `inbox` to `inbox'` and wrote what `outbox'` adds. */
  ghost predicate Served(data: Option<Texture>, inbox: Bytes, outbox: Bytes, inbox': Bytes, outbox': Bytes)
  {
    var e := Exchange(data, inbox);
    e.Some? && e.value.0 && outbox' == outbox + e.value.1 && inbox' == e.value.2
  }

  // ---------------------------------------------------------------------------
  // Properties of the frame synchronisation

  lemma WrapInt32Zero(x: int)
    requires -UINT32_LIMIT < x < UINT32_LIMIT
    ensures WrapInt32(x) == 0 <==> x == 0
  {
  }

  lemma WrapInt32Small(x: int)
    requires -0x8000_0000 <= x < 0x8000_0000
    ensures WrapInt32(x) == x
  {
  }

  /** The client may draw exactly when the game has data for the very frame the client asks about. */
  lemma InStepIff(data: Option<Texture>, client: int32)
    ensures Judge(data, client) == InStep <==> data.Some? && data.value.frameCount == client
  {
    if data.Some? {
      WrapInt32Zero(data.value.frameCount - client);
    }
  }

  /**
    While the two frame counts are less than 2^31 apart, the 32-bit difference
    orders them correctly: Retry when the client is ahead, Skip when it is behind.
  */
  lemma JudgeOrdersFrames(t: Texture, client: int32)
    requires -0x8000_0000 <= t.frameCount - client < 0x8000_0000
    ensures Judge(Some(t), client) == ClientAhead <==> client > t.frameCount
    ensures Judge(Some(t), client) == ClientBehind <==> client < t.frameCount
  {
    WrapInt32Small(t.frameCount - client);
  }

  /** Farther apart, the difference wraps and a client that is behind is told to Retry. */
  lemma JudgeWrapsFarApart()
    ensures Judge(Some(Texture(0x7fff_ffff, 0, 0, 0)), -1) == ClientAhead
  {
  }

  /** Without announced data every request is answered Skip and the loop ends. */
  lemma ExchangeWithoutData(message: int32, client: int32, rest: Bytes)
    requires IsDrawingMessage(message)
    ensures Exchange(None, Request(message, client) + rest) == Some((true, EncodeInt32(Skip), rest))
  {
    RequestRoundTrip(message, client, rest);
  }

  /** A message code that is not a drawing message ends the loop with failure, nothing written. */
  lemma ExchangeRejectsUnknownMessage(data: Option<Texture>, message: int32, rest: Bytes)
    requires !IsDrawingMessage(message)
    ensures Exchange(data, EncodeInt32(message) + rest) == Some((false, [], rest))
  {
    Int32RoundTrip(message, rest);
  }

  /** A draw request as the client writes it. */
  function Request(message: int32, client: int32): Bytes
  {
    EncodeInt32(message) + EncodeInt32(client)
  }

  function Requests(message: int32, clients: seq<int32>): Bytes
  {
    if clients == [] then [] else Request(message, clients[0]) + Requests(message, clients[1..])
  }

  function Repeat(w: Bytes, n: nat): Bytes
  {
    if n == 0 then [] else w + Repeat(w, n - 1)
  }

  lemma RequestRoundTrip(message: int32, client: int32, rest: Bytes)
    ensures DecodeInt32(Request(message, client) + rest) == Some((message, EncodeInt32(client) + rest))
    ensures DecodeInt32(EncodeInt32(client) + rest) == Some((client, rest))
  {
    AppendAssociative(EncodeInt32(message), EncodeInt32(client), rest);
    Int32RoundTrip(message, EncodeInt32(client) + rest);
    Int32RoundTrip(client, rest);
  }

  /**
    A client that lags behind sends requests for older frames, one after another,
    until it asks for the announced frame: each older request is answered Skip,
    the last one Continue with the texture, and the loop returns what the client
    reports about its drawing.
  */
  lemma {:induction false} ExchangeCatchesUp(t: Texture, message: int32, lagging: seq<int32>, finished: bool, rest: Bytes)
    requires IsDrawingMessage(message)
    requires forall i :: 0 <= i < |lagging| ==> t.frameCount - 0x8000_0000 < lagging[i] < t.frameCount
    ensures Exchange(Some(t), Requests(message, lagging) + Request(message, t.frameCount) + EncodeBoolean(finished) + rest)
         == Some((finished, Repeat(EncodeInt32(Skip), |lagging|) + ContinueReply(t), rest))
  {
    if lagging == [] {
      var bs := Request(message, t.frameCount) + (EncodeBoolean(finished) + rest);
      assert Requests(message, lagging) + Request(message, t.frameCount) + EncodeBoolean(finished) + rest == bs;
      RequestRoundTrip(message, t.frameCount, EncodeBoolean(finished) + rest);
      InStepIff(Some(t), t.frameCount);
      BooleanRoundTrip(finished, rest);
      assert Repeat(EncodeInt32(Skip), 0) + ContinueReply(t) == ContinueReply(t);
    } else {
      var tail := Requests(message, lagging[1..]) + Request(message, t.frameCount) + EncodeBoolean(finished) + rest;
      assert Requests(message, lagging) + Request(message, t.frameCount) + EncodeBoolean(finished) + rest
          == Request(message, lagging[0]) + tail;
      RequestRoundTrip(message, lagging[0], tail);
      JudgeOrdersFrames(t, lagging[0]);
      ExchangeCatchesUp(t, message, lagging[1..], finished, rest);
      assert |lagging[1..]| == |lagging| - 1;
      AppendAssociative(EncodeInt32(Skip), Repeat(EncodeInt32(Skip), |lagging| - 1), ContinueReply(t));
    }
  }

  // ---------------------------------------------------------------------------
  // The drawing loop

  /**
    The drawing loop of `CDrawingInterop::OnConnection`: it answers draw requests
    until one is not a lagging one.  Any failed read, write or flush, a message
    code it does not know, or a client that reports not having finished makes it
    return false.
  */
  method ServeDrawing(p: PipeServer, data: Option<Texture>) returns (ok: bool)
    modifies p`inbox, p`outbox, p`readCompletions, p`writeCompletions, p`flushResults
    requires p.Intact()
    ensures p.Intact()
    ensures ok ==> Served(data, old(p.inbox), old(p.outbox), p.inbox, p.outbox)
  {
    ghost var written: Bytes := [];
    PrependNothing(Exchange(data, p.inbox));
    while true
      invariant p.Intact()
      invariant Exchange(data, old(p.inbox)) == Prepend(written, Exchange(data, p.inbox))
      invariant p.outbox == old(p.outbox) + written
      decreases |p.inbox|
    {
      ghost var before := p.inbox;
      var message;
      ok, message := p.ReadInt32();
      if !ok {
        return;
      }
      if !IsDrawingMessage(message) {
        return false;
      }
      var client;
      ok, client := p.ReadInt32();
      if !ok {
        return;
      }
      var verdict := Judge(data, client);
      if verdict == InStep {
        var finished;
        ok, finished := SendTexture(p, data.value);
        ok := ok && finished;
        AppendAssociative(old(p.outbox), written, ContinueReply(data.value));
        return;
      }
      ok := SendReply(p, ReplyCode(verdict));
      if !ok || verdict != ClientBehind {
        AppendAssociative(old(p.outbox), written, EncodeInt32(ReplyCode(verdict)));
        return;
      }
      assert Exchange(data, before) == Prepend(EncodeInt32(Skip), Exchange(data, p.inbox));
      PrependTwice(written, EncodeInt32(Skip), Exchange(data, p.inbox));
      AppendAssociative(old(p.outbox), written, EncodeInt32(Skip));
      written := written + EncodeInt32(Skip);
    }
  }

  lemma PrependNothing(e: Option<(bool, Bytes, Bytes)>)
    ensures Prepend([], e) == e
  {
    if e.Some? {
      assert [] + e.value.1 == e.value.1;
    }
  }

  lemma PrependTwice(a: Bytes, b: Bytes, e: Option<(bool, Bytes, Bytes)>)
    ensures Prepend(a, Prepend(b, e)) == Prepend(a + b, e)
  {
    if e.Some? {
      AppendAssociative(a, b, e.value.1);
    }
  }

  /** Writes a one-word reply and flushes it. */
  method SendReply(p: PipeServer, code: int32) returns (ok: bool)
    modifies p`outbox, p`writeCompletions, p`flushResults
    ensures ok ==> p.outbox == old(p.outbox) + EncodeInt32(code)
  {
    ok := p.WriteInt32(code);
    if ok {
      ok := p.Flush();
    }
  }

  /** Sends the Continue reply with the texture, then reads whether the client finished drawing. */
  method SendTexture(p: PipeServer, t: Texture) returns (ok: bool, finished: bool)
    modifies p`inbox, p`outbox, p`readCompletions, p`writeCompletions, p`flushResults
    requires p.Intact()
    ensures p.Intact()
    ensures ok ==> p.outbox == old(p.outbox) + ContinueReply(t)
    ensures ok ==> DecodeBoolean(old(p.inbox)) == Some((finished, p.inbox))
  {
    finished := false;
    ghost var o := p.outbox;
    ghost var a, b, c, d := EncodeInt32(Continue), EncodeHandle(t.handle), EncodeUInt32(t.width), EncodeUInt32(t.height);
    ok := p.WriteInt32(Continue);
    if !ok { return; }
    ok := p.WriteHandle(t.handle);
    if !ok { return; }
    AppendAssociative(o, a, b);
    ok := p.WriteUInt32(t.width);
    if !ok { return; }
    AppendAssociative(o, a + b, c);
    ok := p.WriteUInt32(t.height);
    if !ok { return; }
    AppendAssociative(o, a + b + c, d);
    ok := p.WriteUInt32(TextureFormat);
    if !ok { return; }
    AppendAssociative(o, a + b + c + d, EncodeUInt32(TextureFormat));
    ok := p.Flush();
    if !ok { return; }
    ok, finished := p.ReadBoolean();
  }

  // ---------------------------------------------------------------------------
  // The drawing interop object

  class DrawingInterop {
    /** The pipe server, or null while none is open. */
    var pipe: PipeServer?
    /** A pipe was opened and its client has not been served yet. */
    var connecting: bool
    var hasData: bool
    var frameCount: int32
    var textureHandle: uint32
    var width: uint32
    var height: uint32

    /** A pipe reported connected stays connected, so a served pipe is a connected one. */
    ghost predicate Valid()
      reads this, pipe
    {
      && (pipe != null && !connecting ==> pipe.state.Connected?)
      && (pipe != null ==> pipe.Intact())
    }

    constructor ()
      ensures Valid()
      ensures pipe == null && !connecting
      ensures !hasData && frameCount == -1 && textureHandle == 0 && width == 0 && height == 0
    {
      pipe, connecting := null, false;
      hasData, frameCount, textureHandle, width, height := false, -1, 0, 0, 0;
    }

    function Connected(): bool
      reads this
    {
      pipe != null && !connecting
    }

    /** What the loop is told about the texture. */
    function Data(): Option<Texture>
      reads this
    {
      if hasData then Some(Texture(frameCount, textureHandle, width, height)) else None
    }

    method Close()
      modifies this`pipe
      ensures pipe == null
    {
      pipe := null;
    }

    /**
      One poll of the connection: a fresh pipe `server` is opened when none is,
      `event` is what its pending connect has done, and a connected client is
      served one drawing loop.  The pipe is closed when the connect broke or the
      loop failed; true is returned exactly when it stays open.
    */
    method Connection(event: ConnectEvent, server: PipeServer) returns (ok: bool)
      requires Valid() && (pipe == null ==> server.Intact())
      modifies this`pipe, this`connecting, pipe, server
      ensures Valid()
      ensures ok <==> pipe != null
      ensures pipe != null ==> pipe == Opened(old(pipe), server)
      ensures ok ==> (Connected() <==> pipe.state.Connected?)
      ensures var p := Opened(old(pipe), server);
        ok && Connected() ==> Served(Data(), old(p.inbox), old(p.outbox), p.inbox, p.outbox)
      ensures var p := Opened(old(pipe), server);
        p.state.Connected? ==> (ok <==> Connected())
      ensures var p := Opened(old(pipe), server);
        p.state.Waiting? ==> ok && pipe == p && connecting
      ensures var p := Opened(old(pipe), server);
        p.state.Error? ==> !ok && pipe == null
    {
      if pipe == null {
        pipe, connecting := server, true;
      }
      var p := pipe;
      var s := p.Connect(event);
      if s.Connected? {
        connecting := false;
        ok := ServeDrawing(p, Data());
      } else {
        ok := s.Waiting?;
      }
      pipe := if ok then p else null;
    }

    /** Announces the texture for frame `frame` and then polls the connection. */
    method ConnectionWithData(frame: int32, handle: uint32, w: int, h: int, event: ConnectEvent, server: PipeServer)
        returns (ok: bool)
      requires Valid() && (pipe == null ==> server.Intact())
      modifies this, pipe, server
      ensures Valid()
      ensures Data() == Some(Texture(frame, handle, w % UINT32_LIMIT, h % UINT32_LIMIT))
      ensures ok <==> pipe != null
      ensures pipe != null ==> pipe == Opened(old(pipe), server)
      ensures ok ==> (Connected() <==> pipe.state.Connected?)
      ensures var p := Opened(old(pipe), server);
        ok && Connected() ==> Served(Data(), old(p.inbox), old(p.outbox), p.inbox, p.outbox)
      ensures var p := Opened(old(pipe), server);
        p.state.Connected? ==> (ok <==> Connected())
      ensures var p := Opened(old(pipe), server);
        p.state.Waiting? ==> ok && pipe == p && connecting
      ensures var p := Opened(old(pipe), server);
        p.state.Error? ==> !ok && pipe == null
    {
      hasData, frameCount, textureHandle := true, frame, handle;
      width, height := w % UINT32_LIMIT, h % UINT32_LIMIT;
      ok := Connection(event, server);
    }
  }

  /** The pipe a poll works on: the open one, or else the freshly opened `server`. */
  function Opened(pipe: PipeServer?, server: PipeServer): PipeServer
  {
    if pipe == null then server else pipe
  }
}
