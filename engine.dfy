/**
  The engine side of the interop (`CEngineInterop`): the handshake a new client
  goes through and the loop that serves one engine frame, from the frame start
  (console commands in, queued commands out) through the render view (which
  passes the client wants to draw) to the render-view end.
*/
module Engine {
  import opened Wrappers
  import opened Wire
  import opened Pipe
  import opened GameEventCodec
  import opened CalcCallbacks
  import opened EngineEvents
  import opened Order
  import Interop

  /** The interface version the host announces; the client must accept it. */
  const Version: int32 := 7

  // The engine messages the loop acts on; the others (0 Invalid, 1 LevelInitPreEntity,
  // 2 LevelShutDown and unknown codes) are read and ignored.
  const BeforeFrameStart: int32 := 3
  const OnRenderView: int32 := 4
  const OnRenderViewEnd: int32 := 5
  const BeforeFrameRenderStart: int32 := 6
  const AfterFrameRenderStart: int32 := 7
  const OnViewOverride: int32 := 8
  const BeforeHud: int32 := 13
  const AfterHud: int32 := 14
  const GameEventMessage: int32 := 15

  /** Messages 9 to 12 announce a render pass, which the client describes with a view. */
  datatype RenderPass = BeforeTranslucentShadow | AfterTranslucentShadow | BeforeTranslucent | AfterTranslucent

  function PassOf(message: int32): Option<RenderPass>
  {
    if message == 9 then Some(BeforeTranslucentShadow)
    else if message == 10 then Some(AfterTranslucentShadow)
    else if message == 11 then Some(BeforeTranslucent)
    else if message == 12 then Some(AfterTranslucent)
    else None
  }

  // ---------------------------------------------------------------------------
  // Lists read item by item

  /** `done` in front of the items of a decoded list. */
  function Prefixed<T>(done: seq<T>, r: Decoded<seq<T>>): Decoded<seq<T>>
  {
    match r
    case None => None
    case Some((xs, rest)) => Some((done + xs, rest))
  }

  lemma PrefixedNothing<T>(r: Decoded<seq<T>>)
    ensures Prefixed([], r) == r
  {
    if r.Some? {
      assert [] + r.value.0 == r.value.0;
    }
  }

  lemma PrefixedStep<T>(done: seq<T>, x: T, r: Decoded<seq<T>>)
    ensures Prefixed(done, Prefixed([x], r)) == Prefixed(done + [x], r)
  {
    if r.Some? {
      assert done + ([x] + r.value.0) == done + [x] + r.value.0;
    }
  }

  /** Reading one more string keeps what has been read a prefix of the decoding. */
  lemma DecodeStringsStep(whole: Decoded<seq<Bytes>>, names: seq<Bytes>, bs: Bytes, left: nat, s: Bytes, rest: Bytes,
                           names': seq<Bytes>, left': nat)
    requires whole == Prefixed(names, DecodeStrings(bs, left))
    requires 0 < left && DecodeString(bs) == Some((s, rest))
    requires names' == names + [s] && left' == left - 1
    ensures whole == Prefixed(names', DecodeStrings(rest, left'))
  {
    assert DecodeStrings(bs, left) == Prefixed([s], DecodeStrings(rest, left - 1));
    PrefixedStep(names, s, DecodeStrings(rest, left - 1));
  }

  lemma DecodeStringsDone(whole: Decoded<seq<Bytes>>, names: seq<Bytes>, bs: Bytes)
    requires whole == Prefixed(names, DecodeStrings(bs, 0))
    ensures whole == Some((names, bs))
  {
    assert names + [] == names;
  }

  /** `n` strings in a row, as `ReadStringUTF8` reads them one by one. */
  method ReadStrings(p: PipeServer, n: uint32) returns (ok: bool, names: seq<Bytes>)
    modifies p`inbox, p`readCompletions
    requires p.Intact()
    ensures p.Intact()
    ensures ok ==> DecodeStrings(old(p.inbox), n) == Some((names, p.inbox))
  {
    ghost var whole := DecodeStrings(p.inbox, n);
    names := [];
    var left: nat := n;
    ok := true;
    PrefixedNothing(whole);
    while ok && 0 < left
      invariant p.Intact()
      invariant ok ==> whole == Prefixed(names, DecodeStrings(p.inbox, left))
    {
      ghost var before := p.inbox;
      var s;
      ok, s := p.ReadStringUTF8();
      if ok {
        ghost var names0, left0 := names, left;
        names, left := names + [s], left - 1;
        DecodeStringsStep(whole, names0, before, left0, s, p.inbox, names, left);
      }
    }
    if ok {
      DecodeStringsDone(whole, names, p.inbox);
    }
  }

  /** A count, then that many strings: one command's arguments. */
  method ReadStringList(p: PipeServer) returns (ok: bool, names: seq<Bytes>)
    modifies p`inbox, p`readCompletions
    requires p.Intact()
    ensures p.Intact()
    ensures ok ==> DecodeStringList(old(p.inbox)) == Some((names, p.inbox))
  {
    names := [];
    var count;
    ok, count := p.ReadCompressedUInt32();
    if ok {
      ok, names := ReadStrings(p, count);
    }
  }

  // ---------------------------------------------------------------------------
  // Console commands from the client (`CCommands`)

  /** One console command: its arguments, the command name first. */
  type Command = seq<Bytes>

  /** The commands the client sends with BeforeFrameStart: their number, then each as a string list. */
  function EncodeCommands(commands: seq<Command>): Bytes
  {
    EncodeCompressedUInt32(|commands| % UINT32_LIMIT) + Concat(commands, EncodeStringList)
  }

  function DecodeCommandList(bs: Bytes, n: nat): (r: Decoded<seq<Command>>)
    ensures r.Some? ==> |r.value.0| == n && |r.value.1| <= |bs|
    decreases n
  {
    if n == 0 then Some(([], bs))
    else
      var first :- DecodeStringList(bs);
      Prefixed([first.0], DecodeCommandList(first.1, n - 1))
  }

  function DecodeCommands(bs: Bytes): (r: Decoded<seq<Command>>)
    ensures r.Some? ==> |r.value.1| < |bs|
  {
    var count :- DecodeCompressedUInt32(bs);
    DecodeCommandList(count.1, count.0)
  }

  /** What fits the wire: fewer than 2^32 items, each shorter than 2^32 bytes. */
  predicate Sendable(names: seq<Bytes>)
  {
    |names| < UINT32_LIMIT && forall j :: 0 <= j < |names| ==> |names[j]| < UINT32_LIMIT
  }

  lemma {:induction false} CommandListRoundTrip(commands: seq<Command>, rest: Bytes)
    requires forall i :: 0 <= i < |commands| ==> Sendable(commands[i])
    ensures DecodeCommandList(Concat(commands, EncodeStringList) + rest, |commands|) == Some((commands, rest))
  {
    if commands == [] {
      assert Concat(commands, EncodeStringList) + rest == rest;
    } else {
      var head := EncodeStringList(commands[0]);
      var tail := Concat(commands[1..], EncodeStringList) + rest;
      assert Concat(commands, EncodeStringList) == head + Concat(commands[1..], EncodeStringList);
      AppendAssociative(head, Concat(commands[1..], EncodeStringList), rest);
      assert Sendable(commands[0]);
      StringListRoundTrip(commands[0], tail);
      assert Concat(commands, EncodeStringList) + rest == head + tail;
      assert DecodeStringList(head + tail) == Some((commands[0], tail));
      CommandListRoundTrip(commands[1..], rest);
      assert DecodeCommandList(tail, |commands| - 1) == Some((commands[1..], rest));
      assert DecodeCommandList(head + tail, |commands|) == Prefixed([commands[0]], Some((commands[1..], rest)));
      assert [commands[0]] + commands[1..] == commands;
    }
  }

  /** The host reads back exactly the commands the client sent. */
  lemma CommandsRoundTrip(commands: seq<Command>, rest: Bytes)
    requires |commands| < UINT32_LIMIT
    requires forall i :: 0 <= i < |commands| ==> Sendable(commands[i])
    ensures DecodeCommands(EncodeCommands(commands) + rest) == Some((commands, rest))
  {
    var n := |commands|;
    assert n % UINT32_LIMIT == n;
    AppendAssociative(EncodeCompressedUInt32(n), Concat(commands, EncodeStringList), rest);
    CompressedUInt32RoundTrip(n, Concat(commands, EncodeStringList) + rest);
    CommandListRoundTrip(commands, rest);
  }

  /** Reads the commands of a BeforeFrameStart message, command by command and argument by argument. */
  method ReadCommands(p: PipeServer) returns (ok: bool, commands: seq<Command>)
    modifies p`inbox, p`readCompletions
    requires p.Intact()
    ensures p.Intact()
    ensures ok ==> DecodeCommands(old(p.inbox)) == Some((commands, p.inbox))
  {
    ghost var whole := DecodeCommands(p.inbox);
    commands := [];
    var count;
    ok, count := p.ReadCompressedUInt32();
    if !ok {
      return;
    }
    var left: nat := count;
    PrefixedNothing(DecodeCommandList(p.inbox, count));
    while ok && 0 < left
      invariant p.Intact()
      invariant ok ==> whole == Prefixed(commands, DecodeCommandList(p.inbox, left))
    {
      ghost var before := p.inbox;
      var args;
      ok, args := ReadStringList(p);
      if ok {
        ghost var commands0, left0 := commands, left;
        commands, left := commands + [args], left - 1;
        CommandListStep(whole, commands0, before, left0, args, p.inbox, commands, left);
      }
    }
    if ok {
      CommandListDone(whole, commands, p.inbox);
    }
  }

  lemma CommandListStep(whole: Decoded<seq<Command>>, commands: seq<Command>, bs: Bytes, left: nat, args: Command, rest: Bytes,
                         commands': seq<Command>, left': nat)
    requires whole == Prefixed(commands, DecodeCommandList(bs, left))
    requires 0 < left && DecodeStringList(bs) == Some((args, rest))
    requires commands' == commands + [args] && left' == left - 1
    ensures whole == Prefixed(commands', DecodeCommandList(rest, left'))
  {
    assert DecodeCommandList(bs, left) == Prefixed([args], DecodeCommandList(rest, left - 1));
    PrefixedStep(commands, args, DecodeCommandList(rest, left - 1));
  }

  lemma CommandListDone(whole: Decoded<seq<Command>>, commands: seq<Command>, bs: Bytes)
    requires whole == Prefixed(commands, DecodeCommandList(bs, 0))
    ensures whole == Some((commands, bs))
  {
    assert commands + [] == commands;
  }

  // ---------------------------------------------------------------------------
  // Commands queued for the client (`m_Commands`)

  /**
    Sends the queue as a string list, oldest command first, popping each
    command once it is written.  What is left is always the unsent end of the
    queue; on success nothing is.
  */
  method SendQueue(p: PipeServer, queue: seq<Bytes>) returns (ok: bool, left: seq<Bytes>)
    modifies p`outbox, p`writeCompletions
    ensures ok ==> left == [] && p.outbox == old(p.outbox) + EncodeStringList(queue)
    ensures |left| <= |queue| && left == queue[|queue| - |left|..]
  {
    left := queue;
    ok := p.WriteCompressedUInt32(|queue| % UINT32_LIMIT);
    ghost var start := p.outbox;
    while ok && left != []
      invariant |left| <= |queue| && left == queue[|queue| - |left|..]
      invariant ok ==> QueueSent(queue, left, start, p.outbox)
      decreases ok, |left|
    {
      ghost var mid := p.outbox;
      ok := p.WriteStringUTF8(left[0]);
      if ok {
        ghost var left0 := left;
        left := left[1..];
        QueueSentStep(queue, start, left0, mid, p.outbox, left);
      }
    }
    if ok {
      assert queue[..|queue|] == queue;
      AppendAssociative(old(p.outbox), EncodeCompressedUInt32(|queue| % UINT32_LIMIT), EncodeStrings(queue));
    }
  }

  /** The commands of queue not in left have gone out, in order, after start. */
  ghost predicate QueueSent(queue: seq<Bytes>, left: seq<Bytes>, start: Bytes, outbox: Bytes)
  {
    |left| <= |queue| && left == queue[|queue| - |left|..]
    && outbox == start + EncodeStrings(queue[..|queue| - |left|])
  }

  lemma QueueSentStep(queue: seq<Bytes>, start: Bytes, left: seq<Bytes>, mid: Bytes, after: Bytes, left': seq<Bytes>)
    requires QueueSent(queue, left, start, mid) && left != []
    requires after == mid + EncodeString(left[0]) && left' == left[1..]
    ensures QueueSent(queue, left', start, after)
  {
    ghost var sent := queue[..|queue| - |left|];
    assert queue[..|queue| - |left'|] == sent + [left[0]];
    ConcatAppend(sent, left[0], EncodeString);
    AppendAssociative(start, EncodeStrings(sent), EncodeString(left[0]));
  }

  /** The client reads the queued commands back in the order they were scheduled. */
  lemma QueueRoundTrip(queue: seq<Bytes>, rest: Bytes)
    requires Sendable(queue)
    ensures DecodeStringList(EncodeStringList(queue) + rest) == Some((queue, rest))
  {
    StringListRoundTrip(queue, rest);
  }

  // ---------------------------------------------------------------------------
  // Float payloads, opaque 4-byte values

  function EncodeSingles(fs: seq<Single>): Bytes
  {
    Concat(fs, EncodeSingle)
  }

  function DecodeSingles(bs: Bytes, n: nat): (r: Decoded<seq<Single>>)
    ensures r.Some? ==> |r.value.0| == n && |r.value.1| <= |bs|
    decreases n
  {
    if n == 0 then Some(([], bs))
    else
      var first :- DecodeSingle(bs);
      Prefixed([first.0], DecodeSingles(first.1, n - 1))
  }

  lemma {:induction false} SinglesRoundTrip(fs: seq<Single>, rest: Bytes)
    ensures DecodeSingles(EncodeSingles(fs) + rest, |fs|) == Some((fs, rest))
  {
    if fs == [] {
      assert EncodeSingles(fs) + rest == rest;
    } else {
      AppendAssociative(EncodeSingle(fs[0]), EncodeSingles(fs[1..]), rest);
      SingleRoundTrip(fs[0], EncodeSingles(fs[1..]) + rest);
      SinglesRoundTrip(fs[1..], rest);
      assert [fs[0]] + fs[1..] == fs;
    }
  }

  method ReadSingles(p: PipeServer, n: nat) returns (ok: bool, fs: seq<Single>)
    modifies p`inbox, p`readCompletions
    requires p.Intact()
    ensures p.Intact()
    ensures ok ==> DecodeSingles(old(p.inbox), n) == Some((fs, p.inbox))
  {
    fs := [];
    var left := n;
    ok := true;
    PrefixedNothing(DecodeSingles(p.inbox, n));
    while 0 < left
      invariant p.Intact()
      invariant DecodeSingles(old(p.inbox), n) == Prefixed(fs, DecodeSingles(p.inbox, left))
    {
      ghost var before := p.inbox;
      var f;
      ok, f := p.ReadSingle();
      if !ok {
        return;
      }
      assert DecodeSingles(before, left) == Prefixed([f], DecodeSingles(p.inbox, left - 1));
      PrefixedStep(fs, f, DecodeSingles(p.inbox, left - 1));
      fs := fs + [f];
      left := left - 1;
    }
    assert fs + [] == fs;
  }

  method WriteSingles(p: PipeServer, fs: seq<Single>) returns (ok: bool)
    modifies p`outbox, p`writeCompletions
    ensures ok ==> p.outbox == old(p.outbox) + EncodeSingles(fs)
  {
    ok := true;
    var i := 0;
    while i < |fs|
      invariant 0 <= i <= |fs|
      invariant p.outbox == old(p.outbox) + EncodeSingles(fs[..i])
    {
      ok := p.WriteSingle(fs[i]);
      if !ok {
        return;
      }
      assert fs[..i + 1] == fs[..i] + [fs[i]];
      ConcatAppend(fs[..i], fs[i], EncodeSingle);
      AppendAssociative(old(p.outbox), EncodeSingles(fs[..i]), EncodeSingle(fs[i]));
      i := i + 1;
    }
    assert fs[..i] == fs;
  }

  // ---------------------------------------------------------------------------
  // The render view

  /** A view rectangle with its view and projection matrices, 16 values each, row by row. */
  datatype View = View(x: int32, y: int32, width: int32, height: int32, viewMatrix: seq<Single>, projectionMatrix: seq<Single>)

  datatype RenderInfo = RenderInfo(frameCount: int32, absoluteFrameTime: Single, curTime: Single, frameTime: Single, view: View)

  function EncodeView(v: View): Bytes
  {
    EncodeInt32(v.x) + EncodeInt32(v.y) + EncodeInt32(v.width) + EncodeInt32(v.height)
      + EncodeSingles(v.viewMatrix) + EncodeSingles(v.projectionMatrix)
  }

  function DecodeView(bs: Bytes): (r: Decoded<View>)
    ensures r.Some? ==> |r.value.1| < |bs| && |r.value.0.viewMatrix| == 16 && |r.value.0.projectionMatrix| == 16
  {
    var x :- DecodeInt32(bs);
    var y :- DecodeInt32(x.1);
    var width :- DecodeInt32(y.1);
    var height :- DecodeInt32(width.1);
    var viewMatrix :- DecodeSingles(height.1, 16);
    var projectionMatrix :- DecodeSingles(viewMatrix.1, 16);
    Some((View(x.0, y.0, width.0, height.0, viewMatrix.0, projectionMatrix.0), projectionMatrix.1))
  }

  function EncodeRenderInfo(info: RenderInfo): Bytes
  {
    EncodeInt32(info.frameCount) + EncodeSingle(info.absoluteFrameTime) + EncodeSingle(info.curTime)
      + EncodeSingle(info.frameTime) + EncodeView(info.view)
  }

  function DecodeRenderInfo(bs: Bytes): (r: Decoded<RenderInfo>)
    ensures r.Some? ==> |r.value.1| < |bs|
  {
    var frameCount :- DecodeInt32(bs);
    var absoluteFrameTime :- DecodeSingle(frameCount.1);
    var curTime :- DecodeSingle(absoluteFrameTime.1);
    var frameTime :- DecodeSingle(curTime.1);
    var view :- DecodeView(frameTime.1);
    Some((RenderInfo(frameCount.0, absoluteFrameTime.0, curTime.0, frameTime.0, view.0), view.1))
  }

  lemma ViewRoundTrip(v: View, rest: Bytes)
    requires |v.viewMatrix| == 16 && |v.projectionMatrix| == 16
    ensures DecodeView(EncodeView(v) + rest) == Some((v, rest))
  {
    var a, b, c, d := EncodeInt32(v.x), EncodeInt32(v.y), EncodeInt32(v.width), EncodeInt32(v.height);
    var e, f := EncodeSingles(v.viewMatrix), EncodeSingles(v.projectionMatrix);
    var t5 := f + rest;
    var t4 := e + t5;
    var t3 := d + t4;
    var t2 := c + t3;
    var t1 := b + t2;
    AppendAssociative(a + b + c + d + e, f, rest);
    AppendAssociative(a + b + c + d, e, t5);
    AppendAssociative(a + b + c, d, t4);
    AppendAssociative(a + b, c, t3);
    AppendAssociative(a, b, t2);
    Int32RoundTrip(v.x, t1);
    Int32RoundTrip(v.y, t2);
    Int32RoundTrip(v.width, t3);
    Int32RoundTrip(v.height, t4);
    SinglesRoundTrip(v.viewMatrix, t5);
    SinglesRoundTrip(v.projectionMatrix, rest);
  }

  /** The host reads back exactly the render info the client sent. */
  lemma RenderInfoRoundTrip(info: RenderInfo, rest: Bytes)
    requires |info.view.viewMatrix| == 16 && |info.view.projectionMatrix| == 16
    ensures DecodeRenderInfo(EncodeRenderInfo(info) + rest) == Some((info, rest))
  {
    var a, b, c := EncodeInt32(info.frameCount), EncodeSingle(info.absoluteFrameTime), EncodeSingle(info.curTime);
    var d, e := EncodeSingle(info.frameTime), EncodeView(info.view);
    var t4 := e + rest;
    var t3 := d + t4;
    var t2 := c + t3;
    var t1 := b + t2;
    AppendAssociative(a + b + c + d, e, rest);
    AppendAssociative(a + b + c, d, t4);
    AppendAssociative(a + b, c, t3);
    AppendAssociative(a, b, t2);
    Int32RoundTrip(info.frameCount, t1);
    SingleRoundTrip(info.absoluteFrameTime, t2);
    SingleRoundTrip(info.curTime, t3);
    SingleRoundTrip(info.frameTime, t4);
    ViewRoundTrip(info.view, rest);
  }

  /** `DoRenderPass` and the first half of OnRenderView read a view field by field. */
  method ReadView(p: PipeServer) returns (ok: bool, v: View)
    modifies p`inbox, p`readCompletions
    requires p.Intact()
    ensures p.Intact()
    ensures ok ==> DecodeView(old(p.inbox)) == Some((v, p.inbox))
  {
    v := View(0, 0, 0, 0, [], []);
    var x, y, width, height, viewMatrix, projectionMatrix;
    ok, x := p.ReadInt32();
    if !ok { return; }
    ok, y := p.ReadInt32();
    if !ok { return; }
    ok, width := p.ReadInt32();
    if !ok { return; }
    ok, height := p.ReadInt32();
    if !ok { return; }
    ok, viewMatrix := ReadSingles(p, 16);
    if !ok { return; }
    ok, projectionMatrix := ReadSingles(p, 16);
    if !ok { return; }
    v := View(x, y, width, height, viewMatrix, projectionMatrix);
  }

  method ReadRenderInfo(p: PipeServer) returns (ok: bool, info: RenderInfo)
    modifies p`inbox, p`readCompletions
    requires p.Intact()
    ensures p.Intact()
    ensures ok ==> DecodeRenderInfo(old(p.inbox)) == Some((info, p.inbox))
  {
    var frameCount, absoluteFrameTime, curTime, frameTime, view;
    info := RenderInfo(0, [0, 0, 0, 0], [0, 0, 0, 0], [0, 0, 0, 0], View(0, 0, 0, 0, [], []));
    ok, frameCount := p.ReadInt32();
    if !ok { return; }
    ok, absoluteFrameTime := p.ReadSingle();
    if !ok { return; }
    ok, curTime := p.ReadSingle();
    if !ok { return; }
    ok, frameTime := p.ReadSingle();
    if !ok { return; }
    ok, view := ReadView(p);
    if !ok { return; }
    info := RenderInfo(frameCount, absoluteFrameTime, curTime, frameTime, view);
  }

  // ---------------------------------------------------------------------------
  // The render-view reply: which passes the client wants to draw

  datatype Passes = Passes(
    beforeTranslucentShadow: bool, afterTranslucentShadow: bool,
    beforeTranslucent: bool, afterTranslucent: bool,
    beforeHud: bool, afterHud: bool, afterRenderView: bool)

  /** What the reply holds when no render-view-begin callback sets it. */
  const NoPasses := Passes(false, false, false, false, false, false, false)

  predicate AnyPass(q: Passes)
  {
    q.beforeTranslucentShadow || q.afterTranslucentShadow || q.beforeTranslucent || q.afterTranslucent
      || q.beforeHud || q.afterHud || q.afterRenderView
  }

  /** The seven flags in the order they are written. */
  function Flags(q: Passes): seq<bool>
  {
    [q.beforeTranslucentShadow, q.afterTranslucentShadow, q.beforeTranslucent, q.afterTranslucent,
     q.beforeHud, q.afterHud, q.afterRenderView]
  }

  function EncodePasses(q: Passes): Bytes
  {
    Concat(Flags(q), EncodeBoolean)
  }

  function DecodeFlags(bs: Bytes, n: nat): (r: Decoded<seq<bool>>)
    ensures r.Some? ==> |r.value.0| == n && |r.value.1| <= |bs|
    decreases n
  {
    if n == 0 then Some(([], bs))
    else
      var first :- DecodeBoolean(bs);
      Prefixed([first.0], DecodeFlags(first.1, n - 1))
  }

  /** How the client reads the reply. */
  function DecodePasses(bs: Bytes): (r: Decoded<Passes>)
  {
    var f :- DecodeFlags(bs, 7);
    var q := f.0;
    Some((Passes(q[0], q[1], q[2], q[3], q[4], q[5], q[6]), f.1))
  }

  lemma {:induction false} FlagsRoundTrip(fs: seq<bool>, rest: Bytes)
    ensures DecodeFlags(Concat(fs, EncodeBoolean) + rest, |fs|) == Some((fs, rest))
  {
    if fs == [] {
      assert Concat(fs, EncodeBoolean) + rest == rest;
    } else {
      AppendAssociative(EncodeBoolean(fs[0]), Concat(fs[1..], EncodeBoolean), rest);
      BooleanRoundTrip(fs[0], Concat(fs[1..], EncodeBoolean) + rest);
      FlagsRoundTrip(fs[1..], rest);
      assert [fs[0]] + fs[1..] == fs;
    }
  }

  /** The client reads back exactly the passes the host chose. */
  lemma PassesRoundTrip(q: Passes, rest: Bytes)
    ensures DecodePasses(EncodePasses(q) + rest) == Some((q, rest))
  {
    FlagsRoundTrip(Flags(q), rest);
  }

  method WritePasses(p: PipeServer, q: Passes) returns (ok: bool)
    modifies p`outbox, p`writeCompletions
    ensures ok ==> p.outbox == old(p.outbox) + EncodePasses(q)
  {
    var fs := Flags(q);
    ok := true;
    var i := 0;
    while i < |fs|
      invariant 0 <= i <= |fs|
      invariant p.outbox == old(p.outbox) + Concat(fs[..i], EncodeBoolean)
    {
      ok := p.WriteBoolean(fs[i]);
      if !ok {
        return;
      }
      assert fs[..i + 1] == fs[..i] + [fs[i]];
      ConcatAppend(fs[..i], fs[i], EncodeBoolean);
      AppendAssociative(old(p.outbox), Concat(fs[..i], EncodeBoolean), EncodeBoolean(fs[i]));
      i := i + 1;
    }
    assert fs[..i] == fs;
  }

  // ---------------------------------------------------------------------------
  // The view-override reply

  /** Camera position, rotation and field of view the view-override callback supplies. */
  datatype ViewOverride = ViewOverride(tx: Single, ty: Single, tz: Single, rx: Single, ry: Single, rz: Single, fov: Single)

  function OverrideValues(v: ViewOverride): seq<Single>
  {
    [v.tx, v.ty, v.tz, v.rx, v.ry, v.rz, v.fov]
  }

  /** `false` when the view is not overridden, else `true` and the seven values. */
  function OverrideReply(o: Option<ViewOverride>): Bytes
  {
    match o
    case None => EncodeBoolean(false)
    case Some(v) => EncodeBoolean(true) + EncodeSingles(OverrideValues(v))
  }

  function DecodeOverrideReply(bs: Bytes): (r: Decoded<Option<ViewOverride>>)
  {
    var overridden :- DecodeBoolean(bs);
    if !overridden.0 then Some((None, overridden.1))
    else
      var vs :- DecodeSingles(overridden.1, 7);
      var v := vs.0;
      Some((Some(ViewOverride(v[0], v[1], v[2], v[3], v[4], v[5], v[6])), vs.1))
  }

  /** The client reads back exactly the override the host sent. */
  lemma OverrideReplyRoundTrip(o: Option<ViewOverride>, rest: Bytes)
    ensures DecodeOverrideReply(OverrideReply(o) + rest) == Some((o, rest))
  {
    if o.None? {
      BooleanRoundTrip(false, rest);
    } else {
      var vs := OverrideValues(o.value);
      AppendAssociative(EncodeBoolean(true), EncodeSingles(vs), rest);
      BooleanRoundTrip(true, EncodeSingles(vs) + rest);
      SinglesRoundTrip(vs, rest);
    }
  }

  method WriteOverrideReply(p: PipeServer, o: Option<ViewOverride>) returns (ok: bool)
    modifies p`outbox, p`writeCompletions
    ensures ok ==> p.outbox == old(p.outbox) + OverrideReply(o)
  {
    ok := p.WriteBoolean(o.Some?);
    if ok && o.Some? {
      ok := WriteSingles(p, OverrideValues(o.value));
      AppendAssociative(old(p.outbox), EncodeBoolean(true), EncodeSingles(OverrideValues(o.value)));
    }
  }

  // ---------------------------------------------------------------------------
  // Callback slots and the references they hold

  /** The callbacks a host sets on the engine interop (the game-event one lives in GameEvents). */
  datatype Slot =
    | CommandsSlot | RenderViewBeginSlot | NewConnectionSlot | ViewOverrideSlot
    | RenderPassSlot | HudBeginSlot | HudEndSlot | RenderViewEndSlot

  const AllSlots: seq<Slot> := [CommandsSlot, RenderViewBeginSlot, NewConnectionSlot, ViewOverrideSlot,
                                RenderPassSlot, HudBeginSlot, HudEndSlot, RenderViewEndSlot]

  /** The callback each set slot holds (a null pointer is an absent slot). */
  type Slots = map<Slot, CallbackId>

  function Bound(slots: Slots, slot: Slot): Option<CallbackId>
  {
    if slot in slots then Some(slots[slot]) else None
  }

  function Taken(c: Option<CallbackId>): multiset<CallbackId>
  {
    if c.Some? then multiset{c.value} else multiset{}
  }

  function Rebind(slots: Slots, slot: Slot, c: Option<CallbackId>): (r: Slots)
    ensures Bound(r, slot) == c
    ensures forall other :: other != slot ==> Bound(r, other) == Bound(slots, other)
  {
    if c.Some? then slots[slot := c.value] else slots - {slot}
  }

  /** The references the slots listed in `order` hold, one per set slot. */
  function HeldBy(slots: Slots, order: seq<Slot>): multiset<CallbackId>
  {
    if order == [] then multiset{} else Taken(Bound(slots, order[0])) + HeldBy(slots, order[1..])
  }

  function Held(slots: Slots): multiset<CallbackId>
  {
    HeldBy(slots, AllSlots)
  }

  /** A setter releases the callback the slot held and takes a reference on the new one. */
  function SetRefs(refs: multiset<CallbackId>, slots: Slots, slot: Slot, c: Option<CallbackId>): multiset<CallbackId>
  {
    refs - Taken(Bound(slots, slot)) + Taken(c)
  }

  /** `SetHudBeginCallback` as written: it releases the old callback but takes no reference on the new one. */
  function SetRefsAsWritten(refs: multiset<CallbackId>, slots: Slots, slot: Slot, c: Option<CallbackId>): multiset<CallbackId>
  {
    if slot == HudBeginSlot then refs - Taken(Bound(slots, slot)) else SetRefs(refs, slots, slot, c)
  }

  lemma {:induction false} HeldByOthers(slots: Slots, order: seq<Slot>, slot: Slot, c: Option<CallbackId>)
    requires slot !in order
    ensures HeldBy(Rebind(slots, slot, c), order) == HeldBy(slots, order)
  {
    if order != [] {
      var r := Rebind(slots, slot, c);
      assert order[0] != slot;
      assert Bound(r, order[0]) == Bound(slots, order[0]);
      assert slot !in order[1..] by {
        assert forall x :: x in order[1..] ==> x in order;
      }
      HeldByOthers(slots, order[1..], slot, c);
    }
  }

  lemma {:induction false} HeldByRebind(slots: Slots, order: seq<Slot>, slot: Slot, c: Option<CallbackId>)
    requires slot in order
    requires forall i, j :: 0 <= i < j < |order| ==> order[i] != order[j]
    ensures HeldBy(Rebind(slots, slot, c), order) == HeldBy(slots, order) - Taken(Bound(slots, slot)) + Taken(c)
  {
    var r := Rebind(slots, slot, c);
    var rest := order[1..];
    var old0 := Taken(Bound(slots, order[0]));
    assert HeldBy(slots, order) == old0 + HeldBy(slots, rest);
    assert HeldBy(r, order) == Taken(Bound(r, order[0])) + HeldBy(r, rest);
    if order[0] == slot {
      assert slot !in rest by {
        forall k | 0 <= k < |rest|
          ensures rest[k] != slot
        {
          assert rest[k] == order[k + 1];
        }
      }
      HeldByOthers(slots, rest, slot, c);
      MultisetSwap(old0, HeldBy(slots, rest), Taken(c));
    } else {
      assert slot in rest;
      assert forall i, j :: 0 <= i < j < |rest| ==> rest[i] != rest[j] by {
        forall i, j | 0 <= i < j < |rest|
          ensures rest[i] != rest[j]
        {
          assert rest[i] == order[i + 1] && rest[j] == order[j + 1];
        }
      }
      HeldByRebind(slots, rest, slot, c);
      HeldByContains(slots, rest, slot);
      assert Bound(r, order[0]) == Bound(slots, order[0]);
      MultisetShift(old0, HeldBy(slots, rest), Taken(Bound(slots, slot)), Taken(c));
    }
  }

  lemma MultisetSwap(x: multiset<CallbackId>, h: multiset<CallbackId>, y: multiset<CallbackId>)
    ensures y + h == x + h - x + y
  {
  }

  lemma MultisetShift(a: multiset<CallbackId>, h: multiset<CallbackId>, x: multiset<CallbackId>, y: multiset<CallbackId>)
    requires x <= h
    ensures a + (h - x + y) == a + h - x + y
  {
  }

  lemma {:induction false} HeldByContains(slots: Slots, order: seq<Slot>, slot: Slot)
    requires slot in order
    ensures Taken(Bound(slots, slot)) <= HeldBy(slots, order)
  {
    if order[0] != slot {
      HeldByContains(slots, order[1..], slot);
    }
  }

  lemma AllSlotsDistinct()
    ensures forall i, j :: 0 <= i < j < |AllSlots| ==> AllSlots[i] != AllSlots[j]
  {
  }

  /** Every setter keeps the reference count equal to the references the slots hold. */
  lemma SetKeepsBalance(refs: multiset<CallbackId>, slots: Slots, slot: Slot, c: Option<CallbackId>)
    requires refs == Held(slots)
    ensures SetRefs(refs, slots, slot, c) == Held(Rebind(slots, slot, c))
  {
    AllSlotsDistinct();
    assert slot in AllSlots;
    HeldByRebind(slots, AllSlots, slot, c);
  }

  /**
    Setting a hud-begin callback as written leaves it held without a reference:
    the count falls one short, and the release when the slot is next set (or the
    interop destroyed) drops a reference the interop never took.
  */
  lemma HudBeginAsWrittenLosesReference(refs: multiset<CallbackId>, slots: Slots, c: CallbackId)
    requires refs == Held(slots)
    ensures SetRefsAsWritten(refs, slots, HudBeginSlot, Some(c)) != Held(Rebind(slots, HudBeginSlot, Some(c)))
    ensures SetRefsAsWritten(refs, slots, HudBeginSlot, Some(c))[c] + 1 == Held(Rebind(slots, HudBeginSlot, Some(c)))[c]
  {
    SetKeepsBalance(refs, slots, HudBeginSlot, Some(c));
  }

  lemma {:induction false} EmptyHoldsNothing(order: seq<Slot>)
    ensures HeldBy(map[], order) == multiset{}
  {
    if order != [] {
      EmptyHoldsNothing(order[1..]);
    }
  }

  /** With no slot set the interop holds no reference. */
  lemma NothingHeld()
    ensures Held(map[]) == multiset{}
  {
    EmptyHoldsNothing(AllSlots);
  }

  // ---------------------------------------------------------------------------
  // What the interop calls back, in order

  datatype Call =
    | CommandsCall(commands: seq<Command>)
    | RenderViewBeginCall(info: RenderInfo)
    | RenderViewEndCall
    | HudBeginCall
    | HudEndCall
    | RenderPassCall(pass: RenderPass, view: View)
    | ViewOverrideCall
    | NewConnectionCall
    | GameEventCall(event: GameEvent)
    | CalcCalls(kind: Kind, deliveries: seq<Delivery>)

  /** One message the loop handled, and the passes the render-view reply asked for (none for other messages). */
  datatype Step = Step(message: int32, passes: Passes)

  /** The loop ends at the render-view end, or at a render view whose reply asks for no pass. */
  predicate EndsLoop(s: Step)
  {
    s.message == OnRenderViewEnd || (s.message == OnRenderView && !AnyPass(s.passes))
  }

  /**
    The messages `trace` handled so far by the connection loop: none but the
    last ends it, the last does exactly when the loop is `done`, and without a
    render-view-begin callback no pass is ever asked for.
  */
  ghost predicate Served(trace: seq<Step>, done: bool, noBegin: bool)
  {
    && (done ==> trace != [] && EndsLoop(trace[|trace| - 1]))
    && (!done ==> forall i :: 0 <= i < |trace| ==> !EndsLoop(trace[i]))
    && (forall i :: 0 <= i < |trace| - 1 ==> !EndsLoop(trace[i]))
    && (noBegin ==> forall i :: 0 <= i < |trace| ==> trace[i].passes == NoPasses)
  }

  lemma ServedStep(trace: seq<Step>, step: Step, noBegin: bool)
    requires Served(trace, false, noBegin)
    requires noBegin ==> step.passes == NoPasses
    ensures Served(trace + [step], EndsLoop(step), noBegin)
  {
    var t := trace + [step];
    assert forall i :: 0 <= i < |trace| ==> t[i] == trace[i];
  }

  /** Without passes asked for, every render view ends the loop, so only the last message can be one. */
  lemma ServedFacts(trace: seq<Step>, done: bool, noBegin: bool)
    requires Served(trace, done, noBegin)
    ensures done ==> trace != [] && EndsLoop(trace[|trace| - 1])
    ensures forall i :: 0 <= i < |trace| - 1 ==> !EndsLoop(trace[i])
    ensures noBegin ==> forall i :: 0 <= i < |trace| ==> trace[i].passes == NoPasses
    ensures noBegin ==> forall i :: 0 <= i < |trace| - 1 ==> trace[i].message != OnRenderView
  {
    if noBegin {
      forall i | 0 <= i < |trace| - 1
        ensures trace[i].message != OnRenderView
      {
        assert !EndsLoop(trace[i]);
        assert trace[i].passes == NoPasses;
      }
    }
  }

  /** How many of the messages in `trace` are render views. */
  function RenderViews(trace: seq<Step>): (n: nat)
    ensures n <= |trace|
  {
    if trace == [] then 0
    else RenderViews(trace[..|trace| - 1]) + (if trace[|trace| - 1].message == OnRenderView then 1 else 0)
  }

  /** The `k`-th answer of the render-view-begin callback; none once they run out. */
  function ReplyAt(replies: seq<Passes>, k: nat): Passes
  {
    if k < |replies| then replies[k] else NoPasses
  }

  /**
    The passes of every render view in `trace` are the callback's answer to that
    render view, counted from the first; no other message asks for passes, and
    without the callback (`begin` false) nothing does.
  */
  ghost predicate Replied(trace: seq<Step>, replies: seq<Passes>, begin: bool)
  {
    forall i :: 0 <= i < |trace| ==>
      trace[i].passes == if begin && trace[i].message == OnRenderView then ReplyAt(replies, RenderViews(trace[..i])) else NoPasses
  }

  lemma {:induction false} RepliedStep(trace: seq<Step>, replies: seq<Passes>, begin: bool, step: Step)
    requires Replied(trace, replies, begin)
    requires step.passes == if begin && step.message == OnRenderView then ReplyAt(replies, RenderViews(trace)) else NoPasses
    ensures Replied(trace + [step], replies, begin)
    ensures RenderViews(trace + [step]) == RenderViews(trace) + (if step.message == OnRenderView then 1 else 0)
  {
    var t := trace + [step];
    assert t[..|trace|] == trace;
    forall i | 0 <= i < |trace|
      ensures t[..i] == trace[..i] && t[i] == trace[i]
    {
    }
  }

  /**
    `inputs[i]` is the input in front of the `i`-th message handled: it opens
    with that message's int32, the first is `start`, and each later one lies
    past the message before it, where the handler of that message left off.
  */
  ghost predicate ReadInOrder(start: Bytes, inputs: seq<Bytes>, trace: seq<Step>)
  {
    && |inputs| == |trace|
    && (forall i :: 0 <= i < |trace| ==> DecodeInt32(inputs[i]).Some? && DecodeInt32(inputs[i]).value.0 == trace[i].message)
    && (inputs != [] ==> inputs[0] == start)
    && (forall i :: 0 <= i < |inputs| - 1 ==> Consumed(DecodeInt32(inputs[i]).value.1, inputs[i + 1]))
  }

  /** `rest` lies past the last message read, or is `start` when none was. */
  ghost predicate ReadUpTo(start: Bytes, inputs: seq<Bytes>, rest: Bytes)
  {
    if inputs == [] then rest == start
    else DecodeInt32(inputs[|inputs| - 1]).Some? && Consumed(DecodeInt32(inputs[|inputs| - 1]).value.1, rest)
  }

  /**
    Handling one more message, read from `input` and handled up to `rest`, all
    three tails of one `stream`, keeps the inputs in order.
  */
  lemma {:induction false} ReadInOrderStep(start: Bytes, inputs: seq<Bytes>, trace: seq<Step>, input: Bytes, step: Step, stream: Bytes, rest: Bytes)
    requires ReadInOrder(start, inputs, trace) && ReadUpTo(start, inputs, input)
    requires DecodeInt32(input).Some? && DecodeInt32(input).value.0 == step.message
    requires Consumed(stream, DecodeInt32(input).value.1) && Consumed(stream, rest)
    requires |rest| <= |DecodeInt32(input).value.1|
    ensures ReadInOrder(start, inputs + [input], trace + [step])
    ensures ReadUpTo(start, inputs + [input], rest)
  {
    TailsOfOneStream(stream, DecodeInt32(input).value.1, rest);
    var ins, t := inputs + [input], trace + [step];
    forall i | 0 <= i < |trace|
      ensures ins[i] == inputs[i] && t[i] == trace[i]
    {
    }
  }

  /**
    Where the connection loop stands after handling `trace`: the messages were
    read in order from `start` and the loop is `done` exactly when the last of
    them ends it; each render view got the callback's next reply, `r` of them
    so far; and while the loop goes on (`ok`) the input left is `rest`.
  */
  ghost predicate Progress(start: Bytes, rest: Bytes, ok: bool, inputs: seq<Bytes>, trace: seq<Step>, done: bool,
                           replies: seq<Passes>, begin: bool, r: nat)
  {
    && Served(trace, done, !begin)
    && ReadInOrder(start, inputs, trace)
    && (ok ==> ReadUpTo(start, inputs, rest))
    && Replied(trace, replies, begin)
    && (begin ==> r == RenderViews(trace))
  }

  /** One more message, read from `input` and handled up to `rest`, all tails of one `stream`. */
  lemma ProgressStep(start: Bytes, inputs: seq<Bytes>, trace: seq<Step>, input: Bytes, step: Step, stream: Bytes, rest: Bytes,
                     ok: bool, replies: seq<Passes>, begin: bool, r: nat)
    requires Progress(start, input, true, inputs, trace, false, replies, begin, r)
    requires DecodeInt32(input).Some? && DecodeInt32(input).value.0 == step.message
    requires step.passes == if begin && step.message == OnRenderView then ReplyAt(replies, r) else NoPasses
    requires Consumed(stream, DecodeInt32(input).value.1)
    requires ok ==> Consumed(stream, rest) && |rest| <= |DecodeInt32(input).value.1|
    ensures Progress(start, rest, ok, inputs + [input], trace + [step], EndsLoop(step), replies, begin,
                     if begin && step.message == OnRenderView then r + 1 else r)
  {
    ServedStep(trace, step, !begin);
    RepliedStep(trace, replies, begin, step);
    var after := DecodeInt32(input).value.1;
    ReadInOrderStep(start, inputs, trace, input, step, stream, if ok then rest else after);
  }

  /** The request part of AfterFrameRenderStart for one registry: its names, in ascending order. */
  ghost function RequestOf(r: Registry): Bytes
    reads r
  {
    EncodeStringList(SortedNames(r.entries.Keys))
  }

  /** Appending six pieces one by one appends their concatenation. */
  lemma AppendSix(o: Bytes, a: Bytes, b: Bytes, c: Bytes, d: Bytes, e: Bytes, f: Bytes)
    ensures o + a + b + c + d + e + f == o + (a + b + c + d + e + f)
  {
    AppendAssociative(o, a, b);
    AppendAssociative(o, a + b, c);
    AppendAssociative(o, a + b + c, d);
    AppendAssociative(o, a + b + c + d, e);
    AppendAssociative(o, a + b + c + d + e, f);
  }

  /**
    The first part of OnNewConnection: the version goes out and is flushed,
    the client answers whether it supports it, and a supporting client learns
    that the host is a 32-bit process.
  */
  method OfferVersion(p: PipeServer) returns (ok: bool)
    modifies p`inbox, p`outbox, p`readCompletions, p`writeCompletions, p`flushResults
    requires p.Intact()
    ensures p.Intact()
    ensures ok ==> DecodeBoolean(old(p.inbox)) == Some((true, p.inbox))
    ensures ok ==> p.outbox == old(p.outbox) + EncodeInt32(Version) + EncodeBoolean(false)
  {
    ok := p.WriteInt32(Version);
    if !ok { return; }
    ok := p.Flush();
    if !ok { return; }
    var supported;
    ok, supported := p.ReadBoolean();
    if !ok { return; }
    if !supported {
      ok := false;
      return;
    }
    ok := p.WriteBoolean(false);
  }

  /** The game-event state of a new interop: no filters, no enrichments, no callback. */
  method NewGameEvents() returns (g: GameEvents)
    ensures fresh(g) && g.Valid() && g.callback == None && g.knownEvents == map[]
  {
    g := new GameEvents();
  }

  /** An empty registry of answers of `kind`. */
  method NewRegistry(kind: Kind) returns (r: Registry)
    ensures fresh(r) && r.kind == kind && r.entries == map[]
  {
    r := new Registry(kind);
  }

  /** The queue once the commands callback, when one is set, has scheduled `scheduled`. */
  function Queued(queue: seq<Bytes>, hasCallback: bool, scheduled: seq<Bytes>): (r: seq<Bytes>)
    ensures |queue| <= |r| && r[..|queue|] == queue
    ensures hasCallback ==> r[|queue|..] == scheduled
    ensures !hasCallback ==> r == queue
  {
    if hasCallback then queue + scheduled else queue
  }

  /** The call of the commands callback, when one is set. */
  function CommandsCalls(hasCallback: bool, commands: seq<Command>): seq<Call>
  {
    if hasCallback then [CommandsCall(commands)] else []
  }

  // ---------------------------------------------------------------------------
  // The engine interop object

  class EngineInterop {
    /** The pipe server, or null while none is open. */
    var pipe: PipeServer?
    /** A pipe was opened and its client has not been through the handshake yet. */
    var connecting: bool
    /** Commands scheduled for the client, oldest first. */
    var commands: seq<Bytes>
    var slots: Slots
    /** The references the interop holds on the callbacks in its slots. */
    var refs: multiset<CallbackId>
    const handleCalcs: Registry
    const vecAngCalcs: Registry
    const camCalcs: Registry
    const fovCalcs: Registry
    const boolCalcs: Registry
    const intCalcs: Registry
    const gameEvents: GameEvents

    /** A pipe past its handshake is connected, and the game-event state is consistent. */
    ghost predicate Valid()
      reads this`pipe, this`connecting, pipe
      reads gameEvents`settings, gameEvents`sent, gameEvents`refs, gameEvents`callback
    {
      && (pipe != null && !connecting ==> pipe.state.Connected?)
      && (pipe != null ==> pipe.Intact())
      && gameEvents.Valid()
    }

    /** The interop holds exactly one reference per set slot. */
    ghost predicate Balanced()
      reads this`slots, this`refs
    {
      refs == Held(slots)
    }

    constructor ()
      ensures Valid() && Balanced()
      ensures pipe == null && !connecting && commands == [] && slots == map[] && refs == multiset{}
      ensures handleCalcs.kind == HandleCalc && vecAngCalcs.kind == VecAngCalc && camCalcs.kind == CamCalc
      ensures fovCalcs.kind == FovCalc && boolCalcs.kind == BoolCalc && intCalcs.kind == IntCalc
    {
      var g := NewGameEvents();
      var h := NewRegistry(HandleCalc);
      var v := NewRegistry(VecAngCalc);
      var c := NewRegistry(CamCalc);
      var f := NewRegistry(FovCalc);
      var b := NewRegistry(BoolCalc);
      var i := NewRegistry(IntCalc);
      NothingHeld();
      pipe, connecting, commands := null, false, [];
      slots, refs := map[], multiset{};
      handleCalcs, vecAngCalcs, camCalcs, fovCalcs, boolCalcs, intCalcs := h, v, c, f, b, i;
      gameEvents := g;
    }

    function Connected(): bool
      reads this
    {
      pipe != null && !connecting
    }

    method Close()
      modifies this`pipe
      ensures pipe == null
    {
      pipe := null;
    }

    /** `ScheduleCommand`: the command joins the back of the queue. */
    method ScheduleCommand(command: Bytes)
      modifies this`commands
      ensures commands == old(commands) + [command]
    {
      commands := commands + [command];
    }

    /**
      The callback setters (`SetCommandsCallback` and the others): the slot gets
      the new callback, the old one is released and the new one referenced.
    */
    method SetCallback(slot: Slot, c: Option<CallbackId>)
      requires Balanced()
      modifies this`slots, this`refs
      ensures Balanced()
      ensures Bound(slots, slot) == c
      ensures forall other :: other != slot ==> Bound(slots, other) == Bound(old(slots), other)
      ensures refs == old(refs) - Taken(Bound(old(slots), slot)) + Taken(c)
    {
      SetKeepsBalance(refs, slots, slot, c);
      refs := SetRefs(refs, slots, slot, c);
      slots := Rebind(slots, slot, c);
    }

    /**
      BeforeFrameStart: reads the client's commands and hands them to the
      commands callback, then sends the queued commands and empties the queue.
      `scheduled` is what the callback schedules while it runs; it joins the
      queue before the queue is sent.
    */
    method FrameStart(p: PipeServer, scheduled: seq<Bytes>) returns (ok: bool, received: seq<Command>, calls: seq<Call>)
      modifies this`commands, p`inbox, p`outbox, p`readCompletions, p`writeCompletions, p`flushResults
      requires p.Intact()
      ensures p.Intact()
      ensures ok ==> DecodeCommands(old(p.inbox)) == Some((received, p.inbox))
      ensures ok ==> calls == CommandsCalls(CommandsSlot in slots, received)
      ensures ok ==> commands == [] && p.outbox == old(p.outbox) + EncodeStringList(Queued(old(commands), CommandsSlot in slots, scheduled))
      ensures var queue := Queued(old(commands), CommandsSlot in slots, scheduled);
        commands == old(commands) || (|commands| <= |queue| && commands == queue[|queue| - |commands|..])
    {
      calls := [];
      ok, received := ReadCommands(p);
      if !ok {
        return;
      }
      calls := CommandsCalls(CommandsSlot in slots, received);
      commands := Queued(commands, CommandsSlot in slots, scheduled);
      var queue := commands;
      var left;
      ok, left := SendQueue(p, queue);
      commands := left;
      if ok {
        ok := p.Flush();
      }
    }

    /** The calc registries in the order AfterFrameRenderStart serves them. */
    function Registries(): seq<Registry>
      reads this
    {
      [handleCalcs, vecAngCalcs, camCalcs, fovCalcs, boolCalcs, intCalcs]
    }

    /** What AfterFrameRenderStart sends: each registry's names, registry after registry. */
    ghost function Requests(): Bytes
      reads handleCalcs, vecAngCalcs, camCalcs, fovCalcs, boolCalcs, intCalcs
    {
      RequestOf(handleCalcs) + RequestOf(vecAngCalcs) + RequestOf(camCalcs)
      + RequestOf(fovCalcs) + RequestOf(boolCalcs) + RequestOf(intCalcs)
    }

    /**
      AfterFrameRenderStart: every registry sends its request, in the order
      handle, vector-angles, camera, field of view, boolean, integer; after a
      flush every registry reads its answers in the same order.
    */
    method UpdateCalcs(p: PipeServer) returns (ok: bool, calls: seq<Call>)
      modifies p`inbox, p`outbox, p`readCompletions, p`writeCompletions, p`flushResults
      requires p.Intact()
      ensures p.Intact()
      ensures ok ==> p.outbox == old(p.outbox) + Requests()
      ensures ok ==> |p.inbox| <= |old(p.inbox)|
    {
      calls := [];
      ok := SendRequests(p);
      if !ok { return; }
      ok := p.Flush();
      if !ok { return; }
      ok, calls := ReadAllAnswers(p);
    }

    method SendRequests(p: PipeServer) returns (ok: bool)
      modifies p`outbox, p`writeCompletions
      ensures ok ==> p.outbox == old(p.outbox) + Requests()
    {
      ghost var o0 := p.outbox;
      ok := handleCalcs.BatchUpdateRequest(p);
      if !ok { return; }
      ghost var o1 := p.outbox;
      ok := vecAngCalcs.BatchUpdateRequest(p);
      if !ok { return; }
      ghost var o2 := p.outbox;
      ok := camCalcs.BatchUpdateRequest(p);
      if !ok { return; }
      ghost var o3 := p.outbox;
      ok := fovCalcs.BatchUpdateRequest(p);
      if !ok { return; }
      ghost var o4 := p.outbox;
      ok := boolCalcs.BatchUpdateRequest(p);
      if !ok { return; }
      ghost var o5 := p.outbox;
      ok := intCalcs.BatchUpdateRequest(p);
      if ok {
        assert o1 == o0 + RequestOf(handleCalcs);
        assert o2 == o1 + RequestOf(vecAngCalcs);
        assert o3 == o2 + RequestOf(camCalcs);
        assert o4 == o3 + RequestOf(fovCalcs);
        assert o5 == o4 + RequestOf(boolCalcs);
        assert p.outbox == o5 + RequestOf(intCalcs);
        AppendSix(o0, RequestOf(handleCalcs), RequestOf(vecAngCalcs), RequestOf(camCalcs),
                  RequestOf(fovCalcs), RequestOf(boolCalcs), RequestOf(intCalcs));
      }
    }

    method ReadAllAnswers(p: PipeServer) returns (ok: bool, calls: seq<Call>)
      modifies p`inbox, p`readCompletions
      requires p.Intact()
      ensures p.Intact()
      ensures ok ==> |p.inbox| <= |old(p.inbox)|
      ensures ok ==> |calls| == |Registries()|
      ensures forall i :: 0 <= i < |calls| ==> calls[i].CalcCalls? && i < |Registries()| && calls[i].kind == Registries()[i].kind
    {
      calls := [];
      var regs := Registries();
      var i := 0;
      ok := true;
      while ok && i < |regs|
        invariant p.Intact()
        invariant 0 <= i <= |regs| && |calls| == i
        invariant ok ==> |p.inbox| <= |old(p.inbox)|
        invariant forall j :: 0 <= j < |calls| ==> calls[j].CalcCalls? && calls[j].kind == regs[j].kind
      {
        var answers, ds;
        ok, answers, ds := regs[i].BatchUpdateResult(p);
        calls, i := calls + [CalcCalls(regs[i].kind, ds)], i + 1;
      }
    }

    /**
      OnNewConnection: announces the version, learns whether the client
      supports it, tells the client it runs in a 32-bit host and sends the full
      game-event settings; then the new-connection callback runs.
    */
    method Handshake(p: PipeServer) returns (ok: bool, calls: seq<Call>)
      requires gameEvents.Valid()
      modifies gameEvents`settings, gameEvents`knownEvents, gameEvents`sent
      modifies p`inbox, p`outbox, p`readCompletions, p`writeCompletions, p`flushResults
      requires p.Intact()
      ensures p.Intact()
      ensures gameEvents.Valid()
      ensures ok ==> DecodeBoolean(old(p.inbox)) == Some((true, p.inbox))
      ensures ok ==> p.outbox == old(p.outbox) + EncodeInt32(Version) + EncodeBoolean(false)
                                + SettingsMessage(old(gameEvents.callback).Some?, false, old(gameEvents.settings))
      ensures calls == if ok && NewConnectionSlot in slots then [NewConnectionCall] else []
      ensures ok ==> AfterWrite(old(gameEvents.settings), gameEvents.settings, old(gameEvents.callback).Some?, false, true)
      ensures ok && old(gameEvents.callback).Some? ==> gameEvents.knownEvents == map[]
      ensures old(gameEvents.callback).None? ==> gameEvents.knownEvents == old(gameEvents.knownEvents)
    {
      ok := OfferVersion(p);
      if ok {
        ok := gameEvents.WriteSettings(p, false);
      }
      if ok {
        ok := p.Flush();
      }
      calls := if ok && NewConnectionSlot in slots then [NewConnectionCall] else [];
    }

    /**
      OnRenderView: reads the render info, lets the render-view-begin callback
      choose the passes (`reply` is its answer; without the callback none is
      chosen) and sends the seven pass flags.
    */
    method RenderView(p: PipeServer, reply: Passes) returns (ok: bool, info: RenderInfo, passes: Passes, calls: seq<Call>)
      modifies p`inbox, p`outbox, p`readCompletions, p`writeCompletions
      requires p.Intact()
      ensures p.Intact()
      ensures passes == if RenderViewBeginSlot in slots then reply else NoPasses
      ensures ok ==> DecodeRenderInfo(old(p.inbox)) == Some((info, p.inbox))
      ensures ok ==> calls == if RenderViewBeginSlot in slots then [RenderViewBeginCall(info)] else []
      ensures ok ==> p.outbox == old(p.outbox) + EncodePasses(passes)
    {
      calls := [];
      passes := if RenderViewBeginSlot in slots then reply else NoPasses;
      ok, info := ReadRenderInfo(p);
      if !ok { return; }
      calls := if RenderViewBeginSlot in slots then [RenderViewBeginCall(info)] else [];
      ok := WritePasses(p, passes);
    }

    /**
      OnViewOverride: the view-override callback's answer (`answer`; without
      the callback, no override) is sent and flushed.
    */
    method ViewOverrideReply(p: PipeServer, answer: Option<ViewOverride>) returns (ok: bool, calls: seq<Call>)
      modifies p`outbox, p`writeCompletions, p`flushResults
      ensures ok ==> p.outbox == old(p.outbox) + OverrideReply(if ViewOverrideSlot in slots then answer else None)
      ensures calls == if ViewOverrideSlot in slots then [ViewOverrideCall] else []
    {
      var o := if ViewOverrideSlot in slots then answer else None;
      calls := if ViewOverrideSlot in slots then [ViewOverrideCall] else [];
      ok := WriteOverrideReply(p, o);
      if ok {
        ok := p.Flush();
      }
    }

    /** `DoRenderPass`: reads the pass's view and hands it to the render-pass callback. */
    method RenderPassView(p: PipeServer, pass: RenderPass) returns (ok: bool, v: View, calls: seq<Call>)
      modifies p`inbox, p`readCompletions
      requires p.Intact()
      ensures p.Intact()
      ensures ok ==> DecodeView(old(p.inbox)) == Some((v, p.inbox))
      ensures ok ==> calls == if RenderPassSlot in slots then [RenderPassCall(pass, v)] else []
    {
      calls := [];
      ok, v := ReadView(p);
      if ok {
        calls := if RenderPassSlot in slots then [RenderPassCall(pass, v)] else [];
      }
    }

    /** The notification a message without payload triggers, if its slot is set. */
    function Notification(message: int32): seq<Call>
      reads this
    {
      if message == OnRenderViewEnd && RenderViewEndSlot in slots then [RenderViewEndCall]
      else if message == BeforeHud && HudBeginSlot in slots then [HudBeginCall]
      else if message == AfterHud && HudEndSlot in slots then [HudEndCall]
      else []
    }

    /**
      One message of the loop: `message` was read; `reply` and `answer` are
      what the render-view-begin and view-override callbacks would answer.
    */
    method HandleMessage(p: PipeServer, message: int32, reply: Passes, answer: Option<ViewOverride>, scheduled: seq<Bytes>)
        returns (ok: bool, step: Step, calls: seq<Call>)
      requires gameEvents.Valid()
      modifies this`commands, gameEvents`settings, gameEvents`knownEvents, gameEvents`sent
      modifies p`inbox, p`outbox, p`readCompletions, p`writeCompletions, p`flushResults
      requires p.Intact()
      ensures p.Intact()
      ensures gameEvents.Valid()
      ensures step.message == message
      ensures step.passes == if message == OnRenderView && RenderViewBeginSlot in slots then reply else NoPasses
      ensures ok ==> |p.inbox| <= |old(p.inbox)|
    {
      step := Step(message, NoPasses);
      if message == BeforeFrameStart || message == BeforeFrameRenderStart
         || message == AfterFrameRenderStart || message == GameEventMessage {
        ok, calls := FrameMessage(p, message, scheduled);
      } else {
        var passes;
        ok, passes, calls := ViewMessage(p, message, reply, answer);
        step := Step(message, passes);
      }
    }

    /** The messages about the frame as a whole: commands, game-event settings, calcs and game events. */
    method FrameMessage(p: PipeServer, message: int32, scheduled: seq<Bytes>) returns (ok: bool, calls: seq<Call>)
      requires gameEvents.Valid()
      modifies this`commands, gameEvents`settings, gameEvents`knownEvents, gameEvents`sent
      modifies p`inbox, p`outbox, p`readCompletions, p`writeCompletions, p`flushResults
      requires p.Intact()
      ensures p.Intact()
      ensures gameEvents.Valid()
      ensures ok ==> |p.inbox| <= |old(p.inbox)|
    {
      calls := [];
      ok := true;
      if message == BeforeFrameStart {
        var received;
        ok, received, calls := FrameStart(p, scheduled);
      } else if message == BeforeFrameRenderStart {
        ok := gameEvents.WriteSettings(p, true);
        if ok {
          ok := p.Flush();
        }
      } else if message == AfterFrameRenderStart {
        ok, calls := UpdateCalcs(p);
      } else if message == GameEventMessage {
        var event, delivered;
        ok, event, delivered := gameEvents.ReadGameEvent(p);
        calls := if delivered then [GameEventCall(event)] else [];
      }
    }

    /**
      The messages about views: the render view and its end, the view override,
      the render passes and the HUD notifications; unknown messages are ignored.
    */
    method ViewMessage(p: PipeServer, message: int32, reply: Passes, answer: Option<ViewOverride>)
        returns (ok: bool, passes: Passes, calls: seq<Call>)
      modifies p`inbox, p`outbox, p`readCompletions, p`writeCompletions, p`flushResults
      requires p.Intact()
      ensures p.Intact()
      ensures passes == if message == OnRenderView && RenderViewBeginSlot in slots then reply else NoPasses
      ensures ok ==> |p.inbox| <= |old(p.inbox)|
    {
      passes := NoPasses;
      ok := true;
      if message == OnRenderView {
        var info;
        ok, info, passes, calls := RenderView(p, reply);
      } else if message == OnViewOverride {
        ok, calls := ViewOverrideReply(p, answer);
      } else if PassOf(message).Some? {
        var v;
        ok, v, calls := RenderPassView(p, PassOf(message).value);
      } else {
        calls := Notification(message);
      }
    }

    /** One turn of the connection loop: the next message is read and handled. */
    method NextMessage(p: PipeServer, reply: Passes, answer: Option<ViewOverride>, scheduled: seq<Bytes>)
        returns (ok: bool, read: bool, step: Step, calls: seq<Call>)
      requires gameEvents.Valid()
      modifies this`commands, gameEvents`settings, gameEvents`knownEvents, gameEvents`sent
      modifies p`inbox, p`outbox, p`readCompletions, p`writeCompletions, p`flushResults
      requires p.Intact()
      ensures p.Intact()
      ensures gameEvents.Valid()
      ensures ok ==> read
      ensures read ==> DecodeInt32(old(p.inbox)).Some? && DecodeInt32(old(p.inbox)).value.0 == step.message
      ensures read ==> Consumed(p.stream, DecodeInt32(old(p.inbox)).value.1)
      ensures ok ==> |p.inbox| <= |DecodeInt32(old(p.inbox)).value.1|
      ensures read ==> step.passes == if step.message == OnRenderView && RenderViewBeginSlot in slots then reply else NoPasses
    {
      var message;
      read, message := p.ReadInt32();
      if !read {
        return false, false, Step(message, NoPasses), [];
      }
      ok, step, calls := HandleMessage(p, message, reply, answer, scheduled);
    }

    /**
      OnConnection: messages are read and handled until the render view ends,
      or until a render view whose reply asks for no pass.  `replies` and
      `answers` are what the render-view-begin and view-override callbacks
      answer, call after call (none once they run out), and `schedules` what
      the commands callback schedules, call after call.  `trace` records the
      messages handled and the passes each render view asked for.
    */
    method Serve(p: PipeServer, replies: seq<Passes>, answers: seq<Option<ViewOverride>>, schedules: seq<seq<Bytes>>)
        returns (ok: bool, calls: seq<Call>, ghost trace: seq<Step>, ghost inputs: seq<Bytes>)
      requires gameEvents.Valid()
      modifies this`commands, gameEvents`settings, gameEvents`knownEvents, gameEvents`sent
      modifies p`inbox, p`outbox, p`readCompletions, p`writeCompletions, p`flushResults
      requires p.Intact()
      ensures p.Intact()
      ensures gameEvents.Valid()
      ensures ok ==> trace != [] && EndsLoop(trace[|trace| - 1])
      ensures forall i :: 0 <= i < |trace| - 1 ==> !EndsLoop(trace[i])
      ensures RenderViewBeginSlot !in slots ==> forall i :: 0 <= i < |trace| ==> trace[i].passes == NoPasses
      ensures RenderViewBeginSlot !in slots ==> forall i :: 0 <= i < |trace| - 1 ==> trace[i].message != OnRenderView
      ensures ok ==> |p.inbox| < |old(p.inbox)|
      ensures ReadInOrder(old(p.inbox), inputs, trace)
      ensures ok ==> ReadUpTo(old(p.inbox), inputs, p.inbox)
      ensures Replied(trace, replies, RenderViewBeginSlot in slots)
    {
      calls, trace, inputs := [], [], [];
      ok := true;
      var done := false;
      var r, a, c := 0, 0, 0;
      ghost var noBegin := RenderViewBeginSlot !in slots;
      while ok && !done
        invariant p.Intact()
        invariant gameEvents.Valid()
        invariant Progress(old(p.inbox), p.inbox, ok, inputs, trace, done, replies, !noBegin, r)
        invariant ok ==> |p.inbox| <= |old(p.inbox)| && (trace != [] ==> |p.inbox| < |old(p.inbox)|)
        decreases ok && !done, |p.inbox|
      {
        ghost var input := p.inbox;
        var answer := if a < |answers| then answers[a] else None;
        var scheduled := if c < |schedules| then schedules[c] else [];
        var read, step, more;
        ok, read, step, more := NextMessage(p, ReplyAt(replies, r), answer, scheduled);
        if read {
          var message := step.message;
          ProgressStep(old(p.inbox), inputs, trace, input, step, p.stream, p.inbox, ok, replies, !noBegin, r);
          calls, trace, inputs := calls + more, trace + [step], inputs + [input];
          r := if message == OnRenderView && RenderViewBeginSlot in slots then r + 1 else r;
          a := if message == OnViewOverride && ViewOverrideSlot in slots then a + 1 else a;
          c := if message == BeforeFrameStart && CommandsSlot in slots then c + 1 else c;
          done := EndsLoop(step);
        }
      }
      ServedFacts(trace, done, noBegin);
    }

    /**
      One poll of the connection (`Connection`): a fresh pipe `server` is
      opened when none is, `event` is what its pending connect has done; a
      client that has just connected goes through the handshake, and a
      connected client is served one frame.  The pipe is closed when the
      connect broke or the exchange failed; true is returned exactly when it
      stays open.
    */
    method Connection(event: ConnectEvent, server: PipeServer, replies: seq<Passes>, answers: seq<Option<ViewOverride>>, schedules: seq<seq<Bytes>>)
        returns (ok: bool, calls: seq<Call>)
      requires Valid() && (pipe == null ==> server.Intact())
      modifies this`pipe, this`connecting, this`commands, gameEvents`settings, gameEvents`knownEvents, gameEvents`sent
      modifies pipe, server
      ensures Valid()
      ensures ok <==> pipe != null
      ensures pipe != null ==> pipe == Interop.Opened(old(pipe), server)
      ensures ok ==> (Connected() <==> pipe.state.Connected?)
      ensures var p := Interop.Opened(old(pipe), server);
        p.state.Connected? ==> (ok <==> Connected())
      ensures var p := Interop.Opened(old(pipe), server);
        ok && Connected() && (old(pipe) == null || old(connecting)) ==> DecodeBoolean(old(p.inbox)).Some? && DecodeBoolean(old(p.inbox)).value.0
      ensures var p := Interop.Opened(old(pipe), server);
        ok && Connected() ==> |p.inbox| < |old(p.inbox)|
      ensures var p := Interop.Opened(old(pipe), server);
        p.state.Waiting? ==> ok && pipe == p && connecting
      ensures var p := Interop.Opened(old(pipe), server);
        p.state.Error? ==> !ok && pipe == null
    {
      calls := [];
      if pipe == null {
        pipe, connecting := server, true;
      }
      var p := pipe;
      var s := p.Connect(event);
      if s.Connected? {
        var handshake := connecting;
        connecting := false;
        ok, calls := Exchange(p, handshake, replies, answers, schedules);
      } else {
        ok := s.Waiting?;
      }
      pipe := if ok then p else null;
    }

    /** A connected client: the handshake when it has just connected, then one frame. */
    method Exchange(p: PipeServer, handshake: bool, replies: seq<Passes>, answers: seq<Option<ViewOverride>>, schedules: seq<seq<Bytes>>)
        returns (ok: bool, calls: seq<Call>)
      requires gameEvents.Valid()
      modifies this`commands, gameEvents`settings, gameEvents`knownEvents, gameEvents`sent
      modifies p`inbox, p`outbox, p`readCompletions, p`writeCompletions, p`flushResults
      requires p.Intact()
      ensures p.Intact()
      ensures gameEvents.Valid()
      ensures ok && handshake ==> DecodeBoolean(old(p.inbox)).Some? && DecodeBoolean(old(p.inbox)).value.0
      ensures ok ==> |p.inbox| < |old(p.inbox)|
    {
      ok, calls := true, [];
      if handshake {
        ok, calls := Handshake(p);
      }
      if ok {
        var more;
        ghost var trace, inputs;
        ok, more, trace, inputs := Serve(p, replies, answers, schedules);
        calls := calls + more;
      }
    }
  }
}
