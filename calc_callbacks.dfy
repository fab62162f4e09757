/**
  `CCalcCallbacks<T,R>`: for each of the six calculation kinds the host keeps a
  map from a calculation name to the set of callbacks registered under it.  Once
  per engine frame it sends the names (in ascending key order) and then reads,
  in that same order, one optional result per name, calling every callback of
  that name with it.

  A callback is an opaque object identified by its address; `refs` counts the
  references the registry holds on each (AddRef minus Release).
*/
module CalcCallbacks {
  import opened Wrappers
  import opened Wire
  import opened Order
  import opened Pipe

  type CallbackId = nat

  /** The std::set<T*> order: callbacks by address. */
  predicate IdLess(a: CallbackId, b: CallbackId) { a < b }

  lemma IdLessIsStrictTotalOrder()
    ensures StrictTotalOrder(IdLess)
  {
  }

  // ---------------------------------------------------------------------------
  // Results

  datatype Kind = HandleCalc | VecAngCalc | CamCalc | FovCalc | BoolCalc | IntCalc

  datatype CalcResult =
    | HandleResult(intHandle: int32)
    | VecAngResult(vector: Vector, angles: QAngle)
    | CamResult(vector: Vector, angles: QAngle, fov: Single)
    | FovResult(fov: Single)
    | BoolResult(result: bool)
    | IntResult(value: int32)

  function KindOf(r: CalcResult): Kind
  {
    match r
    case HandleResult(_) => HandleCalc
    case VecAngResult(_, _) => VecAngCalc
    case CamResult(_, _, _) => CamCalc
    case FovResult(_) => FovCalc
    case BoolResult(_) => BoolCalc
    case IntResult(_) => IntCalc
  }

  /** What each `ReadResult` override reads: the layout of `R` for the kind. */
  function EncodeResult(r: CalcResult): Bytes
  {
    match r
    case HandleResult(h) => EncodeInt32(h)
    case VecAngResult(v, a) => EncodeVector(v) + EncodeQAngle(a)
    case CamResult(v, a, f) => EncodeVector(v) + EncodeQAngle(a) + EncodeSingle(f)
    case FovResult(f) => EncodeSingle(f)
    case BoolResult(b) => EncodeBoolean(b)
    case IntResult(i) => EncodeInt32(i)
  }

  function DecodeResult(kind: Kind, bs: Bytes): (r: Decoded<CalcResult>)
    ensures r.Some? ==> KindOf(r.value.0) == kind && |r.value.1| < |bs|
  {
    match kind
    case HandleCalc =>
      var h :- DecodeInt32(bs);
      Some((HandleResult(h.0), h.1))
    case VecAngCalc =>
      var v :- DecodeVector(bs);
      var a :- DecodeQAngle(v.1);
      Some((VecAngResult(v.0, a.0), a.1))
    case CamCalc =>
      var v :- DecodeVector(bs);
      var a :- DecodeQAngle(v.1);
      var f :- DecodeSingle(a.1);
      Some((CamResult(v.0, a.0, f.0), f.1))
    case FovCalc =>
      var f :- DecodeSingle(bs);
      Some((FovResult(f.0), f.1))
    case BoolCalc =>
      var b :- DecodeBoolean(bs);
      Some((BoolResult(b.0), b.1))
    case IntCalc =>
      var i :- DecodeInt32(bs);
      Some((IntResult(i.0), i.1))
  }

  lemma ResultRoundTrip(r: CalcResult, rest: Bytes)
    ensures DecodeResult(KindOf(r), EncodeResult(r) + rest) == Some((r, rest))
  {
    match r
    case HandleResult(h) => Int32RoundTrip(h, rest);
    case VecAngResult(v, a) => VecAngRoundTrip(v, a, rest);
    case CamResult(v, a, f) => CamRoundTrip(v, a, f, rest);
    case FovResult(f) => SingleRoundTrip(f, rest);
    case BoolResult(b) => BooleanRoundTrip(b, rest);
    case IntResult(i) => Int32RoundTrip(i, rest);
  }

  lemma VecAngRoundTrip(v: Vector, a: QAngle, rest: Bytes)
    ensures DecodeResult(VecAngCalc, EncodeVector(v) + EncodeQAngle(a) + rest) == Some((VecAngResult(v, a), rest))
  {
    AppendAssociative(EncodeVector(v), EncodeQAngle(a), rest);
    VectorRoundTrip(v, EncodeQAngle(a) + rest);
    QAngleRoundTrip(a, rest);
  }

  lemma CamRoundTrip(v: Vector, a: QAngle, f: Single, rest: Bytes)
    ensures DecodeResult(CamCalc, EncodeVector(v) + EncodeQAngle(a) + EncodeSingle(f) + rest) == Some((CamResult(v, a, f), rest))
  {
    var tail := EncodeQAngle(a) + (EncodeSingle(f) + rest);
    assert EncodeVector(v) + EncodeQAngle(a) + EncodeSingle(f) + rest == EncodeVector(v) + tail;
    VectorRoundTrip(v, tail);
    QAngleRoundTrip(a, EncodeSingle(f) + rest);
    SingleRoundTrip(f, rest);
  }

  // ---------------------------------------------------------------------------
  // The per-name answer of the batch reply: a boolean, then the result if it is true

  function EncodeAnswer(a: Option<CalcResult>): Bytes
  {
    EncodeBoolean(a.Some?) + if a.Some? then EncodeResult(a.value) else []
  }

  function DecodeAnswer(kind: Kind, bs: Bytes): (r: Decoded<Option<CalcResult>>)
    ensures r.Some? ==> |r.value.1| < |bs|
    ensures r.Some? && r.value.0.Some? ==> KindOf(r.value.0.value) == kind
  {
    var has :- DecodeBoolean(bs);
    if has.0 then
      var res :- DecodeResult(kind, has.1);
      Some((Some(res.0), res.1))
    else
      Some((None, has.1))
  }

  lemma AnswerRoundTrip(kind: Kind, a: Option<CalcResult>, rest: Bytes)
    requires a.Some? ==> KindOf(a.value) == kind
    ensures DecodeAnswer(kind, EncodeAnswer(a) + rest) == Some((a, rest))
  {
    if a.Some? {
      assert EncodeAnswer(a) + rest == EncodeBoolean(true) + (EncodeResult(a.value) + rest);
      BooleanRoundTrip(true, EncodeResult(a.value) + rest);
      ResultRoundTrip(a.value, rest);
    } else {
      BooleanRoundTrip(false, rest);
    }
  }

  ghost predicate OfKind(kind: Kind, answers: seq<Option<CalcResult>>)
  {
    forall i :: 0 <= i < |answers| && answers[i].Some? ==> KindOf(answers[i].value) == kind
  }

  function EncodeAnswers(answers: seq<Option<CalcResult>>): Bytes
  {
    Concat(answers, EncodeAnswer)
  }

  /** The first `n` answers of a batch reply, in order. */
  function DecodeAnswers(kind: Kind, bs: Bytes, n: nat): (r: Decoded<seq<Option<CalcResult>>>)
    ensures r.Some? ==> |r.value.0| == n && |r.value.1| <= |bs| && OfKind(kind, r.value.0)
  {
    if n == 0 then Some(([], bs))
    else
      var prev :- DecodeAnswers(kind, bs, n - 1);
      var last :- DecodeAnswer(kind, prev.1);
      Some((prev.0 + [last.0], last.1))
  }

  lemma {:induction false} AnswersRoundTrip(kind: Kind, answers: seq<Option<CalcResult>>, rest: Bytes)
    requires OfKind(kind, answers)
    ensures DecodeAnswers(kind, EncodeAnswers(answers) + rest, |answers|) == Some((answers, rest))
    decreases |answers|
  {
    if answers == [] {
      assert EncodeAnswers(answers) + rest == rest;
    } else {
      var init := answers[..|answers| - 1];
      var last := answers[|answers| - 1];
      assert answers == init + [last];
      ConcatAppend(init, last, EncodeAnswer);
      assert EncodeAnswers(answers) + rest == EncodeAnswers(init) + (EncodeAnswer(last) + rest);
      AnswersRoundTrip(kind, init, EncodeAnswer(last) + rest);
      AnswerRoundTrip(kind, last, rest);
    }
  }

  // ---------------------------------------------------------------------------
  // The registry state

  type Registrations = map<Bytes, set<CallbackId>>

  function CallbacksOf(entries: Registrations, name: Bytes): set<CallbackId>
  {
    if name in entries then entries[name] else {}
  }

  /** No name is kept with an empty set. */
  ghost predicate Tidy(entries: Registrations)
  {
    forall n :: n in entries ==> entries[n] != {}
  }

  /** The names under which `c` is registered. */
  ghost function Holders(entries: Registrations, c: CallbackId): set<Bytes>
  {
    set n | n in entries && c in entries[n]
  }

  /** The registry holds one reference on a callback per name it is registered under. */
  ghost predicate RefsMatch(entries: Registrations, refs: multiset<CallbackId>)
  {
    forall c :: refs[c] == |Holders(entries, c)|
  }

  /** `m_Map[name].emplace(c)`. */
  function Inserted(entries: Registrations, name: Bytes, c: CallbackId): Registrations
  {
    entries[name := CallbacksOf(entries, name) + {c}]
  }

  /** The reference count after `Add` as written: AddRef is called whether or not `c` was new. */
  function AddRefsAsWritten(entries: Registrations, refs: multiset<CallbackId>, name: Bytes, c: CallbackId): multiset<CallbackId>
  {
    refs + multiset{c}
  }

  lemma HoldersInserted(entries: Registrations, name: Bytes, c: CallbackId, d: CallbackId)
    ensures Holders(Inserted(entries, name, c), d) == if d == c then Holders(entries, d) + {name} else Holders(entries, d)
  {
  }

  /** Inserting a new pair takes one reference on its callback; an old pair takes none. */
  lemma InsertKeepsRefs(entries: Registrations, refs: multiset<CallbackId>, name: Bytes, c: CallbackId)
    requires Tidy(entries) && RefsMatch(entries, refs)
    ensures Tidy(Inserted(entries, name, c))
    ensures RefsMatch(Inserted(entries, name, c), if c in CallbacksOf(entries, name) then refs else refs + multiset{c})
  {
    var refs' := if c in CallbacksOf(entries, name) then refs else refs + multiset{c};
    forall d ensures refs'[d] == |Holders(Inserted(entries, name, c), d)| {
      InsertHolderCount(entries, refs[d], name, c, d);
    }
  }

  /** The count of one callback `d` after inserting `c` under `name`. */
  lemma InsertHolderCount(entries: Registrations, count: nat, name: Bytes, c: CallbackId, d: CallbackId)
    requires count == |Holders(entries, d)|
    ensures |Holders(Inserted(entries, name, c), d)|
         == if d == c && c !in CallbacksOf(entries, name) then count + 1 else count
  {
    HoldersInserted(entries, name, c, d);
    if d == c && c !in CallbacksOf(entries, name) {
      assert name !in Holders(entries, d);
    } else if d == c {
      assert name in Holders(entries, d);
      assert Holders(entries, d) + {name} == Holders(entries, d);
    }
  }

  lemma HoldersErased(entries: Registrations, name: Bytes, c: CallbackId, d: CallbackId)
    requires name in entries
    ensures Holders(entries[name := entries[name] - {c}], d) == if d == c then Holders(entries, d) - {name} else Holders(entries, d)
  {
  }

  lemma HoldersDropEmpty(entries: Registrations, name: Bytes, d: CallbackId)
    requires name in entries && entries[name] == {}
    ensures Holders(entries - {name}, d) == Holders(entries, d)
  {
  }

  /** Releasing one registration of `c` keeps the count in step. */
  lemma ReleaseKeepsRefs(entries: Registrations, refs: multiset<CallbackId>, name: Bytes, c: CallbackId)
    requires RefsMatch(entries, refs)
    requires name in entries && c in entries[name]
    ensures c in refs
    ensures RefsMatch(entries[name := entries[name] - {c}], refs - multiset{c})
  {
    assert name in Holders(entries, c);
    forall d ensures (refs - multiset{c})[d] == |Holders(entries[name := entries[name] - {c}], d)| {
      HoldersErased(entries, name, c, d);
      if d == c {
        assert name in Holders(entries, d);
      }
    }
  }

  lemma DropEmptyKeepsRefs(entries: Registrations, refs: multiset<CallbackId>, name: Bytes)
    requires RefsMatch(entries, refs)
    requires name in entries && entries[name] == {}
    ensures RefsMatch(entries - {name}, refs)
  {
    forall d ensures refs[d] == |Holders(entries - {name}, d)| {
      HoldersDropEmpty(entries, name, d);
    }
  }

  lemma NoEntriesNoRefs(refs: multiset<CallbackId>)
    requires RefsMatch(map[], refs)
    ensures refs == multiset{}
  {
    forall d ensures refs[d] == 0 {
      assert Holders(map[], d) == {};
    }
  }

  /**
    Adding a pair that is already registered twice with the AddRef as written
    leaves the registry holding two references for one registration.
  */
  lemma AddAsWrittenOverCounts(name: Bytes, c: CallbackId)
    ensures var once := Inserted(map[], name, c);
            var twice := Inserted(once, name, c);
            && RefsMatch(once, AddRefsAsWritten(map[], multiset{}, name, c))
            && twice == once
            && !RefsMatch(twice, AddRefsAsWritten(once, multiset{c}, name, c))
  {
    var once := Inserted(map[], name, c);
    assert Holders(once, c) == {name};
    forall d ensures multiset{c}[d] == |Holders(once, d)| {
      if d != c {
        assert Holders(once, d) == {};
      }
    }
    assert Inserted(once, name, c) == once;
    assert AddRefsAsWritten(once, multiset{c}, name, c)[c] == 2;
  }

  // ---------------------------------------------------------------------------
  // Deliveries: the calls the registry makes into the callbacks

  datatype Delivery = Delivery(name: Bytes, callback: CallbackId, result: Option<CalcResult>)

  function Deliveries(name: Bytes, callbacks: seq<CallbackId>, result: Option<CalcResult>): (r: seq<Delivery>)
    ensures |r| == |callbacks|
    ensures forall i :: 0 <= i < |r| ==> r[i] == Delivery(name, callbacks[i], result)
  {
    seq(|callbacks|, i requires 0 <= i < |callbacks| => Delivery(name, callbacks[i], result))
  }

  /** The callbacks of a name in the order the registry calls them. */
  ghost function SortedCallbacks(s: set<CallbackId>): (r: seq<CallbackId>)
    ensures |r| == |s|
  {
    IdLessIsStrictTotalOrder();
    SortedSeqFacts(s, IdLess);
    SortedSeq(s, IdLess)
  }

  method PickLeastCallback(s: set<CallbackId>) returns (c: CallbackId)
    requires s != {}
    ensures IsMin(c, s, IdLess)
  {
    IdLessIsStrictTotalOrder();
    c := PickMin(s, IdLess);
  }

  lemma CallbackDrainStep(done: seq<CallbackId>, left: set<CallbackId>, all: set<CallbackId>, c: CallbackId)
    requires DrainedInOrder(done, left, all, IdLess)
    requires IsMin(c, left, IdLess)
    ensures DrainedInOrder(done + [c], left - {c}, all, IdLess)
  {
    IdLessIsStrictTotalOrder();
    DrainStep(done, left, all, c, IdLess);
  }

  lemma CallbackDrainEnd(done: seq<CallbackId>, all: set<CallbackId>)
    requires DrainedInOrder(done, {}, all, IdLess)
    ensures done == SortedCallbacks(all)
  {
    IdLessIsStrictTotalOrder();
    DrainEnd(done, all, IdLess);
  }

  /**
    The calls made for `names` answered with `answers`: name by name, every
    callback of the name, in address order, with the answer for that name.
  */
  ghost function CallsFor(entries: Registrations, names: seq<Bytes>, answers: seq<Option<CalcResult>>): seq<Delivery>
    requires |names| == |answers|
    requires forall n :: n in names ==> n in entries
  {
    if names == [] then []
    else
      var k := |names| - 1;
      CallsFor(entries, names[..k], answers[..k]) + Deliveries(names[k], SortedCallbacks(entries[names[k]]), answers[k])
  }

  lemma DecodeAnswersStep(kind: Kind, bs: Bytes, n: nat, answers: seq<Option<CalcResult>>, mid: Bytes, a: Option<CalcResult>, rest: Bytes)
    requires DecodeAnswers(kind, bs, n) == Some((answers, mid))
    requires DecodeAnswer(kind, mid) == Some((a, rest))
    ensures DecodeAnswers(kind, bs, n + 1) == Some((answers + [a], rest))
  {
  }

  lemma CallsForStep(entries: Registrations, names: seq<Bytes>, answers: seq<Option<CalcResult>>, name: Bytes, a: Option<CalcResult>)
    requires |names| == |answers|
    requires forall n :: n in names ==> n in entries
    requires name in entries
    ensures CallsFor(entries, names + [name], answers + [a])
         == CallsFor(entries, names, answers) + Deliveries(name, SortedCallbacks(entries[name]), a)
  {
    assert (names + [name])[..|names|] == names;
    assert (answers + [a])[..|answers|] == answers;
  }

  /**
    One round of the destructor's outer loop: releases, one by one, every callback
    registered under `name`, then erases the name.
  */
  method ReleaseName(entries: Registrations, refs: multiset<CallbackId>, name: Bytes)
    returns (entries': Registrations, refs': multiset<CallbackId>, released: multiset<CallbackId>)
    requires RefsMatch(entries, refs) && name in entries
    ensures RefsMatch(entries', refs') && released + refs' == refs
    ensures entries' == entries - {name}
  {
    entries', refs', released := entries, refs, multiset{};
    while entries'[name] != {}
      invariant name in entries' && entries' - {name} == entries - {name}
      invariant RefsMatch(entries', refs') && released + refs' == refs
      decreases entries'[name]
    {
      var c :| c in entries'[name];
      ReleaseKeepsRefs(entries', refs', name, c);
      entries' := entries'[name := entries'[name] - {c}];
      refs' := refs' - multiset{c};
      released := released + multiset{c};
    }
    DropEmptyKeepsRefs(entries', refs', name);
    entries' := entries' - {name};
  }

  class Registry {
    const kind: Kind
    var entries: Registrations
    var refs: multiset<CallbackId>

    ghost predicate Valid()
      reads this
    {
      Tidy(entries) && RefsMatch(entries, refs)
    }

    constructor (kind: Kind)
      ensures Valid() && this.kind == kind && entries == map[] && refs == multiset{}
    {
      this.kind := kind;
      entries := map[];
      refs := multiset{};
    }

    /** Registers `c` under `name`, taking a reference only when the pair is new. */
    method Add(name: Bytes, c: CallbackId)
      requires Valid()
      modifies this
      ensures Valid()
      ensures entries == Inserted(old(entries), name, c)
      ensures name in entries && c in entries[name]
      ensures refs == if c in CallbacksOf(old(entries), name) then old(refs) else old(refs) + multiset{c}
    {
      var isNew := c !in CallbacksOf(entries, name);
      var updated := Inserted(entries, name, c);
      var refs' := if isNew then refs + multiset{c} else refs;
      InsertKeepsRefs(entries, refs, name, c);
      entries := updated;
      refs := refs';
    }

    /**
      Unregisters `c` from `name` and releases its reference; the name goes once
      its set is empty.  An absent pair changes nothing.
    */
    method Remove(name: Bytes, c: CallbackId)
      requires Valid()
      modifies this
      ensures Valid()
      ensures c !in CallbacksOf(old(entries), name) ==> entries == old(entries) && refs == old(refs)
      ensures c in CallbacksOf(old(entries), name) ==> refs == old(refs) - multiset{c}
      ensures CallbacksOf(entries, name) == CallbacksOf(old(entries), name) - {c}
      ensures forall n :: n != name ==> CallbacksOf(entries, n) == CallbacksOf(old(entries), n)
    {
      if name in entries && c in entries[name] {
        ReleaseKeepsRefs(entries, refs, name, c);
        var shrunk := entries[name := entries[name] - {c}];
        if shrunk[name] == {} {
          DropEmptyKeepsRefs(shrunk, refs - multiset{c}, name);
          entries := shrunk - {name};
        } else {
          entries := shrunk;
        }
        refs := refs - multiset{c};
      }
    }

    /** The destructor: releases every reference the registry holds. */
    method Dispose() returns (released: multiset<CallbackId>)
      requires Valid()
      modifies this
      ensures Valid() && entries == map[] && refs == multiset{}
      ensures released == old(refs)
    {
      var e := entries;
      var held := refs;
      ghost var all := refs;
      released := multiset{};
      while e != map[]
        invariant RefsMatch(e, held) && released + held == all
        decreases e.Keys
      {
        var name :| name in e;
        var some;
        e, held, some := ReleaseName(e, held, name);
        released := released + some;
      }
      NoEntriesNoRefs(held);
      entries := e;
      refs := held;
    }

    /** Sends the number of names and then every name, in ascending order. */
    method BatchUpdateRequest(pipe: PipeServer) returns (ok: bool)
      modifies pipe`outbox, pipe`writeCompletions
      ensures ok ==> pipe.outbox == old(pipe.outbox) + EncodeStringList(SortedNames(entries.Keys))
    {
      var keys := entries.Keys;
      ok := pipe.WriteCompressedUInt32(|keys| % UINT32_LIMIT);
      if !ok {
        return;
      }
      ghost var start := pipe.outbox;
      ghost var done: seq<Bytes> := [];
      var left := keys;
      DrainStart(keys, LexLess);
      while left != {}
        invariant DrainedInOrder(done, left, keys, LexLess)
        invariant pipe.outbox == start + EncodeStrings(done)
        decreases left
      {
        var name := PickLeastName(left);
        ok := pipe.WriteStringUTF8(name);
        if !ok {
          return;
        }
        ConcatAppend(done, name, EncodeString);
        AppendAssociative(start, EncodeStrings(done), EncodeString(name));
        NameDrainStep(done, left, keys, name);
        done := done + [name];
        left := left - {name};
      }
      NameDrainEnd(done, keys);
      AppendAssociative(old(pipe.outbox), EncodeCompressedUInt32(|keys| % UINT32_LIMIT), EncodeStrings(done));
    }

    /**
      Reads one answer per name, in ascending name order, and hands each to every
      callback of the name in address order.  `answers` are the answers read and
      `calls` the calls made, also when a read fails part-way.
    */
    method BatchUpdateResult(pipe: PipeServer) returns (ok: bool, answers: seq<Option<CalcResult>>, calls: seq<Delivery>)
      modifies pipe`inbox, pipe`readCompletions
      requires pipe.Intact()
      ensures pipe.Intact()
      ensures ok ==> |answers| == |entries|
      ensures ok ==> DecodeAnswers(kind, old(pipe.inbox), |entries|) == Some((answers, pipe.inbox))
      ensures !ok ==> |answers| < |entries|
      ensures |answers| <= |entries| && calls == CallsFor(entries, SortedNames(entries.Keys)[..|answers|], answers)
    {
      ok, answers, calls := ReadAnswers(pipe, kind, entries);
    }
  }

  /** What `ReadResult` reads for a registry of kind `kind`. */
  method ReadResult(pipe: PipeServer, kind: Kind) returns (ok: bool, r: CalcResult)
    modifies pipe`inbox, pipe`readCompletions
    requires pipe.Intact()
    ensures pipe.Intact()
    ensures ok ==> DecodeResult(kind, old(pipe.inbox)) == Some((r, pipe.inbox))
  {
    r := BoolResult(false);
    match kind
    case HandleCalc =>
      var h;
      ok, h := pipe.ReadInt32();
      if ok { r := HandleResult(h); }
    case VecAngCalc =>
      var x, y, z, pitch, yaw, roll;
      ok, x := pipe.ReadSingle();
      if !ok { return; }
      ok, y := pipe.ReadSingle();
      if !ok { return; }
      ok, z := pipe.ReadSingle();
      if !ok { return; }
      ok, pitch := pipe.ReadSingle();
      if !ok { return; }
      ok, yaw := pipe.ReadSingle();
      if !ok { return; }
      ok, roll := pipe.ReadSingle();
      if !ok { return; }
      r := VecAngResult(Vector(x, y, z), QAngle(pitch, yaw, roll));
    case CamCalc =>
      var x, y, z, pitch, yaw, roll, fov;
      ok, x := pipe.ReadSingle();
      if !ok { return; }
      ok, y := pipe.ReadSingle();
      if !ok { return; }
      ok, z := pipe.ReadSingle();
      if !ok { return; }
      ok, pitch := pipe.ReadSingle();
      if !ok { return; }
      ok, yaw := pipe.ReadSingle();
      if !ok { return; }
      ok, roll := pipe.ReadSingle();
      if !ok { return; }
      ok, fov := pipe.ReadSingle();
      if !ok { return; }
      r := CamResult(Vector(x, y, z), QAngle(pitch, yaw, roll), fov);
    case FovCalc =>
      var f;
      ok, f := pipe.ReadSingle();
      if ok { r := FovResult(f); }
    case BoolCalc =>
      var b;
      ok, b := pipe.ReadBoolean();
      if ok { r := BoolResult(b); }
    case IntCalc =>
      var i;
      ok, i := pipe.ReadInt32();
      if ok { r := IntResult(i); }
  }

  /** One answer: the boolean, then `ReadResult` when it is true. */
  method ReadAnswer(pipe: PipeServer, kind: Kind) returns (ok: bool, answer: Option<CalcResult>)
    modifies pipe`inbox, pipe`readCompletions
    requires pipe.Intact()
    ensures pipe.Intact()
    ensures ok ==> DecodeAnswer(kind, old(pipe.inbox)) == Some((answer, pipe.inbox))
  {
    answer := None;
    var has;
    ok, has := pipe.ReadBoolean();
    if ok && has {
      var r;
      ok, r := ReadResult(pipe, kind);
      answer := Some(r);
    }
  }

  /** Calls every callback of `name`, in address order, with `answer`. */
  method DeliverToAll(name: Bytes, callbacks: set<CallbackId>, answer: Option<CalcResult>) returns (calls: seq<Delivery>)
    ensures calls == Deliveries(name, SortedCallbacks(callbacks), answer)
  {
    calls := [];
    ghost var done: seq<CallbackId> := [];
    var left := callbacks;
    DrainStart(callbacks, IdLess);
    while left != {}
      invariant DrainedInOrder(done, left, callbacks, IdLess)
      invariant calls == Deliveries(name, done, answer)
      decreases left
    {
      var c := PickLeastCallback(left);
      calls := calls + [Delivery(name, c, answer)];
      CallbackDrainStep(done, left, callbacks, c);
      done := done + [c];
      left := left - {c};
    }
    CallbackDrainEnd(done, callbacks);
  }

  /**
    What `ReadAnswers` has done once the names `done` are read and `left` remain:
    `answers` decoded in name order from `start`, leaving `inbox`, and `calls`
    made for them.
  */
  ghost predicate AnswersRead(kind: Kind, m: Registrations, start: Bytes, done: seq<Bytes>, left: set<Bytes>,
                              answers: seq<Option<CalcResult>>, inbox: Bytes, calls: seq<Delivery>)
  {
    && DrainedInOrder(done, left, m.Keys, LexLess)
    && |answers| == |done|
    && (forall n :: n in done ==> n in m)
    && DecodeAnswers(kind, start, |done|) == Some((answers, inbox))
    && calls == CallsFor(m, done, answers)
  }

  /** Reading the least name left keeps `AnswersRead`. */
  lemma AnswersReadStep(kind: Kind, m: Registrations, start: Bytes, done: seq<Bytes>, left: set<Bytes>,
                        answers: seq<Option<CalcResult>>, mid: Bytes, calls: seq<Delivery>,
                        name: Bytes, a: Option<CalcResult>, rest: Bytes)
    requires AnswersRead(kind, m, start, done, left, answers, mid, calls)
    requires IsMin(name, left, LexLess)
    requires DecodeAnswer(kind, mid) == Some((a, rest))
    ensures name in m
    ensures AnswersRead(kind, m, start, done + [name], left - {name}, answers + [a], rest,
                        calls + Deliveries(name, SortedCallbacks(m[name]), a))
  {
    assert name in m by {
      assert name in left;
      assert name in m.Keys;
    }
    var done' := done + [name];
    assert forall n :: n in done' ==> n in m by {
      forall n | n in done' ensures n in m {
        if n != name { assert n in done; }
      }
    }
    DecodeAnswersStep(kind, start, |done|, answers, mid, a, rest);
    CallsForStep(m, done, answers, name, a);
    NameDrainStep(done, left, m.Keys, name);
  }

  /** `AnswersRead` with names left: fewer answers than names, and the names read are the first in order. */
  lemma AnswersReadPrefix(kind: Kind, m: Registrations, start: Bytes, done: seq<Bytes>, left: set<Bytes>,
                          answers: seq<Option<CalcResult>>, inbox: Bytes, calls: seq<Delivery>)
    requires AnswersRead(kind, m, start, done, left, answers, inbox, calls)
    ensures |answers| + |left| == |m|
    ensures calls == CallsFor(m, SortedNames(m.Keys)[..|answers|], answers)
  {
    NameDrainPrefix(done, left, m.Keys);
  }

  /**
    Reads one answer per name of `m`, in ascending name order, and hands each to
    every callback of the name in address order.  `answers` are the answers read
    and `calls` the calls made, also when a read fails part-way.
  */
  method ReadAnswers(pipe: PipeServer, kind: Kind, m: Registrations) returns (ok: bool, answers: seq<Option<CalcResult>>, calls: seq<Delivery>)
    modifies pipe`inbox, pipe`readCompletions
    requires pipe.Intact()
    ensures pipe.Intact()
    ensures ok ==> |answers| == |m|
    ensures ok ==> DecodeAnswers(kind, old(pipe.inbox), |m|) == Some((answers, pipe.inbox))
    ensures !ok ==> |answers| < |m|
    ensures |answers| <= |m| && calls == CallsFor(m, SortedNames(m.Keys)[..|answers|], answers)
  {
    ghost var start := pipe.inbox;
    answers := [];
    calls := [];
    ghost var done: seq<Bytes> := [];
    var left := m.Keys;
    DrainStart(m.Keys, LexLess);
    while left != {}
      invariant pipe.Intact()
      invariant AnswersRead(kind, m, start, done, left, answers, pipe.inbox, calls)
      decreases left
    {
      AnswersReadPrefix(kind, m, start, done, left, answers, pipe.inbox, calls);
      var name := PickLeastName(left);
      ghost var mid := pipe.inbox;
      var answer;
      ok, answer := ReadAnswer(pipe, kind);
      if !ok {
        return;
      }
      AnswersReadStep(kind, m, start, done, left, answers, mid, calls, name, answer, pipe.inbox);
      var delivered := DeliverToAll(name, m[name], answer);
      calls := calls + delivered;
      done := done + [name];
      answers := answers + [answer];
      left := left - {name};
    }
    AnswersReadPrefix(kind, m, start, done, left, answers, pipe.inbox, calls);
    ok := true;
  }
}
