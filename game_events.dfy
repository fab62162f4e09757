/**
  The engine interop's game-event state: the allow and deny lists and the
  enrichments with their pending changes, the transmit flags, the events the
  client has defined, and the exchange of settings and events over the pipe.
*/
module EngineEvents {
  import opened Wrappers
  import opened Wire
  import opened Order
  import opened Pipe
  import opened GameEventCodec
  import CalcCallbacks

  // ---------------------------------------------------------------------------
  // Transmit flags

  datatype TransmitField = ClientTimeField | TickField | SystemTimeField

  function Flag(t: TransmitFlags, f: TransmitField): bool
  {
    match f
    case ClientTimeField => t.clientTime
    case TickField => t.tick
    case SystemTimeField => t.systemTime
  }

  function WithFlag(t: TransmitFlags, f: TransmitField, value: bool): (r: TransmitFlags)
    ensures Flag(r, f) == value
    ensures forall g :: g != f ==> Flag(r, g) == Flag(t, g)
  {
    match f
    case ClientTimeField => t.(clientTime := value)
    case TickField => t.(tick := value)
    case SystemTimeField => t.(systemTime := value)
  }

  /** The flags match what the client was last sent unless a change is pending. */
  ghost predicate InSync(t: TransmitFlags, changed: bool, sent: TransmitFlags)
  {
    !changed ==> t == sent
  }

  /** `GameEvents_SetTransmit*` as written: the pending-change flag only reflects the latest call. */
  function SetTransmitAsWritten(t: TransmitFlags, changed: bool, f: TransmitField, value: bool): (TransmitFlags, bool)
  {
    (WithFlag(t, f, value), value != Flag(t, f))
  }

  /** `GameEvents_SetTransmit*` as intended: a change stays pending until it is sent. */
  function SetTransmit(t: TransmitFlags, changed: bool, f: TransmitField, value: bool): (r: (TransmitFlags, bool))
    ensures Flag(r.0, f) == value
    ensures !r.1 ==> r.0 == t && !changed
  {
    (WithFlag(t, f, value), changed || value != Flag(t, f))
  }

  lemma SetTransmitKeepsSync(t: TransmitFlags, changed: bool, sent: TransmitFlags, f: TransmitField, value: bool)
    requires InSync(t, changed, sent)
    ensures var r := SetTransmit(t, changed, f, value); InSync(r.0, r.1, sent)
  {
  }

  /**
    Turning the tick on and then setting the client time to its current value
    leaves, as written, no change pending although the tick differs from what
    the client was sent; the intended setter keeps the change pending.
  */
  lemma SetTransmitAsWrittenLosesChange()
    ensures var sent := TransmitFlags(false, false, false);
            var a := SetTransmitAsWritten(sent, false, TickField, true);
            var b := SetTransmitAsWritten(a.0, a.1, ClientTimeField, false);
            !b.1 && b.0 != sent && !InSync(b.0, b.1, sent)
    ensures var sent := TransmitFlags(false, false, false);
            var a := SetTransmit(sent, false, TickField, true);
            var b := SetTransmit(a.0, a.1, ClientTimeField, false);
            b.1 && InSync(b.0, b.1, sent)
  {
  }

  // ---------------------------------------------------------------------------
  // Writing the settings, piece by piece

  method WriteFlags(pipe: PipeServer, t: TransmitFlags) returns (ok: bool)
    modifies pipe`outbox, pipe`writeCompletions
    ensures ok ==> pipe.outbox == old(pipe.outbox) + FlagsMessage(t)
  {
    ghost var start := pipe.outbox;
    ok := pipe.WriteBoolean(t.clientTime);
    if !ok { return; }
    ok := pipe.WriteBoolean(t.tick);
    if !ok { return; }
    ok := pipe.WriteBoolean(t.systemTime);
    if !ok { return; }
    AppendAssociative(start, EncodeBoolean(t.clientTime), EncodeBoolean(t.tick));
    AppendAssociative(start, EncodeBoolean(t.clientTime) + EncodeBoolean(t.tick), EncodeBoolean(t.systemTime));
  }

  /** Writes every name of a set in iteration order, leaving the set alone. */
  method WriteNames(pipe: PipeServer, names: set<Bytes>) returns (ok: bool)
    modifies pipe`outbox, pipe`writeCompletions
    ensures ok ==> pipe.outbox == old(pipe.outbox) + EncodeNames(names)
  {
    ghost var start := pipe.outbox;
    ghost var done: seq<Bytes> := [];
    var left := names;
    DrainStart(names, LexLess);
    while left != {}
      invariant DrainedInOrder(done, left, names, LexLess)
      invariant pipe.outbox == start + EncodeStrings(done)
      decreases left
    {
      var name := PickLeastName(left);
      ok := pipe.WriteStringUTF8(name);
      if !ok {
        return;
      }
      ConcatAppend(done, name, EncodeString);
      AppendAssociative(start, EncodeStrings(done), EncodeString(name));
      NameDrainStep(done, left, names, name);
      done := done + [name];
      left := left - {name};
    }
    NameDrainEnd(done, names);
    ok := true;
  }

  /**
    The removals of one list: in delta mode their count and names are written;
    in either mode each is dropped from the committed list as it is handled.
  */
  method WriteDeletions(pipe: PipeServer, delta: bool, list: FilterList) returns (ok: bool, out: FilterList)
    requires list.Disjoint()
    modifies pipe`outbox, pipe`writeCompletions
    ensures out.Disjoint() && out.Effective() == list.Effective() && out.additions == list.additions
    ensures ok ==> out == FilterList(list.committed - list.deletions, {}, list.additions)
    ensures ok ==> pipe.outbox == old(pipe.outbox) + DeletionsMessage(list.deletions, delta)
  {
    out := list;
    var all := list.deletions;
    var count := |all| % UINT32_LIMIT;
    ok := true;
    if delta {
      ok := pipe.WriteCompressedUInt32(count);
    }
    ghost var start := pipe.outbox;
    ghost var done: seq<Bytes> := [];
    var committed := list.committed;
    var left := all;
    DrainStart(all, LexLess);
    while ok && left != {}
      invariant DeletionsDrained(list, done, left, committed, out)
      invariant ok ==> pipe.outbox == start + if delta then EncodeStrings(done) else []
      invariant ok && delta ==> start == old(pipe.outbox) + EncodeCompressedUInt32(count)
      invariant !delta ==> start == old(pipe.outbox)
      decreases ok, left
    {
      var name := PickLeastName(left);
      if delta {
        ghost var before := pipe.outbox;
        ok := pipe.WriteStringUTF8(name);
        if ok {
          ExtendedByString(start, done, before, name, pipe.outbox);
        }
      }
      if ok {
        ghost var done0, left0, committed0 := done, left, committed;
        done, committed, left := done + [name], committed - {name}, left - {name};
        out := FilterList(committed, left, list.additions);
        DeletionsDrainedStep(list, done0, left0, committed0, name, done, left, committed, out);
      }
    }
    if ok {
      assert left == {};
      NameDrainEnd(done, all);
      if delta {
        assert pipe.outbox == start + EncodeStrings(done);
        AppendAssociative(old(pipe.outbox), EncodeCompressedUInt32(count), EncodeStrings(done));
      } else {
        assert pipe.outbox == old(pipe.outbox) + [];
      }
    }
  }

  /**
    `WriteDeletions` has sent the deletions `done`, in ascending order, and
    committed them; `left` are still pending.
  */
  ghost predicate DeletionsDrained(list: FilterList, done: seq<Bytes>, left: set<Bytes>, committed: set<Bytes>, out: FilterList)
  {
    && list.Disjoint()
    && DrainedInOrder(done, left, list.deletions, LexLess)
    && left <= list.deletions
    && committed == list.committed - (list.deletions - left)
    && out == FilterList(committed, left, list.additions)
    && out.Disjoint()
    && out.Effective() == list.Effective()
  }

  lemma DeletionsDrainedStep(list: FilterList, done: seq<Bytes>, left: set<Bytes>, committed: set<Bytes>, name: Bytes,
                             done': seq<Bytes>, left': set<Bytes>, committed': set<Bytes>, out': FilterList)
    requires DeletionsDrained(list, done, left, committed, FilterList(committed, left, list.additions))
    requires IsMin(name, left, LexLess)
    requires done' == done + [name] && left' == left - {name} && committed' == committed - {name}
    requires out' == FilterList(committed', left', list.additions)
    ensures DeletionsDrained(list, done', left', committed', out')
  {
    NameDrainStep(done, left, list.deletions, name);
    assert name in list.deletions && name !in list.additions;
    assert out'.Effective() == FilterList(committed, left, list.additions).Effective();
  }

  /** One more string written after the strings `done`. */
  lemma ExtendedByString(start: Bytes, done: seq<Bytes>, before: Bytes, name: Bytes, after: Bytes)
    requires before == start + EncodeStrings(done)
    requires after == before + EncodeString(name)
    ensures after == start + EncodeStrings(done + [name])
  {
    ConcatAppend(done, name, EncodeString);
    AppendAssociative(start, EncodeStrings(done), EncodeString(name));
  }

  /** The count of a list's additions and, in a full update, the committed names. */
  method WriteAdditionsHead(pipe: PipeServer, delta: bool, kept: set<Bytes>, additions: set<Bytes>) returns (ok: bool)
    modifies pipe`outbox, pipe`writeCompletions
    ensures ok ==> pipe.outbox == old(pipe.outbox) + AdditionsHead(kept, additions, delta)
  {
    var count := (|additions| + if delta then 0 else |kept|) % UINT32_LIMIT;
    ok := pipe.WriteCompressedUInt32(count);
    if !ok {
      return;
    }
    if !delta {
      ok := WriteNames(pipe, kept);
      if ok {
        AppendAssociative(old(pipe.outbox), EncodeCompressedUInt32(count), EncodeNames(kept));
      }
    } else {
      assert EncodeCompressedUInt32(count) + [] == EncodeCompressedUInt32(count);
    }
  }

  /** Writes each pending addition in order, moving it into the committed list as it goes. */
  method DrainAdditions(pipe: PipeServer, list: FilterList) returns (ok: bool, out: FilterList)
    requires list.deletions == {}
    modifies pipe`outbox, pipe`writeCompletions
    ensures out.Disjoint() && out.Effective() == list.Effective() && out.deletions == {}
    ensures ok ==> out == FilterList(list.committed + list.additions, {}, {})
    ensures ok ==> pipe.outbox == old(pipe.outbox) + EncodeNames(list.additions)
  {
    var all := list.additions;
    ghost var start := pipe.outbox;
    ghost var done: seq<Bytes> := [];
    var committed := list.committed;
    var left := all;
    DrainStart(all, LexLess);
    while left != {}
      invariant DrainedInOrder(done, left, all, LexLess)
      invariant left <= all
      invariant committed + left == list.committed + all
      invariant pipe.outbox == start + EncodeStrings(done)
      decreases left
    {
      var name := PickLeastName(left);
      ok := pipe.WriteStringUTF8(name);
      if !ok {
        out := FilterList(committed, {}, left);
        return;
      }
      ConcatAppend(done, name, EncodeString);
      AppendAssociative(start, EncodeStrings(done), EncodeString(name));
      NameDrainStep(done, left, all, name);
      done := done + [name];
      committed := committed + {name};
      left := left - {name};
    }
    NameDrainEnd(done, all);
    ok := true;
    out := FilterList(committed, {}, {});
  }

  /** The additions of one list: the head, then each pending addition. */
  method WriteAdditions(pipe: PipeServer, delta: bool, list: FilterList) returns (ok: bool, out: FilterList)
    requires list.deletions == {}
    modifies pipe`outbox, pipe`writeCompletions
    ensures out.Disjoint() && out.Effective() == list.Effective() && out.deletions == {}
    ensures ok ==> out == FilterList(list.committed + list.additions, {}, {})
    ensures ok ==> pipe.outbox == old(pipe.outbox) + AdditionsMessage(list.committed, list.additions, delta)
  {
    out := list;
    ok := WriteAdditionsHead(pipe, delta, list.committed, list.additions);
    if !ok {
      return;
    }
    ok, out := DrainAdditions(pipe, list);
    if ok {
      AppendAssociative(old(pipe.outbox), AdditionsHead(list.committed, list.additions, delta), EncodeNames(list.additions));
    }
  }

  /** One list: its removals, then its additions. */
  method WriteList(pipe: PipeServer, delta: bool, list: FilterList) returns (ok: bool, out: FilterList)
    requires list.Disjoint()
    modifies pipe`outbox, pipe`writeCompletions
    ensures out.Disjoint() && out.Effective() == list.Effective()
    ensures ok ==> out == FilterList(list.Effective(), {}, {})
    ensures ok ==> pipe.outbox == old(pipe.outbox) + ListMessage(list, delta)
  {
    ok, out := WriteDeletions(pipe, delta, list);
    if !ok {
      return;
    }
    ghost var middle := pipe.outbox;
    ok, out := WriteAdditions(pipe, delta, out);
    if ok {
      AppendAssociative(old(pipe.outbox), DeletionsMessage(list.deletions, delta),
                        AdditionsMessage(list.committed - list.deletions, list.additions, delta));
    }
  }

  method WriteEnrichmentEntry(pipe: PipeServer, k: EnrichmentKey, bits: uint32) returns (ok: bool)
    modifies pipe`outbox, pipe`writeCompletions
    ensures ok ==> pipe.outbox == old(pipe.outbox) + EncodeEnrichment(k, bits)
  {
    ghost var start := pipe.outbox;
    ok := pipe.WriteStringUTF8(k.eventName);
    if !ok { return; }
    ok := pipe.WriteStringUTF8(k.propertyName);
    if !ok { return; }
    ok := pipe.WriteUInt32(bits);
    if !ok { return; }
    AppendAssociative(start, EncodeString(k.eventName), EncodeString(k.propertyName));
    AppendAssociative(start, EncodeString(k.eventName) + EncodeString(k.propertyName), EncodeUInt32(bits));
  }

  /** Writes every entry of an enrichment map in key order, leaving the map alone. */
  method WriteEntries(pipe: PipeServer, m: map<EnrichmentKey, uint32>) returns (ok: bool)
    modifies pipe`outbox, pipe`writeCompletions
    ensures ok ==> pipe.outbox == old(pipe.outbox) + EncodeEntries(m)
  {
    ghost var start := pipe.outbox;
    ghost var done: seq<EnrichmentKey> := [];
    var all := m.Keys;
    var left := all;
    DrainStart(all, KeyLess);
    while left != {}
      invariant DrainedInOrder(done, left, all, KeyLess)
      invariant pipe.outbox == start + Concat(Entries(done, m), EncodeEnrichmentEntry)
      decreases left
    {
      var k := PickLeastKey(left);
      ok := WriteEnrichmentEntry(pipe, k, m[k]);
      if !ok {
        return;
      }
      EntriesAppend(done, k, m);
      ConcatAppend(Entries(done, m), (k, m[k]), EncodeEnrichmentEntry);
      AppendAssociative(start, Concat(Entries(done, m), EncodeEnrichmentEntry), EncodeEnrichment(k, m[k]));
      KeyDrainStep(done, left, all, k);
      done := done + [k];
      left := left - {k};
    }
    KeyDrainEnd(done, all);
    ok := true;
  }

  /** Writes each pending enrichment change in key order and applies it to the map as it goes. */
  method WriteChanges(pipe: PipeServer, enrichments: map<EnrichmentKey, uint32>, changes: map<EnrichmentKey, uint32>)
    returns (ok: bool, enrichments': map<EnrichmentKey, uint32>, changes': map<EnrichmentKey, uint32>)
    modifies pipe`outbox, pipe`writeCompletions
    ensures EffectiveEnrichments(enrichments', changes') == EffectiveEnrichments(enrichments, changes)
    ensures ok ==> changes' == map[] && enrichments' == EffectiveEnrichments(enrichments, changes)
    ensures ok ==> pipe.outbox == old(pipe.outbox) + EncodeEntries(changes)
  {
    enrichments', changes' := enrichments, changes;
    ghost var start := pipe.outbox;
    ghost var done: seq<EnrichmentKey> := [];
    ghost var all := changes.Keys;
    DrainStart(all, KeyLess);
    while changes' != map[]
      invariant DrainedInOrder(done, changes'.Keys, all, KeyLess)
      invariant forall k :: k in changes' ==> changes'[k] == changes[k]
      invariant EffectiveEnrichments(enrichments', changes') == EffectiveEnrichments(enrichments, changes)
      invariant pipe.outbox == start + Concat(Entries(done, changes), EncodeEnrichmentEntry)
      decreases changes'.Keys
    {
      var k := PickLeastKey(changes'.Keys);
      var bits := changes'[k];
      ok := WriteEnrichmentEntry(pipe, k, bits);
      if !ok {
        return;
      }
      EntriesAppend(done, k, changes);
      ConcatAppend(Entries(done, changes), (k, bits), EncodeEnrichmentEntry);
      AppendAssociative(start, Concat(Entries(done, changes), EncodeEnrichmentEntry), EncodeEnrichment(k, bits));
      KeyDrainStep(done, changes'.Keys, all, k);
      ApplyChangeKeepsEffective(enrichments', changes', k);
      done := done + [k];
      enrichments' := ApplyChange(enrichments', k, bits);
      changes' := changes' - {k};
    }
    KeyDrainEnd(done, all);
    NoChangesEffective(enrichments');
    ok := true;
  }

  /** The count of the enrichment entries that follow and, in a full update, the whole map. */
  method WriteEnrichmentHead(pipe: PipeServer, delta: bool, enrichments: map<EnrichmentKey, uint32>, changes: map<EnrichmentKey, uint32>)
    returns (ok: bool)
    modifies pipe`outbox, pipe`writeCompletions
    ensures ok ==> pipe.outbox == old(pipe.outbox) + EnrichmentHead(enrichments, changes, delta)
  {
    var count := (|changes| + if delta then 0 else |enrichments|) % UINT32_LIMIT;
    ok := pipe.WriteCompressedUInt32(count);
    if !ok {
      return;
    }
    if !delta {
      ok := WriteEntries(pipe, enrichments);
      if ok {
        AppendAssociative(old(pipe.outbox), EncodeCompressedUInt32(count), EncodeEntries(enrichments));
      }
    } else {
      assert EncodeCompressedUInt32(count) + [] == EncodeCompressedUInt32(count);
    }
  }

  /** The enrichments: the head, then the pending changes. */
  method WriteEnrichments(pipe: PipeServer, delta: bool, enrichments: map<EnrichmentKey, uint32>, changes: map<EnrichmentKey, uint32>)
    returns (ok: bool, enrichments': map<EnrichmentKey, uint32>, changes': map<EnrichmentKey, uint32>)
    modifies pipe`outbox, pipe`writeCompletions
    ensures EffectiveEnrichments(enrichments', changes') == EffectiveEnrichments(enrichments, changes)
    ensures ok ==> changes' == map[] && enrichments' == EffectiveEnrichments(enrichments, changes)
    ensures ok ==> pipe.outbox == old(pipe.outbox) + EnrichmentMessage(enrichments, changes, delta)
  {
    enrichments', changes' := enrichments, changes;
    ok := WriteEnrichmentHead(pipe, delta, enrichments, changes);
    if !ok {
      return;
    }
    ok, enrichments', changes' := WriteChanges(pipe, enrichments, changes);
    if ok {
      AppendAssociative(old(pipe.outbox), EnrichmentHead(enrichments, changes, delta), EncodeEntries(changes));
    }
  }

  /**
    The body of the settings message.  Returns the settings afterwards and
    whether the transmit flags went out (only then is the transmit change
    cleared).
  */
  method WriteSettingsBody(pipe: PipeServer, delta: bool, s: Settings) returns (ok: bool, out: Settings, flagsSent: bool)
    requires s.Valid()
    modifies pipe`outbox, pipe`writeCompletions
    ensures out.Valid() && out.transmit == s.transmit
    ensures out.allow.Effective() == s.allow.Effective() && out.deny.Effective() == s.deny.Effective()
    ensures EffectiveEnrichments(out.enrichments, out.enrichmentChanges) == EffectiveEnrichments(s.enrichments, s.enrichmentChanges)
    ensures flagsSent ==> !out.transmitChanged
    ensures !flagsSent ==> out == s && !ok
    ensures ok ==> out == Committed(s)
    ensures ok ==> pipe.outbox == old(pipe.outbox) + SettingsBody(delta, s)
  {
    out := s;
    flagsSent := false;
    ok := WriteFlags(pipe, s.transmit);
    if !ok {
      return;
    }
    flagsSent := true;
    out := out.(transmitChanged := false);
    ghost var written := FlagsMessage(s.transmit);

    var allow;
    ok, allow := WriteList(pipe, delta, s.allow);
    out := out.(allow := allow);
    if !ok {
      return;
    }
    AppendAssociative(old(pipe.outbox), written, ListMessage(s.allow, delta));
    written := written + ListMessage(s.allow, delta);

    var deny;
    ok, deny := WriteList(pipe, delta, s.deny);
    out := out.(deny := deny);
    if !ok {
      return;
    }
    AppendAssociative(old(pipe.outbox), written, ListMessage(s.deny, delta));
    written := written + ListMessage(s.deny, delta);

    var e, c;
    ok, e, c := WriteEnrichments(pipe, delta, s.enrichments, s.enrichmentChanges);
    out := out.(enrichments := e, enrichmentChanges := c);
    if ok {
      AppendAssociative(old(pipe.outbox), written, EnrichmentMessage(s.enrichments, s.enrichmentChanges, delta));
    }
  }

  /**
    The whole settings message for a host holding settings `s`.  Returns the
    settings afterwards, whether the transmit flags went out (only then is the
    transmit change cleared) and whether the known events are to be forgotten,
    which a full update does once its first byte is written.
  */
  method WriteSettingsMessage(pipe: PipeServer, delta: bool, hasCallback: bool, s: Settings)
    returns (ok: bool, out: Settings, flagsSent: bool, cleared: bool)
    requires s.Valid()
    modifies pipe`outbox, pipe`writeCompletions
    ensures AfterWrite(s, out, hasCallback, delta, ok)
    ensures flagsSent ==> !out.transmitChanged
    ensures !flagsSent ==> out == s
    ensures cleared ==> hasCallback && !delta
    ensures ok && hasCallback && !delta ==> cleared
    ensures ok ==> pipe.outbox == old(pipe.outbox) + SettingsMessage(hasCallback, delta, s)
  {
    out, flagsSent, cleared := s, false, false;
    ok := pipe.WriteBoolean(hasCallback);
    if !ok || !hasCallback {
      return;
    }
    cleared := !delta;
    ghost var written := EncodeBoolean(true);
    if delta {
      var changed := s.Changed();
      ok := pipe.WriteBoolean(changed);
      if !ok {
        return;
      }
      AppendAssociative(old(pipe.outbox), written, EncodeBoolean(changed));
      if !changed {
        return;
      }
      written := written + EncodeBoolean(true);
    } else {
      assert written + [] == written;
    }
    ok, out, flagsSent := WriteSettingsBody(pipe, delta, s);
    if ok {
      AppendAssociative(old(pipe.outbox), written, SettingsBody(delta, s));
    }
  }

  // ---------------------------------------------------------------------------
  // Reading an event, piece by piece

  method ReadVector(pipe: PipeServer) returns (ok: bool, v: Vector)
    modifies pipe`inbox, pipe`readCompletions
    requires pipe.Intact()
    ensures pipe.Intact()
    ensures ok ==> DecodeVector(old(pipe.inbox)) == Some((v, pipe.inbox))
  {
    v := Vector([0, 0, 0, 0], [0, 0, 0, 0], [0, 0, 0, 0]);
    var x, y, z;
    ok, x := pipe.ReadSingle();
    if !ok { return; }
    ok, y := pipe.ReadSingle();
    if !ok { return; }
    ok, z := pipe.ReadSingle();
    if !ok { return; }
    v := Vector(x, y, z);
  }

  method ReadQAngle(pipe: PipeServer) returns (ok: bool, a: QAngle)
    modifies pipe`inbox, pipe`readCompletions
    requires pipe.Intact()
    ensures pipe.Intact()
    ensures ok ==> DecodeQAngle(old(pipe.inbox)) == Some((a, pipe.inbox))
  {
    a := QAngle([0, 0, 0, 0], [0, 0, 0, 0], [0, 0, 0, 0]);
    var pitch, yaw, roll;
    ok, pitch := pipe.ReadSingle();
    if !ok { return; }
    ok, yaw := pipe.ReadSingle();
    if !ok { return; }
    ok, roll := pipe.ReadSingle();
    if !ok { return; }
    a := QAngle(pitch, yaw, roll);
  }

  /** The time header, reading each value whose flag is set. */
  method ReadTimes(pipe: PipeServer, flags: TransmitFlags) returns (ok: bool, t: EventTimes)
    modifies pipe`inbox, pipe`readCompletions
    requires pipe.Intact()
    ensures pipe.Intact()
    ensures ok ==> DecodeTimes(flags, old(pipe.inbox)) == Some((t, pipe.inbox))
  {
    t := NoTimes;
    ok := true;
    if flags.clientTime {
      var f;
      ok, f := pipe.ReadSingle();
      if !ok { return; }
      t := t.(hasClientTime := true, clientTime := f);
    }
    assert ClientTimeStage(flags, (NoTimes, old(pipe.inbox))) == Some((t, pipe.inbox));
    ghost var t0, in0 := t, pipe.inbox;
    if flags.tick {
      var i;
      ok, i := pipe.ReadInt32();
      if !ok { return; }
      t := t.(hasTick := true, tick := i);
    }
    assert TickStage(flags, (t0, in0)) == Some((t, pipe.inbox));
    ghost var t1, in1 := t, pipe.inbox;
    if flags.systemTime {
      var u;
      ok, u := pipe.ReadUInt64();
      if !ok { return; }
      t := t.(hasSystemTime := true, systemTime := u);
    }
    assert SystemTimeStage(flags, (t1, in1)) == Some((t, pipe.inbox));
  }

  /** A key's value by its declared type; a type outside the protocol reads nothing. */
  method ReadValue(pipe: PipeServer, fieldType: int32) returns (ok: bool, v: Option<EventValue>)
    modifies pipe`inbox, pipe`readCompletions
    requires pipe.Intact()
    ensures pipe.Intact()
    ensures ok ==> DecodeValue(fieldType, old(pipe.inbox)) == Some((v, pipe.inbox))
  {
    v := None;
    if fieldType == FIELD_CSTRING {
      var s;
      ok, s := pipe.ReadStringUTF8();
      v := Some(CStringValue(s));
    } else if fieldType == FIELD_FLOAT {
      var f;
      ok, f := pipe.ReadSingle();
      v := Some(FloatValue(f));
    } else if fieldType == FIELD_LONG {
      var l;
      ok, l := pipe.ReadInt32();
      v := Some(LongValue(l));
    } else if fieldType == FIELD_SHORT {
      var s;
      ok, s := pipe.ReadInt16();
      v := Some(ShortValue(s));
    } else if fieldType == FIELD_BYTE {
      var b;
      ok, b := pipe.ReadByte();
      v := Some(ByteValue(b));
    } else if fieldType == FIELD_BOOL {
      var b;
      ok, b := pipe.ReadBoolean();
      v := Some(BoolValue(b));
    } else if fieldType == FIELD_UINT64 {
      var u;
      ok, u := pipe.ReadUInt64();
      v := Some(Uint64Value(u));
    } else {
      ok := true;
    }
  }

  /** The extra fields a key's enrichment bits announce, read into `e`. */
  method ReadEnrichment(pipe: PipeServer, bits: uint32, e: Enrichment) returns (ok: bool, r: Enrichment)
    modifies pipe`inbox, pipe`readCompletions
    requires pipe.Intact()
    ensures pipe.Intact()
    ensures ok ==> DecodeEnrichment(bits, e, old(pipe.inbox)) == Some((r, pipe.inbox))
  {
    r := e;
    ok := true;
    if Bit(bits, 0) {
      var u;
      ok, u := pipe.ReadUInt64();
      if !ok { return; }
      r := r.(useridWithSteamId := Some(u));
    }
    assert SteamIdStage(bits, (e, old(pipe.inbox))) == Some((r, pipe.inbox));
    ghost var r0, in0 := r, pipe.inbox;
    if Bit(bits, 1) {
      var v;
      ok, v := ReadVector(pipe);
      if !ok { return; }
      r := r.(entnumWithOrigin := Some(v));
    }
    assert OriginStage(bits, (r0, in0)) == Some((r, pipe.inbox));
    ghost var r1, in1 := r, pipe.inbox;
    if Bit(bits, 2) {
      var a;
      ok, a := ReadQAngle(pipe);
      if !ok { return; }
      r := r.(entnumWithAngles := Some(a));
    }
    assert AnglesStage(bits, (r1, in1)) == Some((r, pipe.inbox));
    ghost var r2, in2 := r, pipe.inbox;
    if Bit(bits, 3) {
      var v;
      ok, v := ReadVector(pipe);
      if !ok { return; }
      r := r.(useridWithEyePosition := Some(v));
    }
    assert EyePositionStage(bits, (r2, in2)) == Some((r, pipe.inbox));
    ghost var r3, in3 := r, pipe.inbox;
    if Bit(bits, 4) {
      var a;
      ok, a := ReadQAngle(pipe);
      if !ok { return; }
      r := r.(useridWithEyeAngles := Some(a));
    }
    assert EyeAnglesStage(bits, (r3, in3)) == Some((r, pipe.inbox));
  }

  /** Reads the enrichment registered for `key`, if any, into the last key read. */
  method EnrichLast(pipe: PipeServer, key: EnrichmentKey, enrichments: map<EnrichmentKey, uint32>, keys: seq<EventKey>)
    returns (ok: bool, keys': seq<EventKey>)
    modifies pipe`inbox, pipe`readCompletions
    requires pipe.Intact()
    ensures pipe.Intact()
    ensures ok ==> EnrichKey(key, enrichments, keys, old(pipe.inbox)) == Some((keys', pipe.inbox))
  {
    keys' := keys;
    if key !in enrichments || !AnyBit(enrichments[key]) {
      ok := true;
      return;
    }
    if keys == [] {
      ok := false;
      return;
    }
    var last := keys[|keys| - 1];
    var e;
    ok, e := ReadEnrichment(pipe, enrichments[key], last.enrichment);
    keys' := keys[..|keys| - 1] + [last.(enrichment := e)];
  }

  /** The keys of an event, in the order its definition lists them. */
  method ReadKeys(pipe: PipeServer, eventName: Bytes, defs: seq<KnownKey>, enrichments: map<EnrichmentKey, uint32>)
    returns (ok: bool, keys: seq<EventKey>)
    modifies pipe`inbox, pipe`readCompletions
    requires pipe.Intact()
    ensures pipe.Intact()
    ensures ok ==> DecodeKeys(eventName, defs, enrichments, old(pipe.inbox), []) == Some((keys, pipe.inbox))
  {
    ghost var whole := DecodeKeys(eventName, defs, enrichments, pipe.inbox, []);
    keys := [];
    ok := true;
    var i := 0;
    assert defs[0..] == defs;
    while ok && i < |defs|
      invariant pipe.Intact()
      invariant 0 <= i <= |defs|
      invariant ok ==> whole == DecodeKeys(eventName, defs[i..], enrichments, pipe.inbox, keys)
      decreases ok, |defs| - i
    {
      ghost var before, acc := pipe.inbox, keys;
      var def := defs[i];
      var value;
      ok, value := ReadValue(pipe, def.fieldType);
      if ok {
        ghost var mid := pipe.inbox;
        if value.Some? {
          keys := keys + [EventKey(def.key, value.value, NoEnrichment)];
        }
        ghost var named := keys;
        ok, keys := EnrichLast(pipe, EnrichmentKey(eventName, def.key), enrichments, keys);
        if ok {
          ghost var i0 := i;
          i := i + 1;
          DecodeKeysStep(eventName, defs, enrichments, i0, before, acc, value, mid, named, pipe.inbox, keys, i);
        }
      }
    }
    if ok {
      assert defs[i..] == [];
    }
  }

  /** Reading one key's value and its enrichment is one step of `DecodeKeys`. */
  lemma DecodeKeysStep(eventName: Bytes, defs: seq<KnownKey>, enrichments: map<EnrichmentKey, uint32>, i: nat,
                       bs: Bytes, acc: seq<EventKey>, value: Option<EventValue>, mid: Bytes,
                       named: seq<EventKey>, rest: Bytes, keys: seq<EventKey>, i': nat)
    requires i < |defs| && i' == i + 1
    requires DecodeValue(defs[i].fieldType, bs) == Some((value, mid))
    requires named == if value.Some? then acc + [EventKey(defs[i].key, value.value, NoEnrichment)] else acc
    requires EnrichKey(EnrichmentKey(eventName, defs[i].key), enrichments, named, mid) == Some((keys, rest))
    ensures DecodeKeys(eventName, defs[i..], enrichments, bs, acc) == DecodeKeys(eventName, defs[i'..], enrichments, rest, keys)
  {
    assert defs[i..][0] == defs[i];
    assert defs[i..][1..] == defs[i'..];
  }

  /** The table kept every definition it had and gained at most one id. */
  ghost predicate GrewByAtMostOne(before: map<int32, KnownEvent>, after: map<int32, KnownEvent>)
  {
    && (forall i :: i in before ==> i in after && after[i] == before[i])
    && (forall i, j :: i in after && j in after && i !in before && j !in before ==> i == j)
  }

  /**
    What a failed event message leaves of a definition it carried: the whole
    definition, when the message broke off later, or the partial one.
  */
  ghost predicate DefinedOrBroken(bs: Bytes, id: int32, e: KnownEvent, stop: Bytes)
  {
    || (DecodeDefinition(bs).Some? && DecodeDefinition(bs).value.0 == (id, e))
    || BrokenDefinition(bs, id, e, stop)
  }

  lemma GrewByNothing(known: map<int32, KnownEvent>)
    ensures GrewByAtMostOne(known, known)
  {
  }

  lemma GrewByOne(known: map<int32, KnownEvent>, id: int32, event: KnownEvent)
    requires id !in known
    ensures GrewByAtMostOne(known, known[id := event])
  {
  }

  // ---------------------------------------------------------------------------
  // The state

  class GameEvents {
    /** The allow and deny lists, the enrichments and the transmit flags, each with its pending changes. */
    var settings: Settings
    var knownEvents: map<int32, KnownEvent>
    var callback: Option<CalcCallbacks.CallbackId>
    /** The references this object holds on callbacks. */
    var refs: multiset<CalcCallbacks.CallbackId>
    /** The transmit flags the client was last sent. */
    ghost var sent: TransmitFlags

    ghost predicate Valid()
      reads this`settings, this`sent, this`refs, this`callback
    {
      && settings.Valid()
      && InSync(settings.transmit, settings.transmitChanged, sent)
      && refs == if callback.Some? then multiset{callback.value} else multiset{}
    }

    constructor ()
      ensures Valid()
      ensures settings == Settings(FilterList({}, {}, {}), FilterList({}, {}, {}), map[], map[], TransmitFlags(false, false, false), false)
      ensures knownEvents == map[] && callback == None
    {
      settings := Settings(FilterList({}, {}, {}), FilterList({}, {}, {}), map[], map[], TransmitFlags(false, false, false), false);
      knownEvents := map[];
      callback := None;
      refs := multiset{};
      sent := TransmitFlags(false, false, false);
    }

    /** `GameEvents_AllowAdd`. */
    method AllowAdd(name: Bytes)
      requires Valid()
      modifies this`settings
      ensures Valid()
      ensures settings == old(settings).(allow := AddName(old(settings).allow, name))
      ensures settings.allow.Effective() == old(settings).allow.Effective() + {name}
    {
      settings := settings.(allow := AddName(settings.allow, name));
    }

    /** `GameEvents_AllowRemove`. */
    method AllowRemove(name: Bytes)
      requires Valid()
      modifies this`settings
      ensures Valid()
      ensures settings == old(settings).(allow := RemoveName(old(settings).allow, name))
      ensures settings.allow.Effective() == old(settings).allow.Effective() - {name}
    {
      settings := settings.(allow := RemoveName(settings.allow, name));
    }

    /** `GameEvents_DenyAdd`. */
    method DenyAdd(name: Bytes)
      requires Valid()
      modifies this`settings
      ensures Valid()
      ensures settings == old(settings).(deny := AddName(old(settings).deny, name))
      ensures settings.deny.Effective() == old(settings).deny.Effective() + {name}
    {
      settings := settings.(deny := AddName(settings.deny, name));
    }

    /** `GameEvents_DenyRemove`. */
    method DenyRemove(name: Bytes)
      requires Valid()
      modifies this`settings
      ensures Valid()
      ensures settings == old(settings).(deny := RemoveName(old(settings).deny, name))
      ensures settings.deny.Effective() == old(settings).deny.Effective() - {name}
    {
      settings := settings.(deny := RemoveName(settings.deny, name));
    }

    /** `GameEvents_SetEnrichment`: records a change; 0 will remove the enrichment once sent. */
    method SetEnrichment(eventName: Bytes, propertyName: Bytes, bits: uint32)
      requires Valid()
      modifies this`settings
      ensures Valid()
      ensures settings == old(settings).(enrichmentChanges := old(settings).enrichmentChanges[EnrichmentKey(eventName, propertyName) := bits])
      ensures EffectiveEnrichments(settings.enrichments, settings.enrichmentChanges)
           == ApplyChange(EffectiveEnrichments(old(settings).enrichments, old(settings).enrichmentChanges), EnrichmentKey(eventName, propertyName), bits)
    {
      var k := EnrichmentKey(eventName, propertyName);
      ghost var before := EffectiveEnrichments(settings.enrichments, settings.enrichmentChanges);
      settings := settings.(enrichmentChanges := settings.enrichmentChanges[k := bits]);
      SetChangeEffect(settings.enrichments, old(settings).enrichmentChanges, k, bits);
    }

    /** `GameEvents_SetTransmitClientTime`, `..Tick` and `..SystemTime`, as intended. */
    method SetTransmitFlag(f: TransmitField, value: bool)
      requires Valid()
      modifies this`settings
      ensures Valid()
      ensures (settings.transmit, settings.transmitChanged) == SetTransmit(old(settings).transmit, old(settings).transmitChanged, f, value)
      ensures settings == old(settings).(transmit := settings.transmit, transmitChanged := settings.transmitChanged)
    {
      var r := SetTransmit(settings.transmit, settings.transmitChanged, f, value);
      SetTransmitKeepsSync(settings.transmit, settings.transmitChanged, sent, f, value);
      settings := settings.(transmit := r.0, transmitChanged := r.1);
    }

    /** `SetGameEventCallback`: releases the old callback and takes a reference on the new one. */
    method SetCallback(c: Option<CalcCallbacks.CallbackId>)
      requires Valid()
      modifies this`callback, this`refs
      ensures Valid() && callback == c
      ensures refs == old(refs) - (if old(callback).Some? then multiset{old(callback).value} else multiset{})
                     + (if c.Some? then multiset{c.value} else multiset{})
    {
      if callback.Some? {
        refs := refs - multiset{callback.value};
      }
      callback := c;
      if c.Some? {
        refs := refs + multiset{c.value};
      }
    }

    /**
      `WriteGameEventSettings(delta)`.  Whatever happens, the effective lists and
      enrichments stay the same; on success the pending changes are folded in and
      the pipe carries exactly the settings message.
    */
    method WriteSettings(pipe: PipeServer, delta: bool) returns (ok: bool)
      requires Valid()
      modifies this`settings, this`knownEvents, this`sent, pipe`outbox, pipe`writeCompletions
      ensures Valid()
      ensures ok ==> pipe.outbox == old(pipe.outbox) + SettingsMessage(old(callback).Some?, delta, old(settings))
      ensures AfterWrite(old(settings), settings, old(callback).Some?, delta, ok)
      ensures ok && old(callback).Some? && !delta ==> knownEvents == map[]
      ensures delta || old(callback).None? ==> knownEvents == old(knownEvents)
    {
      var s, hasCallback := settings, callback.Some?;
      var out, flagsSent, cleared;
      ok, out, flagsSent, cleared := WriteSettingsMessage(pipe, delta, hasCallback, s);
      settings, knownEvents := out, if cleared then map[] else knownEvents;
      sent := if flagsSent then s.transmit else sent;
    }

    /**
      What follows a 0 id: the new id, which must be unknown, then the name and
      the key list.  The entry is made as soon as the id is read, the name is
      read straight into it and each key is added as it arrives, so a message
      that breaks off later leaves a partial definition behind.
    */
    method ReadDefinition(pipe: PipeServer) returns (ok: bool, id: int32, event: KnownEvent)
      modifies this`knownEvents, pipe`inbox, pipe`readCompletions
      requires pipe.Intact()
      ensures pipe.Intact()
      ensures GrewByAtMostOne(old(knownEvents), knownEvents)
      ensures ok ==> id !in old(knownEvents) && knownEvents == old(knownEvents)[id := event]
      ensures ok ==> DecodeDefinition(old(pipe.inbox)) == Some(((id, event), pipe.inbox))
      ensures !ok && knownEvents != old(knownEvents) ==>
        && id !in old(knownEvents) && knownEvents == old(knownEvents)[id := event]
        && BrokenDefinition(old(pipe.inbox), id, event, pipe.inbox)
      ensures !ok && knownEvents == old(knownEvents) ==>
        || (!ReadSucceeds(old(pipe.readCompletions), |old(pipe.inbox)|, 4) && BrokeOff(old(pipe.inbox), pipe.inbox, DecodeInt32(old(pipe.inbox))))
        || (DecodeInt32(old(pipe.inbox)).Some? && DecodeInt32(old(pipe.inbox)).value.0 in old(knownEvents))
    {
      var known := knownEvents;
      event := KnownEvent([], []);
      ok, id := pipe.ReadInt32();
      if ok && id in known {
        ok := false;
      }
      if !ok {
        GrewByNothing(known);
        return;
      }
      GrewByOne(known, id, event);
      knownEvents := known[id := event];
      ghost var afterId := pipe.inbox;
      var name;
      ok, name := pipe.ReadStringUTF8();
      event := KnownEvent(name, []);
      knownEvents := known[id := event];
      GrewByOne(known, id, event);
      if !ok {
        return;
      }
      ghost var afterName := pipe.inbox;
      var keys;
      ok, keys := ReadKeyDefs(pipe, known, id, name);
      event := KnownEvent(name, keys);
      GrewByOne(known, id, event);
      if !ok {
        assert DecodeString(afterId) == Some((name, afterName));
      }
    }

    /**
      The key list of the definition of `id`, read straight into its entry:
      each key is added as it arrives, until the closing `false`.
    */
    method ReadKeyDefs(pipe: PipeServer, known: map<int32, KnownEvent>, id: int32, name: Bytes) returns (ok: bool, keys: seq<KnownKey>)
      modifies this`knownEvents, pipe`inbox, pipe`readCompletions
      requires pipe.Intact()
      requires knownEvents == known[id := KnownEvent(name, [])]
      ensures pipe.Intact()
      ensures knownEvents == known[id := KnownEvent(name, keys)]
      ensures DecodeAnnouncedKeys(old(pipe.inbox), |keys|).Some? && DecodeAnnouncedKeys(old(pipe.inbox), |keys|).value.0 == keys
      ensures ok ==> DecodeKeyDefs(old(pipe.inbox), []) == Some((keys, pipe.inbox))
      ensures !ok ==> BrokenKeys(old(pipe.inbox), keys, pipe.inbox)
    {
      keys := [];
      while true
        invariant pipe.Intact()
        invariant knownEvents == known[id := KnownEvent(name, keys)]
        invariant DecodeAnnouncedKeys(old(pipe.inbox), |keys|) == Some((keys, pipe.inbox))
        invariant DecodeKeyDefs(old(pipe.inbox), []) == DecodeKeyDefs(pipe.inbox, keys)
        decreases |pipe.inbox|
      {
        ghost var before := pipe.inbox;
        var hasNext;
        ok, hasNext := pipe.ReadBoolean();
        if !ok {
          return;
        }
        if !hasNext {
          break;
        }
        ghost var atKey := pipe.inbox;
        var key, fieldType;
        ok, key := pipe.ReadStringUTF8();
        if !ok {
          if DecodeString(atKey).Some? {
            BrokenStringStopsShort(atKey, pipe.inbox, key);
          }
          TailsOfOneStream(pipe.stream, before, pipe.inbox);
          return;
        }
        ghost var atType := pipe.inbox;
        ok, fieldType := pipe.ReadInt32();
        if !ok {
          TailsOfOneStream(pipe.stream, before, pipe.inbox);
          return;
        }
        assert DecodeKeyDef(before) == Some((KnownKey(key, fieldType), pipe.inbox));
        AnnouncedKeysStep(old(pipe.inbox), keys, before, KnownKey(key, fieldType), pipe.inbox);
        keys := keys + [KnownKey(key, fieldType)];
        knownEvents := known[id := KnownEvent(name, keys)];
      }
    }

    /**
      `ReadGameEvent`: one event message, decoded against the known events, the
      transmit flags and the enrichments; the event goes to the callback if one
      is set.
    */
    method ReadGameEvent(pipe: PipeServer) returns (ok: bool, event: GameEvent, delivered: bool)
      modifies this`knownEvents, pipe`inbox, pipe`readCompletions
      requires pipe.Intact()
      ensures pipe.Intact()
      ensures delivered <==> ok && callback.Some?
      ensures ok ==>
        DecodeGameEvent(old(knownEvents), settings.transmit, settings.enrichments, old(pipe.inbox)) == Some((event, knownEvents, pipe.inbox))
      ensures GrewByAtMostOne(old(knownEvents), knownEvents)
      ensures !ok && knownEvents != old(knownEvents) ==>
        && DecodeInt32(old(pipe.inbox)).Some? && DecodeInt32(old(pipe.inbox)).value.0 == 0
        && forall id :: id in knownEvents && id !in old(knownEvents) ==>
             DefinedOrBroken(DecodeInt32(old(pipe.inbox)).value.1, id, knownEvents[id], pipe.inbox)
    {
      event := GameEvent([], NoTimes, []);
      delivered := false;
      var id;
      ok, id := pipe.ReadInt32();
      if !ok {
        return;
      }
      var def;
      if id == 0 {
        var newId;
        ok, newId, def := ReadDefinition(pipe);
        if !ok {
          return;
        }
      } else {
        if id !in knownEvents {
          ok := false;
          return;
        }
        def := knownEvents[id];
      }
      assert ResolveEvent(old(knownEvents), old(pipe.inbox)) == Some((def, knownEvents, pipe.inbox));
      var times;
      ok, times := ReadTimes(pipe, settings.transmit);
      if !ok {
        return;
      }
      var keys;
      ok, keys := ReadKeys(pipe, def.name, def.keys, settings.enrichments);
      if !ok {
        return;
      }
      event := GameEvent(def.name, times, keys);
      delivered := callback.Some?;
    }
  }
}
