/**
  The byte layouts of the game-event exchange between the engine host and the
  client: the filter settings the host sends (`WriteGameEventSettings`) and the
  events the client sends back (`ReadGameEvent`).
*/
module GameEventCodec {
  import opened Wrappers
  import opened Wire
  import opened Order

  /** Applies `f` to the value of a successful decode. */
  function Then<A, B>(d: Decoded<A>, f: A -> B): (r: Decoded<B>)
    ensures r.Some? <==> d.Some?
    ensures r.Some? ==> r.value == (f(d.value.0), d.value.1)
  {
    match d
    case None => None
    case Some((a, rest)) => Some((f(a), rest))
  }

  // ---------------------------------------------------------------------------
  // Enrichment keys: (event name, property name), compared name first

  datatype EnrichmentKey = EnrichmentKey(eventName: Bytes, propertyName: Bytes)

  predicate KeyLess(a: EnrichmentKey, b: EnrichmentKey)
  {
    LexLess(a.eventName, b.eventName) || (a.eventName == b.eventName && LexLess(a.propertyName, b.propertyName))
  }

  lemma KeyLessIsStrictTotalOrder()
    ensures StrictTotalOrder(KeyLess)
  {
    forall a: EnrichmentKey ensures !KeyLess(a, a) {
      LexIrreflexive(a.eventName);
      LexIrreflexive(a.propertyName);
    }
    forall a: EnrichmentKey, b: EnrichmentKey, c: EnrichmentKey | KeyLess(a, b) && KeyLess(b, c) ensures KeyLess(a, c) {
      if LexLess(a.eventName, b.eventName) && LexLess(b.eventName, c.eventName) {
        LexTransitive(a.eventName, b.eventName, c.eventName);
      } else if a.eventName == b.eventName == c.eventName {
        LexTransitive(a.propertyName, b.propertyName, c.propertyName);
      }
    }
    forall a: EnrichmentKey, b: EnrichmentKey ensures a == b || KeyLess(a, b) || KeyLess(b, a) {
      LexTotal(a.eventName, b.eventName);
      LexTotal(a.propertyName, b.propertyName);
    }
  }

  /** The keys of an enrichment map in iteration order. */
  ghost function SortedKeys(s: set<EnrichmentKey>): (r: seq<EnrichmentKey>)
    ensures |r| == |s|
    ensures forall k :: k in r ==> k in s
  {
    KeyLessIsStrictTotalOrder();
    SortedSeqFacts(s, KeyLess);
    SortedSeq(s, KeyLess)
  }

  method PickLeastKey(s: set<EnrichmentKey>) returns (k: EnrichmentKey)
    requires s != {}
    ensures IsMin(k, s, KeyLess)
  {
    KeyLessIsStrictTotalOrder();
    k := PickMin(s, KeyLess);
  }

  lemma KeyDrainStep(done: seq<EnrichmentKey>, left: set<EnrichmentKey>, all: set<EnrichmentKey>, k: EnrichmentKey)
    requires DrainedInOrder(done, left, all, KeyLess)
    requires IsMin(k, left, KeyLess)
    ensures DrainedInOrder(done + [k], left - {k}, all, KeyLess)
  {
    KeyLessIsStrictTotalOrder();
    DrainStep(done, left, all, k, KeyLess);
  }

  lemma KeyDrainEnd(done: seq<EnrichmentKey>, all: set<EnrichmentKey>)
    requires DrainedInOrder(done, {}, all, KeyLess)
    ensures done == SortedKeys(all)
  {
    KeyLessIsStrictTotalOrder();
    DrainEnd(done, all, KeyLess);
  }

  // ---------------------------------------------------------------------------
  // The settings message

  /** One allow or deny list: the committed set and its pending changes. */
  datatype FilterList = FilterList(committed: set<Bytes>, deletions: set<Bytes>, additions: set<Bytes>)
  {
    /** The list as it will be once the pending changes are sent. */
    function Effective(): set<Bytes>
    {
      committed - deletions + additions
    }

    predicate Pending()
    {
      deletions != {} || additions != {}
    }

    /** A name is never pending both ways. */
    ghost predicate Disjoint()
    {
      deletions !! additions
    }
  }

  /** `GameEvents_AllowAdd` / `GameEvents_DenyAdd`. */
  function AddName(list: FilterList, name: Bytes): (r: FilterList)
    requires list.Disjoint()
    ensures r.Disjoint() && name in r.additions && name !in r.deletions
    ensures r.Effective() == list.Effective() + {name}
  {
    list.(deletions := list.deletions - {name}, additions := list.additions + {name})
  }

  /** `GameEvents_AllowRemove` / `GameEvents_DenyRemove`. */
  function RemoveName(list: FilterList, name: Bytes): (r: FilterList)
    requires list.Disjoint()
    ensures r.Disjoint() && name in r.deletions && name !in r.additions
    ensures r.Effective() == list.Effective() - {name}
  {
    list.(additions := list.additions - {name}, deletions := list.deletions + {name})
  }

  /** The enrichment map once the pending changes are applied: 0 erases a key, anything else sets it. */
  function EffectiveEnrichments(enrichments: map<EnrichmentKey, uint32>, changes: map<EnrichmentKey, uint32>): (r: map<EnrichmentKey, uint32>)
    ensures forall k :: k in changes && changes[k] == 0 ==> k !in r
    ensures forall k :: k in changes && changes[k] != 0 ==> k in r && r[k] == changes[k]
    ensures forall k :: k !in changes ==> (k in r <==> k in enrichments) && (k in r ==> r[k] == enrichments[k])
  {
    map k | k in enrichments.Keys + changes.Keys && (k in changes ==> changes[k] != 0)
      :: if k in changes then changes[k] else enrichments[k]
  }

  /** One enrichment entry on the wire: event name, property name, bits. */
  function EncodeEnrichment(k: EnrichmentKey, bits: uint32): Bytes
  {
    EncodeString(k.eventName) + EncodeString(k.propertyName) + EncodeUInt32(bits)
  }

  function EncodeEnrichmentEntry(e: (EnrichmentKey, uint32)): Bytes
  {
    EncodeEnrichment(e.0, e.1)
  }

  /** The entries of `m` for `keys`, in that order. */
  function Entries(keys: seq<EnrichmentKey>, m: map<EnrichmentKey, uint32>): (r: seq<(EnrichmentKey, uint32)>)
    requires forall k :: k in keys ==> k in m
    ensures |r| == |keys|
    ensures forall i :: 0 <= i < |keys| ==> r[i] == (keys[i], m[keys[i]])
  {
    seq(|keys|, i requires 0 <= i < |keys| => (keys[i], m[keys[i]]))
  }

  lemma EntriesAppend(keys: seq<EnrichmentKey>, k: EnrichmentKey, m: map<EnrichmentKey, uint32>)
    requires forall x :: x in keys ==> x in m
    requires k in m
    ensures Entries(keys + [k], m) == Entries(keys, m) + [(k, m[k])]
  {
    assert forall i :: 0 <= i < |keys| ==> (keys + [k])[i] == keys[i];
  }

  /** What sending one pending change does to the enrichment map. */
  function ApplyChange(e: map<EnrichmentKey, uint32>, k: EnrichmentKey, bits: uint32): (r: map<EnrichmentKey, uint32>)
    ensures bits == 0 ==> k !in r
    ensures bits != 0 ==> k in r && r[k] == bits
    ensures forall x :: x != k ==> (x in r <==> x in e) && (x in r ==> r[x] == e[x])
  {
    if bits == 0 then e - {k} else e[k := bits]
  }

  /** Sending one change and dropping it from the pending ones leaves the effective map as it was. */
  lemma ApplyChangeKeepsEffective(e: map<EnrichmentKey, uint32>, c: map<EnrichmentKey, uint32>, k: EnrichmentKey)
    requires k in c
    ensures EffectiveEnrichments(ApplyChange(e, k, c[k]), c - {k}) == EffectiveEnrichments(e, c)
  {
    var before := EffectiveEnrichments(e, c);
    var after := EffectiveEnrichments(ApplyChange(e, k, c[k]), c - {k});
    assert before.Keys == after.Keys;
  }

  /** Recording a change makes the effective map look as if it had been sent. */
  lemma SetChangeEffect(e: map<EnrichmentKey, uint32>, c: map<EnrichmentKey, uint32>, k: EnrichmentKey, bits: uint32)
    ensures EffectiveEnrichments(e, c[k := bits]) == ApplyChange(EffectiveEnrichments(e, c), k, bits)
  {
    assert EffectiveEnrichments(e, c[k := bits]).Keys == ApplyChange(EffectiveEnrichments(e, c), k, bits).Keys;
  }

  lemma NoChangesEffective(e: map<EnrichmentKey, uint32>)
    ensures EffectiveEnrichments(e, map[]) == e
  {
    assert EffectiveEnrichments(e, map[]).Keys == e.Keys;
  }

  ghost function EncodeNames(names: set<Bytes>): Bytes
  {
    EncodeStrings(SortedNames(names))
  }

  ghost function EncodeEntries(m: map<EnrichmentKey, uint32>): Bytes
  {
    Concat(Entries(SortedKeys(m.Keys), m), EncodeEnrichmentEntry)
  }

  /** In delta mode, the removals of one list: their count and the names. */
  ghost function DeletionsMessage(deletions: set<Bytes>, delta: bool): Bytes
  {
    if delta then EncodeCompressedUInt32(|deletions| % UINT32_LIMIT) + EncodeNames(deletions) else []
  }

  /** The start of one list's additions: the count of what follows and, in a full update, the names that survived the removals. */
  ghost function AdditionsHead(kept: set<Bytes>, additions: set<Bytes>, delta: bool): Bytes
  {
    EncodeCompressedUInt32((|additions| + if delta then 0 else |kept|) % UINT32_LIMIT)
    + (if delta then [] else EncodeNames(kept))
  }

  /** The additions of one list: the head, then the pending additions. */
  ghost function AdditionsMessage(kept: set<Bytes>, additions: set<Bytes>, delta: bool): Bytes
  {
    AdditionsHead(kept, additions, delta) + EncodeNames(additions)
  }

  ghost function ListMessage(list: FilterList, delta: bool): Bytes
  {
    DeletionsMessage(list.deletions, delta) + AdditionsMessage(list.committed - list.deletions, list.additions, delta)
  }

  /** The start of the enrichments: the count and, in a full update, the whole current map. */
  ghost function EnrichmentHead(enrichments: map<EnrichmentKey, uint32>, changes: map<EnrichmentKey, uint32>, delta: bool): Bytes
  {
    EncodeCompressedUInt32((|changes| + if delta then 0 else |enrichments|) % UINT32_LIMIT)
    + (if delta then [] else EncodeEntries(enrichments))
  }

  /** The enrichments: the head, then the pending changes. */
  ghost function EnrichmentMessage(enrichments: map<EnrichmentKey, uint32>, changes: map<EnrichmentKey, uint32>, delta: bool): Bytes
  {
    EnrichmentHead(enrichments, changes, delta) + EncodeEntries(changes)
  }

  datatype TransmitFlags = TransmitFlags(clientTime: bool, tick: bool, systemTime: bool)

  /** The host's game-event settings, as `WriteGameEventSettings` sees them. */
  datatype Settings = Settings(
    allow: FilterList,
    deny: FilterList,
    enrichments: map<EnrichmentKey, uint32>,
    enrichmentChanges: map<EnrichmentKey, uint32>,
    transmit: TransmitFlags,
    transmitChanged: bool)
  {
    predicate Changed()
    {
      allow.Pending() || deny.Pending() || enrichmentChanges != map[] || transmitChanged
    }

    ghost predicate Valid()
    {
      allow.Disjoint() && deny.Disjoint()
    }
  }

  function FlagsMessage(t: TransmitFlags): Bytes
  {
    EncodeBoolean(t.clientTime) + EncodeBoolean(t.tick) + EncodeBoolean(t.systemTime)
  }

  /** What follows the leading booleans: the transmit flags, both lists and the enrichments. */
  ghost function SettingsBody(delta: bool, s: Settings): Bytes
  {
    FlagsMessage(s.transmit)
    + ListMessage(s.allow, delta)
    + ListMessage(s.deny, delta)
    + EnrichmentMessage(s.enrichments, s.enrichmentChanges, delta)
  }

  /**
    Everything a successful `WriteGameEventSettings(delta)` writes: whether a
    callback is set; in delta mode whether anything changed; then the body.
  */
  ghost function SettingsMessage(hasCallback: bool, delta: bool, s: Settings): Bytes
  {
    if !hasCallback then EncodeBoolean(false)
    else if delta && !s.Changed() then EncodeBoolean(true) + EncodeBoolean(false)
    else EncodeBoolean(true) + (if delta then EncodeBoolean(true) else []) + SettingsBody(delta, s)
  }

  /** The settings once a message went out: every pending change folded in. */
  function Committed(s: Settings): (r: Settings)
    ensures !r.Changed() && r.Valid()
    ensures r.allow.committed == s.allow.Effective() && r.deny.committed == s.deny.Effective()
    ensures r.enrichments == EffectiveEnrichments(s.enrichments, s.enrichmentChanges)
    ensures r.transmit == s.transmit
  {
    Settings(
      FilterList(s.allow.Effective(), {}, {}),
      FilterList(s.deny.Effective(), {}, {}),
      EffectiveEnrichments(s.enrichments, s.enrichmentChanges),
      map[],
      s.transmit,
      false)
  }

  /** Sending the settings changes none of the lists' effective contents. */
  lemma CommittedKeepsEffective(s: Settings)
    ensures Committed(s).allow.Effective() == s.allow.Effective()
    ensures Committed(s).deny.Effective() == s.deny.Effective()
    ensures EffectiveEnrichments(Committed(s).enrichments, Committed(s).enrichmentChanges)
         == EffectiveEnrichments(s.enrichments, s.enrichmentChanges)
  {
    var r := Committed(s);
    assert r.allow.Effective() == r.allow.committed;
    assert r.deny.Effective() == r.deny.committed;
    assert EffectiveEnrichments(r.enrichments, map[]) == r.enrichments;
  }

  /** `t` stands for the same lists, enrichments and transmit flags as `s`. */
  ghost predicate SameEffect(s: Settings, t: Settings)
  {
    && t.allow.Effective() == s.allow.Effective()
    && t.deny.Effective() == s.deny.Effective()
    && EffectiveEnrichments(t.enrichments, t.enrichmentChanges) == EffectiveEnrichments(s.enrichments, s.enrichmentChanges)
    && t.transmit == s.transmit
  }

  /**
    The settings `out` left behind by writing the settings message for `s`:
    the same effect in any case; untouched when there is no callback or a delta
    update finds nothing changed; all pending changes folded in once a message
    with a body went out.
  */
  ghost predicate AfterWrite(s: Settings, out: Settings, hasCallback: bool, delta: bool, ok: bool)
  {
    && out.Valid() && SameEffect(s, out)
    && (!hasCallback || (delta && !s.Changed()) ==> out == s)
    && (ok && hasCallback && (!delta || s.Changed()) ==> out == Committed(s))
  }

  // ---------------------------------------------------------------------------
  // Event definitions

  /** The field type codes of the game-event protocol. */
  const FIELD_CSTRING: int32 := 1
  const FIELD_FLOAT: int32 := 2
  const FIELD_LONG: int32 := 3
  const FIELD_SHORT: int32 := 4
  const FIELD_BYTE: int32 := 5
  const FIELD_BOOL: int32 := 6
  const FIELD_UINT64: int32 := 7

  datatype KnownKey = KnownKey(key: Bytes, fieldType: int32)
  datatype KnownEvent = KnownEvent(name: Bytes, keys: seq<KnownKey>)

  function EncodeKeyDef(k: KnownKey): Bytes
  {
    EncodeBoolean(true) + EncodeString(k.key) + EncodeInt32(k.fieldType)
  }

  /** The key list of a definition: each key announced by `true`, the list closed by `false`. */
  function EncodeKeyDefs(keys: seq<KnownKey>): Bytes
  {
    Concat(keys, EncodeKeyDef) + EncodeBoolean(false)
  }

  /** Reads key definitions until a `false`, appending them to `acc`. */
  function DecodeKeyDefs(bs: Bytes, acc: seq<KnownKey>): (r: Decoded<seq<KnownKey>>)
    ensures r.Some? ==> |r.value.1| < |bs|
    decreases |bs|
  {
    var hasNext :- DecodeBoolean(bs);
    if !hasNext.0 then Some((acc, hasNext.1))
    else
      var key :- DecodeString(hasNext.1);
      var fieldType :- DecodeInt32(key.1);
      DecodeKeyDefs(fieldType.1, acc + [KnownKey(key.0, fieldType.0)])
  }

  ghost predicate KeysFit(keys: seq<KnownKey>)
  {
    forall i :: 0 <= i < |keys| ==> |keys[i].key| < UINT32_LIMIT
  }

  /** One announced key is read and appended. */
  lemma KeyDefStep(k: KnownKey, acc: seq<KnownKey>, tail: Bytes)
    requires |k.key| < UINT32_LIMIT
    ensures DecodeKeyDefs(EncodeKeyDef(k) + tail, acc) == DecodeKeyDefs(tail, acc + [k])
  {
    assert EncodeKeyDef(k) + tail == EncodeBoolean(true) + (EncodeString(k.key) + (EncodeInt32(k.fieldType) + tail));
    BooleanRoundTrip(true, EncodeString(k.key) + (EncodeInt32(k.fieldType) + tail));
    StringRoundTrip(k.key, EncodeInt32(k.fieldType) + tail);
    Int32RoundTrip(k.fieldType, tail);
  }

  lemma AppendHead<T>(acc: seq<T>, xs: seq<T>)
    requires xs != []
    ensures acc + [xs[0]] + xs[1..] == acc + xs
  {
    assert xs == [xs[0]] + xs[1..];
  }

  lemma KeyDefsCons(keys: seq<KnownKey>, rest: Bytes)
    requires keys != []
    ensures EncodeKeyDefs(keys) + rest == EncodeKeyDef(keys[0]) + (EncodeKeyDefs(keys[1..]) + rest)
  {
    var k := keys[0];
    assert Concat(keys, EncodeKeyDef) == EncodeKeyDef(k) + Concat(keys[1..], EncodeKeyDef);
    AppendAssociative(EncodeKeyDef(k), Concat(keys[1..], EncodeKeyDef), EncodeBoolean(false));
    AppendAssociative(EncodeKeyDef(k), EncodeKeyDefs(keys[1..]), rest);
  }

  lemma KeyDefsEnd(acc: seq<KnownKey>, rest: Bytes)
    ensures DecodeKeyDefs(EncodeKeyDefs([]) + rest, acc) == Some((acc, rest))
  {
    assert EncodeKeyDefs([]) + rest == EncodeBoolean(false) + rest;
    BooleanRoundTrip(false, rest);
  }

  lemma {:induction false} KeyDefsRoundTrip(keys: seq<KnownKey>, acc: seq<KnownKey>, rest: Bytes)
    requires KeysFit(keys)
    ensures DecodeKeyDefs(EncodeKeyDefs(keys) + rest, acc) == Some((acc + keys, rest))
    decreases |keys|
  {
    if keys == [] {
      KeyDefsEnd(acc, rest);
      assert acc + keys == acc;
    } else {
      KeyDefsCons(keys, rest);
      KeyDefStep(keys[0], acc, EncodeKeyDefs(keys[1..]) + rest);
      KeyDefsRoundTrip(keys[1..], acc + [keys[0]], rest);
      AppendHead(acc, keys);
    }
  }

  /** What follows the leading 0 of a definition: the new id, the event name and its keys. */
  function DecodeDefinition(bs: Bytes): (r: Decoded<(int32, KnownEvent)>)
    ensures r.Some? ==> |r.value.1| < |bs|
  {
    var id :- DecodeInt32(bs);
    var name :- DecodeString(id.1);
    var keys :- DecodeKeyDefs(name.1, []);
    Some(((id.0, KnownEvent(name.0, keys.0)), keys.1))
  }

  function EncodeDefinition(id: int32, e: KnownEvent): Bytes
  {
    EncodeInt32(id) + EncodeString(e.name) + EncodeKeyDefs(e.keys)
  }

  lemma DefinitionRoundTrip(id: int32, e: KnownEvent, rest: Bytes)
    requires |e.name| < UINT32_LIMIT && KeysFit(e.keys)
    ensures DecodeDefinition(EncodeDefinition(id, e) + rest) == Some(((id, e), rest))
  {
    var t2 := EncodeKeyDefs(e.keys) + rest;
    var t1 := EncodeString(e.name) + t2;
    AppendAssociative(EncodeInt32(id) + EncodeString(e.name), EncodeKeyDefs(e.keys), rest);
    AppendAssociative(EncodeInt32(id), EncodeString(e.name), t2);
    Int32RoundTrip(id, t1);
    StringRoundTrip(e.name, t2);
    KeyDefsRoundTrip(e.keys, [], rest);
    assert [] + e.keys == e.keys;
  }

  /** One key definition after its announcing `true`: the key and its field type. */
  function DecodeKeyDef(bs: Bytes): (r: Decoded<KnownKey>)
    ensures r.Some? ==> |r.value.1| < |bs|
  {
    var hasNext :- DecodeBoolean(bs);
    if !hasNext.0 then None
    else
      var key :- DecodeString(hasNext.1);
      var fieldType :- DecodeInt32(key.1);
      Some((KnownKey(key.0, fieldType.0), fieldType.1))
  }

  /** The first `n` announced key definitions, whatever follows them. */
  function DecodeAnnouncedKeys(bs: Bytes, n: nat): (r: Decoded<seq<KnownKey>>)
    ensures r.Some? ==> |r.value.0| == n && |r.value.1| + n <= |bs|
  {
    if n == 0 then Some(([], bs))
    else
      var front :- DecodeAnnouncedKeys(bs, n - 1);
      var k :- DecodeKeyDef(front.1);
      Some((front.0 + [k.0], k.1))
  }

  lemma AnnouncedKeysStep(start: Bytes, keys: seq<KnownKey>, bs: Bytes, k: KnownKey, rest: Bytes)
    requires DecodeAnnouncedKeys(start, |keys|) == Some((keys, bs))
    requires DecodeKeyDef(bs) == Some((k, rest))
    ensures DecodeAnnouncedKeys(start, |keys + [k]|) == Some((keys + [k], rest))
  {
  }

  /**
    A complete key list read from `start` is also what reading its keys one
    by one finds: the keys `acc` already read, followed by the rest.
  */
  lemma {:induction false} AnnouncedKeysOfList(start: Bytes, bs: Bytes, acc: seq<KnownKey>)
    requires DecodeAnnouncedKeys(start, |acc|) == Some((acc, bs))
    requires DecodeKeyDefs(bs, acc).Some?
    ensures DecodeAnnouncedKeys(start, |DecodeKeyDefs(bs, acc).value.0|).Some?
    ensures DecodeAnnouncedKeys(start, |DecodeKeyDefs(bs, acc).value.0|).value.0 == DecodeKeyDefs(bs, acc).value.0
    decreases |bs|
  {
    var hasNext := DecodeBoolean(bs).value;
    if hasNext.0 {
      var key := DecodeString(hasNext.1).value;
      var fieldType := DecodeInt32(key.1).value;
      var k := KnownKey(key.0, fieldType.0);
      assert DecodeKeyDef(bs) == Some((k, fieldType.1));
      assert DecodeAnnouncedKeys(start, |acc + [k]|) == Some((acc + [k], fieldType.1));
      AnnouncedKeysOfList(start, fieldType.1, acc + [k]);
    }
  }

  /** Fewer keys read from the same bytes leave more of them. */
  lemma {:induction false} AnnouncedKeysPrefix(bs: Bytes, m: nat, n: nat)
    requires m <= n && DecodeAnnouncedKeys(bs, n).Some?
    ensures DecodeAnnouncedKeys(bs, m).Some?
    ensures |DecodeAnnouncedKeys(bs, m).value.1| >= |DecodeAnnouncedKeys(bs, n).value.1|
    decreases n
  {
    if m < n {
      var front := DecodeAnnouncedKeys(bs, n - 1);
      assert front.Some? && DecodeKeyDef(front.value.1).Some?;
      assert DecodeAnnouncedKeys(bs, n).value.1 == DecodeKeyDef(front.value.1).value.1;
      AnnouncedKeysPrefix(bs, m, n - 1);
    }
  }

  /**
    A key list read from `bs` that broke off at `stop`: `keys` arrived in full,
    and then either the closing `false` was not read or the next key did not
    arrive in full.
  */
  ghost predicate BrokenKeys(bs: Bytes, keys: seq<KnownKey>, stop: Bytes)
  {
    match DecodeAnnouncedKeys(bs, |keys|)
    case None => false
    case Some((read, rest)) =>
      && read == keys
      && if DecodeBoolean(rest).Some? && !DecodeBoolean(rest).value.0 then stop == rest
         else BrokeOff(rest, stop, DecodeKeyDef(rest))
  }

  /** A key list that broke off after `keys` stopped before the end of any longer run of keys. */
  lemma BrokenKeysStopBefore(bs: Bytes, keys: seq<KnownKey>, n: nat, stop: Bytes)
    requires BrokenKeys(bs, keys, stop)
    requires |keys| < n && DecodeAnnouncedKeys(bs, n).Some?
    ensures |stop| > |DecodeAnnouncedKeys(bs, n).value.1|
  {
    AnnouncedKeysPrefix(bs, |keys| + 1, n);
    var rest := DecodeAnnouncedKeys(bs, |keys|).value.1;
    var next := DecodeAnnouncedKeys(bs, |keys| + 1);
    assert next.Some? && DecodeKeyDef(rest).Some? && next.value.1 == DecodeKeyDef(rest).value.1;
  }

  /** Where a key list broke off fixes the keys read before the break. */
  lemma BrokenKeysDetermine(bs: Bytes, keys1: seq<KnownKey>, keys2: seq<KnownKey>, stop: Bytes)
    requires BrokenKeys(bs, keys1, stop) && BrokenKeys(bs, keys2, stop)
    ensures keys1 == keys2
  {
    if |keys1| < |keys2| {
      BrokenKeysStopBefore(bs, keys1, |keys2|, stop);
      assert false;
    } else if |keys2| < |keys1| {
      BrokenKeysStopBefore(bs, keys2, |keys1|, stop);
      assert false;
    }
  }

  /**
    What a definition read from `bs` that broke off at `stop` leaves for `id`:
    either no key and what the broken name read left (see `BrokenString`), or
    the whole name and the keys that arrived before the key list broke off.
  */
  ghost predicate BrokenDefinition(bs: Bytes, id: int32, e: KnownEvent, stop: Bytes)
  {
    match DecodeInt32(bs)
    case None => false
    case Some((i, afterId)) =>
      && i == id
      && (|| (e.keys == [] && BrokenString(afterId, stop, e.name))
          || (match DecodeString(afterId)
              case None => false
              case Some((name, afterName)) => name == e.name && BrokenKeys(afterName, e.keys, stop)))
  }

  /** Where a definition broke off fixes the partial entry it leaves. */
  lemma BrokenDefinitionDetermines(bs: Bytes, id: int32, e1: KnownEvent, e2: KnownEvent, stop: Bytes)
    requires BrokenDefinition(bs, id, e1, stop) && BrokenDefinition(bs, id, e2, stop)
    ensures e1 == e2
  {
    var afterId := DecodeInt32(bs).value.1;
    if e1.keys == [] && BrokenString(afterId, stop, e1.name) {
      if !(e2.keys == [] && BrokenString(afterId, stop, e2.name)) {
        NameAndKeysBroken(afterId, e1, e2, stop);
      }
    } else if e2.keys == [] && BrokenString(afterId, stop, e2.name) {
      NameAndKeysBroken(afterId, e2, e1, stop);
    } else {
      BrokenKeysDetermine(DecodeString(afterId).value.1, e1.keys, e2.keys, stop);
    }
  }

  /** A name read that broke off and a key list that broke off at the same place leave the same entry. */
  lemma NameAndKeysBroken(afterId: Bytes, e1: KnownEvent, e2: KnownEvent, stop: Bytes)
    requires e1.keys == [] && BrokenString(afterId, stop, e1.name)
    requires DecodeString(afterId).Some? && DecodeString(afterId).value.0 == e2.name
    requires BrokenKeys(DecodeString(afterId).value.1, e2.keys, stop)
    ensures e1 == e2
  {
    var afterName := DecodeString(afterId).value.1;
    var rest2 := DecodeAnnouncedKeys(afterName, |e2.keys|).value.1;
    assert |stop| <= |rest2| <= |afterName|;
    var (n, rest) := DecodeCompressedUInt32(afterId).value;
    assert n == 0 && stop == rest && afterName == rest;
    assert e1.name == [] == e2.name;
  }

  // ---------------------------------------------------------------------------
  // Event values

  datatype EventValue =
    | CStringValue(text: Bytes)
    | FloatValue(float: Single)
    | LongValue(long: int32)
    | ShortValue(short: int16)
    | ByteValue(byte: uint8)
    | BoolValue(flag: bool)
    | Uint64Value(uint64: uint64)

  function TypeOf(v: EventValue): int32
  {
    match v
    case CStringValue(_) => FIELD_CSTRING
    case FloatValue(_) => FIELD_FLOAT
    case LongValue(_) => FIELD_LONG
    case ShortValue(_) => FIELD_SHORT
    case ByteValue(_) => FIELD_BYTE
    case BoolValue(_) => FIELD_BOOL
    case Uint64Value(_) => FIELD_UINT64
  }

  function EncodeValue(v: EventValue): Bytes
  {
    match v
    case CStringValue(s) => EncodeString(s)
    case FloatValue(f) => EncodeSingle(f)
    case LongValue(l) => EncodeInt32(l)
    case ShortValue(s) => EncodeInt16(s)
    case ByteValue(b) => EncodeByte(b)
    case BoolValue(b) => EncodeBoolean(b)
    case Uint64Value(u) => EncodeUInt64(u)
  }

  /** The value of a key of the given type; a type outside the protocol reads nothing and yields no value. */
  function DecodeValue(fieldType: int32, bs: Bytes): (r: Decoded<Option<EventValue>>)
    ensures r.Some? ==> |r.value.1| <= |bs|
    ensures r.Some? ==> (r.value.0.Some? <==> 1 <= fieldType <= 7)
    ensures r.Some? && r.value.0.Some? ==> TypeOf(r.value.0.value) == fieldType
    ensures r.Some? && r.value.0.None? ==> r.value.1 == bs
  {
    if fieldType == FIELD_CSTRING then Then(DecodeString(bs), (s: Bytes) => Some(CStringValue(s)))
    else if fieldType == FIELD_FLOAT then Then(DecodeSingle(bs), (f: Single) => Some(FloatValue(f)))
    else if fieldType == FIELD_LONG then Then(DecodeInt32(bs), (l: int32) => Some(LongValue(l)))
    else if fieldType == FIELD_SHORT then Then(DecodeInt16(bs), (s: int16) => Some(ShortValue(s)))
    else if fieldType == FIELD_BYTE then Then(DecodeByte(bs), (b: uint8) => Some(ByteValue(b)))
    else if fieldType == FIELD_BOOL then Then(DecodeBoolean(bs), (b: bool) => Some(BoolValue(b)))
    else if fieldType == FIELD_UINT64 then Then(DecodeUInt64(bs), (u: uint64) => Some(Uint64Value(u)))
    else Some((None, bs))
  }

  lemma ValueRoundTrip(v: EventValue, rest: Bytes)
    requires v.CStringValue? ==> |v.text| < UINT32_LIMIT
    ensures DecodeValue(TypeOf(v), EncodeValue(v) + rest) == Some((Some(v), rest))
  {
    match v
    case CStringValue(s) => StringRoundTrip(s, rest);
    case FloatValue(f) => SingleRoundTrip(f, rest);
    case LongValue(l) => Int32RoundTrip(l, rest);
    case ShortValue(s) => Int16RoundTrip(s, rest);
    case ByteValue(b) => ByteRoundTrip(b, rest);
    case BoolValue(b) => BooleanRoundTrip(b, rest);
    case Uint64Value(u) => UInt64RoundTrip(u, rest);
  }

  // ---------------------------------------------------------------------------
  // Enrichments of a key

  datatype Enrichment = Enrichment(
    useridWithSteamId: Option<uint64>,
    entnumWithOrigin: Option<Vector>,
    entnumWithAngles: Option<QAngle>,
    useridWithEyePosition: Option<Vector>,
    useridWithEyeAngles: Option<QAngle>)

  const NoEnrichment := Enrichment(None, None, None, None, None)

  /** Bit `k` (0..4) of the enrichment bits. */
  function Bit(bits: uint32, k: nat): bool
    requires k < 5
  {
    var mask := if k == 0 then 1 else if k == 1 then 2 else if k == 2 then 4 else if k == 3 then 8 else 16;
    (bits / mask) % 2 == 1
  }

  /** Any of the five enrichment bits set. */
  predicate AnyBit(bits: uint32)
  {
    Bit(bits, 0) || Bit(bits, 1) || Bit(bits, 2) || Bit(bits, 3) || Bit(bits, 4)
  }

  // One stage per bit: a set bit reads its field into the enrichment, a clear one reads nothing.

  function SteamIdStage(bits: uint32, s: (Enrichment, Bytes)): (r: Decoded<Enrichment>)
    ensures r.Some? ==> |r.value.1| <= |s.1| && (Bit(bits, 0) ==> |r.value.1| < |s.1|)
  {
    if Bit(bits, 0) then Then(DecodeUInt64(s.1), (u: uint64) => s.0.(useridWithSteamId := Some(u))) else Some(s)
  }

  function OriginStage(bits: uint32, s: (Enrichment, Bytes)): (r: Decoded<Enrichment>)
    ensures r.Some? ==> |r.value.1| <= |s.1| && (Bit(bits, 1) ==> |r.value.1| < |s.1|)
  {
    if Bit(bits, 1) then Then(DecodeVector(s.1), (v: Vector) => s.0.(entnumWithOrigin := Some(v))) else Some(s)
  }

  function AnglesStage(bits: uint32, s: (Enrichment, Bytes)): (r: Decoded<Enrichment>)
    ensures r.Some? ==> |r.value.1| <= |s.1| && (Bit(bits, 2) ==> |r.value.1| < |s.1|)
  {
    if Bit(bits, 2) then Then(DecodeQAngle(s.1), (a: QAngle) => s.0.(entnumWithAngles := Some(a))) else Some(s)
  }

  function EyePositionStage(bits: uint32, s: (Enrichment, Bytes)): (r: Decoded<Enrichment>)
    ensures r.Some? ==> |r.value.1| <= |s.1| && (Bit(bits, 3) ==> |r.value.1| < |s.1|)
  {
    if Bit(bits, 3) then Then(DecodeVector(s.1), (v: Vector) => s.0.(useridWithEyePosition := Some(v))) else Some(s)
  }

  function EyeAnglesStage(bits: uint32, s: (Enrichment, Bytes)): (r: Decoded<Enrichment>)
    ensures r.Some? ==> |r.value.1| <= |s.1| && (Bit(bits, 4) ==> |r.value.1| < |s.1|)
  {
    if Bit(bits, 4) then Then(DecodeQAngle(s.1), (a: QAngle) => s.0.(useridWithEyeAngles := Some(a))) else Some(s)
  }

  /** Reads, for each set bit in order, the extra field it announces into `e`. */
  function DecodeEnrichment(bits: uint32, e: Enrichment, bs: Bytes): (r: Decoded<Enrichment>)
    ensures r.Some? ==> |r.value.1| <= |bs|
    ensures r.Some? ==> (AnyBit(bits) ==> |r.value.1| < |bs|)
  {
    var s0 :- SteamIdStage(bits, (e, bs));
    var s1 :- OriginStage(bits, s0);
    var s2 :- AnglesStage(bits, s1);
    var s3 :- EyePositionStage(bits, s2);
    var s4 :- EyeAnglesStage(bits, s3);
    Some(s4)
  }

  /** The extra fields exactly match the set bits. */
  predicate Announced(bits: uint32, e: Enrichment)
  {
    && (e.useridWithSteamId.Some? <==> Bit(bits, 0))
    && (e.entnumWithOrigin.Some? <==> Bit(bits, 1))
    && (e.entnumWithAngles.Some? <==> Bit(bits, 2))
    && (e.useridWithEyePosition.Some? <==> Bit(bits, 3))
    && (e.useridWithEyeAngles.Some? <==> Bit(bits, 4))
  }

  function EncodeEnrichmentFields(e: Enrichment): Bytes
  {
    (if e.useridWithSteamId.Some? then EncodeUInt64(e.useridWithSteamId.value) else [])
    + (if e.entnumWithOrigin.Some? then EncodeVector(e.entnumWithOrigin.value) else [])
    + (if e.entnumWithAngles.Some? then EncodeQAngle(e.entnumWithAngles.value) else [])
    + (if e.useridWithEyePosition.Some? then EncodeVector(e.useridWithEyePosition.value) else [])
    + (if e.useridWithEyeAngles.Some? then EncodeQAngle(e.useridWithEyeAngles.value) else [])
  }

  lemma SteamIdStageRoundTrip(bits: uint32, base: Enrichment, v: Option<uint64>, rest: Bytes)
    requires base.useridWithSteamId.None? && (v.Some? <==> Bit(bits, 0))
    ensures SteamIdStage(bits, (base, (if v.Some? then EncodeUInt64(v.value) else []) + rest))
         == Some((base.(useridWithSteamId := v), rest))
  {
    if v.Some? { UInt64RoundTrip(v.value, rest); } else { assert [] + rest == rest; }
  }

  lemma OriginStageRoundTrip(bits: uint32, base: Enrichment, v: Option<Vector>, rest: Bytes)
    requires base.entnumWithOrigin.None? && (v.Some? <==> Bit(bits, 1))
    ensures OriginStage(bits, (base, (if v.Some? then EncodeVector(v.value) else []) + rest))
         == Some((base.(entnumWithOrigin := v), rest))
  {
    if v.Some? { VectorRoundTrip(v.value, rest); } else { assert [] + rest == rest; }
  }

  lemma AnglesStageRoundTrip(bits: uint32, base: Enrichment, v: Option<QAngle>, rest: Bytes)
    requires base.entnumWithAngles.None? && (v.Some? <==> Bit(bits, 2))
    ensures AnglesStage(bits, (base, (if v.Some? then EncodeQAngle(v.value) else []) + rest))
         == Some((base.(entnumWithAngles := v), rest))
  {
    if v.Some? { QAngleRoundTrip(v.value, rest); } else { assert [] + rest == rest; }
  }

  lemma EyePositionStageRoundTrip(bits: uint32, base: Enrichment, v: Option<Vector>, rest: Bytes)
    requires base.useridWithEyePosition.None? && (v.Some? <==> Bit(bits, 3))
    ensures EyePositionStage(bits, (base, (if v.Some? then EncodeVector(v.value) else []) + rest))
         == Some((base.(useridWithEyePosition := v), rest))
  {
    if v.Some? { VectorRoundTrip(v.value, rest); } else { assert [] + rest == rest; }
  }

  lemma EyeAnglesStageRoundTrip(bits: uint32, base: Enrichment, v: Option<QAngle>, rest: Bytes)
    requires base.useridWithEyeAngles.None? && (v.Some? <==> Bit(bits, 4))
    ensures EyeAnglesStage(bits, (base, (if v.Some? then EncodeQAngle(v.value) else []) + rest))
         == Some((base.(useridWithEyeAngles := v), rest))
  {
    if v.Some? { QAngleRoundTrip(v.value, rest); } else { assert [] + rest == rest; }
  }

  lemma EnrichmentRoundTrip(bits: uint32, e: Enrichment, rest: Bytes)
    requires Announced(bits, e)
    ensures DecodeEnrichment(bits, NoEnrichment, EncodeEnrichmentFields(e) + rest) == Some((e, rest))
  {
    var p4 := if e.useridWithEyeAngles.Some? then EncodeQAngle(e.useridWithEyeAngles.value) else [];
    var p3 := if e.useridWithEyePosition.Some? then EncodeVector(e.useridWithEyePosition.value) else [];
    var p2 := if e.entnumWithAngles.Some? then EncodeQAngle(e.entnumWithAngles.value) else [];
    var p1 := if e.entnumWithOrigin.Some? then EncodeVector(e.entnumWithOrigin.value) else [];
    var p0 := if e.useridWithSteamId.Some? then EncodeUInt64(e.useridWithSteamId.value) else [];
    var r4 := p4 + rest;
    var r3 := p3 + r4;
    var r2 := p2 + r3;
    var r1 := p1 + r2;
    AppendAssociative(p0 + p1 + p2 + p3, p4, rest);
    AppendAssociative(p0 + p1 + p2, p3, r4);
    AppendAssociative(p0 + p1, p2, r3);
    AppendAssociative(p0, p1, r2);
    assert EncodeEnrichmentFields(e) + rest == p0 + r1;
    var e0 := NoEnrichment.(useridWithSteamId := e.useridWithSteamId);
    var e1 := e0.(entnumWithOrigin := e.entnumWithOrigin);
    var e2 := e1.(entnumWithAngles := e.entnumWithAngles);
    var e3 := e2.(useridWithEyePosition := e.useridWithEyePosition);
    SteamIdStageRoundTrip(bits, NoEnrichment, e.useridWithSteamId, r1);
    OriginStageRoundTrip(bits, e0, e.entnumWithOrigin, r2);
    AnglesStageRoundTrip(bits, e1, e.entnumWithAngles, r3);
    EyePositionStageRoundTrip(bits, e2, e.useridWithEyePosition, r4);
    EyeAnglesStageRoundTrip(bits, e3, e.useridWithEyeAngles, rest);
    assert e3.(useridWithEyeAngles := e.useridWithEyeAngles) == e;
    DecodeEnrichmentStages(bits, NoEnrichment, p0 + r1, (e0, r1), (e1, r2), (e2, r3), (e3, r4), (e, rest));
  }

  /** `DecodeEnrichment` runs the five stages in order. */
  lemma DecodeEnrichmentStages(bits: uint32, e: Enrichment, bs: Bytes,
                               s0: (Enrichment, Bytes), s1: (Enrichment, Bytes), s2: (Enrichment, Bytes),
                               s3: (Enrichment, Bytes), s4: (Enrichment, Bytes))
    requires SteamIdStage(bits, (e, bs)) == Some(s0)
    requires OriginStage(bits, s0) == Some(s1)
    requires AnglesStage(bits, s1) == Some(s2)
    requires EyePositionStage(bits, s2) == Some(s3)
    requires EyeAnglesStage(bits, s3) == Some(s4)
    ensures DecodeEnrichment(bits, e, bs) == Some(s4)
  {
  }

  // ---------------------------------------------------------------------------
  // Events

  datatype EventKey = EventKey(name: Bytes, value: EventValue, enrichment: Enrichment)

  /** The time header of `GameEvent_s`: a presence flag and a value for each. */
  datatype EventTimes = EventTimes(
    hasClientTime: bool, clientTime: Single,
    hasTick: bool, tick: int32,
    hasSystemTime: bool, systemTime: uint64)

  const NoTimes := EventTimes(false, [0, 0, 0, 0], false, 0, false, 0)

  datatype GameEvent = GameEvent(name: Bytes, times: EventTimes, keys: seq<EventKey>)

  // One stage per flag, in the order the client writes them.

  function ClientTimeStage(flags: TransmitFlags, s: (EventTimes, Bytes)): (r: Decoded<EventTimes>)
    ensures r.Some? ==> |r.value.1| <= |s.1|
  {
    if flags.clientTime then Then(DecodeSingle(s.1), (f: Single) => s.0.(hasClientTime := true, clientTime := f)) else Some(s)
  }

  function TickStage(flags: TransmitFlags, s: (EventTimes, Bytes)): (r: Decoded<EventTimes>)
    ensures r.Some? ==> |r.value.1| <= |s.1|
  {
    if flags.tick then Then(DecodeInt32(s.1), (i: int32) => s.0.(hasTick := true, tick := i)) else Some(s)
  }

  function SystemTimeStage(flags: TransmitFlags, s: (EventTimes, Bytes)): (r: Decoded<EventTimes>)
    ensures r.Some? ==> |r.value.1| <= |s.1|
  {
    if flags.systemTime then Then(DecodeUInt64(s.1), (u: uint64) => s.0.(hasSystemTime := true, systemTime := u)) else Some(s)
  }

  /** As written, a system time sets the tick's presence flag instead of its own. */
  function SystemTimeStageAsWritten(flags: TransmitFlags, s: (EventTimes, Bytes)): (r: Decoded<EventTimes>)
    ensures r.Some? ==> |r.value.1| <= |s.1|
  {
    if flags.systemTime then Then(DecodeUInt64(s.1), (u: uint64) => s.0.(hasTick := true, systemTime := u)) else Some(s)
  }

  /** The time header with the intended presence flags: each is set exactly when its value was sent. */
  function DecodeTimes(flags: TransmitFlags, bs: Bytes): (r: Decoded<EventTimes>)
    ensures r.Some? ==> |r.value.1| <= |bs|
    ensures r.Some? ==> var t := r.value.0;
      t.hasClientTime == flags.clientTime && t.hasTick == flags.tick && t.hasSystemTime == flags.systemTime
  {
    var t0 :- ClientTimeStage(flags, (NoTimes, bs));
    var t1 :- TickStage(flags, t0);
    var t2 :- SystemTimeStage(flags, t1);
    Some(t2)
  }

  function DecodeTimesAsWritten(flags: TransmitFlags, bs: Bytes): (r: Decoded<EventTimes>)
    ensures r.Some? ==> |r.value.1| <= |bs|
  {
    var t0 :- ClientTimeStage(flags, (NoTimes, bs));
    var t1 :- TickStage(flags, t0);
    var t2 :- SystemTimeStageAsWritten(flags, t1);
    Some(t2)
  }

  /**
    With only the system time transmitted, the header as written reports a tick
    that was never sent and no system time, while the intended one reports the
    system time only.
  */
  lemma TimesAsWrittenMisflags(u: uint64, rest: Bytes)
    ensures var flags := TransmitFlags(false, false, true);
            var asWritten := DecodeTimesAsWritten(flags, EncodeUInt64(u) + rest);
            var intended := DecodeTimes(flags, EncodeUInt64(u) + rest);
            && asWritten.Some? && asWritten.value.0.hasTick && !asWritten.value.0.hasSystemTime
            && intended.Some? && !intended.value.0.hasTick && intended.value.0.hasSystemTime
            && intended.value.0.systemTime == u
  {
    UInt64RoundTrip(u, rest);
  }

  /**
    The keys of an event, in definition order, appended to `acc`.  A key of a type
    outside the protocol adds no entry, so its enrichment lands on the entry before
    it; with no entry before it, the source dereferences an empty list and the
    decode fails here.
  */
  function DecodeKeys(eventName: Bytes, defs: seq<KnownKey>, enrichments: map<EnrichmentKey, uint32>, bs: Bytes, acc: seq<EventKey>): (r: Decoded<seq<EventKey>>)
    ensures r.Some? ==> |r.value.1| <= |bs|
    decreases |defs|
  {
    if defs == [] then Some((acc, bs))
    else
      var value :- DecodeValue(defs[0].fieldType, bs);
      var keys := if value.0.Some? then acc + [EventKey(defs[0].key, value.0.value, NoEnrichment)] else acc;
      var enriched :- EnrichKey(EnrichmentKey(eventName, defs[0].key), enrichments, keys, value.1);
      DecodeKeys(eventName, defs[1..], enrichments, enriched.1, enriched.0)
  }

  /** Applies the enrichment registered for `key`, if any, to the last entry of `keys`. */
  function EnrichKey(key: EnrichmentKey, enrichments: map<EnrichmentKey, uint32>, keys: seq<EventKey>, bs: Bytes): (r: Decoded<seq<EventKey>>)
    ensures r.Some? ==> |r.value.1| <= |bs| && |r.value.0| == |keys|
  {
    if key !in enrichments || !AnyBit(enrichments[key]) then Some((keys, bs))
    else if keys == [] then None
    else
      var last := keys[|keys| - 1];
      var e :- DecodeEnrichment(enrichments[key], last.enrichment, bs);
      Some((keys[..|keys| - 1] + [last.(enrichment := e.0)], e.1))
  }

  /**
    The head of an event message: its id, and for id 0 the definition that
    introduces a new id (an id already known fails); any other id must be known.
    Yields the event's definition and the known-event table afterwards.
  */
  function ResolveEvent(known: map<int32, KnownEvent>, bs: Bytes): (r: Option<(KnownEvent, map<int32, KnownEvent>, Bytes)>)
    ensures r.Some? ==> |r.value.2| < |bs|
    ensures r.Some? ==> known.Keys <= r.value.1.Keys && |r.value.1.Keys - known.Keys| <= 1
  {
    var id :- DecodeInt32(bs);
    if id.0 != 0 then
      if id.0 in known then Some((known[id.0], known, id.1)) else None
    else
      var def :- DecodeDefinition(id.1);
      var (eventId, event) := def.0;
      if eventId in known then None
      else Some((event, known[eventId := event], def.1))
  }

  /** One event message: its head, the time header, then the keys its definition lists. */
  function DecodeGameEvent(known: map<int32, KnownEvent>, flags: TransmitFlags, enrichments: map<EnrichmentKey, uint32>, bs: Bytes)
    : (r: Option<(GameEvent, map<int32, KnownEvent>, Bytes)>)
    ensures r.Some? ==> |r.value.2| < |bs|
    ensures r.Some? ==> known.Keys <= r.value.1.Keys
  {
    var head :- ResolveEvent(known, bs);
    var (event, known', rest) := head;
    var times :- DecodeTimes(flags, rest);
    var keys :- DecodeKeys(event.name, event.keys, enrichments, times.1, []);
    Some((GameEvent(event.name, times.0, keys.0), known', keys.1))
  }

  /** A definition is accepted once: the same id defined again is refused. */
  lemma DuplicateDefinitionFails(known: map<int32, KnownEvent>, id: int32, e: KnownEvent, rest: Bytes)
    requires id in known && |e.name| < UINT32_LIMIT && KeysFit(e.keys)
    ensures ResolveEvent(known, EncodeInt32(0) + EncodeDefinition(id, e) + rest) == None
  {
    AppendAssociative(EncodeInt32(0), EncodeDefinition(id, e), rest);
    Int32RoundTrip(0, EncodeDefinition(id, e) + rest);
    DefinitionRoundTrip(id, e, rest);
  }

  /** An id that was never defined is refused. */
  lemma UnknownIdFails(known: map<int32, KnownEvent>, id: int32, rest: Bytes)
    requires id != 0 && id !in known
    ensures ResolveEvent(known, EncodeInt32(id) + rest) == None
  {
    Int32RoundTrip(id, rest);
  }

  /** A known id resolves to its recorded definition and leaves the table alone. */
  lemma KnownIdResolves(known: map<int32, KnownEvent>, id: int32, rest: Bytes)
    requires id != 0 && id in known
    ensures ResolveEvent(known, EncodeInt32(id) + rest) == Some((known[id], known, rest))
  {
    Int32RoundTrip(id, rest);
  }

  /** A new definition is recorded under its id and used for the event that follows it. */
  lemma DefinitionRecorded(known: map<int32, KnownEvent>, id: int32, e: KnownEvent, rest: Bytes)
    requires id !in known && |e.name| < UINT32_LIMIT && KeysFit(e.keys)
    ensures ResolveEvent(known, EncodeInt32(0) + EncodeDefinition(id, e) + rest) == Some((e, known[id := e], rest))
  {
    AppendAssociative(EncodeInt32(0), EncodeDefinition(id, e), rest);
    Int32RoundTrip(0, EncodeDefinition(id, e) + rest);
    DefinitionRoundTrip(id, e, rest);
  }
}
