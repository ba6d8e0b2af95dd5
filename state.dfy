/** The animation state and its update protocol: a partial-patch JSON update
    guarded by name validation and an optimistic-concurrency revision check,
    its inverse encoding, and the button-driven mode cycle. */
module StateMachine {
  import opened Types
  import opened Names

  /** Bounds `num_balls` is clamped to on every successful update. */
  const MinBalls: uint8 := 1
  const MaxBalls: uint8 := 10

  /** The fields of `State`, as a value. */
  datatype StateValue = StateValue(
    revision: uint64,
    mode: Mode,
    hue: uint8,
    saturation: uint8,
    value: uint8,
    easing: Easing,
    period: uint32,
    numBalls: uint8,
    fireCooling: uint8,
    fireSparking: uint8)

  /** The field initialisers of `State`. */
  const Initial := StateValue(0, Off, 0, 0, 255, EaseInOutQuad, 5000, 1, 40, 80)

  /** What every state reachable through this module satisfies: a real mode,
      a real easing and a ball count within bounds. */
  predicate Wellformed(s: StateValue) {
    s.mode != Count && s.easing != EaseCount && MinBalls <= s.numBalls <= MaxBalls
  }

  /** A JSON state document as read by the firmware: one optional value per key
      ("revision", "mode", "hue", "saturation", "value", "easing", "period",
      "num-balls", "fire-cooling", "fire-sparking"). A key that is absent, or
      whose value does not convert to the field's type, is `None`. */
  datatype JsonDocument = JsonDocument(
    revision: Option<uint64>,
    mode: Option<string>,
    hue: Option<uint8>,
    saturation: Option<uint8>,
    value: Option<uint8>,
    easing: Option<string>,
    period: Option<uint32>,
    numBalls: Option<uint8>,
    fireCooling: Option<uint8>,
    fireSparking: Option<uint8>)

  /** `min(MAX_BALLS, max(MIN_BALLS, n))`. */
  function ClampBalls(n: uint8): (r: uint8)
    ensures MinBalls <= r <= MaxBalls
    ensures MinBalls <= n <= MaxBalls ==> r == n
    ensures n < MinBalls ==> r == MinBalls
    ensures n > MaxBalls ==> r == MaxBalls
  {
    if n < MinBalls then MinBalls else if n > MaxBalls then MaxBalls else n
  }

  /** The document names a mode that is not in the table. */
  predicate UnknownMode(doc: JsonDocument) {
    doc.mode.Some? && ModeFromString(doc.mode.value) == Count
  }

  /** The document names an easing that is not in the table. */
  predicate UnknownEasing(doc: JsonDocument) {
    doc.easing.Some? && EasingFromString(doc.easing.value) == EaseCount
  }

  /** The mode an update asks for: the document's, or, when the key is
      absent, the current mode's name read back. */
  function RequestedMode(s: StateValue, doc: JsonDocument): (m: Mode)
    ensures m == Count <==> UnknownMode(doc)
    ensures doc.mode.None? && s.mode != Count ==> m == s.mode
    ensures doc.mode.Some? && m != Count ==> ModeToString(m) == doc.mode.value
  {
    ModeToStringIsName(s.mode);
    assert s.mode != Count ==> ModeFromString(ModeToString(s.mode)) == s.mode by {
      if s.mode != Count { ModeNameRoundTrip(s.mode); }
    }
    assert doc.mode.Some? && ModeFromString(doc.mode.value) != Count ==>
      ModeToString(ModeFromString(doc.mode.value)) == doc.mode.value by {
      if doc.mode.Some? { ModeFromStringSpec(doc.mode.value); }
    }
    ModeFromString(doc.mode.GetOr(ModeToString(s.mode)))
  }

  /** The easing an update asks for, resolved the same way. */
  function RequestedEasing(s: StateValue, doc: JsonDocument): (e: Easing)
    ensures e == EaseCount <==> UnknownEasing(doc)
    ensures doc.easing.None? && s.easing != EaseCount ==> e == s.easing
    ensures doc.easing.Some? && e != EaseCount ==> EasingToString(e) == doc.easing.value
  {
    EasingToStringIsName(s.easing);
    assert s.easing != EaseCount ==> EasingFromString(EasingToString(s.easing)) == s.easing by {
      if s.easing != EaseCount { EasingNameRoundTrip(s.easing); }
    }
    assert doc.easing.Some? && EasingFromString(doc.easing.value) != EaseCount ==>
      EasingToString(EasingFromString(doc.easing.value)) == doc.easing.value by {
      if doc.easing.Some? { EasingFromStringSpec(doc.easing.value); }
    }
    EasingFromString(doc.easing.GetOr(EasingToString(s.easing)))
  }

  datatype Outcome = Outcome(result: UpdateResult, state: StateValue)

  /** `State::fromJsonDocument`: the result of applying `doc` to `s`, and the
      state afterwards. Absent keys default to the current value; names are
      validated before the revision is compared. */
  function Update(s: StateValue, doc: JsonDocument): (r: Outcome)
    ensures r.result == InvalidInput <==> UnknownMode(doc) || UnknownEasing(doc)
    ensures r.result == OutdatedInput <==>
      !UnknownMode(doc) && !UnknownEasing(doc) && doc.revision.Some? && doc.revision.value != s.revision
    ensures r.result != Success ==> r.state == s
    ensures r.result == Success ==> Wellformed(r.state)
  {
    var newMode := RequestedMode(s, doc);
    var newEasing := RequestedEasing(s, doc);
    var requestRevision := doc.revision.GetOr(s.revision);
    if newMode == Count then Outcome(InvalidInput, s)
    else if newEasing == EaseCount then Outcome(InvalidInput, s)
    else if requestRevision != s.revision then Outcome(OutdatedInput, s)
    else
      Outcome(Success, StateValue(
        Inc64(s.revision),
        newMode,
        doc.hue.GetOr(s.hue),
        doc.saturation.GetOr(s.saturation),
        doc.value.GetOr(s.value),
        newEasing,
        doc.period.GetOr(s.period),
        ClampBalls(doc.numBalls.GetOr(s.numBalls)),
        doc.fireCooling.GetOr(s.fireCooling),
        doc.fireSparking.GetOr(s.fireSparking)))
  }

  /** On success every key the document carries is taken (the ball count
      clamped), every key it lacks keeps its value, and the revision moves
      on by one. */
  lemma UpdateOnSuccess(s: StateValue, doc: JsonDocument)
    requires Wellformed(s)
    requires Update(s, doc).result == Success
    ensures var t := Update(s, doc).state;
      && t.revision == Inc64(s.revision)
      && (doc.mode.None? ==> t.mode == s.mode)
      && (doc.mode.Some? ==> ModeToString(t.mode) == doc.mode.value)
      && (doc.easing.None? ==> t.easing == s.easing)
      && (doc.easing.Some? ==> EasingToString(t.easing) == doc.easing.value)
      && t.hue == doc.hue.GetOr(s.hue)
      && t.saturation == doc.saturation.GetOr(s.saturation)
      && t.value == doc.value.GetOr(s.value)
      && t.period == doc.period.GetOr(s.period)
      && t.numBalls == ClampBalls(doc.numBalls.GetOr(s.numBalls))
      && t.fireCooling == doc.fireCooling.GetOr(s.fireCooling)
      && t.fireSparking == doc.fireSparking.GetOr(s.fireSparking)
  {
    ModeNameRoundTrip(s.mode);
    EasingNameRoundTrip(s.easing);
  }

  /** An update succeeds exactly when both names are known and the revision,
      if given, is the current one. */
  lemma UpdateSucceedsIff(s: StateValue, doc: JsonDocument)
    ensures Update(s, doc).result == Success <==>
      !UnknownMode(doc) && !UnknownEasing(doc) && (doc.revision.None? || doc.revision.value == s.revision)
  {
  }

  /** `State::toJsonDocument`: every field under its key, enums by name. */
  function ToJson(s: StateValue): JsonDocument {
    JsonDocument(
      Some(s.revision), Some(ModeToString(s.mode)), Some(s.hue), Some(s.saturation), Some(s.value),
      Some(EasingToString(s.easing)), Some(s.period), Some(s.numBalls),
      Some(s.fireCooling), Some(s.fireSparking))
  }

  /** Feeding the encoding of a state back as an update succeeds and changes
      nothing but the revision, which moves on by one. */
  lemma ToJsonRoundTrip(s: StateValue)
    requires Wellformed(s)
    ensures Update(s, ToJson(s)) == Outcome(Success, s.(revision := Inc64(s.revision)))
  {
    ModeNameRoundTrip(s.mode);
    EasingNameRoundTrip(s.easing);
  }

  /** The next mode of `cycle()`: `mode + 1`, or `Off` once that reaches `Count`. */
  function NextMode(m: Mode): (r: Mode)
    ensures r != Count
    ensures Ordinal(m) + 1 < ModeCount ==> Ordinal(r) == Ordinal(m) + 1
    ensures Ordinal(m) + 1 >= ModeCount ==> r == Off
  {
    var n := Ordinal(m) + 1;
    if n >= ModeCount then Off else ModeOfOrdinal(n)
  }

  /** `State::cycle`: the next mode, and one more revision. */
  function Cycled(s: StateValue): StateValue {
    s.(mode := NextMode(s.mode), revision := Inc64(s.revision))
  }

  /** `n` successive calls of `cycle()`. */
  function CycledTimes(s: StateValue, n: nat): StateValue {
    if n == 0 then s else Cycled(CycledTimes(s, n - 1))
  }

  /** After `n` cycles from a real mode the mode has advanced by `n`,
      modulo the number of modes. */
  lemma {:induction false} CycledTimesMode(s: StateValue, n: nat)
    requires s.mode != Count
    ensures Ordinal(CycledTimes(s, n).mode) == (Ordinal(s.mode) + n) % ModeCount
  {
    if n > 0 {
      CycledTimesMode(s, n - 1);
      ModSucc(Ordinal(s.mode) + n - 1, ModeCount);
    }
  }

  /** After `n` cycles the revision has advanced by `n`, modulo 2^64, and no
      field but the mode and the revision has changed. */
  lemma {:induction false} CycledTimesRevision(s: StateValue, n: nat)
    ensures CycledTimes(s, n).revision == (s.revision + n) % 0x1_0000_0000_0000_0000
    ensures CycledTimes(s, n).(mode := s.mode, revision := s.revision) == s
  {
    if n > 0 {
      CycledTimesRevision(s, n - 1);
      ModSucc(s.revision + n - 1, 0x1_0000_0000_0000_0000);
    }
  }

  /** Cycling as many times as there are modes restores the mode. */
  lemma CycleCountRestores(s: StateValue)
    requires s.mode != Count
    ensures CycledTimes(s, ModeCount).mode == s.mode
    ensures CycledTimes(s, ModeCount).revision == (s.revision + ModeCount) % 0x1_0000_0000_0000_0000
  {
    CycledTimesMode(s, ModeCount);
    CycledTimesRevision(s, ModeCount);
    var t := CycledTimes(s, ModeCount);
    assert ModeOfOrdinal(Ordinal(t.mode)) == ModeOfOrdinal(Ordinal(s.mode));
  }

  /** The shared, mutable animation state. */
  class State {
    var revision: uint64
    var mode: Mode
    var hue: uint8
    var saturation: uint8
    var value: uint8
    var easing: Easing
    var period: uint32
    var numBalls: uint8
    var fireCooling: uint8
    var fireSparking: uint8

    function Value(): StateValue
      reads this
    {
      StateValue(revision, mode, hue, saturation, value, easing, period, numBalls, fireCooling, fireSparking)
    }

    constructor ()
      ensures Value() == Initial
      ensures revision == 0 && mode == Off
      ensures hue == 0 && saturation == 0 && value == 255
      ensures easing == EaseInOutQuad && period == 5000
      ensures numBalls == 1 && fireCooling == 40 && fireSparking == 80
      ensures Wellformed(Value())
    {
      revision, mode := 0, Off;
      hue, saturation, value := 0, 0, 255;
      easing, period := EaseInOutQuad, 5000;
      numBalls, fireCooling, fireSparking := 1, 40, 80;
    }

    /** Applies a JSON document in place; on any rejection no field changes. */
    method FromJsonDocument(doc: JsonDocument) returns (result: UpdateResult)
      modifies this
      ensures Outcome(result, Value()) == Update(old(Value()), doc)
      ensures result != Success ==> unchanged(this)
    {
      var newMode := RequestedMode(Value(), doc);
      var newEasing := RequestedEasing(Value(), doc);
      var requestRevision := doc.revision.GetOr(revision);

      if newMode == Count {
        return InvalidInput;
      }
      if newEasing == EaseCount {
        return InvalidInput;
      }
      if requestRevision != revision {
        return OutdatedInput;
      }

      Assign(StateValue(
        Inc64(revision),
        newMode,
        doc.hue.GetOr(hue),
        doc.saturation.GetOr(saturation),
        doc.value.GetOr(value),
        newEasing,
        doc.period.GetOr(period),
        ClampBalls(doc.numBalls.GetOr(numBalls)),
        doc.fireCooling.GetOr(fireCooling),
        doc.fireSparking.GetOr(fireSparking)));
      return Success;
    }

    /** Overwrites every field with those of `v`. */
    method Assign(v: StateValue)
      modifies this
      ensures Value() == v
    {
      revision, mode, hue, saturation, value := v.revision, v.mode, v.hue, v.saturation, v.value;
      easing, period, numBalls, fireCooling, fireSparking := v.easing, v.period, v.numBalls, v.fireCooling, v.fireSparking;
    }

    /** Writes the state into a fresh JSON document. */
    method ToJsonDocument() returns (doc: JsonDocument)
      ensures doc == ToJson(Value())
      ensures Wellformed(Value()) ==> Update(Value(), doc).result == Success
    {
      doc := JsonDocument(
        Some(revision), Some(ModeToString(mode)), Some(hue), Some(saturation), Some(value),
        Some(EasingToString(easing)), Some(period), Some(numBalls),
        Some(fireCooling), Some(fireSparking));
      if Wellformed(Value()) {
        ToJsonRoundTrip(Value());
      }
    }

    /** Advances to the next mode, wrapping to `Off`, and bumps the revision. */
    method Cycle()
      modifies this
      ensures Value() == Cycled(old(Value()))
      ensures old(Wellformed(Value())) ==> Wellformed(Value())
    {
      var next := Ordinal(mode) + 1;
      if next >= ModeCount {
        mode := Off;
      } else {
        mode := ModeOfOrdinal(next);
      }
      revision := Inc64(revision);
    }
  }

  /** From the initial state, `{"mode": "on", "revision": 0}` succeeds and
      yields mode On at revision 1; sending the same document again is
      rejected as outdated. */
  lemma StaleRepeatRejected()
    ensures var doc := JsonDocument(Some(0), Some("on"), None, None, None, None, None, None, None, None);
      && Update(Initial, doc).result == Success
      && Update(Initial, doc).state == Initial.(mode := On, revision := 1)
      && Update(Update(Initial, doc).state, doc).result == OutdatedInput
  {
    var doc := JsonDocument(Some(0), Some("on"), None, None, None, None, None, None, None, None);
    assert ModeNames[1].1 == "on";
    EasingNameRoundTrip(EaseInOutQuad);
  }
}
