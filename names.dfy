/** The mode and easing enumerations of the animation state and the two
    name tables that translate them to and from the strings of the JSON API. */
module Names {

  /** The animation modes, numbered 0..7 in the order of the name table;
      `Count` (8) is one past the last mode and doubles as "no such mode". */
  datatype Mode = Off | On | Pulse | Colorloop | Rainbow | Balls | KnightRider | Fire | Count

  /** The easing curves, in the order of the name table; `EaseCount` is
      "no such easing". */
  datatype Easing =
    | EaseLinear
    | EaseInQuad | EaseOutQuad | EaseInOutQuad
    | EaseInCubic | EaseOutCubic | EaseInOutCubic
    | EaseInElastic | EaseOutElastic | EaseInOutElastic
    | EaseInBounce | EaseOutBounce | EaseInOutBounce
    | EaseInExpo | EaseOutExpo | EaseInOutExpo
    | EaseInCirc | EaseOutCirc | EaseInOutCirc
    | EaseCount

  /** The three outcomes of a state update. */
  datatype UpdateResult = Success | InvalidInput | OutdatedInput

  /** Number of real modes: the numeric value of `Count`. */
  const ModeCount: nat := 8

  /** The numeric value of a mode: consecutive from 0, `Count` last. */
  function Ordinal(m: Mode): (n: nat)
    ensures n <= ModeCount
    ensures n == ModeCount <==> m == Count
    ensures ModeOfOrdinal(n) == m
  {
    match m
    case Off => 0
    case On => 1
    case Pulse => 2
    case Colorloop => 3
    case Rainbow => 4
    case Balls => 5
    case KnightRider => 6
    case Fire => 7
    case Count => 8
  }

  /** The mode with numeric value `n` (a cast from int to the enum). */
  function ModeOfOrdinal(n: nat): Mode
    requires n <= ModeCount
  {
    [Off, On, Pulse, Colorloop, Rainbow, Balls, KnightRider, Fire, Count][n]
  }

  const ModeNames: seq<(Mode, string)> := [
    (Off, "off"),
    (On, "on"),
    (Pulse, "pulse"),
    (Colorloop, "colorloop"),
    (Rainbow, "rainbow"),
    (Balls, "balls"),
    (KnightRider, "knight-rider"),
    (Fire, "fire")
  ]

  const EasingNames: seq<(Easing, string)> := [
    (EaseLinear, "linear"),
    (EaseInQuad, "in-quad"),
    (EaseOutQuad, "out-quad"),
    (EaseInOutQuad, "in-out-quad"),
    (EaseInCubic, "in-cubic"),
    (EaseOutCubic, "out-cubic"),
    (EaseInOutCubic, "in-out-cubic"),
    (EaseInElastic, "in-elastic"),
    (EaseOutElastic, "out-elastic"),
    (EaseInOutElastic, "in-out-elastic"),
    (EaseInBounce, "in-bounce"),
    (EaseOutBounce, "out-bounce"),
    (EaseInOutBounce, "in-out-bounce"),
    (EaseInExpo, "in-expo"),
    (EaseOutExpo, "out-expo"),
    (EaseInOutExpo, "in-out-expo"),
    (EaseInCirc, "in-circ"),
    (EaseOutCirc, "out-circ"),
    (EaseInOutCirc, "in-out-circ")
  ]

  /** Number of real easings: the position of `EaseCount`. */
  const EasingCount: nat := 19

  /** Position of an easing in the name table; `EaseCount` last. */
  function EasingOrdinal(e: Easing): (n: nat)
    ensures n <= EasingCount
    ensures n == EasingCount <==> e == EaseCount
  {
    match e
    case EaseLinear => 0
    case EaseInQuad => 1
    case EaseOutQuad => 2
    case EaseInOutQuad => 3
    case EaseInCubic => 4
    case EaseOutCubic => 5
    case EaseInOutCubic => 6
    case EaseInElastic => 7
    case EaseOutElastic => 8
    case EaseInOutElastic => 9
    case EaseInBounce => 10
    case EaseOutBounce => 11
    case EaseInOutBounce => 12
    case EaseInExpo => 13
    case EaseOutExpo => 14
    case EaseInOutExpo => 15
    case EaseInCirc => 16
    case EaseOutCirc => 17
    case EaseInOutCirc => 18
    case EaseCount => 19
  }

  /** The key of the first entry named `s`, or `absent` when no entry is:
      the scan of a name table, first match wins. */
  function KeyOf<K>(t: seq<(K, string)>, s: string, absent: K): K {
    if t == [] then absent
    else if t[0].1 == s then t[0].0
    else KeyOf(t[1..], s, absent)
  }

  /** The name of the first entry with key `k`, or `fallback` when no entry has it. */
  function NameOf<K(==)>(t: seq<(K, string)>, k: K, fallback: string): string {
    if t == [] then fallback
    else if t[0].0 == k then t[0].1
    else NameOf(t[1..], k, fallback)
  }

  /** An entry whose name no earlier entry carries is what a scan by that name finds. */
  lemma {:induction false} KeyOfAt<K>(t: seq<(K, string)>, j: nat, absent: K)
    requires j < |t|
    requires forall i :: 0 <= i < j ==> t[i].1 != t[j].1
    ensures KeyOf(t, t[j].1, absent) == t[j].0
  {
    if j > 0 {
      assert t[1..][j - 1] == t[j];
      KeyOfAt(t[1..], j - 1, absent);
    }
  }

  /** An entry whose key no earlier entry carries is what a scan by that key finds. */
  lemma {:induction false} NameOfAt<K>(t: seq<(K, string)>, j: nat, fallback: string)
    requires j < |t|
    requires forall i :: 0 <= i < j ==> t[i].0 != t[j].0
    ensures NameOf(t, t[j].0, fallback) == t[j].1
  {
    if j > 0 {
      assert t[1..][j - 1] == t[j];
      NameOfAt(t[1..], j - 1, fallback);
    }
  }

  /** A scan by a key no entry carries yields the fallback. */
  lemma {:induction false} NameOfMissing<K>(t: seq<(K, string)>, k: K, fallback: string)
    requires forall i :: 0 <= i < |t| ==> t[i].0 != k
    ensures NameOf(t, k, fallback) == fallback
  {
    if t != [] {
      assert forall i :: 0 <= i < |t[1..]| ==> t[1..][i] == t[i + 1];
      NameOfMissing(t[1..], k, fallback);
    }
  }

  /** A scan by name yields `absent` exactly when no entry carries the name,
      provided no entry has `absent` as its key; otherwise it yields the key of
      an entry with that name. */
  lemma {:induction false} KeyOfFound<K>(t: seq<(K, string)>, s: string, absent: K)
    requires forall i :: 0 <= i < |t| ==> t[i].0 != absent
    ensures KeyOf(t, s, absent) == absent <==> forall i :: 0 <= i < |t| ==> t[i].1 != s
    ensures KeyOf(t, s, absent) != absent ==>
      exists i :: 0 <= i < |t| && t[i].1 == s && t[i].0 == KeyOf(t, s, absent)
  {
    if t != [] && t[0].1 != s {
      KeyOfFound(t[1..], s, absent);
      if KeyOf(t, s, absent) != absent {
        var i :| 0 <= i < |t[1..]| && t[1..][i].1 == s && t[1..][i].0 == KeyOf(t, s, absent);
        assert t[i + 1] == t[1..][i];
      } else {
        forall i | 0 <= i < |t| ensures t[i].1 != s {
          if i > 0 { assert t[i] == t[1..][i - 1]; }
        }
      }
    }
  }

  /** The mode table lists the eight modes in enum order, each name once. */
  lemma ModeTableShape()
    ensures |ModeNames| == ModeCount
    ensures forall j :: 0 <= j < |ModeNames| ==> Ordinal(ModeNames[j].0) == j
    ensures forall j, k :: 0 <= j < k < |ModeNames| ==> ModeNames[j].1 != ModeNames[k].1
  {
  }

  /** The easing table lists the nineteen easings in order, each name once. */
  lemma EasingTableShape()
    ensures |EasingNames| == EasingCount
    ensures forall j :: 0 <= j < |EasingNames| ==> EasingOrdinal(EasingNames[j].0) == j
    ensures forall e :: e != EaseCount ==> EasingNames[EasingOrdinal(e)].0 == e
    ensures forall j, k :: 0 <= j < k < |EasingNames| ==> EasingNames[j].1 != EasingNames[k].1
  {
    EasingNamesDistinct();
  }

  /** No two entries of the easing table share a name. */
  lemma EasingNamesDistinct()
    ensures forall j, k :: 0 <= j < k < |EasingNames| ==> EasingNames[j].1 != EasingNames[k].1
  {
  }

  /** `modeToString`: the table's name for the mode; "off" for the sentinel. */
  function ModeToString(m: Mode): string {
    NameOf(ModeNames, m, "off")
  }

  /** `modeFromString`: the mode named `s`, or `Count`. */
  function ModeFromString(s: string): Mode {
    KeyOf(ModeNames, s, Count)
  }

  /** `easingToString`: the table's name for the easing; "linear" for the sentinel. */
  function EasingToString(e: Easing): string {
    NameOf(EasingNames, e, "linear")
  }

  /** `easingFromString`: the easing named `s`, or `EaseCount`. */
  function EasingFromString(s: string): Easing {
    KeyOf(EasingNames, s, EaseCount)
  }

  /** Each real mode is written as the name its table entry gives it. */
  lemma ModeToStringAt(m: Mode)
    requires m != Count
    ensures ModeToString(m) == ModeNames[Ordinal(m)].1
  {
    ModeTableShape();
    NameOfAt(ModeNames, Ordinal(m), "off");
  }

  /** Every real mode survives a trip through its name. */
  lemma ModeNameRoundTrip(m: Mode)
    requires m != Count
    ensures ModeFromString(ModeToString(m)) == m
  {
    ModeTableShape();
    ModeToStringAt(m);
    KeyOfAt(ModeNames, Ordinal(m), Count);
  }

  /** A string reads as `Count` exactly when it names no entry; a string that
      does name an entry reads as a mode that is written back as that string. */
  lemma ModeFromStringSpec(s: string)
    ensures ModeFromString(s) == Count <==> forall j :: 0 <= j < |ModeNames| ==> ModeNames[j].1 != s
    ensures ModeFromString(s) != Count ==> ModeToString(ModeFromString(s)) == s
  {
    ModeTableShape();
    KeyOfFound(ModeNames, s, Count);
    var m := ModeFromString(s);
    if m != Count {
      ModeToStringAt(m);
    }
  }

  /** What `modeToString` returns always reads back as a mode. */
  lemma ModeToStringIsName(m: Mode)
    ensures ModeFromString(ModeToString(m)) != Count
  {
    if m != Count {
      ModeNameRoundTrip(m);
    } else {
      ModeTableShape();
      NameOfMissing(ModeNames, Count, "off");
      KeyOfAt(ModeNames, 0, Count);
    }
  }

  /** Each real easing is written as the name its table entry gives it. */
  lemma EasingToStringAt(e: Easing)
    requires e != EaseCount
    ensures EasingToString(e) == EasingNames[EasingOrdinal(e)].1
  {
    EasingTableShape();
    NameOfAt(EasingNames, EasingOrdinal(e), "linear");
  }

  /** Every real easing survives a trip through its name. */
  lemma EasingNameRoundTrip(e: Easing)
    requires e != EaseCount
    ensures EasingFromString(EasingToString(e)) == e
  {
    EasingTableShape();
    EasingToStringAt(e);
    KeyOfAt(EasingNames, EasingOrdinal(e), EaseCount);
  }

  /** A string reads as `EaseCount` exactly when it names no entry; a string
      that does name an entry reads as an easing written back as that string. */
  lemma EasingFromStringSpec(s: string)
    ensures EasingFromString(s) == EaseCount <==> forall j :: 0 <= j < |EasingNames| ==> EasingNames[j].1 != s
    ensures EasingFromString(s) != EaseCount ==> EasingToString(EasingFromString(s)) == s
  {
    EasingTableShape();
    KeyOfFound(EasingNames, s, EaseCount);
    var e := EasingFromString(s);
    if e != EaseCount {
      EasingToStringAt(e);
    }
  }

  /** What `easingToString` returns always reads back as an easing. */
  lemma EasingToStringIsName(e: Easing)
    ensures EasingFromString(EasingToString(e)) != EaseCount
  {
    if e != EaseCount {
      EasingNameRoundTrip(e);
    } else {
      EasingTableShape();
      NameOfMissing(EasingNames, EaseCount, "linear");
      KeyOfAt(EasingNames, 0, EaseCount);
    }
  }
}
