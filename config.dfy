/** The persisted device configuration (`Config` in config.h / config.cpp):
    a fixed-layout record kept in EEPROM and guarded by a magic number.

    The EEPROM is modelled as holding one `Record` image; `Clear` writes the
    all-zero image. Character buffers are sequences of their fixed size. */
module ConfigStore {
  import opened Types

  /** The largest strip the firmware drives (`MAX_LEDS`). */
  const MaxLeds: nat := 128
  const Magic: uint64 := 0xBADA551
  const DefaultHttpPort: uint16 := 80
  const DefaultNumLeds: uint16 := 16
  const DefaultFps: int32 := 120

  /** Sizes of the `name`, `ssid` and `passphrase` buffers. */
  const NameSize: nat := 32
  const SsidSize: nat := 64
  const PassphraseSize: nat := 64

  const Nul: char := '\0'

  /** `s` followed by NUL characters up to `n` characters. */
  function Padded(s: string, n: nat): (b: seq<char>)
    requires |s| <= n
    ensures |b| == n && b[..|s|] == s
    ensures forall i :: |s| <= i < n ==> b[i] == Nul
  {
    s + seq(n - |s|, _ => Nul)
  }

  /** `strnlen(s, n)`: the number of characters before the first NUL,
      looking at no more than `n` of them. */
  function StrnLen(s: seq<char>, n: nat): (k: nat)
    ensures k <= n && k <= |s|
    ensures forall i :: 0 <= i < k ==> s[i] != Nul
    ensures k < n && k < |s| ==> s[k] == Nul
  {
    if n == 0 || |s| == 0 || s[0] == Nul then 0 else 1 + StrnLen(s[1..], n - 1)
  }

  /** The text a NUL-terminated buffer holds. */
  function CString(s: seq<char>): (t: string)
    ensures |t| <= |s| && t == s[..|t|]
    ensures Nul !in t
    ensures |t| < |s| ==> s[|t|] == Nul
  {
    s[..StrnLen(s, |s|)]
  }

  /** A NUL right after text with no NUL ends the string there. */
  lemma {:induction false} StrnLenTerminated(t: string, rest: seq<char>, n: nat)
    requires Nul !in t && |t| < n
    ensures StrnLen(t + [Nul] + rest, n) == |t|
  {
    if |t| > 0 {
      assert t[0] in t;
      assert (t + [Nul] + rest)[1..] == t[1..] + [Nul] + rest;
      assert forall c :: c in t[1..] ==> c in t;
      StrnLenTerminated(t[1..], rest, n - 1);
    }
  }

  /** Text written with its terminating NUL reads back as itself, whatever
      follows the NUL. */
  lemma CStringTerminated(t: string, rest: seq<char>)
    requires Nul !in t
    ensures CString(t + [Nul] + rest) == t
  {
    StrnLenTerminated(t, rest, |t + [Nul] + rest|);
  }

  /** One configuration image, as laid out in RAM and in EEPROM. */
  datatype Record = Record(
    magic: uint64,
    name: seq<char>,
    ssid: seq<char>,
    passphrase: seq<char>,
    httpPort: uint16,
    numLeds: uint16,
    fps: int32)
  {
    /** The buffers have their declared sizes. */
    predicate Shaped() {
      |name| == NameSize && |ssid| == SsidSize && |passphrase| == PassphraseSize
    }

    /** `isValid`: the image was written by `Save`. */
    predicate IsValid() {
      magic == Magic
    }

    /** `hasName`: the name buffer is not the empty string. */
    function HasName(): (b: bool)
      ensures b <==> |name| > 0 && name[0] != Nul
    {
      StrnLen(name, NameSize) > 0
    }

    /** `hasSSID`: the SSID buffer is not the empty string. */
    function HasSsid(): (b: bool)
      ensures b <==> |ssid| > 0 && ssid[0] != Nul
    {
      StrnLen(ssid, SsidSize) > 0
    }

    /** The fields `Load` never leaves at zero hold usable values. */
    predicate Usable() {
      numLeds != 0 && httpPort != 0 && fps > 0
    }
  }

  /** `Config()`: the image a default-constructed configuration holds. */
  const Defaults: Record := Record(0, Padded("ohm-led", NameSize), Padded("", SsidSize),
                                   Padded("", PassphraseSize), DefaultHttpPort, DefaultNumLeds, DefaultFps)

  /** The image `Clear` leaves in EEPROM. */
  const Zeroed: Record := Record(0, Padded("", NameSize), Padded("", SsidSize),
                                 Padded("", PassphraseSize), 0, 0, 0)

  /** The zero-field repair at the end of `Load`. */
  function Repaired(r: Record): (c: Record)
    ensures c.Usable()
    ensures c.(numLeds := r.numLeds, httpPort := r.httpPort, fps := r.fps) == r
    ensures r.numLeds != 0 ==> c.numLeds == r.numLeds
    ensures r.httpPort != 0 ==> c.httpPort == r.httpPort
    ensures r.fps > 0 ==> c.fps == r.fps
    ensures r.numLeds == 0 ==> c.numLeds == DefaultNumLeds
    ensures r.httpPort == 0 ==> c.httpPort == DefaultHttpPort
    ensures r.fps <= 0 ==> c.fps == DefaultFps
  {
    r.(numLeds := if r.numLeds == 0 then DefaultNumLeds else r.numLeds,
       httpPort := if r.httpPort == 0 then DefaultHttpPort else r.httpPort,
       fps := if r.fps <= 0 then DefaultFps else r.fps)
  }

  /** What `Load` leaves in RAM given the EEPROM image. */
  function Loaded(stored: Record): Record {
    Repaired(if stored.IsValid() then stored else Defaults)
  }

  /** A default configuration has a name, no SSID, is not valid and is usable. */
  lemma DefaultsShape()
    ensures Defaults.Shaped() && Defaults.HasName() && !Defaults.HasSsid()
    ensures !Defaults.IsValid() && Defaults.Usable()
    ensures CString(Defaults.name) == "ohm-led"
  {
    assert StrnLen(Defaults.name, NameSize) == 7;
  }

  /** `Load` leaves a usable image; it keeps a valid image's magic and replaces
      an invalid image by the defaults. */
  lemma LoadedSpec(stored: Record)
    ensures Loaded(stored).Usable()
    ensures stored.IsValid() ==> Loaded(stored).IsValid() && Loaded(stored) == Repaired(stored)
    ensures !stored.IsValid() ==> Loaded(stored) == Defaults
    ensures stored.Shaped() ==> Loaded(stored).Shaped()
  {
    DefaultsShape();
  }

  /** Saving a usable configuration and loading it back yields it unchanged
      and reports the image valid. */
  lemma SaveThenLoad(c: Record)
    requires c.Usable()
    ensures var saved := c.(magic := Magic);
      saved.IsValid() && Loaded(saved) == saved
  {
  }

  /** After `Clear`, `Load` reports the image invalid and yields the defaults. */
  lemma ClearThenLoad()
    ensures !Zeroed.IsValid()
    ensures Loaded(Zeroed) == Defaults
    ensures !Loaded(Zeroed).HasSsid()
  {
    DefaultsShape();
  }

  /** The EEPROM area the configuration is stored in. */
  class Eeprom {
    var contents: Record

    constructor(image: Record)
      ensures contents == image
    {
      contents := image;
    }
  }

  /** The configuration held in RAM. */
  class Config {
    var magic: uint64
    var name: seq<char>
    var ssid: seq<char>
    var passphrase: seq<char>
    var httpPort: uint16
    var numLeds: uint16
    var fps: int32

    function Value(): Record
      reads this
    {
      Record(magic, name, ssid, passphrase, httpPort, numLeds, fps)
    }

    /** `Config()`: the defaults, not yet valid. */
    constructor()
      ensures Value() == Defaults
      ensures !Value().IsValid()
    {
      magic := 0;
      name := Padded("ohm-led", NameSize);
      ssid := Padded("", SsidSize);
      passphrase := Padded("", PassphraseSize);
      httpPort := DefaultHttpPort;
      numLeds := DefaultNumLeds;
      fps := DefaultFps;
    }

    /** Copies a whole image into this configuration. */
    method Assign(r: Record)
      modifies this
      ensures Value() == r
    {
      magic, name, ssid, passphrase := r.magic, r.name, r.ssid, r.passphrase;
      httpPort, numLeds, fps := r.httpPort, r.numLeds, r.fps;
    }

    /** `Load`: reads the EEPROM image, falls back to the defaults when it
        is not valid, then repairs zero fields. */
    method Load(eeprom: Eeprom) returns (result: bool)
      modifies this
      ensures result == eeprom.contents.IsValid()
      ensures Value() == Loaded(eeprom.contents)
      ensures Value().Usable()
    {
      result := true;
      Assign(eeprom.contents);
      if !Value().IsValid() {
        result := false;
        Assign(Defaults);
      }
      if numLeds == 0 {
        numLeds := DefaultNumLeds;
      }
      if httpPort == 0 {
        httpPort := DefaultHttpPort;
      }
      if fps <= 0 {
        fps := DefaultFps;
      }
      LoadedSpec(eeprom.contents);
    }

    /** `Save`: stamps the magic number and writes the image; always succeeds. */
    method Save(eeprom: Eeprom) returns (result: bool)
      modifies this`magic, eeprom
      ensures magic == Magic
      ensures eeprom.contents == Value()
      ensures Value() == old(Value()).(magic := Magic)
      ensures result
    {
      magic := Magic;
      eeprom.contents := Value();
      return true;
    }

    /** `Clear`: forgets the magic number in RAM and zeroes the EEPROM image;
        the other fields in RAM are kept. */
    method Clear(eeprom: Eeprom) returns (result: bool)
      modifies this`magic, eeprom
      ensures eeprom.contents == Zeroed
      ensures Value() == old(Value()).(magic := 0)
      ensures result
    {
      magic := 0;
      eeprom.contents := Zeroed;
      return true;
    }
  }
}
