/**
 * The persisted keyboard-LED configuration (daemon/src/ctrl_aura/config.rs): the live
 * `AuraConfig` object, the file it is loaded from and saved to, and the rule that routes a new
 * effect into the global or the per-zone store.
 */
module CtrlAuraConfig {
  import opened Basics
  import opened RogAura

  const AURA_CONFIG_PATH: string := "/etc/asusd/aura.conf"

  /** What daemon/src/laptops.rs reports the keyboard supports (that file is not part of this model). */
  datatype LaptopLedData = LaptopLedData(standard: seq<AuraModeNum>, multizone: seq<AuraZone>, perKey: bool)

  /** The value of an `AuraConfig`: what serde writes to the file and reads back. */
  datatype ConfigValue = ConfigValue(
    brightness: LedBrightness,
    currentMode: AuraModeNum,
    builtins: map<AuraModeNum, AuraEffect>,
    multizone: Option<map<AuraModeNum, seq<AuraEffect>>>,
    powerStates: LedPowerStates)

  /** What a path holds, as far as the configuration code can tell. */
  datatype FileState =
    | Missing                    // nothing at the path
    | Empty                      // a file of zero bytes
    | Unreadable                 // bytes that are not UTF-8, so `read_to_string` fails
    | Garbled                    // text that does not deserialise as an AuraConfig
    | Json(value: ConfigValue)   // text that deserialises to `value`

  /** Without the directory /etc/asusd/ neither path can hold a file. */
  predicate Consistent(dirExists: bool, main: FileState, backup: FileState) {
    !dirExists ==> main == Missing && backup == Missing
  }

  /** The directory /etc/asusd/ with the config file and its `-old` backup. */
  class ConfigFile {
    const dirExists: bool
    var main: FileState
    var backup: FileState

    predicate Valid()
      reads this
    {
      Consistent(dirExists, main, backup)
    }

    constructor (dirExists: bool, main: FileState, backup: FileState)
      requires Consistent(dirExists, main, backup)
      ensures this.dirExists == dirExists && this.main == main && this.backup == backup
      ensures Valid()
    {
      this.dirExists := dirExists;
      this.main := main;
      this.backup := backup;
    }
  }

  /** `impl Default for AuraConfig`. */
  function DefaultValue(): ConfigValue {
    ConfigValue(Med, Static, map[], None, LedPowerStates(true, true, true, true, true))
  }

  /** What `create_default` builds: the defaults plus one stock effect per supported mode. */
  function DefaultsFor(support: LaptopLedData, codec: Codec): (r: ConfigValue)
    ensures r.builtins.Keys == set n | n in support.standard
    ensures forall n :: n in r.builtins ==> r.builtins[n] == codec.defaultWithMode(n)
    ensures r == DefaultValue().(builtins := r.builtins)
  {
    DefaultValue().(builtins := map n | n in support.standard :: codec.defaultWithMode(n))
  }

  /** What `read` leaves in the config, or `None` where it panics. */
  function ReadInto(contents: FileState, current: ConfigValue): (r: Option<ConfigValue>)
    ensures r.None? <==> contents == Missing || contents == Garbled
    ensures r.Some? ==> r.value == (if contents.Json? then contents.value else current)
  {
    match contents
    case Missing => None
    case Empty => Some(current)
    case Unreadable => Some(current)
    case Garbled => None
    case Json(v) => Some(v)
  }

  datatype Loaded = Loaded(value: ConfigValue, main: FileState, backup: FileState)

  /**
   * What `load` returns and leaves on disk, or `None` where it panics. A garbled file is renamed
   * to the backup path, so the main path is left empty-handed.
   */
  function LoadFrom(dirExists: bool, main: FileState, backup: FileState, defaults: ConfigValue): (r: Option<Loaded>)
    ensures r.None? <==> !dirExists
    ensures r.Some? ==> r.value.value == (if main.Json? then main.value else defaults)
    ensures r.Some? ==> r.value.main != Garbled && r.value.main != Empty
    ensures r.Some? ==> r.value.backup == (if main == Garbled then Garbled else backup)
  {
    if !dirExists then None
    else match main
      case Missing => Some(Loaded(defaults, Json(defaults), backup))
      case Empty => Some(Loaded(defaults, Json(defaults), backup))
      case Json(v) => Some(Loaded(v, main, backup))
      case Garbled => Some(Loaded(defaults, Missing, Garbled))
      case Unreadable => Some(Loaded(defaults, Unreadable, backup))
  }

  /** Index of the first effect in `fx` whose mode is `mode`, or `|fx|` when there is none. */
  function FirstMatch(fx: seq<AuraEffect>, mode: AuraModeNum): (k: nat)
    ensures k <= |fx|
    ensures forall j :: 0 <= j < k ==> fx[j].mode != mode
    ensures k < |fx| ==> fx[k].mode == mode
  {
    if fx == [] then 0
    else if fx[0].mode == mode then 0
    else 1 + FirstMatch(fx[1..], mode)
  }

  /** `set_builtin` on the value. */
  function SetBuiltinValue(c: ConfigValue, e: AuraEffect): (r: ConfigValue)
    ensures r.brightness == c.brightness && r.currentMode == c.currentMode && r.powerStates == c.powerStates
    ensures e.zone == NoZone ==> r.multizone == c.multizone
    ensures e.zone != NoZone ==> r.builtins == c.builtins
    ensures r.multizone.Some? <==> c.multizone.Some?
  {
    if e.zone == NoZone then c.(builtins := c.builtins[e.mode := e])
    else if c.multizone.None? then c
    else if e.mode in c.multizone.value then
      var fx := c.multizone.value[e.mode];
      var k := FirstMatch(fx, e.mode);
      if k < |fx| then c.(multizone := Some(c.multizone.value[e.mode := fx[k := e]])) else c
    else c.(multizone := Some(map[e.mode := [e]]))
  }

  /** `get_multizone` on the value: the mode's list, present only when a multizone map holds the mode. */
  function MultizoneOf(c: ConfigValue, mode: AuraModeNum): (r: Option<seq<AuraEffect>>)
    ensures r.Some? <==> c.multizone.Some? && mode in c.multizone.value
    ensures r.Some? ==> r.value == c.multizone.value[mode]
  {
    if c.multizone.Some? && mode in c.multizone.value then Some(c.multizone.value[mode]) else None
  }

  class AuraConfig {
    var brightness: LedBrightness
    var currentMode: AuraModeNum
    var builtins: map<AuraModeNum, AuraEffect>
    var multizone: Option<map<AuraModeNum, seq<AuraEffect>>>
    var powerStates: LedPowerStates

    function Value(): ConfigValue
      reads this
    {
      ConfigValue(brightness, currentMode, builtins, multizone, powerStates)
    }

    /** `AuraConfig::default()`. */
    constructor Default()
      ensures brightness == Med && currentMode == Static
      ensures builtins == map[] && multizone == None
      ensures powerStates == LedPowerStates(true, true, true, true, true)
      ensures Value() == DefaultValue()
    {
      brightness := Med;
      currentMode := Static;
      builtins := map[];
      multizone := None;
      powerStates := LedPowerStates(true, true, true, true, true);
    }

    /** The config `serde_json::from_str` produces from a file holding `v`. */
    constructor Deserialised(v: ConfigValue)
      ensures Value() == v
    {
      brightness := v.brightness;
      currentMode := v.currentMode;
      builtins := v.builtins;
      multizone := v.multizone;
      powerStates := v.powerStates;
    }

    /**
     * `create_default`, without its write: the defaults with one `default_with_mode(n)` entry
     * for each supported mode `n` and no other. `Load` writes the result through its handle.
     */
    static method CreateDefault(support: LaptopLedData, codec: Codec) returns (cfg: AuraConfig)
      ensures fresh(cfg)
      ensures cfg.builtins.Keys == set n | n in support.standard
      ensures forall n :: n in cfg.builtins ==> cfg.builtins[n] == codec.defaultWithMode(n)
      ensures cfg.Value() == DefaultsFor(support, codec)
    {
      cfg := new AuraConfig.Default();
      var i := 0;
      while i < |support.standard|
        invariant 0 <= i <= |support.standard|
        invariant cfg.Value() == DefaultValue().(builtins := cfg.builtins)
        invariant cfg.builtins == map n | n in support.standard[..i] :: codec.defaultWithMode(n)
      {
        var n := support.standard[i];
        cfg.builtins := cfg.builtins[n := codec.defaultWithMode(n)];
        assert support.standard[..i + 1] == support.standard[..i] + [n];
        i := i + 1;
      }
      assert support.standard[..i] == support.standard;
    }

    /**
     * `load`: `None` stands for the panic when /etc/asusd/ is missing. An empty (or new) file
     * gets the defaults written to it; a garbled one is renamed to the `-old` backup first.
     */
    static method Load(file: ConfigFile, support: LaptopLedData, codec: Codec) returns (r: Option<AuraConfig>)
      requires file.Valid()
      modifies file
      ensures file.Valid()
      ensures var l := LoadFrom(file.dirExists, old(file.main), old(file.backup), DefaultsFor(support, codec));
        && (r.Some? <==> l.Some?)
        && (r.Some? ==> fresh(r.value) && r.value.Value() == l.value.value)
        && (l.Some? ==> file.main == l.value.main && file.backup == l.value.backup)
        && (l.None? ==> file.main == old(file.main) && file.backup == old(file.backup))
    {
      if !file.dirExists {
        return None;
      }
      var contents := file.main;
      if contents.Json? {
        var cfg := new AuraConfig.Deserialised(contents.value);
        return Some(cfg);
      }
      if contents == Garbled {
        file.backup := file.main;
        file.main := Missing;
      }
      var cfg := CreateDefault(support, codec);
      if contents == Missing || contents == Empty {
        file.main := Json(cfg.Value());
      }
      r := Some(cfg);
    }

    /**
     * `read`: replaces the whole config with the file's, keeps it when the file is empty or not
     * text, and panics (`panicked`) when the file is missing or does not deserialise.
     */
    method Read(file: ConfigFile) returns (panicked: bool)
      requires file.Valid()
      modifies this
      ensures !file.dirExists ==> panicked
      ensures var l := ReadInto(file.main, old(Value()));
        && panicked == l.None?
        && Value() == (if l.None? then old(Value()) else l.value)
    {
      match file.main
      case Missing =>
        panicked := true;
      case Garbled =>
        panicked := true;
      case Empty =>
        panicked := false;
      case Unreadable =>
        panicked := false;
      case Json(v) =>
        panicked := false;
        brightness, currentMode, builtins, multizone, powerStates :=
          v.brightness, v.currentMode, v.builtins, v.multizone, v.powerStates;
    }

    /** `write`: overwrites the file with this config; `File::create` panics without the directory. */
    method Write(file: ConfigFile) returns (panicked: bool)
      requires file.Valid()
      modifies file
      ensures file.Valid()
      ensures panicked == !file.dirExists
      ensures file.main == (if panicked then old(file.main) else Json(Value()))
      ensures file.backup == old(file.backup)
    {
      panicked := !file.dirExists;
      if !panicked {
        file.main := Json(Value());
      }
    }

    /**
     * `set_builtin`: a global effect goes into `builtins`; a zoned one replaces the first entry
     * of its mode's list whose mode matches, or starts a new map when the mode has no list.
     */
    method SetBuiltin(effect: AuraEffect)
      modifies this
      ensures Value() == SetBuiltinValue(old(Value()), effect)
    {
      if effect.zone == NoZone {
        builtins := builtins[effect.mode := effect];
      } else if multizone.Some? {
        var multi := multizone.value;
        if effect.mode in multi {
          var fx := multi[effect.mode];
          var i := 0;
          while i < |fx|
            invariant 0 <= i <= |fx|
            invariant forall j :: 0 <= j < i ==> fx[j].mode != effect.mode
            invariant Value() == old(Value())
          {
            if fx[i].mode == effect.mode {
              multizone := Some(multi[effect.mode := fx[i := effect]]);
              break;
            }
            i := i + 1;
          }
        } else {
          multizone := Some(map[effect.mode := [effect]]);
        }
      }
    }

    /** `get_multizone`. */
    function GetMultizone(mode: AuraModeNum): (r: Option<seq<AuraEffect>>)
      reads this
      ensures r == MultizoneOf(Value(), mode)
    {
      if multizone.Some? then
        if mode in multizone.value then Some(multizone.value[mode]) else None
      else None
    }
  }

  /** Saving a config and reading it into another gives the other the saved value. */
  method WriteThenRead(saved: AuraConfig, other: AuraConfig, file: ConfigFile)
    requires file.dirExists && file.Valid()
    modifies file, other
    ensures other.Value() == old(saved.Value())
  {
    var p := saved.Write(file);
    p := other.Read(file);
  }

  /** Without /etc/asusd/ there is no file to read, so `read` panics whatever the live config holds. */
  lemma ReadWithoutDirectoryPanics(main: FileState, backup: FileState, current: ConfigValue)
    requires Consistent(false, main, backup)
    ensures ReadInto(main, current) == None
  {
  }

  /**
   * A second `load` returns what the first one did. It also leaves the file as the first one
   * left it, except after a garbled file, whose renaming left the path empty.
   */
  lemma LoadTwice(dirExists: bool, main: FileState, backup: FileState, defaults: ConfigValue)
    requires LoadFrom(dirExists, main, backup, defaults).Some?
    ensures var first := LoadFrom(dirExists, main, backup, defaults).value;
      var second := LoadFrom(dirExists, first.main, first.backup, defaults);
      && second.Some?
      && second.value.value == first.value
      && (main != Garbled ==> second.value == first)
  {
  }

  /** A garbled file is kept as the backup and the defaults are returned. */
  lemma LoadBacksUpGarbled(main: FileState, backup: FileState, defaults: ConfigValue)
    requires main == Garbled
    ensures LoadFrom(true, main, backup, defaults) == Some(Loaded(defaults, Missing, Garbled))
  {
  }

  /** `read` and `load` disagree on an empty file: one keeps the live config, the other resets it. */
  lemma EmptyFileAsymmetry(current: ConfigValue, defaults: ConfigValue)
    ensures ReadInto(Empty, current) == Some(current)
    ensures LoadFrom(true, Empty, Missing, defaults).value.value == defaults
  {
  }

  /** A global effect lands in `builtins` under its mode and touches nothing else. */
  lemma SetBuiltinGlobal(c: ConfigValue, e: AuraEffect)
    requires e.zone == NoZone
    ensures var r := SetBuiltinValue(c, e);
      && r.builtins.Keys == c.builtins.Keys + {e.mode}
      && r.builtins[e.mode] == e
      && (forall m :: m in c.builtins && m != e.mode ==> r.builtins[m] == c.builtins[m])
      && r.multizone == c.multizone && r.brightness == c.brightness
      && r.currentMode == c.currentMode && r.powerStates == c.powerStates
  {
  }

  /** A zoned effect is dropped when no multizone map exists. */
  lemma SetBuiltinZonedWithoutMap(c: ConfigValue, e: AuraEffect)
    requires e.zone != NoZone && c.multizone.None?
    ensures SetBuiltinValue(c, e) == c
  {
  }

  /**
   * A zoned effect whose mode already has a list replaces that list's first entry of the same
   * mode, whatever its zone; the list keeps its length, and nothing else changes. With no entry
   * of that mode the config is unchanged.
   */
  lemma SetBuiltinZonedExisting(c: ConfigValue, e: AuraEffect)
    requires e.zone != NoZone && c.multizone.Some? && e.mode in c.multizone.value
    ensures var fx := c.multizone.value[e.mode];
      var r := SetBuiltinValue(c, e);
      && r.builtins == c.builtins && r.brightness == c.brightness
      && r.currentMode == c.currentMode && r.powerStates == c.powerStates
      && r.multizone.Some? && r.multizone.value.Keys == c.multizone.value.Keys
      && (forall m :: m in c.multizone.value && m != e.mode ==> r.multizone.value[m] == c.multizone.value[m])
      && |r.multizone.value[e.mode]| == |fx|
      && ((forall j :: 0 <= j < |fx| ==> fx[j].mode != e.mode) ==> r == c)
      && (forall k :: 0 <= k < |fx| && fx[k].mode == e.mode && (forall j :: 0 <= j < k ==> fx[j].mode != e.mode) ==>
            r.multizone.value[e.mode] == fx[k := e])
  {
  }

  /** A zoned effect of a mode with no list replaces the whole map by that mode's one-entry list. */
  lemma SetBuiltinZonedNewMode(c: ConfigValue, e: AuraEffect)
    requires e.zone != NoZone && c.multizone.Some? && e.mode !in c.multizone.value
    ensures SetBuiltinValue(c, e) == c.(multizone := Some(map[e.mode := [e]]))
  {
  }

  /**
   * Zones are not compared: setting zone Two's effect where the list holds zone One then zone
   * Two overwrites zone One's entry and leaves zone Two's as it was.
   */
  lemma SetBuiltinIgnoresZone(c: ConfigValue, one: AuraEffect, two: AuraEffect, e: AuraEffect)
    requires one.mode == Static && one.zone == One
    requires two.mode == Static && two.zone == Two
    requires e.mode == Static && e.zone == Two
    requires c.multizone == Some(map[Static := [one, two]])
    ensures SetBuiltinValue(c, e).multizone == Some(map[Static := [e, two]])
  {
    assert Static in c.multizone.value && c.multizone.value[Static] == [one, two];
    assert FirstMatch([one, two], Static) == 0;
    assert [one, two][0 := e] == [e, two];
    var m := c.multizone.value;
    assert SetBuiltinValue(c, e) == c.(multizone := Some(m[Static := [e, two]]));
    assert m[Static := [e, two]] == map[Static := [e, two]];
  }

  /** After a zoned effect is set, its mode has a list, and the list holds it unless no entry matched. */
  lemma SetBuiltinThenGetMultizone(c: ConfigValue, e: AuraEffect)
    requires e.zone != NoZone && c.multizone.Some?
    ensures var got := MultizoneOf(SetBuiltinValue(c, e), e.mode);
      && got.Some?
      && (e.mode !in c.multizone.value || (exists j :: 0 <= j < |c.multizone.value[e.mode]| && c.multizone.value[e.mode][j].mode == e.mode)
          ==> e in got.value)
  {
    if e.mode in c.multizone.value {
      var fx := c.multizone.value[e.mode];
      var k := FirstMatch(fx, e.mode);
      if k < |fx| {
        assert fx[k := e][k] == e;
      }
    }
  }
}
