/**
 * The keyboard-LED controller (daemon/src/ctrl_aura/controller.rs): brightness stepping, effect
 * and power-state writes to the hidraw LED node in their fixed order, raw effect uploads whose
 * direction alternates, mode cycling, and the sleep/wake policy that keeps the saved brightness
 * in step with the hardware.
 */
module CtrlAuraController {
  import opened Basics
  import opened RogAura
  import opened CtrlAuraConfig

  const KBD_BRIGHT_PATH: string := "/sys/class/leds/asus::kbd_backlight/brightness"
  const ALL_FEATURES_MISSING: string :=
    "All keyboard features missing, you may require a v5.11 series kernel or newer"
  const NO_BRIGHTNESS_CONTROL: string :=
    "No brightness control, you may require a v5.11 series kernel or newer"

  /** The daemon's error kinds that reach the controller's callers; `Panicked` stands for a panic in the config code. */
  datatype RogError =
    | NotSupported
    | Write
    | Read
    | Path
    | MissingLedBrightNode
    | ParseLed
    | MissingFunction(message: string)
    | Panicked

  /** What one attempt to open the LED node and write a packet to it meets. */
  datatype WriteStatus = Written | CannotOpen | WriteFailed

  /** `write_bytes` turns a failed open into `NotSupported` and only a failed write into `Write`. */
  function WriteErrorOf(s: WriteStatus): RogError {
    if s == WriteFailed then Write else NotSupported
  }

  /** The hidraw LED node: the packets it has taken, in order, and how each attempt fares. */
  class LedNode {
    var packets: seq<seq<u8>>
    var attempts: nat
    const status: nat -> WriteStatus

    constructor (status: nat -> WriteStatus)
      ensures packets == [] && attempts == 0 && this.status == status
    {
      packets := [];
      attempts := 0;
      this.status := status;
    }

    /** Opens the node for writing and writes the whole packet. */
    method Write(message: seq<u8>) returns (s: WriteStatus)
      modifies this
      ensures s == status(old(attempts)) && attempts == old(attempts) + 1
      ensures packets == (if s == Written then old(packets) + [message] else old(packets))
    {
      s := status(attempts);
      if s == Written {
        packets := packets + [message];
      }
      attempts := attempts + 1;
    }
  }

  /** What one attempt to open the brightness node and move its byte meets. */
  datatype NodeStatus = Available | NotFound | OpenDenied | IoFailed

  /** Open errors are `MissingLedBrightNode` when the node is absent and `Path` otherwise; I/O errors are `Read`, writes included. */
  function NodeErrorOf(s: NodeStatus): RogError {
    match s
    case NotFound => MissingLedBrightNode
    case OpenDenied => Path
    case _ => Read
  }

  /** The sysfs keyboard backlight node: the byte it reads back, and how each attempt fares. */
  class BrightNode {
    var level: u8
    var attempts: nat
    const status: nat -> NodeStatus

    constructor (level: u8, status: nat -> NodeStatus)
      ensures this.level == level && attempts == 0 && this.status == status
    {
      this.level := level;
      attempts := 0;
      this.status := status;
    }

    method WriteByte(b: u8) returns (s: NodeStatus)
      modifies this
      ensures s == status(old(attempts)) && attempts == old(attempts) + 1
      ensures level == (if s == Available then b else old(level))
    {
      s := status(attempts);
      if s == Available {
        level := b;
      }
      attempts := attempts + 1;
    }

    method ReadByte() returns (s: NodeStatus, b: u8)
      modifies this
      ensures s == status(old(attempts)) && attempts == old(attempts) + 1
      ensures level == old(level) && (s == Available ==> b == level)
    {
      s := status(attempts);
      b := if s == Available then level else 0;
      attempts := attempts + 1;
    }
  }

  /** How many of `n` consecutive writes, the first being attempt `start`, succeed before the first failure. */
  function Delivered(status: nat -> WriteStatus, start: nat, n: nat): (k: nat)
    ensures k <= n
    ensures forall i :: start <= i < start + k ==> status(i) == Written
    ensures k < n ==> status(start + k) != Written
    decreases n
  {
    if n == 0 || status(start) != Written then 0 else 1 + Delivered(status, start + 1, n - 1)
  }

  /** The node's side of a run of `write_bytes` calls: what the last call reported and the node's new counters. */
  datatype Outcome = Outcome(report: Result<(), RogError>, attempts: nat, packets: seq<seq<u8>>)

  /** Sending `msgs` one `write_bytes` call after another, each propagated with `?`, to a node in state `(attempts, packets)`. */
  function Transmit(status: nat -> WriteStatus, attempts: nat, packets: seq<seq<u8>>, msgs: seq<seq<u8>>): (r: Outcome)
    ensures packets <= r.packets && |r.packets| <= |packets| + |msgs|
    ensures r.report.Ok? <==> r.packets == packets + msgs
    ensures r.report.Ok? ==> r.attempts == attempts + |msgs|
    ensures r.report.Err? ==> attempts < r.attempts <= attempts + |msgs|
    decreases |msgs|
  {
    if msgs == [] then Outcome(Ok(()), attempts, packets)
    else
      var s := status(attempts);
      if s == Written then Transmit(status, attempts + 1, packets + [msgs[0]], msgs[1..])
      else Outcome(Err(WriteErrorOf(s)), attempts + 1, packets)
  }

  /** A single `write_bytes` call. */
  lemma TransmitOne(status: nat -> WriteStatus, attempts: nat, packets: seq<seq<u8>>, message: seq<u8>)
    ensures Transmit(status, attempts, packets, [message])
      == if status(attempts) == Written then Outcome(Ok(()), attempts + 1, packets + [message])
         else Outcome(Err(WriteErrorOf(status(attempts))), attempts + 1, packets)
  {
    assert [message][1..] == [];
  }

  /** The node takes exactly the packets before the first failure, and the first failure is what is reported. */
  lemma {:induction false} TransmitDelivers(status: nat -> WriteStatus, attempts: nat, packets: seq<seq<u8>>, msgs: seq<seq<u8>>)
    ensures var k := Delivered(status, attempts, |msgs|);
      var o := Transmit(status, attempts, packets, msgs);
      && o.packets == packets + msgs[..k]
      && o.attempts == attempts + (if k < |msgs| then k + 1 else k)
      && o.report == (if k == |msgs| then Ok(()) else Err(WriteErrorOf(status(attempts + k))))
    decreases |msgs|
  {
    if msgs != [] && status(attempts) == Written {
      TransmitDelivers(status, attempts + 1, packets + [msgs[0]], msgs[1..]);
      TransmitDeliversStep(status, attempts, packets, msgs);
    }
  }

  /** One step of `TransmitDelivers`: a successful first write shifts the count by one. */
  lemma TransmitDeliversStep(status: nat -> WriteStatus, attempts: nat, packets: seq<seq<u8>>, msgs: seq<seq<u8>>)
    requires msgs != [] && status(attempts) == Written
    ensures var k := Delivered(status, attempts + 1, |msgs| - 1);
      && Delivered(status, attempts, |msgs|) == k + 1
      && Transmit(status, attempts, packets, msgs) == Transmit(status, attempts + 1, packets + [msgs[0]], msgs[1..])
      && packets + [msgs[0]] + msgs[1..][..k] == packets + msgs[..k + 1]
  {
    var k := Delivered(status, attempts + 1, |msgs| - 1);
    assert msgs[..k + 1] == [msgs[0]] + msgs[1..][..k];
  }

  /** Sending two runs back to back is sending their concatenation; a failure in the first run ends the whole. */
  lemma {:induction false} TransmitAppend(status: nat -> WriteStatus, attempts: nat, packets: seq<seq<u8>>, xs: seq<seq<u8>>, ys: seq<seq<u8>>)
    ensures var o := Transmit(status, attempts, packets, xs);
      Transmit(status, attempts, packets, xs + ys)
        == if o.report.Ok? then Transmit(status, o.attempts, o.packets, ys) else o
    decreases |xs|
  {
    if xs == [] {
      assert xs + ys == ys;
    } else {
      assert (xs + ys)[0] == xs[0];
      assert (xs + ys)[1..] == xs[1..] + ys;
      if status(attempts) == Written {
        TransmitAppend(status, attempts + 1, packets + [xs[0]], xs[1..], ys);
      }
    }
  }

  /** `s` in reverse order, as `iter().rev()` visits it. */
  function Reversed<T>(s: seq<T>): (r: seq<T>)
    ensures |r| == |s|
  {
    seq(|s|, i requires 0 <= i < |s| => s[|s| - 1 - i])
  }

  /** The brightness after `next_brightness`: one level up, from High back to Off. */
  function NextLevel(b: LedBrightness): (r: LedBrightness)
    ensures r.AsU32() == (b.AsU32() + 1) % 4
  {
    var bright := b.AsU32() + 1;
    BrightnessFromU32(if bright > 3 then 0 else bright)
  }

  /** The brightness after `prev_brightness`: one level down, from Off round to High. */
  function PrevLevel(b: LedBrightness): (r: LedBrightness)
    ensures (r.AsU32() + 1) % 4 == b.AsU32()
  {
    var bright := b.AsU32();
    BrightnessFromU32(if bright == 0 then 3 else bright - 1)
  }

  /** The 17-byte power-state command: three header bytes, the three flag bytes, eleven zeros. */
  function PowerStatePacket(flags: (u8, u8, u8)): (p: seq<u8>)
    ensures |p| == 17
    ensures p[..3] == [0x5d, 0xbd, 0x01]
    ensures p[3..6] == [flags.0, flags.1, flags.2]
    ensures forall i :: 6 <= i < 17 ==> p[i] == 0
  {
    [0x5d, 0xbd, 0x01, flags.0, flags.1, flags.2, 0, 0, 0, 0, 0, 0, 0, 0, 0, 0, 0]
  }

  /** `iter().position`: the first index of `x` in `s`. */
  function Position(s: seq<AuraModeNum>, x: AuraModeNum): (r: Option<nat>)
    ensures r.None? <==> x !in s
    ensures r.Some? ==> r.value < |s| && s[r.value] == x && forall j :: 0 <= j < r.value ==> s[j] != x
  {
    if s == [] then None
    else if s[0] == x then Some(0)
    else match Position(s[1..], x)
      case None => None
      case Some(i) => Some(i + 1)
  }

  /** The index `toggle_mode` moves to from `idx` in a list of `len` modes. */
  function ToggleIndex(idx: nat, len: nat, reverse: bool): (r: nat)
    requires idx < len
    ensures r < len
    ensures !reverse ==> r == (idx + 1) % len
    ensures reverse ==> (r + 1) % len == idx
  {
    ModWrap(idx, len);
    if reverse then
      if idx == 0 then len - 1 else idx - 1
    else
      if idx + 1 == len then 0 else idx + 1
  }

  lemma ModWrap(idx: nat, len: nat)
    requires idx < len
    ensures idx % len == idx && len % len == 0
    ensures idx + 1 < len ==> (idx + 1) % len == idx + 1
  {
  }

  /** The mode `toggle_mode` aims at, or `None` when the current mode is not a supported one. */
  function ToggleTarget(standard: seq<AuraModeNum>, current: AuraModeNum, reverse: bool): (r: Option<AuraModeNum>)
    ensures r.None? <==> current !in standard
    ensures r.Some? ==> r.value in standard
    ensures standard != [] && current == standard[0] && reverse ==> r == Some(standard[|standard| - 1])
    ensures standard != [] && current == standard[|standard| - 1] && current !in standard[..|standard| - 1] && !reverse
      ==> r == Some(standard[0])
  {
    match Position(standard, current)
    case None => None
    case Some(idx) => Some(standard[ToggleIndex(idx, |standard|, reverse)])
  }

  /** `prev_brightness` undoes `next_brightness` and the other way round. */
  lemma NextPrevInverse(b: LedBrightness)
    ensures PrevLevel(NextLevel(b)) == b
    ensures NextLevel(PrevLevel(b)) == b
  {
    AsU32Injective(PrevLevel(NextLevel(b)), b);
    AsU32Injective(NextLevel(PrevLevel(b)), b);
  }

  /** Four steps in either direction come back to the starting level. */
  lemma FourStepsCycle(b: LedBrightness)
    ensures NextLevel(NextLevel(NextLevel(NextLevel(b)))) == b
    ensures PrevLevel(PrevLevel(PrevLevel(PrevLevel(b)))) == b
  {
    AsU32Injective(NextLevel(NextLevel(NextLevel(NextLevel(b)))), b);
    AsU32Injective(PrevLevel(PrevLevel(PrevLevel(PrevLevel(b)))), b);
  }

  lemma AsU32Injective(a: LedBrightness, b: LedBrightness)
    requires a.AsU32() == b.AsU32()
    ensures a == b
  {
  }

  /** Stepping back undoes stepping forward in the mode list, and the other way round. */
  lemma ToggleIndexInverse(idx: nat, len: nat)
    requires idx < len
    ensures ToggleIndex(ToggleIndex(idx, len, false), len, true) == idx
    ensures ToggleIndex(ToggleIndex(idx, len, true), len, false) == idx
  {
  }

  /** When the supported modes are distinct, toggling forward and then back returns to the current mode. */
  lemma ToggleTargetRoundTrip(standard: seq<AuraModeNum>, current: AuraModeNum)
    requires forall i, j :: 0 <= i < j < |standard| ==> standard[i] != standard[j]
    requires current in standard
    ensures ToggleTarget(standard, current, false).Some?
    ensures ToggleTarget(standard, ToggleTarget(standard, current, false).value, true) == Some(current)
    ensures ToggleTarget(standard, ToggleTarget(standard, current, true).value, false) == Some(current)
  {
    var idx := Position(standard, current).value;
    var len := |standard|;
    ToggleIndexInverse(idx, len);
    PositionOfDistinct(standard, ToggleIndex(idx, len, false));
    PositionOfDistinct(standard, ToggleIndex(idx, len, true));
  }

  /** In a list without repeats, the position of the element at `i` is `i`. */
  lemma PositionOfDistinct(s: seq<AuraModeNum>, i: nat)
    requires forall a, b :: 0 <= a < b < |s| ==> s[a] != s[b]
    requires i < |s|
    ensures Position(s, s[i]) == Some(i)
  {
  }

  /** Reading the rows backward twice is reading them forward: successive uploads alternate direction. */
  lemma ReversedInvolution<T>(s: seq<T>)
    ensures Reversed(Reversed(s)) == s
  {
  }

  class CtrlKbdLed {
    const ledNode: LedNode?
    const brightNode: BrightNode
    const supportedModes: LaptopLedData
    var flipEffectWrite: bool
    const config: AuraConfig
    const configFile: ConfigFile
    const codec: Codec

    constructor (ledNode: LedNode?, brightNode: BrightNode, supportedModes: LaptopLedData,
                 config: AuraConfig, configFile: ConfigFile, codec: Codec)
      ensures this.ledNode == ledNode && this.brightNode == brightNode
      ensures this.supportedModes == supportedModes && this.config == config
      ensures this.configFile == configFile && this.codec == codec
      ensures !flipEffectWrite
    {
      this.ledNode := ledNode;
      this.brightNode := brightNode;
      this.supportedModes := supportedModes;
      this.flipEffectWrite := false;
      this.config := config;
      this.configFile := configFile;
      this.codec := codec;
    }

    /**
     * `CtrlKbdLed::new`, given what the hidraw search and the brightness path check found:
     * the brightness node is required, the LED node is not.
     */
    static method New(supportedModes: LaptopLedData, config: AuraConfig, ledNode: LedNode?,
                      brightNode: BrightNode?, configFile: ConfigFile, codec: Codec)
      returns (r: Result<CtrlKbdLed, RogError>)
      ensures ledNode == null && brightNode == null ==> r == Err(MissingFunction(ALL_FEATURES_MISSING))
      ensures ledNode != null && brightNode == null ==> r == Err(MissingFunction(NO_BRIGHTNESS_CONTROL))
      ensures brightNode != null ==> r.Ok? && fresh(r.value)
      ensures r.Ok? ==>
        && r.value.ledNode == ledNode && r.value.brightNode == brightNode
        && r.value.supportedModes == supportedModes && r.value.config == config
        && r.value.configFile == configFile && !r.value.flipEffectWrite
    {
      if ledNode == null && brightNode == null {
        return Err(MissingFunction(ALL_FEATURES_MISSING));
      }
      if brightNode == null {
        return Err(MissingFunction(NO_BRIGHTNESS_CONTROL));
      }
      var ctrl := new CtrlKbdLed(ledNode, brightNode, supportedModes, config, configFile, codec);
      r := Ok(ctrl);
    }

    /** What sending `msgs` in order from the present state would do; with no node, the first write is refused. */
    ghost function Sending(msgs: seq<seq<u8>>): Outcome
      reads this, ledNode
    {
      if ledNode != null then Transmit(ledNode.status, ledNode.attempts, ledNode.packets, msgs)
      else Outcome(if msgs == [] then Ok(()) else Err(NotSupported), 0, [])
    }

    /** `msgs` were sent in order until the first failure. */
    twostate predicate WroteInOrder(msgs: seq<seq<u8>>)
      reads this, ledNode
    {
      ledNode != null ==>
        && ledNode.attempts == old(Sending(msgs)).attempts
        && ledNode.packets == old(Sending(msgs)).packets
    }

    /** The LED node, if there is one, is as it was. */
    twostate predicate Untouched()
      reads this, ledNode
    {
      ledNode != null ==> unchanged(ledNode)
    }

    /** What `write_mode(mode)` reports. */
    ghost function ModeReport(mode: AuraEffect): Result<(), RogError>
      reads this, ledNode
    {
      if mode.mode in supportedModes.standard then Sending([codec.effectBytes(mode), codec.ledSet, codec.ledApply]).report
      else Err(NotSupported)
    }

    /** What `write_mode(mode)` does to the node: the effect packet, SET, APPLY, or nothing for an unsupported mode. */
    twostate predicate ModeWritten(mode: AuraEffect)
      reads this, ledNode
    {
      if mode.mode in supportedModes.standard then
        WroteInOrder([codec.effectBytes(mode), codec.ledSet, codec.ledApply])
      else
        Untouched()
    }

    /** `write` was called: it saved the live config, or panicked for want of the directory. */
    twostate predicate SavedWith(new r: Result<(), RogError>)
      reads this, config, configFile
    {
      && r == (if configFile.dirExists then Ok(()) else Err(Panicked))
      && configFile.main == (if configFile.dirExists then Json(config.Value()) else old(configFile.main))
    }

    /** `set_brightness(level)` was called: the node took the level's character code unless the attempt failed. */
    twostate predicate BrightnessApplied(level: LedBrightness, new r: Result<(), RogError>)
      reads this, brightNode
    {
      var s := old(brightNode.status(brightNode.attempts));
      && r == (if s == Available then Ok(()) else Err(NodeErrorOf(s)))
      && brightNode.level == (if s == Available then codec.charCode(level) else old(brightNode.level))
      && brightNode.attempts == old(brightNode.attempts) + 1
    }

    /**
     * `update_config` was called: the brightness node's byte, when it is a decimal digit that
     * names a level other than the live one, is saved as the new brightness after a re-read of
     * the file; any other byte is `ParseLed`, and a failed open or read is reported as such.
     */
    twostate predicate BrightnessSynced(new r: Result<(), RogError>)
      reads this, brightNode, config, configFile
    {
      var s := old(brightNode.status(brightNode.attempts));
      var b := old(brightNode.level) as int;
      var loaded := ReadInto(old(configFile.main), old(config.Value()));
      && brightNode.level == old(brightNode.level)
      && brightNode.attempts == old(brightNode.attempts) + 1
      && configFile.backup == old(configFile.backup)
      && if s != Available || !('0' as int <= b <= '9' as int) || BrightnessFromU32(b - '0' as int) == old(config.brightness) then
           && r == (if s != Available then Err(NodeErrorOf(s)) else if '0' as int <= b <= '9' as int then Ok(()) else Err(ParseLed))
           && config.Value() == old(config.Value())
           && configFile.main == old(configFile.main)
         else if loaded.None? then
           r == Err(Panicked) && config.Value() == old(config.Value()) && configFile.main == old(configFile.main)
         else
           config.Value() == loaded.value.(brightness := BrightnessFromU32(b - '0' as int)) && SavedWith(r)
    }

    /** `write_bytes`. */
    method WriteBytes(message: seq<u8>) returns (r: Result<(), RogError>)
      modifies ledNode
      ensures r == old(Sending([message])).report
      ensures WroteInOrder([message])
    {
      if ledNode != null {
        TransmitOne(ledNode.status, ledNode.attempts, ledNode.packets, message);
        var s := ledNode.Write(message);
        if s != CannotOpen {
          return if s == Written then Ok(()) else Err(Write);
        }
      }
      r := Err(NotSupported);
    }

    /** `get_brightness`: the byte the brightness node holds. */
    method GetBrightness() returns (r: Result<u8, RogError>)
      modifies brightNode
      ensures var s := old(brightNode.status(brightNode.attempts));
        && r == (if s == Available then Ok(brightNode.level) else Err(NodeErrorOf(s)))
        && brightNode.level == old(brightNode.level)
        && brightNode.attempts == old(brightNode.attempts) + 1
    {
      var s, b := brightNode.ReadByte();
      r := if s == Available then Ok(b) else Err(NodeErrorOf(s));
    }

    /** `set_brightness`: one character-code byte to the brightness node; the config is not touched. */
    method SetBrightness(level: LedBrightness) returns (r: Result<(), RogError>)
      modifies brightNode
      ensures BrightnessApplied(level, r)
    {
      var s := brightNode.WriteByte(codec.charCode(level));
      r := if s == Available then Ok(()) else Err(NodeErrorOf(s));
    }

    /** `next_brightness`: the new level is saved first and stays saved whatever the node does. */
    method NextBrightness() returns (r: Result<(), RogError>)
      requires configFile.Valid()
      modifies config, configFile, brightNode
      ensures configFile.Valid()
      ensures config.Value() == old(config.Value()).(brightness := NextLevel(old(config.brightness)))
      ensures configFile.backup == old(configFile.backup)
      ensures configFile.dirExists ==> configFile.main == Json(config.Value()) && BrightnessApplied(config.brightness, r)
      ensures !configFile.dirExists ==> r == Err(Panicked) && configFile.main == old(configFile.main) && unchanged(brightNode)
    {
      config.brightness := NextLevel(config.brightness);
      var panicked := config.Write(configFile);
      if panicked {
        return Err(Panicked);
      }
      r := SetBrightness(config.brightness);
    }

    /** `prev_brightness`: as `next_brightness`, one level down. */
    method PrevBrightness() returns (r: Result<(), RogError>)
      requires configFile.Valid()
      modifies config, configFile, brightNode
      ensures configFile.Valid()
      ensures config.Value() == old(config.Value()).(brightness := PrevLevel(old(config.brightness)))
      ensures configFile.backup == old(configFile.backup)
      ensures configFile.dirExists ==> configFile.main == Json(config.Value()) && BrightnessApplied(config.brightness, r)
      ensures !configFile.dirExists ==> r == Err(Panicked) && configFile.main == old(configFile.main) && unchanged(brightNode)
    {
      config.brightness := PrevLevel(config.brightness);
      var panicked := config.Write(configFile);
      if panicked {
        return Err(Panicked);
      }
      r := SetBrightness(config.brightness);
    }

    /** `set_power_states`: the 17-byte power packet, then SET, then APPLY, stopping at the first failure. */
    method SetPowerStates(cfg: AuraConfig) returns (r: Result<(), RogError>)
      modifies ledNode
      ensures var msgs := [PowerStatePacket(codec.ledsMessage(cfg.powerStates)), codec.ledSet, codec.ledApply];
        r == old(Sending(msgs)).report && WroteInOrder(msgs)
    {
      var message := PowerStatePacket(codec.ledsMessage(cfg.powerStates));
      r := SendCommand(message);
    }

    /** `write_mode`: an unsupported mode is refused before anything is written. */
    method WriteMode(mode: AuraEffect) returns (r: Result<(), RogError>)
      modifies ledNode
      ensures r == old(ModeReport(mode))
      ensures ModeWritten(mode)
    {
      if mode.mode !in supportedModes.standard {
        return Err(NotSupported);
      }
      var bytes := codec.effectBytes(mode);
      r := SendCommand(bytes);
    }

    /** A command packet followed by SET and APPLY, each propagated with `?`, as both callers above write them. */
    method SendCommand(message: seq<u8>) returns (r: Result<(), RogError>)
      modifies ledNode
      ensures var msgs := [message, codec.ledSet, codec.ledApply];
        r == old(Sending(msgs)).report && WroteInOrder(msgs)
    {
      ghost var msgs := [message, codec.ledSet, codec.ledApply];
      ghost var rest := [codec.ledSet, codec.ledApply];
      assert msgs == [message] + rest;
      assert rest == [codec.ledSet] + [codec.ledApply];
      if ledNode != null {
        TransmitAppend(ledNode.status, ledNode.attempts, ledNode.packets, [message], rest);
      }
      r := WriteBytes(message);
      if r.Err? {
        return;
      }
      assert ledNode != null ==> old(Sending(msgs)) == Sending(rest);
      if ledNode != null {
        TransmitAppend(ledNode.status, ledNode.attempts, ledNode.packets, [codec.ledSet], [codec.ledApply]);
      }
      r := WriteBytes(codec.ledSet);
      if r.Err? {
        return;
      }
      r := WriteBytes(codec.ledApply);
    }

    /**
     * `_write_effect`: the rows forward, or backward when the flip flag is set, stopping at the
     * first failure; the flag turns over only when every row was written.
     */
    method WriteEffect(effect: seq<seq<u8>>) returns (r: Result<(), RogError>)
      modifies this, ledNode
      ensures var rows := if old(flipEffectWrite) then Reversed(effect) else effect;
        r == old(Sending(rows)).report && WroteInOrder(rows)
      ensures flipEffectWrite == (if r.Ok? then !old(flipEffectWrite) else old(flipEffectWrite))
    {
      ghost var rows := if flipEffectWrite then Reversed(effect) else effect;
      ghost var n := |effect|;
      if flipEffectWrite {
        var i := |effect|;
        while i > 0
          invariant 0 <= i <= n
          invariant ledNode == null ==> i == n
          invariant ledNode != null ==> old(Sending(rows)) == Sending(rows[n - i..])
          invariant flipEffectWrite == old(flipEffectWrite)
        {
          assert rows[n - i] == effect[i - 1];
          if ledNode != null {
            SendingStep(rows, n - i);
          }
          r := WriteBytes(effect[i - 1]);
          if r.Err? {
            return;
          }
          i := i - 1;
        }
      } else {
        var i := 0;
        while i < |effect|
          invariant 0 <= i <= n
          invariant ledNode == null ==> i == 0
          invariant ledNode != null ==> old(Sending(rows)) == Sending(rows[i..])
          invariant flipEffectWrite == old(flipEffectWrite)
        {
          if ledNode != null {
            SendingStep(rows, i);
          }
          r := WriteBytes(effect[i]);
          if r.Err? {
            return;
          }
          i := i + 1;
        }
      }
      flipEffectWrite := !flipEffectWrite;
      r := Ok(());
    }

    /** Sending the rows from `j` on is sending row `j` and then the rows after it. */
    lemma SendingStep(rows: seq<seq<u8>>, j: nat)
      requires j < |rows| && ledNode != null
      ensures var o := Transmit(ledNode.status, ledNode.attempts, ledNode.packets, [rows[j]]);
        Sending(rows[j..]) == if o.report.Ok? then Transmit(ledNode.status, o.attempts, o.packets, rows[j + 1..]) else o
    {
      assert rows[j..] == [rows[j]] + rows[j + 1..];
      TransmitAppend(ledNode.status, ledNode.attempts, ledNode.packets, [rows[j]], rows[j + 1..]);
    }

    /**
     * `set_and_save`: re-reads the file, writes the effect, and only when that succeeded makes
     * it the current mode, stores it and saves.
     */
    method SetAndSave(mode: AuraEffect) returns (r: Result<(), RogError>)
      requires configFile.Valid()
      modifies config, configFile, ledNode
      ensures configFile.Valid()
      ensures !configFile.dirExists ==> r == Err(Panicked) && Untouched()
      ensures configFile.backup == old(configFile.backup)
      ensures var loaded := ReadInto(old(configFile.main), old(config.Value()));
        && (loaded.None? ==>
              r == Err(Panicked) && config.Value() == old(config.Value())
              && configFile.main == old(configFile.main) && Untouched())
        && (loaded.Some? ==> ModeWritten(mode))
        && (loaded.Some? && old(ModeReport(mode)).Err? ==>
              r == old(ModeReport(mode)) && config.Value() == loaded.value
              && configFile.main == old(configFile.main))
        && (loaded.Some? && old(ModeReport(mode)).Ok? ==>
              config.Value() == SetBuiltinValue(loaded.value.(currentMode := mode.mode), mode)
              && SavedWith(r))
    {
      var panicked := config.Read(configFile);
      if panicked {
        return Err(Panicked);
      }
      r := WriteMode(mode);
      if r.Err? {
        return;
      }
      config.currentMode := mode.mode;
      config.SetBuiltin(mode);
      panicked := config.Write(configFile);
      r := if panicked then Err(Panicked) else Ok(());
    }

    /**
     * `toggle_mode`: from a supported current mode, moves to the next (or previous) supported
     * mode with wrap-around, provided the re-read config has a stored effect for it and writing
     * that effect succeeds; it saves in either case. An unsupported current mode is left alone.
     */
    method ToggleMode(reverse: bool) returns (r: Result<(), RogError>)
      requires configFile.Valid()
      modifies config, configFile, ledNode
      ensures configFile.Valid()
      ensures !configFile.dirExists && old(config.currentMode) in supportedModes.standard ==>
        r == Err(Panicked) && Untouched()
      ensures configFile.backup == old(configFile.backup)
      ensures var target := ToggleTarget(supportedModes.standard, old(config.currentMode), reverse);
        var loaded := ReadInto(old(configFile.main), old(config.Value()));
        && (target.None? ==>
              r == Ok(()) && config.Value() == old(config.Value())
              && configFile.main == old(configFile.main) && Untouched())
        && (target.Some? && loaded.None? ==>
              r == Err(Panicked) && config.Value() == old(config.Value())
              && configFile.main == old(configFile.main) && Untouched())
        && (target.Some? && loaded.Some? && target.value !in loaded.value.builtins ==>
              config.Value() == loaded.value && Untouched() && SavedWith(r))
        && (target.Some? && loaded.Some? && target.value in loaded.value.builtins ==>
              var effect := loaded.value.builtins[target.value];
              && ModeWritten(effect)
              && (old(ModeReport(effect)).Err? ==>
                    r == old(ModeReport(effect)) && config.Value() == loaded.value
                    && configFile.main == old(configFile.main))
              && (old(ModeReport(effect)).Ok? ==>
                    config.Value() == loaded.value.(currentMode := target.value) && SavedWith(r)))
    {
      var current := config.currentMode;
      var pos := Position(supportedModes.standard, current);
      if pos.Some? {
        var idx := pos.value;
        if reverse {
          if idx == 0 {
            idx := |supportedModes.standard| - 1;
          } else {
            idx := idx - 1;
          }
        } else {
          idx := idx + 1;
          if idx == |supportedModes.standard| {
            idx := 0;
          }
        }
        var next := supportedModes.standard[idx];

        var panicked := config.Read(configFile);
        if panicked {
          return Err(Panicked);
        }
        if next in config.builtins {
          r := WriteMode(config.builtins[next]);
          if r.Err? {
            return;
          }
          config.currentMode := next;
        }
        panicked := config.Write(configFile);
        if panicked {
          return Err(Panicked);
        }
      }
      r := Ok(());
    }
  }

  /** The sleep/shutdown watcher's view of the controller. */
  class CtrlKbdLedTask {
    const inner: CtrlKbdLed

    constructor (inner: CtrlKbdLed)
      ensures this.inner == inner
    {
      this.inner := inner;
    }

    /** `update_config`: brings the saved brightness in line with what the hardware node reports. */
    static method UpdateConfig(lock: CtrlKbdLed) returns (r: Result<(), RogError>)
      requires lock.configFile.Valid()
      modifies lock.brightNode, lock.config, lock.configFile
      ensures lock.configFile.Valid()
      ensures lock.BrightnessSynced(r)
    {
      var s, b := lock.brightNode.ReadByte();
      if s != Available {
        return Err(NodeErrorOf(s));
      }
      if '0' as int <= b as int <= '9' as int {
        var level := BrightnessFromU32(b as int - '0' as int);
        if lock.config.brightness != level {
          var panicked := lock.config.Read(lock.configFile);
          if panicked {
            return Err(Panicked);
          }
          lock.config.brightness := level;
          panicked := lock.config.Write(lock.configFile);
          if panicked {
            return Err(Panicked);
          }
        }
        return Ok(());
      }
      r := Err(ParseLed);
    }

    /**
     * The `load_save` policy: on waking, the saved brightness and the current mode's stored
     * effect go back to the hardware, errors ignored; on going to sleep, the hardware's
     * brightness is saved.
     */
    method LoadSave(start: bool)
      requires inner.configFile.Valid()
      modifies inner.brightNode, inner.config, inner.configFile, inner.ledNode
      ensures inner.configFile.Valid()
      ensures !start ==>
        && inner.config.Value() == old(inner.config.Value())
        && inner.configFile.main == old(inner.configFile.main)
        && inner.configFile.backup == old(inner.configFile.backup)
        && (exists r :: inner.BrightnessApplied(old(inner.config.brightness), r))
        && (old(inner.config.currentMode) in old(inner.config.builtins) ==>
              inner.ModeWritten(old(inner.config.builtins[inner.config.currentMode])))
        && (old(inner.config.currentMode) !in old(inner.config.builtins) ==> inner.Untouched())
      ensures start ==> (exists r :: inner.BrightnessSynced(r)) && inner.Untouched()
    {
      if !start {
        var r := inner.SetBrightness(inner.config.brightness);
        ghost var applied := r;
        if inner.config.currentMode in inner.config.builtins {
          r := inner.WriteMode(inner.config.builtins[inner.config.currentMode]);
        }
        assert inner.BrightnessApplied(old(inner.config.brightness), applied);
      } else {
        var r := UpdateConfig(inner);
      }
    }
  }
}
