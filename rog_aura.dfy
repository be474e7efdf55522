/**
 * The types the keyboard-LED core borrows from the `rog_aura` crate. That crate's source is not
 * part of this model: only the shapes the core relies on are declared here, and its encoders are
 * gathered in `Codec` as values the controller is given, so that nothing is claimed about them.
 */
module RogAura {
  import opened Basics

  /** Keyboard backlight level; `level as u32` is its ordinal. */
  datatype LedBrightness = Off | Low | Med | High {
    function AsU32(): nat {
      match this
      case Off => 0
      case Low => 1
      case Med => 2
      case High => 3
    }
  }

  /**
   * `LedBrightness::from(u32)`. The core only converts ordinals 0..3 back, except the
   * brightness-node digit in `update_config`, which may be up to 9; above 3 the model answers
   * `Med`.
   */
  function BrightnessFromU32(n: nat): LedBrightness {
    if n == 0 then Off
    else if n == 1 then Low
    else if n == 2 then Med
    else if n == 3 then High
    else Med
  }

  /** Built-in lighting modes, in the crate's declaration order. */
  datatype AuraModeNum =
    Static | Breathe | Strobe | Rainbow | Star | Rain | Highlight | Laser | Ripple | Pulse | Comet | Flash

  /** Target of an effect: the whole keyboard (`AuraZone::None`) or one physical zone. */
  datatype AuraZone = NoZone | One | Two | Three

  datatype Colour = Colour(r: u8, g: u8, b: u8)

  /**
   * One configured effect. Speed and direction are enums in the crate; the core never looks at
   * them, so they are carried as their byte codes.
   */
  datatype AuraEffect = AuraEffect(
    mode: AuraModeNum,
    zone: AuraZone,
    colour1: Colour,
    colour2: Colour,
    speed: u8,
    direction: u8)

  /** The five LED power flags, persisted and sent to the device together. */
  datatype LedPowerStates = LedPowerStates(
    bootAnim: bool,
    sleepAnim: bool,
    allLeds: bool,
    keysLeds: bool,
    sideLeds: bool)

  /**
   * The crate's encoders and protocol constants, taken as given:
   * `<[u8; LED_MSG_LEN]>::from(&AuraEffect)`, `leds_message`, `LED_SET`, `LED_APPLY`,
   * `LedBrightness::as_char_code` and `AuraEffect::default_with_mode`.
   */
  datatype Codec = Codec(
    effectBytes: AuraEffect -> seq<u8>,
    ledsMessage: LedPowerStates -> (u8, u8, u8),
    ledSet: seq<u8>,
    ledApply: seq<u8>,
    charCode: LedBrightness -> u8,
    defaultWithMode: AuraModeNum -> AuraEffect)
}
