# asusctl keyboard-LED core in Dafny

A model of the keyboard-LED ("Aura") core of the asusctl daemon, with the properties it promises proved in Dafny. It covers the `CtrlKbdLed` controller (brightness stepping, mode cycling, ordered writes to the hidraw LED node, raw effect uploads with alternating direction) and its persisted `AuraConfig` (defaults, load/read/write against `/etc/asusd/aura.conf`, and the `set_builtin` routing rule). It also covers three small conversion modules: graphics vendor and action names, the GPU MUX mode byte, and the `asusd` daemon configuration with its migrations.

Files:

- `basics.dfy` (`Basics`): the `u8` newtype and the `Option`/`Result` datatypes.
- `rog_aura.dfy` (`RogAura`): the types the core takes from the `rog_aura` crate. The crate's encoders and protocol constants (`AuraEffect` → packet bytes, `leds_message`, `LED_SET`, `LED_APPLY`, `as_char_code`, `default_with_mode`) are gathered in a `Codec` value that the controller is handed. They stay opaque, and nothing is claimed about them.
- `aura_config.dfy` (`CtrlAuraConfig`): the `AuraConfig` class, whose fields the methods update in place. The disk is a `ConfigFile` object holding the main path and its `-old` backup. Each path holds one of `Missing`, `Empty`, `Unreadable`, `Garbled` or `Json(value)`. A panic in the config code is a `panicked` result.
- `controller.dfy` (`CtrlAuraController`): the controller classes.
  - `CtrlKbdLed` and `CtrlKbdLedTask` are the controller itself.
  - `LedNode` stands for the hidraw node. It logs every packet it takes, and a failure oracle indexed by attempt number says how each open-and-write attempt fares.
  - `BrightNode` stands for the sysfs backlight node: the byte it holds, plus the same kind of oracle.
  - `Transmit` is the reference definition of a run of `write_bytes` calls, each propagated with `?`. Every write path is proved against it.
- `gfx_vendors.dfy` (`RogTypesGfx`), `platform.dfy` (`RogPlatform`), `asusd_config.dfy` (`AsusdConfig`): the pure conversions.

`LedBrightness::from(u32)` comes from a crate that is not part of this model. The model assumes it maps 0..3 to `Off`, `Low`, `Med` and `High` in declaration order (the order `as u32` numbers them). For any larger number it assumes `Med`.

## Model

| member | source | states |
|---|---|---|
| RogTypesGfx.ToLowercase | rog-types/src/gfx_vendors.rs:17 | lowercasing keeps the length and maps each character by the ASCII lowercase rule |
| RogTypesGfx.ToUppercase | rog-types/src/gfx_vendors.rs:17 | uppercasing keeps the length and maps each character by the ASCII uppercase rule (used to state case-insensitivity) |
| RogTypesGfx.LowercaseIdempotent | rog-types/src/gfx_vendors.rs:17 | lowercasing twice equals lowercasing once |
| RogTypesGfx.LowerOfUpper | rog-types/src/gfx_vendors.rs:17 | lowercase text survives an uppercase-then-lowercase round trip |
| RogTypesGfx.LowerOfUpperAny | rog-types/src/gfx_vendors.rs:17 | lowercasing forgets any prior uppercasing |
| RogTypesGfx.VendorName | rog-types/src/gfx_vendors.rs:31-40 | each vendor's name is non-empty, lowercase and newline-free; `VendorNamesWellFormed` adds that the names are distinct |
| RogTypesGfx.ParseVendor | rog-types/src/gfx_vendors.rs:16-28 | a vendor is returned only when the lowercased input is its name, or its name plus one newline, and every failure is `ParseVendor`. `ParseVendorAccepts`, `ParseVendorRejects`, `ParseVendorIgnoresCase` and `VendorRoundTrip` prove the converse, case-insensitivity and the round trip |
| RogTypesGfx.VendorNamesWellFormed | rog-types/src/gfx_vendors.rs:31-40 | the four vendor names are pairwise distinct, lowercase and newline-free |
| RogTypesGfx.ParseVendorAccepts | rog-types/src/gfx_vendors.rs:16-25 | parsing yields vendor v exactly when the lowercased input is v's name, or v's name followed by one newline |
| RogTypesGfx.ParseVendorRejects | rog-types/src/gfx_vendors.rs:26 | parsing fails exactly when the lowercased input is none of the eight accepted strings, and the error is then `ParseVendor` |
| RogTypesGfx.ParseVendorIgnoresCase | rog-types/src/gfx_vendors.rs:17 | parsing an input, its lowercase form or its uppercase form gives the same result |
| RogTypesGfx.VendorRoundTrip | rog-types/src/gfx_vendors.rs:16-40 | a vendor's printed name parses back to it, in upper case too and with a trailing newline |
| RogTypesGfx.LowercaseNewline | rog-types/src/gfx_vendors.rs:22-25 | a trailing newline passes through lowercasing unchanged |
| RogTypesGfx.ActionStr | rog-types/src/gfx_vendors.rs:62-70 | each action's name is non-empty, lowercase and newline-free |
| RogTypesGfx.ActionString | rog-types/src/gfx_vendors.rs:72-86 | the `String` conversions of an action agree with its `&str` conversion |
| RogTypesGfx.ParseAction | rog-types/src/gfx_vendors.rs:52-59 | an action is returned only when the lowercased input is exactly its name, and every failure is `ParseVendor`. `ParseActionAccepts`, `ActionRoundTrip` and `ActionRejectsNewline` give the converse, the round trip and the refusal of a newline |
| RogTypesGfx.ParseActionAccepts | rog-types/src/gfx_vendors.rs:52-58 | an action parses exactly from its own name in any case, and every failure is reported as `ParseVendor` |
| RogTypesGfx.ActionRoundTrip | rog-types/src/gfx_vendors.rs:52-86 | both printed forms of an action, and the uppercase form, parse back to it |
| RogTypesGfx.ActionRejectsNewline | rog-types/src/gfx_vendors.rs:52-58 | an action name followed by a newline is rejected, unlike a vendor name |
| RogPlatform.GpuMuxModeFromU8 | rog-platform/src/platform.rs:81-88 | decoding gives `Discrete` exactly for byte 0, and never gives `Error` or `NotSupported` |
| RogPlatform.GpuMuxModeToU8 | rog-platform/src/platform.rs:90-99 | only `Discrete` encodes to 0, and the two sentinels encode to the top two byte values. `ToU8Injective`, `GpuMuxRoundTrip` and `GpuMuxDecodeLossy` relate it to decoding |
| RogPlatform.ToU8Injective | rog-platform/src/platform.rs:90-99 | distinct modes encode to distinct bytes |
| RogPlatform.GpuMuxRoundTrip | rog-platform/src/platform.rs:81-99 | decoding inverts encoding for `Discrete` and `Optimus`, and gives `Optimus` for the two sentinels |
| RogPlatform.GpuMuxDecodeLossy | rog-platform/src/platform.rs:81-99 | decode then encode keeps only whether the byte was zero |
| AsusdConfig.New | asusd/src/config.rs:26-34 | a fresh config has charge limit 100, the nvidia flag on, empty commands, every other flag off and no override set |
| AsusdConfig.ConfigDir | asusd/src/config.rs:36-38 | the directory is an absolute path ending in a separator; `ConfigLocation` gives the full path |
| AsusdConfig.FileName | asusd/src/config.rs:40-42 | the file name is a bare name with no separator |
| AsusdConfig.FromConfig472 | asusd/src/config.rs:59-69 | the 4.7.2 migration carries over the charge limit, panel overdrive and both commands. It forces the nvidia flag on, resets mini-LED and post-animation sound, and sets no override |
| AsusdConfig.FromConfig462 | asusd/src/config.rs:82-93 | the 4.6.2 migration carries over the charge limit and panel overdrive. It empties both commands, forces the nvidia flag on and sets no override |
| AsusdConfig.Migrate472IsNewWithUserFields | asusd/src/config.rs:59-69 | the 4.7.2 migration equals `New()` with only the charge limit, panel overdrive and both commands overwritten by the file's, so every other field takes its fresh-config value |
| AsusdConfig.Migrate462IsNewWithUserFields | asusd/src/config.rs:82-93 | the 4.6.2 migration equals `New()` with only the charge limit and panel overdrive overwritten by the file's, so the file's commands are dropped |
| AsusdConfig.Migrate472Forgets | asusd/src/config.rs:59-69 | the 4.7.2 migration depends on no field other than the four it carries |
| AsusdConfig.Migrate462Forgets | asusd/src/config.rs:82-93 | the 4.6.2 migration depends on no field other than the charge limit and panel overdrive |
| AsusdConfig.ConfigLocation | asusd/src/config.rs:36-42 | the config directory and file name together make /etc/asusd/asusd.ron |
| CtrlAuraConfig.AuraConfig.Default | daemon/src/ctrl_aura/config.rs:21-37 | the default config has brightness `Med`, mode `Static`, no builtins, no multizone map, and all five power flags on |
| CtrlAuraConfig.AuraConfig.Deserialised | daemon/src/ctrl_aura/config.rs:58-59 | a config deserialised from a file holding a value has exactly that value |
| CtrlAuraConfig.DefaultsFor | daemon/src/ctrl_aura/config.rs:77-86 | the default config plus exactly one `default_with_mode(n)` builtin per supported mode n; every other field keeps its default |
| CtrlAuraConfig.ReadInto | daemon/src/ctrl_aura/config.rs:94-109 | `read` panics exactly on a missing or garbled file. It leaves the file's value on JSON and the live config otherwise |
| CtrlAuraConfig.LoadFrom | daemon/src/ctrl_aura/config.rs:41-75 | `load` panics exactly when the directory is missing. It returns the file's value on JSON and the defaults otherwise, never leaves a garbled or empty main file, and changes the backup only to keep a garbled file. `LoadTwice` and `LoadBacksUpGarbled` build on it |
| CtrlAuraConfig.SetBuiltinValue | daemon/src/ctrl_aura/config.rs:119-141 | the `set_builtin` rule never changes brightness, current mode or power flags. An unzoned effect leaves multizone alone, a zoned one leaves builtins alone, and whether a multizone map exists never changes. The `SetBuiltin*` lemmas characterise each branch |
| CtrlAuraConfig.MultizoneOf | daemon/src/ctrl_aura/config.rs:143-148 | a mode's list is present exactly when a multizone map exists and holds the mode, and it is then that mode's list |
| CtrlAuraConfig.AuraConfig.CreateDefault | daemon/src/ctrl_aura/config.rs:77-86 | the new config is the default one, except that builtins has one `default_with_mode(n)` entry for each supported mode n and no other key |
| CtrlAuraConfig.AuraConfig.Load | daemon/src/ctrl_aura/config.rs:41-75 | it panics when the directory is missing. A missing or empty file gives the defaults, which are written to it. A parseable file gives its contents. A garbled file is moved to the backup path and the defaults are returned |
| CtrlAuraConfig.AuraConfig.Read | daemon/src/ctrl_aura/config.rs:94-109 | a parseable file replaces the whole config. An empty or non-text file leaves the config as it was. A missing or garbled file panics, and so does a missing directory, since then no file can exist |
| CtrlAuraConfig.AuraConfig.Write | daemon/src/ctrl_aura/config.rs:111-116 | the main file afterwards holds exactly this config and the backup is untouched. Without the directory it panics and changes nothing |
| CtrlAuraConfig.AuraConfig.SetBuiltin | daemon/src/ctrl_aura/config.rs:119-141 | the in-place loop leaves the config equal to the `set_builtin` rule applied to the old config (the rule's properties are the SetBuiltin lemmas below) |
| CtrlAuraConfig.AuraConfig.GetMultizone | daemon/src/ctrl_aura/config.rs:143-148 | the method on the live config agrees with `MultizoneOf` on its value, which `SetBuiltinThenGetMultizone` uses |
| CtrlAuraConfig.FirstMatch | daemon/src/ctrl_aura/config.rs:127-131 | the loop stops at the first effect whose mode matches, or past the end when none does |
| CtrlAuraConfig.WriteThenRead | daemon/src/ctrl_aura/config.rs:94-116 | when one config is written and another then reads the file, the reader ends up with exactly the written config |
| CtrlAuraConfig.ReadWithoutDirectoryPanics | daemon/src/ctrl_aura/config.rs:95-98 | without /etc/asusd/ neither path holds a file, so `read` panics whatever the live config holds |
| CtrlAuraConfig.LoadTwice | daemon/src/ctrl_aura/config.rs:41-75 | a second load returns the same config as the first. It also leaves the disk as it was, except after a garbled file |
| CtrlAuraConfig.LoadBacksUpGarbled | daemon/src/ctrl_aura/config.rs:58-71 | loading a garbled file keeps its contents under the `-old` path, leaves the main path empty and returns the defaults |
| CtrlAuraConfig.EmptyFileAsymmetry | daemon/src/ctrl_aura/config.rs:54-56 | on an empty file, `read` keeps the live config while `load` resets it to the defaults |
| CtrlAuraConfig.SetBuiltinGlobal | daemon/src/ctrl_aura/config.rs:120-123 | an unzoned effect is stored in builtins under its mode. Other builtins keep their entries, and multizone, brightness, mode and power flags are unchanged |
| CtrlAuraConfig.SetBuiltinZonedWithoutMap | daemon/src/ctrl_aura/config.rs:124-125 | a zoned effect is dropped when no multizone map exists |
| CtrlAuraConfig.SetBuiltinZonedExisting | daemon/src/ctrl_aura/config.rs:126-132 | a zoned effect whose mode has a list replaces that list's first entry of the same mode. The list keeps its length, and the other keys and builtins are untouched. With no matching entry nothing changes |
| CtrlAuraConfig.SetBuiltinZonedNewMode | daemon/src/ctrl_aura/config.rs:133-137 | a zoned effect whose mode has no list replaces the whole multizone map by a map holding only that mode's one-entry list |
| CtrlAuraConfig.SetBuiltinIgnoresZone | daemon/src/ctrl_aura/config.rs:127-131 | zones are not compared: zone Two's effect overwrites zone One's entry when that entry comes first in the list |
| CtrlAuraConfig.SetBuiltinThenGetMultizone | daemon/src/ctrl_aura/config.rs:119-148 | after a zoned effect is set into an existing map, its mode has a list. That list contains the effect unless the mode already had a list with no entry of that mode |
| CtrlAuraController.Delivered | daemon/src/ctrl_aura/controller.rs:449-452 | the count of leading writes that succeed: every write before it succeeded, and the write at that position failed |
| CtrlAuraController.TransmitOne | daemon/src/ctrl_aura/controller.rs:365-375 | a single `write_bytes` logs the packet only when the write succeeds, and reports the failure otherwise |
| CtrlAuraController.Transmit | daemon/src/ctrl_aura/controller.rs:449-452 | a run of `write_bytes` calls chained with `?` makes one attempt per packet up to and including the first failure, so a failed run makes at least one and at most as many attempts as there are packets. The node's log only grows, by a prefix of the packets, and the run reports Ok exactly when every packet was logged. `TransmitDelivers` and `TransmitAppend` relate it to the first-failure count and to concatenation |
| CtrlAuraController.TransmitDelivers | daemon/src/ctrl_aura/controller.rs:449-452 | a run of writes leaves on the node exactly the packets before the first failure, and reports that first failure |
| CtrlAuraController.TransmitAppend | daemon/src/ctrl_aura/controller.rs:314-318 | two runs back to back equal one run of their concatenation; a failure in the first run ends everything |
| CtrlAuraController.Reversed | daemon/src/ctrl_aura/controller.rs:381 | reversing the rows keeps their number |
| CtrlAuraController.ReversedInvolution | daemon/src/ctrl_aura/controller.rs:381 | reversing the rows twice restores their original order |
| CtrlAuraController.NextLevel | daemon/src/ctrl_aura/controller.rs:277-281 | the next level's ordinal is the old ordinal plus one, modulo 4 |
| CtrlAuraController.PrevLevel | daemon/src/ctrl_aura/controller.rs:287-293 | the previous level is the one whose successor, modulo 4, is the old level |
| CtrlAuraController.NextPrevInverse | daemon/src/ctrl_aura/controller.rs:277-297 | stepping brightness up then down, or down then up, returns to the starting level |
| CtrlAuraController.FourStepsCycle | daemon/src/ctrl_aura/controller.rs:277-297 | four steps in one direction return to the starting level |
| CtrlAuraController.PowerStatePacket | daemon/src/ctrl_aura/controller.rs:310-312 | the power packet is 17 bytes: header 0x5d 0xbd 0x01, then the three flag bytes, then eleven zeros |
| CtrlAuraController.Position | daemon/src/ctrl_aura/controller.rs:409-414 | the result is absent exactly when the mode is not in the list. Otherwise it is the index of the mode's first occurrence |
| CtrlAuraController.ToggleIndex | daemon/src/ctrl_aura/controller.rs:416-429 | the result is in range: forward it is (idx+1) mod len; backward it is the index whose successor mod len is idx |
| CtrlAuraController.ToggleIndexInverse | daemon/src/ctrl_aura/controller.rs:416-429 | one step back undoes one step forward, and the other way round |
| CtrlAuraController.ToggleTarget | daemon/src/ctrl_aura/controller.rs:407-430 | there is a target exactly when the current mode is supported, and it is a supported mode. Backward from the first mode it wraps to the last, and forward from the last (when it occurs only there) it wraps to the first. `ToggleTargetRoundTrip` shows that forward and backward undo each other |
| CtrlAuraController.ToggleTargetRoundTrip | daemon/src/ctrl_aura/controller.rs:407-431 | with distinct supported modes, toggling forward and then backward (or the reverse) targets the mode one started from |
| CtrlAuraController.CtrlKbdLed.constructor | daemon/src/ctrl_aura/controller.rs:226-233 | a controller starts with the flip flag off and holds the nodes, supported modes and config it was given |
| CtrlAuraController.CtrlKbdLed.New | daemon/src/ctrl_aura/controller.rs:198-235 | with neither node it fails with the all-features-missing message. With only the LED node it fails with the no-brightness-control message. With the brightness node it builds a controller whose flip flag is off |
| CtrlAuraController.CtrlKbdLed.GetBrightness | daemon/src/ctrl_aura/controller.rs:244-258 | it returns the node's byte, or maps the failure: node missing is `MissingLedBrightNode`, any other open error is `Path`, a read error is `Read` |
| CtrlAuraController.CtrlKbdLed.SetBrightness | daemon/src/ctrl_aura/controller.rs:260-275 | the node takes the level's character code, or the failure is reported by the same mapping (a write error is reported as `Read`) and the node keeps its byte |
| CtrlAuraController.CtrlKbdLed.NextBrightness | daemon/src/ctrl_aura/controller.rs:277-285 | the config moves to the next level and is saved before the node is written. It stays changed whatever the node reports, and a missing directory panics before the node is touched |
| CtrlAuraController.CtrlKbdLed.PrevBrightness | daemon/src/ctrl_aura/controller.rs:287-297 | the config moves to the previous level and is saved before the node is written. It stays changed whatever the node reports, and a missing directory panics before the node is touched |
| CtrlAuraController.CtrlKbdLed.WriteBytes | daemon/src/ctrl_aura/controller.rs:365-375 | the packet is logged on success. No node, or a node that cannot be opened, gives `NotSupported`; only a failed write gives `Write` |
| CtrlAuraController.CtrlKbdLed.SetPowerStates | daemon/src/ctrl_aura/controller.rs:300-319 | the power packet, SET and APPLY are written in that order, stopping at and reporting the first failure |
| CtrlAuraController.CtrlKbdLed.WriteMode | daemon/src/ctrl_aura/controller.rs:443-453 | an unsupported mode is refused with `NotSupported` and nothing is written. Otherwise the effect packet, SET and APPLY are written in order, stopping at and reporting the first failure |
| CtrlAuraController.CtrlKbdLed.SendCommand | daemon/src/ctrl_aura/controller.rs:449-452 | a command packet, SET and APPLY are written in that order, stopping at the first failure |
| CtrlAuraController.CtrlKbdLed.WriteEffect | daemon/src/ctrl_aura/controller.rs:379-391 | the rows are written forward when the flag is off and backward when it is on, stopping at the first failure. The flag turns over only when every row was written |
| CtrlAuraController.CtrlKbdLed.SetAndSave | daemon/src/ctrl_aura/controller.rs:397-404 | after a re-read, the effect is written. Only if that succeeds does its mode become current, the effect is stored by the `set_builtin` rule and the config is saved. A failed write leaves the re-read config unsaved. A missing directory panics in the re-read, before anything is written |
| CtrlAuraController.CtrlKbdLed.ToggleMode | daemon/src/ctrl_aura/controller.rs:407-440 | an unsupported current mode changes nothing and reports Ok. Otherwise the config is re-read, and the neighbouring mode becomes current only if it has a stored effect and writing that effect succeeds. The config is saved unless the write failed. A missing directory panics in the re-read, before anything is written |
| CtrlAuraController.CtrlKbdLedTask.UpdateConfig | daemon/src/ctrl_aura/controller.rs:66-90 | a digit byte naming a level other than the live one is saved as the brightness after a re-read. A matching digit changes nothing. A non-digit byte is `ParseLed`, and node failures are reported by the node mapping |
| CtrlAuraController.CtrlKbdLedTask.LoadSave | daemon/src/ctrl_aura/controller.rs:102-120 | on wake, the saved brightness and the current mode's stored effect (if any) are re-applied, with the config and file untouched. On sleep, the node's brightness is synced into the config and the LED node is untouched |

## Left out

- `find_led_node` (udev enumeration) and `get_kbd_bright_path` (a filesystem existence test): `CtrlKbdLed.New` takes their outcome as its nullable node arguments.
- `GetSupported::get_supported` and `LaptopLedData::get_data`: they read a laptop database; daemon/src/laptops.rs is not part of this model, so the supported modes are an input.
- `CtrlKbdLedTask::create_tasks`: the logind signal streams and the busy `try_lock` loops are concurrency. Only the `load_save` policy they run is modelled (`LoadSave`).
- `CtrlKbdLedReloader::reload`: a `try_lock` around calls that are modelled.
- `do_command`: it only delegates to `set_and_save` (`SetAndSave`).
- The `rog_aura` encoders and constants: they are opaque `Codec` fields. Their byte values, lengths and bit packing are not claimed.
- Serde JSON encoding and decoding: file contents are abstracted to the five `FileState` cases.
- `CtrlAuraConfig.AuraConfig.Load`: the default JSON that `create_default` writes through the handle opened before a rename (which then names the `-old` file), or after a failed read, is not modelled. The backup is shown holding the garbled contents, and an unreadable main file is shown unchanged.
- `CtrlAuraConfig.AuraConfig.Load`, `CtrlAuraConfig.AuraConfig.Read`, `CtrlAuraConfig.AuraConfig.Write`: the only open failure modelled is a missing /etc/asusd/. Three other panics are not modelled: a file that exists but cannot be opened (permissions, for example), a failed `rename` of a garbled file, and a failed `write_all` of the defaults in `create_default`.
- `CtrlAuraConfig.AuraConfig.Write`: a failing `write_all` is only logged by the source; the model treats every write with the directory present as complete.
- `CtrlAuraController.CtrlKbdLed.WriteBytes`: a write that fails half-way may leave part of a packet on the device; the model logs whole packets only.
- `RogAura.BrightnessFromU32`: `LedBrightness::from(u32)` is outside this model, so the ordinal mapping and the `Med` answer above 3 are assumptions.
- `RogTypesGfx.ToLowercase`: case mapping is ASCII only. Unicode letters whose lowercase form is an ASCII letter (such as the Kelvin sign) are not mapped.
- Logging (`info!`, `warn!`, `error!`) has no effect on state and is not modelled.
