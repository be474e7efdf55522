/** The GPU MUX mode of rog-platform/src/platform.rs and its byte encoding. */
module RogPlatform {
  import opened Basics

  datatype GpuMuxMode = Discrete | Optimus | Error | NotSupported

  /** `From<u8> for GpuMuxMode`: any non-zero byte reads as Optimus. */
  function GpuMuxModeFromU8(m: u8): (r: GpuMuxMode)
    ensures r == Discrete <==> m == 0
    ensures r != Error && r != NotSupported
  {
    if m > 0 then Optimus else Discrete
  }

  /** `From<GpuMuxMode> for u8`. */
  function GpuMuxModeToU8(m: GpuMuxMode): (r: u8)
    ensures r == 0 <==> m == Discrete
    ensures m == Error || m == NotSupported ==> r >= 0xfe
  {
    match m
    case Discrete => 0
    case Optimus => 1
    case Error => 254
    case NotSupported => 255
  }

  /** Distinct modes get distinct bytes. */
  lemma ToU8Injective(m: GpuMuxMode, n: GpuMuxMode)
    ensures GpuMuxModeToU8(m) == GpuMuxModeToU8(n) ==> m == n
  {
  }

  /** Decoding inverts encoding on the two real modes; the two sentinels decode as Optimus. */
  lemma GpuMuxRoundTrip(m: GpuMuxMode)
    ensures m == Discrete || m == Optimus ==> GpuMuxModeFromU8(GpuMuxModeToU8(m)) == m
    ensures m == Error || m == NotSupported ==> GpuMuxModeFromU8(GpuMuxModeToU8(m)) == Optimus
  {
  }

  /** Re-encoding a decoded byte keeps only whether it was zero. */
  lemma GpuMuxDecodeLossy(b: u8)
    ensures GpuMuxModeToU8(GpuMuxModeFromU8(b)) == (if b == 0 then 0 else 1)
  {
  }
}
