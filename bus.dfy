/** `bcm2711_pac::Vpa`: VideoCore bus addresses of the BCM2711. */
module Bus {
  import opened Wrappers
  import opened Abi

  /** The VideoCore window of the low peripherals, and where it lands for the ARM. */
  const VC_LOW: u64 := 0x4_7c00_0000
  const VC_HIGH: u64 := 0x4_7fff_ffff
  const ARM_LOW: u64 := 0xfc00_0000

  /** A VideoCore physical address. */
  datatype Vpa = Vpa(addr: u64)

  /** `Vpa::to_arm_pa`: translate an address of the low-peripheral window. */
  function ToArmPa(v: Vpa): (r: Option<u64>)
    ensures r.Some? <==> VC_LOW <= v.addr <= VC_HIGH
    ensures r.Some? ==> r.value == v.addr - VC_LOW + ARM_LOW
    ensures r.Some? ==> ARM_LOW <= r.value <= 0xffff_ffff
  {
    if VC_LOW <= v.addr <= VC_HIGH then Some(v.addr - VC_LOW + ARM_LOW) else None
  }

  /** The documented example: the GPIO block. */
  lemma GpioExample()
    ensures ToArmPa(Vpa(0x4_7e20_0000)) == Some(0xfe20_0000)
  {
  }

  /** Translation preserves differences, so it is injective and monotone. */
  lemma ToArmPaPreservesDifferences(a: Vpa, b: Vpa)
    requires ToArmPa(a).Some? && ToArmPa(b).Some?
    ensures ToArmPa(a).value - ToArmPa(b).value == a.addr - b.addr
    ensures ToArmPa(a) == ToArmPa(b) <==> a == b
    ensures a.addr < b.addr <==> ToArmPa(a).value < ToArmPa(b).value
  {
  }
}
