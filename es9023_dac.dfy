/**
 * The ES9023 DAC machine driver (sound/soc/bcm/es9023_dac.c): the bit-clock
 * ratio it asks of the CPU DAI for a stream, the board variant it picks from
 * the node's compatible strings, and the checks and name choices of probe.
 */
module Es9023Dac {
  import opened Kernel

  /** `es9023_dac_variant`: a compatible string and the names it gives the card. */
  datatype Variant = Variant(compatible: string, cardName: string, daiName: string, daiStreamName: string)

  /** `es9023_dac_variants`: entry 0 is the generic board. */
  const Variants: seq<Variant> := [
    Variant("es9023-dac", "ES9023", "ES9023 DAC", "ES9023 DAC HiFi"),
    Variant("audiphonics,es9023-i-sabre-dac", "ISabre", "ISabre DAC", "ISabre DAC HiFi"),
    Variant("collybia,es9023-mamboberry-dacplus", "Mamboberry", "Mamboberry DAC", "Mamboberry DAC HiFi"),
    Variant("digitaldreamtime,es9023-akkordion-dac", "Akkordion", "Akkordion DAC", "Akkordion DAC HiFi"),
    Variant("hifiberry,es9023-dacpluslight", "snd_rpi_hifiberry_dac", "HifiBerry DAC", "HifiBerry DAC HiFi")
  ]

  // ---------------------------------------------------------- bclk ratio

  /** `physical_bits * channels` in `unsigned int` arithmetic: the bits of one frame. */
  function FrameBits(physicalBits: u32, channels: u32): u32 {
    (physicalBits * channels) % U32_MODULUS
  }

  /**
   * The condition under which the ratio may be overridden: the integer
   * divider flag is set, the stream is stereo, and the rate is a multiple of
   * 8 kHz below 192 kHz.
   */
  predicate IntDivRate(intDiv: bool, rate: u32, channels: u32) {
    intDiv && channels == 2 && rate < 192000 && rate % 8000 == 0
  }

  /** The ratio `snd_rpi_es9023_dac_hw_params` computes. */
  function BclkRatio(intDiv: bool, params: PcmParams): u32 {
    var physicalBits := AsUnsigned32(params.physicalWidth);
    var ratio := FrameBits(physicalBits, params.channels);
    if IntDivRate(intDiv, params.rate, params.channels) then
      if physicalBits == 16 || physicalBits == 24 then 50
      else if physicalBits == 32 then 100
      else ratio
    else ratio
  }

  /**
   * The ratio differs from the frame size exactly when the integer-divider
   * condition holds and the physical width is 16, 24 or 32; it is then 50
   * for 16 and 24 bits and 100 for 32 bits.
   */
  lemma BclkRatioOverride(intDiv: bool, params: PcmParams)
    ensures var pb := AsUnsigned32(params.physicalWidth);
      (BclkRatio(intDiv, params) != FrameBits(pb, params.channels) <==>
        IntDivRate(intDiv, params.rate, params.channels) && (pb == 16 || pb == 24 || pb == 32)) &&
      (IntDivRate(intDiv, params.rate, params.channels) && (pb == 16 || pb == 24) ==> BclkRatio(intDiv, params) == 50) &&
      (IntDivRate(intDiv, params.rate, params.channels) && pb == 32 ==> BclkRatio(intDiv, params) == 100)
  {
  }

  /**
   * Every other request keeps the frame size: the flag off, a channel count
   * other than 2, a rate of 192 kHz or more, a rate that is not a multiple
   * of 8 kHz (44.1 kHz among them), or another width.
   */
  lemma BclkRatioDefault(intDiv: bool, params: PcmParams)
    requires !intDiv || params.channels != 2 || params.rate >= 192000 || params.rate % 8000 != 0 ||
             AsUnsigned32(params.physicalWidth) !in {16, 24, 32}
    ensures BclkRatio(intDiv, params) == FrameBits(AsUnsigned32(params.physicalWidth), params.channels)
  {
  }

  /**
   * An override never shortens the clock below a stereo frame: 50 bit
   * clocks carry two 16- or 24-bit slots, and 100 carry two 32-bit slots.
   */
  lemma BclkRatioCoversFrame(intDiv: bool, params: PcmParams)
    ensures params.channels == 2 && AsUnsigned32(params.physicalWidth) in {16, 24, 32} ==>
      BclkRatio(intDiv, params) >= FrameBits(AsUnsigned32(params.physicalWidth), params.channels)
  {
  }

  /**
   * `snd_rpi_es9023_dac_hw_params`: computes the frame size, overwrites it
   * under the integer-divider condition, and returns what setting that
   * ratio on the CPU DAI returns.
   */
  method HwParams(intDiv: bool, params: PcmParams, setBclkRatio: BclkSetter) returns (ratio: u32, ret: int)
    ensures ratio == BclkRatio(intDiv, params)
    ensures ret == setBclkRatio(BclkRatio(intDiv, params))
  {
    var physicalBits := AsUnsigned32(params.physicalWidth);
    ratio := FrameBits(physicalBits, params.channels);
    if intDiv && params.channels == 2 && params.rate < 192000 && params.rate % 8000 == 0 {
      if physicalBits == 16 || physicalBits == 24 {
        ratio := 50;
      } else if physicalBits == 32 {
        ratio := 100;
      }
    }
    ret := setBclkRatio(ratio);
  }

  // ------------------------------------------------------------- variant

  /** Index of the first variant the node is compatible with, or `|vs|`. */
  function FirstCompatible(vs: seq<Variant>, compatible: set<string>): (k: nat)
    ensures k <= |vs|
    ensures forall j :: 0 <= j < k ==> vs[j].compatible !in compatible
    ensures k < |vs| ==> vs[k].compatible in compatible
    decreases |vs|
  {
    if vs == [] then 0
    else if vs[0].compatible in compatible then 0
    else 1 + FirstCompatible(vs[1..], compatible)
  }

  /**
   * The variant `get_variant` selects: the first, in table order, whose
   * compatible string the node has; the generic entry 0 when there is none.
   */
  function VariantIndex(compatible: set<string>): (i: nat)
    ensures i < |Variants|
    ensures forall j :: 0 <= j < i ==> Variants[j].compatible !in compatible
    ensures Variants[i].compatible in compatible ||
            (i == 0 && forall j :: 0 <= j < |Variants| ==> Variants[j].compatible !in compatible)
  {
    var k := FirstCompatible(Variants, compatible);
    if k < |Variants| then k else 0
  }

  /** `snd_rpi_es9023_dac_get_variant`: scans the table and returns the first compatible entry. */
  method GetVariant(compatible: set<string>) returns (i: nat)
    ensures i == VariantIndex(compatible)
  {
    for k := 0 to |Variants|
      invariant forall j :: 0 <= j < k ==> Variants[j].compatible !in compatible
    {
      if Variants[k].compatible in compatible {
        assert FirstCompatible(Variants, compatible) == k;
        return k;
      }
    }
    return 0;
  }

  // --------------------------------------------------------------- probe

  /**
   * The platform device's node as the tree reader shows it: whether its
   * `es9023-dac,cpu` and `es9023-dac,codec` children exist, whether the
   * private data allocation fails, the result of resolving the CPU and codec
   * DAIs (0 or a negative code), the `es9023-dac,bclk-ratio-int-div` flag,
   * its compatible strings, its three optional name properties, and what
   * card registration returns.
   */
  datatype DacNode = DacNode(
    cpuNode: bool,
    codecNode: bool,
    privAllocFails: bool,
    cpuDai: int,
    codecDai: int,
    bclkRatioIntDiv: bool,
    compatible: set<string>,
    cardName: Option<string>,
    daiName: Option<string>,
    daiStreamName: Option<string>,
    registerRet: int)

  /** The names and flag probe stores in the private data before it registers the card. */
  datatype CardSetup = CardSetup(cardName: string, daiName: string, daiStreamName: string, bclkRatioIntDiv: bool)

  /** What probe returns, and the card it registered, if it got that far. */
  datatype Probed = Probed(ret: int, card: Option<CardSetup>)

  /** A string property when present, the fallback otherwise. */
  function PropertyOr(prop: Option<string>, fallback: string): string {
    if prop.Some? then prop.value else fallback
  }

  /** `snd_rpi_es9023_dac_probe`, with the tree reader and card registration as inputs. */
  function Probe(np: DacNode): (p: Probed)
    ensures !np.cpuNode ==> p == Probed(-EINVAL, None)
    ensures np.cpuNode && !np.codecNode ==> p == Probed(-EINVAL, None)
    ensures np.cpuNode && np.codecNode && np.privAllocFails ==> p == Probed(-ENOMEM, None)
    ensures p.card.Some? <==>
      np.cpuNode && np.codecNode && !np.privAllocFails && np.cpuDai == 0 && np.codecDai == 0
    ensures np.cpuNode && np.codecNode && !np.privAllocFails && np.cpuDai != 0 ==>
      p == Probed(np.cpuDai, None)
    ensures np.cpuNode && np.codecNode && !np.privAllocFails && np.cpuDai == 0 && np.codecDai != 0 ==>
      p == Probed(np.codecDai, None)
    ensures p.card.None? ==> p.ret != 0
    ensures p.card.Some? ==> p.ret == np.registerRet && p.card.value.bclkRatioIntDiv == np.bclkRatioIntDiv
    ensures p.card.Some? ==> NamedFrom(p.card.value, np, Variants[VariantIndex(np.compatible)])
  {
    if !np.cpuNode then Probed(-EINVAL, None)
    else if !np.codecNode then Probed(-EINVAL, None)
    else if np.privAllocFails then Probed(-ENOMEM, None)
    else if np.cpuDai != 0 then Probed(np.cpuDai, None)
    else if np.codecDai != 0 then Probed(np.codecDai, None)
    else
      var v := Variants[VariantIndex(np.compatible)];
      var card := CardSetup(
        PropertyOr(np.cardName, v.cardName),
        PropertyOr(np.daiName, v.daiName),
        PropertyOr(np.daiStreamName, v.daiStreamName),
        np.bclkRatioIntDiv);
      Probed(np.registerRet, Some(card))
  }

  /** Each name is its property when the node has it, and the variant's otherwise. */
  predicate NamedFrom(card: CardSetup, np: DacNode, v: Variant) {
    (np.cardName.Some? ==> card.cardName == np.cardName.value) &&
    (np.cardName.None? ==> card.cardName == v.cardName) &&
    (np.daiName.Some? ==> card.daiName == np.daiName.value) &&
    (np.daiName.None? ==> card.daiName == v.daiName) &&
    (np.daiStreamName.Some? ==> card.daiStreamName == np.daiStreamName.value) &&
    (np.daiStreamName.None? ==> card.daiStreamName == v.daiStreamName)
  }

  /**
   * A board that names only the MamboBerry compatible string, and sets none
   * of the name properties, registers a card named after that variant.
   */
  lemma MamboberryNames(np: DacNode)
    requires np.cpuNode && np.codecNode && !np.privAllocFails && np.cpuDai == 0 && np.codecDai == 0
    requires np.compatible == {"collybia,es9023-mamboberry-dacplus"}
    requires np.cardName.None? && np.daiName.None? && np.daiStreamName.None?
    ensures Probe(np).card == Some(CardSetup("Mamboberry", "Mamboberry DAC", "Mamboberry DAC HiFi", np.bclkRatioIntDiv))
  {
    assert Variants[0].compatible !in np.compatible;
    assert Variants[1].compatible !in np.compatible;
    assert VariantIndex(np.compatible) == 2;
  }

  /** A node compatible with none of the table's strings falls back to the generic names. */
  lemma UnknownBoardIsGeneric(np: DacNode)
    requires np.cpuNode && np.codecNode && !np.privAllocFails && np.cpuDai == 0 && np.codecDai == 0
    requires forall j :: 0 <= j < |Variants| ==> Variants[j].compatible !in np.compatible
    requires np.cardName.None? && np.daiName.None? && np.daiStreamName.None?
    ensures Probe(np).card == Some(CardSetup("ES9023", "ES9023 DAC", "ES9023 DAC HiFi", np.bclkRatioIntDiv))
  {
  }
}
