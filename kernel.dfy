/**
 * Kernel vocabulary shared by the models: fixed-width integers, negative
 * errno codes, the PCM parameters the drivers read through accessors, and
 * the C library string comparison.
 */
module Kernel {

  /** An unsigned 32-bit integer, as `u32` and `unsigned int` are in the kernel. */
  type u32 = x: int | 0 <= x < 0x1_0000_0000

  const U32_MODULUS: int := 0x1_0000_0000

  /**
   * An `int` or a `long` converted to a 32-bit unsigned type: its value
   * modulo 2^32. The ARM boards these drivers serve run 32-bit kernels,
   * where `long` is 32 bits wide, so a `long` compared with a `u32` is
   * converted this way as well.
   */
  function AsUnsigned32(x: int): (r: u32)
    ensures 0 <= x < U32_MODULUS ==> r == x
    ensures x < 0 && -U32_MODULUS <= x ==> r == x + U32_MODULUS
  {
    x % U32_MODULUS
  }

  /** A kernel error code: always negative (`-EINVAL`, `-ENOMEM`, ...). */
  type Errno = x: int | x < 0 witness -1

  const ENOMEM: int := 12
  const EINVAL: int := 22
  const EOVERFLOW: int := 75

  datatype Option<T> = None | Some(value: T)

  /** Success with a value, or a negative error code. */
  datatype Result<T> = Ok(value: T) | Err(code: Errno)

  /**
   * The hardware parameters of a PCM request, as read through
   * `snd_pcm_format_physical_width(params_format(p))`, `params_rate(p)` and
   * `params_channels(p)`. The physical width is an `int` in the kernel and is
   * negative for an unknown format.
   */
  datatype PcmParams = PcmParams(physicalWidth: int, rate: u32, channels: u32)

  /**
   * `snd_soc_dai_set_bclk_ratio` on the card's CPU DAI: takes a ratio and
   * reports 0 or an error code. It is outside this model and so a parameter.
   */
  type BclkSetter = u32 -> int

  /**
   * `strcmp`: compares two strings character by character; zero exactly when
   * they are equal; otherwise its sign tells which one sorts first.
   */
  function StrCmp(a: string, b: string): (r: int)
    ensures r == 0 <==> a == b
    decreases |a|
  {
    if a == [] && b == [] then 0
    else if a == [] then -1
    else if b == [] then 1
    else if a[0] < b[0] then -1
    else if a[0] > b[0] then 1
    else
      assert a == [a[0]] + a[1..] && b == [b[0]] + b[1..];
      StrCmp(a[1..], b[1..])
  }
}
