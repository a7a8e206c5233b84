/**
 * Reading the simulator's configuration. Every read in the source swallows the
 * exception of a missing or malformed key and keeps a default; a read of a
 * numeric key goes through `getLong` and a narrowing `(int)` cast.
 */
module Settings {
  import opened Options

  const TwoTo31: int := 0x8000_0000
  const TwoTo32: int := 0x1_0000_0000

  /** Java's narrowing conversion from `long` to `int`: keep the low 32 bits, two's complement. */
  function ToInt32(v: int): (r: int)
    ensures -TwoTo31 <= r < TwoTo31
    ensures (r - v) % TwoTo32 == 0
    ensures -TwoTo31 <= v < TwoTo31 ==> r == v
  {
    var low := v % TwoTo32;
    if low >= TwoTo31 then low - TwoTo32 else low
  }

  /**
   * `(int) settings.getLong(key)` inside a try block whose catch keeps `default`:
   * `setting` is None when the key cannot be read.
   */
  function IntSetting(setting: Option<int>, default: int): (r: int)
    ensures setting.None? ==> r == default
    ensures setting.Some? ==> -TwoTo31 <= r < TwoTo31 && (r - setting.value) % TwoTo32 == 0
    ensures setting.Some? && -TwoTo31 <= setting.value < TwoTo31 ==> r == setting.value
  {
    match setting
    case None => default
    case Some(v) => ToInt32(v)
  }

  /** `settings.getBool(key)` inside a try block whose catch keeps `false`. */
  function BoolSetting(setting: Option<bool>): (r: bool)
    ensures r <==> setting == Some(true)
  {
    setting.GetOr(false)
  }

  /**
   * Two `getBool` reads in ONE try block, both defaulting to `false`: when the
   * first key cannot be read, the exception skips the second read, so the
   * second flag stays `false` whatever its own setting says.
   */
  function ReadBoolPair(first: Option<bool>, second: Option<bool>): (r: (bool, bool))
    ensures r.0 <==> first == Some(true)
    ensures r.1 <==> first.Some? && second == Some(true)
  {
    match first
    case None => (false, false)
    case Some(a) => (a, BoolSetting(second))
  }
}
