/**
 An expiry is printed in milliseconds into the stored filename, and rounded up to seconds in the
 metadata. Three readers compare it with the clock, each in its own way.
 */
module Expiry {
  import opened Base
  import opened Text

  /** A stored filename taken apart: the public name and the expiry in seconds. */
  datatype SplitName = SplitName(publicName: string, expiresAt: Option<int>)

  /** Milliseconds rounded up to whole seconds, with the width checks of both steps. */
  function CeilSeconds(millis: nat): Result<int> {
    if millis + 999 > U128_MAX then Err(DurationOverflow)
    else if (millis + 999) / 1000 > I64_MAX then Err(DurationOverflow)
    else Ok((millis + 999) / 1000)
  }

  /** The expiry of the metadata of an upload. */
  function ExpirySeconds(expiryMillis: Option<nat>): Result<Option<int>> {
    match expiryMillis
    case None => Ok(None)
    case Some(millis) =>
      match CeilSeconds(millis) {
        case Err(e) => Err(e)
        case Ok(seconds) => Ok(Some(seconds))
      }
  }

  /** The name on disk of an upload. */
  function StoredName(publicName: string, expiryMillis: Option<nat>): string {
    match expiryMillis
    case None => publicName
    case Some(millis) => publicName + "." + Decimal(millis)
  }

  predicate IsTimestamp(suffix: string) {
    |suffix| >= 10 && AllDigits(suffix)
  }

  /** What the directory scan reads from a name on disk. */
  function SplitExpiry(filename: string): Result<SplitName> {
    match LastDot(filename)
    case None => Ok(SplitName(filename, None))
    case Some(dot) =>
      var suffix := filename[dot + 1..];
      if !IsTimestamp(suffix) then Ok(SplitName(filename, None))
      else if Value(suffix) > U128_MAX then Err(DurationOverflow)
      else match CeilSeconds(Value(suffix)) {
        case Err(e) => Err(e)
        case Ok(seconds) => Ok(SplitName(filename[..dot], Some(seconds)))
      }
  }

  lemma NoDotInDigits(s: string)
    requires AllDigits(s)
    ensures '.' !in s
  {
  }

  /** Ten digits begin at one thousand million milliseconds. */
  lemma TenDigits(millis: nat)
    ensures |Decimal(millis)| >= 10 <==> millis >= 1_000_000_000
  {
    DecimalLength(millis, 8);
    assert Pow10(1) == 10 && Pow10(2) == 100 && Pow10(3) == 1000;
    assert Pow10(6) == 1000 * Pow10(3) by {
      assert Pow10(4) == 10 * Pow10(3) && Pow10(5) == 10 * Pow10(4);
    }
    assert Pow10(9) == 1000 * Pow10(6) by {
      assert Pow10(7) == 10 * Pow10(6) && Pow10(8) == 10 * Pow10(7);
    }
  }

  /** The scan reads back exactly what the upload recorded, including the refusal of expiries that are too large. */
  lemma ExpiryRoundTrip(name: string, millis: nat)
    requires 1_000_000_000 <= millis <= U128_MAX
    ensures SplitExpiry(StoredName(name, Some(millis))) ==
      match ExpirySeconds(Some(millis))
      case Err(e) => Err(e)
      case Ok(expiresAt) => Ok(SplitName(name, expiresAt))
  {
    var suffix := Decimal(millis);
    TenDigits(millis);
    NoDotInDigits(suffix);
    LastDotIs(name, suffix);
    ValueOfDecimal(millis);
    var stored := StoredName(name, Some(millis));
    assert stored[|name| + 1..] == suffix && stored[..|name|] == name;
  }

  /** A name that looks as if it ended in a timestamp. */
  predicate LooksExpiring(name: string) {
    LastDot(name).Some? && IsTimestamp(name[LastDot(name).value + 1..])
  }

  /** A name stored without an expiry survives exactly when it does not look as if it had one. */
  lemma PlainRoundTrip(name: string)
    ensures SplitExpiry(StoredName(name, None)) == Ok(SplitName(name, None)) <==> !LooksExpiring(name)
  {
  }

  // ----- the three readers; the clock in nanoseconds -----

  const NANOS_PER_MILLI: nat := 1_000_000
  const NANOS_PER_SECOND: nat := 1_000_000_000

  /** An unsigned 64-bit integer in a string, as the standard parser accepts it. */
  function ParseU64(s: string): Option<nat> {
    var digits := if s != "" && s[0] == '+' then s[1..] else s;
    if digits == "" || !AllDigits(digits) || Value(digits) > U64_MAX then None else Some(Value(digits))
  }

  /** The part after the last dot, unless that dot starts the name. */
  function Extension(name: string): Option<string> {
    match LastDot(name)
    case None => None
    case Some(dot) => if dot == 0 then None else Some(name[dot + 1..])
  }

  function SuffixMillis(name: string): Option<nat> {
    match Extension(name)
    case None => None
    case Some(extension) => ParseU64(extension)
  }

  /** The serving path takes the file for live. */
  predicate SuffixLive(name: string, nanos: nat) {
    SuffixMillis(name).Some? && nanos < SuffixMillis(name).value * NANOS_PER_MILLI
  }

  /** The sweep takes the file for expired. */
  predicate SuffixExpired(name: string, nanos: nat) {
    SuffixMillis(name).Some? && nanos > SuffixMillis(name).value * NANOS_PER_MILLI
  }

  /** The metadata queries take the row for live. */
  predicate MetadataLive(expiresAt: Option<int>, nanos: nat) {
    expiresAt.None? || expiresAt.value > nanos / NANOS_PER_SECOND
  }

  lemma ParseDecimal(n: nat)
    ensures ParseU64(Decimal(n)) == if n <= U64_MAX then Some(n) else None
  {
    ValueOfDecimal(n);
    assert IsDigit(Decimal(n)[0]);
  }

  lemma StoredMillis(name: string, millis: nat)
    requires name != ""
    ensures SuffixMillis(StoredName(name, Some(millis))) == if millis <= U64_MAX then Some(millis) else None
  {
    var suffix := Decimal(millis);
    NoDotInDigits(suffix);
    LastDotIs(name, suffix);
    ParseDecimal(millis);
    assert StoredName(name, Some(millis))[|name| + 1..] == suffix;
  }

  /** A password file has no expiry in its name, whatever it belongs to. */
  lemma SidecarHasNoMillis(name: string)
    ensures SuffixMillis(SidecarName(name)).None?
  {
    var suffix := "password";
    assert '.' !in suffix && !IsDigit(suffix[0]) && suffix[0] != '+';
    assert SidecarName(name) == name + "." + suffix;
    LastDotIs(name, suffix);
    assert SidecarName(name)[|name| + 1..] == suffix;
  }

  /** Rounding up delays the metadata by less than a second, and never advances it. */
  lemma CeilBounds(millis: nat)
    requires CeilSeconds(millis).Ok?
    ensures 0 <= CeilSeconds(millis).value * 1000 - millis < 1000
  {
  }

  /**
   The readers agree up to one second: what the suffix calls live the metadata calls live, the
   metadata gives up within a second after the suffix, and no file is live and expired by its suffix.
   What the metadata has given up the sweep removes exactly when the milliseconds fit in 64 bits, and what
   it calls live is served by its suffix exactly when they do and have not passed.
   */
  lemma ReadersAgreeWithinASecond(name: string, millis: nat, nanos: nat)
    requires name != "" && CeilSeconds(millis).Ok?
    ensures
      var stored, expiresAt := StoredName(name, Some(millis)), Some(CeilSeconds(millis).value);
      && (SuffixLive(stored, nanos) ==> MetadataLive(expiresAt, nanos))
      && (nanos >= millis * NANOS_PER_MILLI + NANOS_PER_SECOND ==> !MetadataLive(expiresAt, nanos))
      && (!MetadataLive(expiresAt, nanos) && nanos != millis * NANOS_PER_MILLI ==>
            (SuffixExpired(stored, nanos) <==> millis <= U64_MAX))
      && (MetadataLive(expiresAt, nanos) ==>
            (SuffixLive(stored, nanos) <==> millis <= U64_MAX && nanos < millis * NANOS_PER_MILLI))
      && !(SuffixLive(stored, nanos) && SuffixExpired(stored, nanos))
  {
    StoredMillis(name, millis);
    CeilBounds(millis);
    var seconds := CeilSeconds(millis).value;
    assert seconds > nanos / NANOS_PER_SECOND <==> nanos < seconds * NANOS_PER_SECOND;
  }
}
