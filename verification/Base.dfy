/** Shared vocabulary: options, results, store errors, 64-bit time arithmetic, and tables. */
module Base {

  datatype Option<+T> = None | Some(value: T)

  /** The error values of the store that the modelled operations can return. */
  datatype StoreError =
    | Database
    | RandomGeneration
    | InvalidInput
    | CapacityExceeded
    | PublicFilenameConflict(filename: string)
    | DurationOverflow

  datatype Result<+T> = Ok(value: T) | Err(error: StoreError)

  /** A SHA-256 digest, kept as its preimage: hashing is modelled as injective. */
  datatype Digest = Sha256(preimage: string)

  function SecretHash(secret: string): Digest {
    Sha256(secret)
  }

  /** A SQL table with an AUTOINCREMENT key: identifiers are never reused. */
  datatype Table<R> = Table(rows: map<int, R>, nextId: int)

  const I64_MAX: int := 0x7fff_ffff_ffff_ffff
  const I64_MIN: int := -0x8000_0000_0000_0000

  /** A clock reading: whole seconds since the epoch in a signed 64-bit integer. */
  type Instant = t: int | 0 <= t <= I64_MAX

  function SaturatingAdd(a: int, b: int): int {
    if a + b > I64_MAX then I64_MAX else if a + b < I64_MIN then I64_MIN else a + b
  }

  function SaturatingSub(a: int, b: int): int {
    SaturatingAdd(a, -b)
  }

  /** Adds a lifetime in whole seconds to a clock reading, as 64-bit signed arithmetic allows. */
  function ExpiryFrom(now: Instant, lifetime: nat): (r: Result<int>)
    ensures r.Ok? ==> now < r.value <= I64_MAX && r.value - now == lifetime
    ensures r.Err? <==> lifetime == 0 || lifetime > I64_MAX || now + lifetime > I64_MAX
  {
    if lifetime > I64_MAX then Err(DurationOverflow)
    else if lifetime == 0 then Err(InvalidInput)
    else if now + lifetime > I64_MAX then Err(DurationOverflow)
    else Ok(now + lifetime)
  }

  lemma {:induction false} SubsetCard<T>(a: set<T>, b: set<T>)
    requires a <= b
    ensures |a| <= |b|
    decreases a
  {
    if a != {} {
      var x :| x in a;
      SubsetCard(a - {x}, b - {x});
    }
  }

  ghost function AnyOf<T>(s: set<T>): (x: T)
    requires s != {}
    ensures x in s
  {
    var x :| x in s;
    x
  }

  /** Some element, as a query without an order returns it. */
  method PickOne<T>(s: set<T>) returns (x: T)
    requires s != {}
    ensures x in s
  {
    x :| x in s;
  }

  lemma SameCard<T>(small: set<T>, large: set<T>)
    requires small <= large && |small| == |large|
    ensures small == large
  {
    if x :| x in large && x !in small {
      SubsetCard(small, large - {x});
    }
  }
}
