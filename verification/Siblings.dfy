/** Finding the live file behind a requested name: the alphabetically last sibling with a timestamp. */
module Siblings {
  import opened Base
  import opened Text
  import opened Expiry

  /** The requested name without a timestamp of its own. */
  function StripTimestamp(name: string): string {
    if LooksExpiring(name) then name[..LastDot(name).value] else name
  }

  /** Does the pattern `base.[0-9]*` match? */
  predicate Matches(base: string, name: string) {
    |name| > |base| + 1 && name[..|base|] == base && name[|base|] == '.' && IsDigit(name[|base| + 1])
  }

  /** The last of the matching names in alphabetical order. */
  predicate IsLast(names: set<string>, base: string, last: string) {
    last in names && Matches(base, last) && forall name :: name in names && Matches(base, name) ==>
      name == last || Before(name, last)
  }

  ghost function LastMatch(names: set<string>, base: string): (r: Option<string>)
    ensures r.Some? ==> IsLast(names, base, r.value)
  {
    if last :| IsLast(names, base, last) then Some(last) else None
  }

  /** The name that a request for `name` is served from, or checked against. */
  ghost function GlobMatch(names: set<string>, name: string, nanos: nat): string {
    var base := StripTimestamp(name);
    match LastMatch(names, base)
    case None => base
    case Some(last) => if SuffixLive(last, nanos) then last else base
  }

  /** Sorted listings have a last match as soon as they have a match. */
  lemma {:induction false} LastMatchExists(names: set<string>, base: string, name: string)
    requires name in names && Matches(base, name)
    ensures exists last :: IsLast(names, base, last)
    decreases names
  {
    if other :| other in names && Matches(base, other) && other != name {
      LastMatchExists(names - {name}, base, other);
      var last :| IsLast(names - {name}, base, last);
      BeforeIsTotal(name, last);
      if Before(last, name) {
        forall n | n in names && Matches(base, n) ensures n == name || Before(n, name) {
          if n != name && n != last {
            BeforeIsTransitive(n, last, name);
          }
        }
        assert IsLast(names, base, name);
      } else {
        assert IsLast(names, base, last);
      }
    } else {
      assert IsLast(names, base, name);
    }
  }

  lemma LastIsUnique(names: set<string>, base: string, a: string, b: string)
    requires IsLast(names, base, a) && IsLast(names, base, b)
    ensures a == b
  {
    if a != b {
      BeforeIsIrreflexive(a);
      BeforeIsTransitive(a, b, a);
      assert false;
    }
  }

  lemma {:induction false} BeforeIsIrreflexive(a: string)
    ensures !Before(a, a)
  {
    if a != "" {
      BeforeIsIrreflexive(a[1..]);
    }
  }

  /** The listing of a directory, as the glob iterator yields it. */
  predicate Listing(listing: seq<string>) {
    forall i, j :: 0 <= i < j < |listing| ==> Before(listing[i], listing[j])
  }

  function Names(listing: seq<string>): set<string> {
    set name | name in listing
  }

  method GlobMatchFile(listing: seq<string>, name: string, nanos: nat) returns (path: string)
    requires Listing(listing)
    ensures path == GlobMatch(Names(listing), name, nanos)
  {
    path := StripTimestamp(name);
    ghost var base, names := path, Names(listing);
    var last: Option<string> := None;
    for i := 0 to |listing|
      invariant last.None? ==> forall k :: 0 <= k < i ==> !Matches(path, listing[k])
      invariant last.Some? ==> last.value in listing[..i] && Matches(path, last.value)
      invariant last.Some? ==> forall k :: 0 <= k < i && Matches(path, listing[k]) ==>
        listing[k] == last.value || Before(listing[k], last.value)
    {
      if Matches(path, listing[i]) {
        last := Some(listing[i]);
      }
    }
    if last.Some? {
      assert IsLast(names, base, last.value);
      LastIsUnique(names, base, last.value, LastMatch(names, base).value);
      if SuffixLive(last.value, nanos) {
        path := last.value;
      }
    }
  }

  /** The matching suffixes are all-digit, equally long, and within 64 bits. */
  predicate UniformSuffixes(names: set<string>, base: string, width: nat) {
    forall name :: name in names && Matches(base, name) ==>
      var suffix := name[|base| + 1..]; AllDigits(suffix) && |suffix| == width && Value(suffix) <= U64_MAX
  }

  function SuffixValue(base: string, name: string): nat
    requires Matches(base, name) && AllDigits(name[|base| + 1..])
  {
    Value(name[|base| + 1..])
  }

  lemma MatchMillis(base: string, name: string)
    requires base != "" && Matches(base, name) && AllDigits(name[|base| + 1..]) && Value(name[|base| + 1..]) <= U64_MAX
    ensures SuffixMillis(name) == Some(SuffixValue(base, name))
  {
    var suffix := name[|base| + 1..];
    assert name == base + "." + suffix;
    NoDotInDigits(suffix);
    LastDotIs(base, suffix);
    assert IsDigit(suffix[0]);
  }

  lemma MatchOrder(base: string, a: string, b: string)
    requires Matches(base, a) && Matches(base, b) && |a| == |b|
    requires AllDigits(a[|base| + 1..]) && AllDigits(b[|base| + 1..])
    ensures Before(a, b) <==> SuffixValue(base, a) < SuffixValue(base, b)
  {
    var x, y := a[|base| + 1..], b[|base| + 1..];
    assert a == (base + ".") + x && b == (base + ".") + y;
    BeforeAfterPrefix(base + ".", x, y);
    DigitOrder(x, y);
  }

  /** With uniform suffixes the answer is the latest-expiring sibling if any is live, and the bare name otherwise. */
  lemma GlobFindsLiveSibling(names: set<string>, name: string, width: nat, nanos: nat)
    requires StripTimestamp(name) != "" && UniformSuffixes(names, StripTimestamp(name), width)
    ensures
      var base, found := StripTimestamp(name), GlobMatch(names, name, nanos);
      if exists live :: live in names && Matches(base, live) && SuffixLive(live, nanos) then
        found in names && Matches(base, found) && SuffixLive(found, nanos) &&
        forall n :: n in names && Matches(base, n) ==> SuffixValue(base, n) <= SuffixValue(base, found)
      else found == base
  {
    var base := StripTimestamp(name);
    if n :| n in names && Matches(base, n) {
      LastMatchExists(names, base, n);
    }
    var r := LastMatch(names, base);
    if r.Some? {
      var last := r.value;
      assert last in names && Matches(base, last);
      MatchMillis(base, last);
      forall n | n in names && Matches(base, n)
        ensures SuffixValue(base, n) <= SuffixValue(base, last) && (SuffixLive(n, nanos) ==> SuffixLive(last, nanos))
      {
        MatchMillis(base, n);
        if n != last {
          MatchOrder(base, n, last);
        }
      }
    }
  }

  /** A request that carries a timestamp gets the answer of the bare request. */
  lemma TimestampInRequestIsIgnored(names: set<string>, base: string, timestamp: string, nanos: nat)
    requires IsTimestamp(timestamp) && StripTimestamp(base) == base
    ensures GlobMatch(names, base + "." + timestamp, nanos) == GlobMatch(names, base, nanos)
  {
    NoDotInDigits(timestamp);
    LastDotIs(base, timestamp);
    var name := base + "." + timestamp;
    assert name[|base| + 1..] == timestamp && name[..|base|] == base;
  }

  predicate LiveMatch(names: set<string>, base: string, name: string, nanos: nat) {
    name in names && Matches(base, name) && SuffixLive(name, nanos)
  }

  /** The exact condition: a live sibling is found if and only if every dead one sorts before some live one. */
  lemma LiveSiblingFoundIff(names: set<string>, name: string, nanos: nat)
    requires exists live :: LiveMatch(names, StripTimestamp(name), live, nanos)
    ensures
      var base := StripTimestamp(name);
      LiveMatch(names, base, GlobMatch(names, name, nanos), nanos) <==>
      forall dead :: dead in names && Matches(base, dead) && !SuffixLive(dead, nanos) ==>
        exists live :: LiveMatch(names, base, live, nanos) && Before(dead, live)
  {
    var base := StripTimestamp(name);
    var some :| LiveMatch(names, base, some, nanos);
    LastMatchExists(names, base, some);
    var last := LastMatch(names, base).value;
    if LiveMatch(names, base, GlobMatch(names, name, nanos), nanos) {
      forall dead | dead in names && Matches(base, dead) && !SuffixLive(dead, nanos)
        ensures exists live :: LiveMatch(names, base, live, nanos) && Before(dead, live)
      {
        assert LiveMatch(names, base, last, nanos) && Before(dead, last);
      }
    } else if live :| LiveMatch(names, base, live, nanos) && Before(last, live) {
      BeforeIsTransitive(last, live, last);
      BeforeIsIrreflexive(last);
    }
  }

  /**
   A live match is never found as long as its password file is in the directory: that matches too, and sorts
   after it.
   */
  lemma SidecarsHideLiveSiblings(names: set<string>, name: string, nanos: nat)
    requires forall live :: LiveMatch(names, StripTimestamp(name), live, nanos) ==> SidecarName(live) in names
    ensures GlobMatch(names, name, nanos) == StripTimestamp(name)
  {
    var base := StripTimestamp(name);
    var last := LastMatch(names, base);
    if last.Some? && SuffixLive(last.value, nanos) {
      assert LiveMatch(names, base, last.value, nanos);
      BeforeAfterPrefix(last.value, "", PASSWORD_SUFFIX);
      assert last.value + "" == last.value;
      BeforeIsTransitive(last.value, SidecarName(last.value), last.value);
      BeforeIsIrreflexive(last.value);
    }
  }

  lemma NineAndLater()
    ensures Value("9") == 9 && Value("1800000000000") == 1_800_000_000_000 && Before("a.1800000000000", "a.9")
  {
    assert "9"[..0] == "";
    ValueOfZeros("18", 11);
    assert "18" + Zeros(11) == "1800000000000";
    assert "18"[..1] == "1" && "1"[..0] == "";
    BeforeAfterPrefix("a.", "1800000000000", "9");
    assert "a." + "1800000000000" == "a.1800000000000" && "a." + "9" == "a.9";
  }

  function Zeros(n: nat): (s: string)
    ensures |s| == n && AllDigits(s)
  {
    if n == 0 then "" else Zeros(n - 1) + "0"
  }

  lemma {:induction false} ValueOfZeros(s: string, n: nat)
    requires AllDigits(s)
    ensures Value(s + Zeros(n)) == Value(s) * Pow10(n)
  {
    if n == 0 {
      assert s + Zeros(0) == s;
    } else {
      ValueOfZeros(s, n - 1);
      var all := s + Zeros(n);
      assert all[..|all| - 1] == s + Zeros(n - 1) && all[|all| - 1] == '0';
      Scale(Value(s), Pow10(n - 1), Pow10(n));
    }
  }

  lemma NineAndLaterMatch()
    ensures Matches("a", "a.9") && SuffixMillis("a.9") == Some(9)
    ensures Matches("a", "a.1800000000000") && SuffixMillis("a.1800000000000") == Some(1_800_000_000_000)
    ensures StripTimestamp("a") == "a"
  {
    NineAndLater();
    assert "a.9"[2..] == "9" && "a.1800000000000"[2..] == "1800000000000";
    MatchMillis("a", "a.9");
    MatchMillis("a", "a.1800000000000");
    assert LastDot("a").None? by {
      assert "a"[..0] == "";
    }
  }

  /** It can fail: until the year 2027 an upload that happens to be called a.9 hides the live a.1800000000000. */
  lemma ShorterSuffixHidesLiveSibling(nanos: nat)
    requires 9 * NANOS_PER_MILLI <= nanos < 1_800_000_000_000 * NANOS_PER_MILLI
    ensures
      var names := {"a.9", "a.1800000000000"};
      LiveMatch(names, "a", "a.1800000000000", nanos) && GlobMatch(names, "a", nanos) == "a"
  {
    var nine, later := "a.9", "a.1800000000000";
    NineAndLater();
    NineAndLaterMatch();
    LastOfTwo(nine, later);
  }

  lemma LastOfTwo(a: string, b: string)
    requires Matches("a", a) && Matches("a", b) && Before(b, a)
    ensures LastMatch({a, b}, "a") == Some(a)
  {
    var names := {a, b};
    assert IsLast(names, "a", a);
    LastIsUnique(names, "a", a, LastMatch(names, "a").value);
  }
}
