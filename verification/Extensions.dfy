/** Splitting a compound extension off a filename, and what random naming makes of the two parts. */
module Extensions {
  import opened Base
  import opened Text
  import opened Expiry

  function SplitDots(s: string): (parts: seq<string>)
    ensures parts != []
  {
    if s == "" then [""]
    else
      var rest := SplitDots(s[1..]);
      if s[0] == '.' then [""] + rest else [[s[0]] + rest[0]] + rest[1..]
  }

  function JoinDots(parts: seq<string>): string
    requires parts != []
  {
    if |parts| == 1 then parts[0] else parts[0] + "." + JoinDots(parts[1..])
  }

  lemma {:induction false} JoinOfSplit(s: string)
    ensures JoinDots(SplitDots(s)) == s
  {
    if s != "" {
      var rest := SplitDots(s[1..]);
      JoinOfSplit(s[1..]);
      if s[0] == '.' {
        assert ([""] + rest)[1..] == rest;
      } else {
        var parts := [[s[0]] + rest[0]] + rest[1..];
        assert parts[1..] == rest[1..];
        if |rest| > 1 {
          assert JoinDots(parts) == [s[0]] + (rest[0] + "." + JoinDots(rest[1..]));
        }
      }
    }
  }

  lemma {:induction false} JoinInTwo(parts: seq<string>, i: nat)
    requires 0 < i < |parts|
    ensures JoinDots(parts) == JoinDots(parts[..i]) + "." + JoinDots(parts[i..])
  {
    if i > 1 {
      JoinInTwo(parts[1..], i - 1);
      assert parts[1..][..i-1] == parts[..i][1..] && parts[1..][i-1..] == parts[i..];
    }
  }

  /** The search from part `i` on; `known` are the extensions of the MIME table. */
  function SearchFrom(parts: seq<string>, start: nat, i: nat, known: string -> bool): Option<string>
    requires 0 < start <= i
    decreases |parts| - i
  {
    if i >= |parts| then None
    else if known(JoinDots(parts[i..])) then
      Some(if i > start && known(parts[i-1]) then JoinDots(parts[i-1..]) else JoinDots(parts[i..]))
    else SearchFrom(parts, start, i + 1, known)
  }

  /** The extension, without its dot, of a final path component (which has no slash). */
  function GetExtension(name: string, known: string -> bool): Option<string> {
    var parts := SplitDots(name);
    var start := if parts[0] == "" then 2 else 1;
    if name == ".." then None
    else if |parts| < 2 || |parts| <= start then None
    else
      match SearchFrom(parts, start, start, known)
      case Some(extension) => Some(extension)
      case None => Extension(name)
  }

  /** The search loop over the parts. */
  method GetExtensionFromFilename(name: string, known: string -> bool) returns (extension: Option<string>)
    ensures extension == GetExtension(name, known)
  {
    if name == ".." {
      return None;
    }
    var parts := SplitDots(name);
    if |parts| < 2 {
      return None;
    }
    var start := if parts[0] == "" then 2 else 1;
    if |parts| <= start {
      return None;
    }
    for i := start to |parts|
      invariant SearchFrom(parts, start, start, known) == SearchFrom(parts, start, i, known)
    {
      var potential := JoinDots(parts[i..]);
      if known(potential) {
        if i > start && known(parts[i-1]) {
          return Some(JoinDots(parts[i-1..]));
        }
        return Some(potential);
      }
    }
    extension := Extension(name);
  }

  /** Where the search cuts the name. */
  lemma {:induction false} SearchCuts(parts: seq<string>, start: nat, i: nat, known: string -> bool) returns (cut: nat)
    requires 0 < start <= i && SearchFrom(parts, start, i, known).Some?
    ensures start <= cut < |parts| && SearchFrom(parts, start, i, known) == Some(JoinDots(parts[cut..]))
    decreases |parts| - i
  {
    if known(JoinDots(parts[i..])) {
      cut := if i > start && known(parts[i-1]) then i - 1 else i;
    } else {
      cut := SearchCuts(parts, start, i + 1, known);
    }
  }

  /** The suffix from part `j` on is a known extension. */
  predicate KnownFrom(parts: seq<string>, j: int, known: string -> bool) {
    0 <= j < |parts| && known(JoinDots(parts[j..]))
  }

  /**
   Where the extension begins: at the longest suffix that is known as a whole or, if the part just before that
   is known by itself, at that part.
   */
  predicate Cuts(parts: seq<string>, start: nat, cut: nat, known: string -> bool) {
    && start <= cut < |parts| && (forall j :: start <= j < cut ==> !KnownFrom(parts, j, known))
    && if KnownFrom(parts, cut, known) then cut > start ==> !known(parts[cut-1])
       else KnownFrom(parts, cut + 1, known) && known(parts[cut])
  }

  predicate NoneKnown(parts: seq<string>, start: nat, known: string -> bool) {
    forall j :: start <= j < |parts| ==> !KnownFrom(parts, j, known)
  }

  /** The search passes over what is unknown and stops at the cut. */
  lemma {:induction false} SearchStops(parts: seq<string>, start: nat, i: nat, known: string -> bool, cut: nat)
    requires 0 < start <= i && Cuts(parts, start, cut, known)
    requires i <= if KnownFrom(parts, cut, known) then cut else cut + 1
    ensures SearchFrom(parts, start, i, known) == Some(JoinDots(parts[cut..]))
    decreases |parts| - i
  {
    if !KnownFrom(parts, i, known) {
      SearchStops(parts, start, i + 1, known, cut);
    }
  }

  lemma {:induction false} SearchFails(parts: seq<string>, start: nat, i: nat, known: string -> bool)
    requires 0 < start <= i && NoneKnown(parts, start, known)
    ensures SearchFrom(parts, start, i, known).None?
    decreases |parts| - i
  {
    if i < |parts| {
      assert !KnownFrom(parts, i, known);
      SearchFails(parts, start, i + 1, known);
    }
  }

  lemma {:induction false} FirstKnown(parts: seq<string>, start: nat, j: nat, known: string -> bool)
    returns (first: nat)
    requires start <= j && KnownFrom(parts, j, known)
    ensures start <= first <= j && KnownFrom(parts, first, known)
    ensures forall k :: start <= k < first ==> !KnownFrom(parts, k, known)
    decreases j - start
  {
    if KnownFrom(parts, start, known) {
      first := start;
    } else {
      first := FirstKnown(parts, start + 1, j, known);
    }
  }

  lemma SomeCut(parts: seq<string>, start: nat, known: string -> bool) returns (cut: nat)
    requires !NoneKnown(parts, start, known)
    ensures Cuts(parts, start, cut, known)
  {
    var j :| start <= j < |parts| && KnownFrom(parts, j, known);
    var first := FirstKnown(parts, start, j, known);
    cut := if first > start && known(parts[first-1]) then first - 1 else first;
  }

  /** A name without an extension: no dot, or none but a leading one. */
  predicate Undotted(name: string) {
    var parts := SplitDots(name);
    name == ".." || |parts| <= (if parts[0] == "" then 2 else 1)
  }

  /** Which extension a name has: that of the cut, the part after the last dot if nothing is known, or none. */
  lemma ExtensionIsCut(name: string, known: string -> bool)
    ensures
      var parts := SplitDots(name);
      var start := if parts[0] == "" then 2 else 1;
      && (Undotted(name) ==> GetExtension(name, known) == None)
      && (!Undotted(name) ==>
            && (forall cut: nat :: Cuts(parts, start, cut, known) ==>
                  GetExtension(name, known) == Some(JoinDots(parts[cut..])))
            && (NoneKnown(parts, start, known) ==> GetExtension(name, known) == Extension(name))
            && (NoneKnown(parts, start, known) || exists cut: nat :: Cuts(parts, start, cut, known)))
  {
    var parts := SplitDots(name);
    var start := if parts[0] == "" then 2 else 1;
    forall cut: nat | Cuts(parts, start, cut, known)
      ensures SearchFrom(parts, start, start, known) == Some(JoinDots(parts[cut..]))
    {
      SearchStops(parts, start, start, known, cut);
    }
    if NoneKnown(parts, start, known) {
      SearchFails(parts, start, start, known);
    } else {
      var cut := SomeCut(parts, start, known);
    }
  }

  /** The example of its documentation: with gz and tar known, a.tar.gz has the extension tar.gz. */
  lemma TarGz(known: string -> bool)
    requires known("gz") && known("tar") && !known("tar.gz")
    ensures GetExtension("a.tar.gz", known) == Some("tar.gz")
  {
    var parts := ["a", "tar", "gz"];
    var name := "a.tar.gz";
    assert JoinDots(["gz"]) == "gz" && JoinDots(["tar", "gz"]) == "tar.gz" by {
      assert ["tar", "gz"][1..] == ["gz"];
    }
    SplitTarGz();
    assert parts[1..] == ["tar", "gz"] && parts[2..] == ["gz"];
    ExtensionIsCut(name, known);
    assert Cuts(parts, 1, 1, known);
  }

  lemma SplitTarGz()
    ensures SplitDots("a.tar.gz") == ["a", "tar", "gz"]
  {
    SplitWord("gz", "");
    assert "gz" + "" == "gz" && SplitDots("gz") == ["gz"];
    SplitAtDot("tar", "gz");
    assert "tar" + "." + "gz" == "tar.gz";
    SplitAtDot("a", "tar.gz");
    assert "a" + "." + "tar.gz" == "a.tar.gz";
  }

  lemma SplitAtDot(word: string, rest: string)
    requires forall k :: 0 <= k < |word| ==> word[k] != '.'
    ensures SplitDots(word + "." + rest) == [word] + SplitDots(rest)
  {
    var dotted, parts := "." + rest, SplitDots(rest);
    assert dotted[1..] == rest && SplitDots(dotted) == [""] + parts;
    SplitWord(word, dotted);
    assert word + "." + rest == word + dotted && word + "" == word;
    assert ([""] + parts)[1..] == parts;
  }

  /** A word without dots goes in front of the first part. */
  lemma {:induction false} SplitWord(word: string, rest: string)
    requires forall k :: 0 <= k < |word| ==> word[k] != '.'
    ensures SplitDots(word + rest) == [word + SplitDots(rest)[0]] + SplitDots(rest)[1..]
  {
    var parts := SplitDots(rest);
    if word == "" {
      assert word + rest == rest && "" + parts[0] == parts[0];
      assert parts == [parts[0]] + parts[1..];
    } else {
      SplitWord(word[1..], rest);
      assert (word + rest)[1..] == word[1..] + rest && (word + rest)[0] == word[0];
      var longer := [word[1..] + parts[0]] + parts[1..];
      assert longer[1..] == parts[1..] && longer[0] == word[1..] + parts[0];
      assert [word[0]] + (word[1..] + parts[0]) == word + parts[0];
    }
  }

  /** The stem that remains when an extension and its dot are cut off. */
  function Stem(name: string, extension: string): string
    requires |extension| < |name|
  {
    name[..|name| - |extension| - 1]
  }

  /** Splitting loses nothing, so the cut never reaches before the start of the name. */
  lemma SplitIsLossless(name: string, known: string -> bool)
    requires GetExtension(name, known).Some?
    ensures
      var extension := GetExtension(name, known).value;
      |extension| < |name| && Stem(name, extension) + "." + extension == name && Stem(name, extension) != ""
  {
    var parts := SplitDots(name);
    var start := if parts[0] == "" then 2 else 1;
    JoinOfSplit(name);
    var found := SearchFrom(parts, start, start, known);
    if found.Some? {
      var cut := SearchCuts(parts, start, start, known);
      JoinInTwo(parts, cut);
      StemNotEmpty(parts, cut);
      CutBack(JoinDots(parts[..cut]), JoinDots(parts[cut..]));
    } else {
      var dot := LastDot(name).value;
      assert name == name[..dot] + "." + name[dot + 1..];
      CutBack(name[..dot], name[dot + 1..]);
    }
  }

  lemma CutBack(stem: string, extension: string)
    ensures Stem(stem + "." + extension, extension) == stem
  {
  }

  lemma StemNotEmpty(parts: seq<string>, cut: nat)
    requires 0 < cut < |parts| && (parts[0] == "" ==> cut >= 2)
    ensures JoinDots(parts[..cut]) != ""
  {
  }

  // ----- rebuilding the name from its parts -----

  /** The part of a name before its last dot, as paths define it. */
  function FileStem(name: string): string {
    match LastDot(name)
    case None => name
    case Some(dot) => if dot == 0 then name else name[..dot]
  }

  function SetExtension(name: string, extension: string): string {
    if extension == "" then FileStem(name) else FileStem(name) + "." + extension
  }

  /** No dot but possibly a leading one. */
  predicate NoInnerDot(stem: string) {
    forall k :: 0 < k < |stem| ==> stem[k] != '.'
  }

  lemma FileStemIsWhole(name: string)
    ensures FileStem(name) == name <==> NoInnerDot(name)
    ensures |FileStem(name)| <= |name|
  {
    var dot := LastDot(name);
    if dot.Some? && dot.value > 0 {
      assert name[dot.value] == '.';
      assert |FileStem(name)| < |name|;
    } else if dot.Some? {
      assert forall k :: 0 < k < |name| ==> name[k] == name[1..][k-1];
    }
  }

  /**
   Taken apart and rebuilt, a name is itself exactly when its extension is not empty and its stem
   has no dot but a leading one. The stems "." and ".." are path components of their own and are excluded.
   */
  lemma RebuiltNameIsSame(name: string, known: string -> bool)
    requires GetExtension(name, known).Some?
    ensures
      var extension := GetExtension(name, known).value;
      |extension| < |name| &&
      var stem := Stem(name, extension);
      (stem != "." && stem != ".." ==> (SetExtension(stem, extension) == name <==> extension != "" && NoInnerDot(stem)))
  {
    SplitIsLossless(name, known);
    var extension := GetExtension(name, known).value;
    var stem := Stem(name, extension);
    FileStemIsWhole(stem);
    assert |name| == |stem| + 1 + |extension|;
    if extension != "" && FileStem(stem) != stem {
      SameTail(FileStem(stem), stem, "." + extension);
      assert FileStem(stem) + "." + extension == FileStem(stem) + ("." + extension);
      assert stem + "." + extension == stem + ("." + extension);
    }
  }

  lemma SameTail(a: string, b: string, tail: string)
    requires a != b
    ensures a + tail != b + tail
  {
    assert a == (a + tail)[..|a|] && b == (b + tail)[..|b|];
    assert |a + tail| == |a| + |tail| && |b + tail| == |b| + |tail|;
  }
}
