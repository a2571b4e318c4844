/**
  The pure part of the plugin's renaming scheme: how the new file-name prefix
  is derived from the process title, how a file name is split at its last
  '.', how one file name is translated through the names map, what map
  `createNamesMap` builds, and how one manifest location is rewritten.
*/
module FileNaming {
  import opened JavaString
  import opened ThrowingLoops

  /** `processTitle.substring(processTitle.indexOf("_") + 1)`: the new
      file-name prefix. The start index is never out of range, so this never
      throws. */
  function NewFileNamePrefix(processTitle: string): string
  {
    Substring(processTitle, IndexOf(processTitle, '_') + 1).value
  }

  /** The prefix is what is left of the process title once everything up to
      and including its first '_' is removed; it is the whole title when the
      title has no '_'. Either way it is a suffix of the title. */
  lemma NewFileNamePrefixDropsFirstUnderscore(processTitle: string)
    ensures var prefix := NewFileNamePrefix(processTitle);
            && |prefix| <= |processTitle|
            && prefix == processTitle[|processTitle| - |prefix|..]
            && ('_' !in processTitle ==> prefix == processTitle)
            && ('_' in processTitle ==>
                  var cut := |processTitle| - |prefix|;
                  0 < cut && processTitle[cut - 1] == '_' && '_' !in processTitle[..cut - 1])
  {
  }

  predicate HasDot(fileName: string) {
    '.' in fileName
  }

  /** `fileName.substring(0, fileName.lastIndexOf("."))`: the text before the
      last '.'; without a '.' the end index is -1 and `substring` throws. */
  function BaseName(fileName: string): (r: Result<string>)
    ensures r.Throws? <==> !HasDot(fileName)
    ensures r.Throws? ==> r.error == StringIndexOutOfBounds
    ensures r.Ok? ==>
              var n := |r.value|;
              n < |fileName| && fileName[..n] == r.value && fileName[n] == '.' && '.' !in fileName[n + 1..]
  {
    SubstringRange(fileName, 0, LastIndexOf(fileName, '.'))
  }

  /** `fileName.substring(fileName.lastIndexOf("."))`: the last '.' and
      everything after it; without a '.' the index is -1 and `substring` throws. */
  function Suffix(fileName: string): (r: Result<string>)
    ensures r.Throws? <==> !HasDot(fileName)
    ensures r.Throws? ==> r.error == StringIndexOutOfBounds
    ensures r.Ok? ==>
              && 0 < |r.value| <= |fileName|
              && r.value[0] == '.' && '.' !in r.value[1..]
              && r.value == fileName[|fileName| - |r.value|..]
  {
    Substring(fileName, LastIndexOf(fileName, '.'))
  }

  /** A suffix in the sense of `Suffix`: a '.' followed by no further '.'. */
  predicate IsSuffix(suffix: string) {
    |suffix| > 0 && suffix[0] == '.' && '.' !in suffix[1..]
  }

  /** Splitting at the last '.' loses nothing. */
  lemma SplitIsLossless(fileName: string)
    requires HasDot(fileName)
    ensures BaseName(fileName).value + Suffix(fileName).value == fileName
  {
    var i := LastIndexOf(fileName, '.');
    assert fileName == fileName[..i] + fileName[i..];
  }

  /** Joining a base name and a suffix, then splitting at the last '.', gives
      the two parts back, whatever dots the base name holds. */
  lemma SplitOfJoin(base: string, suffix: string)
    requires IsSuffix(suffix)
    ensures HasDot(base + suffix)
    ensures BaseName(base + suffix) == Ok(base)
    ensures Suffix(base + suffix) == Ok(suffix)
  {
    var s := base + suffix;
    assert s[|base|] == '.';
    assert s[|base| + 1..] == suffix[1..];
    LastIndexOfIsUnique(s, '.', |base|);
    assert s[..|base|] == base;
    assert s[|base|..] == suffix;
  }

  /** `getNewFileName`: the mapped base name with the original suffix, dot
      included, appended. The suffix is taken first, so a name without '.'
      throws before the map is consulted; a base name that is not a key makes
      `get` return `null`, and `concat` on it throws. */
  function GetNewFileName(oldFileName: string, namesMap: map<string, string>): (r: Result<string>)
    ensures !HasDot(oldFileName) ==> r == Throws(StringIndexOutOfBounds)
    ensures HasDot(oldFileName) ==> (r.Ok? <==> BaseName(oldFileName).value in namesMap)
    ensures HasDot(oldFileName) && BaseName(oldFileName).value !in namesMap ==> r == Throws(NullPointer)
    ensures r.Ok? ==> r.value == namesMap[BaseName(oldFileName).value] + Suffix(oldFileName).value
  {
    var suffixIndex := LastIndexOf(oldFileName, '.');
    match Substring(oldFileName, suffixIndex)
    case Throws(e) => Throws(e)
    case Ok(suffix) =>
      var oldName := SubstringRange(oldFileName, 0, suffixIndex).value;
      if oldName in namesMap then Ok(namesMap[oldName] + suffix) else Throws(NullPointer)
  }

  /** The translation keeps the extension: the new name splits at its last
      '.' into the mapped base name and the old suffix. */
  lemma GetNewFileNameKeepsSuffix(oldFileName: string, namesMap: map<string, string>)
    requires GetNewFileName(oldFileName, namesMap).Ok?
    ensures var newFileName := GetNewFileName(oldFileName, namesMap).value;
            && Suffix(newFileName) == Suffix(oldFileName)
            && BaseName(newFileName) == Ok(namesMap[BaseName(oldFileName).value])
  {
    SplitOfJoin(namesMap[BaseName(oldFileName).value], Suffix(oldFileName).value);
  }

  /** The map `createNamesMap` builds from a listing, one `put` per file in
      listing order: each base name goes to the prefix, '_' and the base name.
      (A name without '.' makes `createNamesMap` throw; here it adds nothing.) */
  function NamesMap(prefix: string, fileNames: seq<string>): map<string, string>
  {
    if fileNames == [] then map[]
    else
      var last := fileNames[|fileNames| - 1];
      var rest := NamesMap(prefix, fileNames[..|fileNames| - 1]);
      if HasDot(last) then rest[BaseName(last).value := prefix + "_" + BaseName(last).value] else rest
  }

  /** The keys are exactly the base names of the listed files, and each is
      sent to `prefix + "_" + base`. */
  lemma {:induction false} NamesMapContents(prefix: string, fileNames: seq<string>, oldName: string)
    ensures oldName in NamesMap(prefix, fileNames) <==>
              exists f :: f in fileNames && HasDot(f) && BaseName(f) == Ok(oldName)
    ensures oldName in NamesMap(prefix, fileNames) ==>
              NamesMap(prefix, fileNames)[oldName] == prefix + "_" + oldName
  {
    if fileNames != [] {
      var init := fileNames[..|fileNames| - 1];
      var last := fileNames[|fileNames| - 1];
      NamesMapContents(prefix, init, oldName);
      assert fileNames == init + [last];
      if oldName in NamesMap(prefix, fileNames) && !(HasDot(last) && BaseName(last) == Ok(oldName)) {
        var f :| f in init && HasDot(f) && BaseName(f) == Ok(oldName);
        assert f in fileNames;
      }
      if exists f :: f in fileNames && HasDot(f) && BaseName(f) == Ok(oldName) {
        var f :| f in fileNames && HasDot(f) && BaseName(f) == Ok(oldName);
        if f != last {
          assert f in init;
        }
      }
    }
  }

  /** The map built from one more name of a listing adds that name's base
      name, or nothing if the name has no '.'. */
  lemma NamesMapOfNextName(prefix: string, fileNames: seq<string>, i: nat)
    requires i < |fileNames|
    ensures var next := fileNames[i];
            NamesMap(prefix, fileNames[..i + 1])
            == if HasDot(next) then NamesMap(prefix, fileNames[..i])[BaseName(next).value := prefix + "_" + BaseName(next).value]
               else NamesMap(prefix, fileNames[..i])
  {
    assert fileNames[..i + 1][..i] == fileNames[..i];
  }

  ghost predicate Injective(m: map<string, string>) {
    forall k1, k2 :: k1 in m && k2 in m && k1 != k2 ==> m[k1] != m[k2]
  }

  /** Distinct old base names get distinct new names. */
  lemma NamesMapIsInjective(prefix: string, fileNames: seq<string>)
    ensures Injective(NamesMap(prefix, fileNames))
  {
    var m := NamesMap(prefix, fileNames);
    var p := prefix + "_";
    forall k1, k2 | k1 in m && k2 in m && m[k1] == m[k2] ensures k1 == k2 {
      NamesMapContents(prefix, fileNames, k1);
      NamesMapContents(prefix, fileNames, k2);
      assert k1 == (p + k1)[|p|..];
      assert k2 == (p + k2)[|p|..];
    }
  }

  /** Building the map from a listing and then translating a listed file
      gives exactly `prefix + "_" + base + suffix`. */
  lemma RenameOfListedFile(prefix: string, fileNames: seq<string>, fileName: string)
    requires fileName in fileNames && HasDot(fileName)
    ensures GetNewFileName(fileName, NamesMap(prefix, fileNames))
            == Ok(prefix + "_" + BaseName(fileName).value + Suffix(fileName).value)
  {
    NamesMapContents(prefix, fileNames, BaseName(fileName).value);
  }

  /** `oldLocation.lastIndexOf("/") + 1`: where the file-name segment of a
      manifest location starts. */
  function FileNameStartIndex(location: string): (i: nat)
    ensures i <= |location|
    ensures i == 0 || location[i - 1] == '/'
    ensures '/' !in location[i..]
    ensures '/' !in location ==> i == 0
  {
    LastIndexOf(location, '/') + 1
  }

  /** The rewrite of one manifest location (the loop body of
      `updateMetsFile`): the text up to and including the last '/' is kept,
      the file name after it is translated. */
  function NewLocation(oldLocation: string, namesMap: map<string, string>): Result<string>
  {
    var fileNameStartIndex := FileNameStartIndex(oldLocation);
    var locationPrefix := SubstringRange(oldLocation, 0, fileNameStartIndex).value;
    var oldFileName := Substring(oldLocation, fileNameStartIndex).value;
    match GetNewFileName(oldFileName, namesMap)
    case Ok(newFileName) => Ok(locationPrefix + newFileName)
    case Throws(e) => Throws(e)
  }

  /** Only the file-name segment of a location changes: the directory prefix
      (empty, or ending in the last '/') is kept verbatim, the segment after it
      (which holds no '/') is replaced by its translation, and a failing
      translation throws the same exception. */
  lemma NewLocationKeepsDirectory(oldLocation: string, namesMap: map<string, string>)
    ensures var i := FileNameStartIndex(oldLocation);
            var translated := GetNewFileName(oldLocation[i..], namesMap);
            var r := NewLocation(oldLocation, namesMap);
            && oldLocation == oldLocation[..i] + oldLocation[i..]
            && (r.Ok? <==> translated.Ok?)
            && (r.Throws? ==> r.error == translated.error)
            && (r.Ok? ==> r.value == oldLocation[..i] + translated.value)
  {
    var i := FileNameStartIndex(oldLocation);
    assert SubstringRange(oldLocation, 0, i) == Ok(oldLocation[..i]);
    assert Substring(oldLocation, i) == Ok(oldLocation[i..]);
  }

  /** `NewLocation` as a function value, for the loop that applies it. */
  function Rewriter(namesMap: map<string, string>): string -> Result<string> {
    oldLocation => NewLocation(oldLocation, namesMap)
  }

  /** The rewrite of each location, one per location, in order. */
  function LocationRewrites(locations: seq<string>, namesMap: map<string, string>): (steps: seq<Result<string>>)
    ensures |steps| == |locations|
    ensures forall i :: 0 <= i < |locations| ==> steps[i] == NewLocation(locations[i], namesMap)
  {
    Applied(locations, Rewriter(namesMap))
  }

  /** What the loop of `updateMetsFile` does to the list of locations: every
      location rewritten, in order, or the exception of the first location
      whose rewrite throws. */
  function RewriteLocations(locations: seq<string>, namesMap: map<string, string>): Result<seq<string>>
  {
    RunAll(LocationRewrites(locations, namesMap))
  }

  /** The rewritten list has the same length and order as the original, and
      each record keeps its directory prefix; the rewrite fails exactly when
      some location's file name fails to translate, with the exception of the
      first such location. */
  lemma RewriteLocationsKeepsRecords(locations: seq<string>, namesMap: map<string, string>)
    ensures var r := RewriteLocations(locations, namesMap);
            && (r.Ok? <==> forall i :: 0 <= i < |locations| ==> NewLocation(locations[i], namesMap).Ok?)
            && (r.Ok? ==> |r.value| == |locations|)
            && (r.Ok? ==> forall i :: 0 <= i < |locations| ==>
                  var d := FileNameStartIndex(locations[i]);
                  && r.value[i] == locations[i][..d] + GetNewFileName(locations[i][d..], namesMap).value)
            && (forall k :: 0 <= k < |locations| && NewLocation(locations[k], namesMap).Throws?
                  && (forall i :: 0 <= i < k ==> NewLocation(locations[i], namesMap).Ok?)
                  ==> r == Throws(NewLocation(locations[k], namesMap).error))
  {
    var steps := LocationRewrites(locations, namesMap);
    forall i | 0 <= i < |locations| {
      NewLocationKeepsDirectory(locations[i], namesMap);
    }
  }

  /** A location made of a directory part (empty, or ending in '/') and a
      file name `base + suffix` without '/' is rewritten to the same directory
      part followed by the mapped base name and the same suffix. */
  lemma NewLocationOfJoin(directory: string, base: string, suffix: string, namesMap: map<string, string>)
    requires directory == [] || directory[|directory| - 1] == '/'
    requires '/' !in base + suffix && IsSuffix(suffix) && base in namesMap
    ensures NewLocation(directory + (base + suffix), namesMap) == Ok(directory + (namesMap[base] + suffix))
  {
    var location := directory + (base + suffix);
    assert location[|directory|..] == base + suffix;
    if directory == [] {
      assert '/' !in location;
    } else {
      assert location[|directory| - 1] == '/';
      assert location[|directory|..][..] == base + suffix;
      LastIndexOfIsUnique(location, '/', |directory| - 1);
    }
    var i := FileNameStartIndex(location);
    assert i == |directory|;
    assert location[..i] == directory && location[i..] == base + suffix;
    SplitOfJoin(base, suffix);
    assert GetNewFileName(base + suffix, namesMap) == Ok(namesMap[base] + suffix);
    NewLocationKeepsDirectory(location, namesMap);
  }
}
