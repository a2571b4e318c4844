/**
  The step plugin itself: the state it keeps between `initialize` and `run`
  (the process title, the derived file-name prefix and, standing in for the
  process's metadata file, the file locations stored in that manifest) and
  the methods that build the names map, compute rename targets, rewrite the
  manifest and report the step's outcome. Directory listings are passed in
  as sequences of paths instead of being read from storage.
*/
module RenamePlugin {
  import opened JavaString
  import opened FileNaming
  import opened ThrowingLoops

  /** A listed file: the directory it lies in and its file name. */
  datatype Path = Path(parent: string, fileName: string)

  /** The two values of Goobi's `PluginReturnValue` that `run` can return. */
  datatype PluginReturnValue = Finish | Error

  /** `file.getFileName().toString()` for every listed file, in listing order. */
  function FileNames(files: seq<Path>): (names: seq<string>)
    ensures |names| == |files|
    ensures forall i :: 0 <= i < |files| ==> names[i] == files[i].fileName
  {
    if files == [] then [] else [files[0].fileName] + FileNames(files[1..])
  }

  /** `file.getParent().resolve(newFileName)`: the same directory, the new name. */
  function Resolve(file: Path, newFileName: string): Path
  {
    Path(file.parent, newFileName)
  }

  /** When `run` returns instead of throwing: every file of the first listing
      (the one `createNamesMap` reads) has a '.', and every file of the second
      listing (the one `renameFilesInFolder` reads) translates through the map. */
  predicate RunCompletes(prefix: string, mapListing: seq<Path>, renameListing: seq<Path>) {
    && (forall i :: 0 <= i < |mapListing| ==> HasDot(mapListing[i].fileName))
    && forall i :: 0 <= i < |renameListing| ==>
         GetNewFileName(renameListing[i].fileName, NamesMap(prefix, FileNames(mapListing))).Ok?
  }

  /** A folder listed twice with the same result, all of whose names have a
      '.', lets `run` complete. */
  lemma UnchangedListingCompletes(prefix: string, listing: seq<Path>)
    requires forall i :: 0 <= i < |listing| ==> HasDot(listing[i].fileName)
    ensures RunCompletes(prefix, listing, listing)
  {
    forall i | 0 <= i < |listing|
      ensures GetNewFileName(listing[i].fileName, NamesMap(prefix, FileNames(listing))).Ok?
    {
      assert FileNames(listing)[i] == listing[i].fileName;
      RenameOfListedFile(prefix, FileNames(listing), listing[i].fileName);
    }
  }

  class RenameFilesBeforeRosettaStepPlugin {
    /** `process.getTitel()`. */
    var processTitle: string
    /** The prefix every new file name starts with. */
    var newFileNamePrefix: string
    /** The location of every file record in the process's metadata file, as stored. */
    var metsLocations: seq<string>

    /** `initialize`, as far as the renaming depends on it: the process is
        taken from the step and the prefix is derived from its title. */
    constructor (processTitle: string, metsLocations: seq<string>)
      ensures this.processTitle == processTitle && this.metsLocations == metsLocations
      ensures newFileNamePrefix == NewFileNamePrefix(processTitle)
    {
      this.processTitle := processTitle;
      this.metsLocations := metsLocations;
      new;
      InitializeNewFileNamePrefix();
    }

    method InitializeNewFileNamePrefix()
      modifies this`newFileNamePrefix
      ensures newFileNamePrefix == NewFileNamePrefix(processTitle)
    {
      newFileNamePrefix := NewFileNamePrefix(processTitle);
    }

    /** `createNamesMap`: puts, for every listed file, its base name with the
        new name `prefix + "_" + base`; a name without '.' throws. */
    method CreateNamesMap(files: seq<Path>) returns (r: Result<map<string, string>>)
      ensures r.Ok? <==> forall i :: 0 <= i < |files| ==> HasDot(files[i].fileName)
      ensures r.Throws? ==> r.error == StringIndexOutOfBounds
      ensures r.Ok? ==> r.value == NamesMap(newFileNamePrefix, FileNames(files))
    {
      ghost var fileNames := FileNames(files);
      var namesMap := map[];
      var i := 0;
      while i < |files|
        invariant 0 <= i <= |files|
        invariant forall j :: 0 <= j < i ==> HasDot(files[j].fileName)
        invariant namesMap == NamesMap(newFileNamePrefix, fileNames[..i])
      {
        var fileName := files[i].fileName;
        var oldName :- SubstringRange(fileName, 0, LastIndexOf(fileName, '.'));
        var newName := newFileNamePrefix + "_" + oldName;
        NamesMapOfNextName(newFileNamePrefix, fileNames, i);
        namesMap := namesMap[oldName := newName];
        i := i + 1;
      }
      assert fileNames[..i] == fileNames;
      r := Ok(namesMap);
    }

    /** `renameFilesInFolder`: computes, for every listed file, the target in
        the same directory under its translated name, which it only logs
        (`logged`); it moves nothing and returns true, unless a translation
        throws, which stops the loop there. */
    method RenameFilesInFolder(files: seq<Path>, namesMap: map<string, string>)
      returns (r: Result<bool>, logged: seq<Path>)
      ensures r.Ok? <==> forall i :: 0 <= i < |files| ==> GetNewFileName(files[i].fileName, namesMap).Ok?
      ensures r.Ok? ==> r.value && |logged| == |files|
      ensures r.Throws? ==>
                |logged| < |files| && GetNewFileName(files[|logged|].fileName, namesMap) == Throws(r.error)
      ensures |logged| <= |files|
      ensures forall i :: 0 <= i < |logged| ==>
                && GetNewFileName(files[i].fileName, namesMap).Ok?
                && logged[i].parent == files[i].parent
                && logged[i].fileName == GetNewFileName(files[i].fileName, namesMap).value
    {
      logged := [];
      var i := 0;
      while i < |files|
        invariant 0 <= i <= |files| && |logged| == i
        invariant forall j :: 0 <= j < i ==>
                    && GetNewFileName(files[j].fileName, namesMap).Ok?
                    && logged[j] == Path(files[j].parent, GetNewFileName(files[j].fileName, namesMap).value)
      {
        var file := files[i];
        var newFileName := GetNewFileName(file.fileName, namesMap);
        if newFileName.Throws? {
          return Throws(newFileName.error), logged;
        }
        var targetPath := Resolve(file, newFileName.value);
        logged := logged + [targetPath];
        i := i + 1;
      }
      r := Ok(true);
    }

    /** `updateMetsFile`: reads the manifest, sets the location of every
        file record to its rewrite and writes the manifest back. A failing
        read or write is caught and reported as false; an exception from a
        rewrite is not caught, so it escapes and nothing is written. */
    method UpdateMetsFile(namesMap: map<string, string>, readFails: bool, writeFails: bool)
      returns (r: Result<bool>)
      modifies this`metsLocations
      ensures readFails ==> r == Ok(false) && metsLocations == old(metsLocations)
      ensures !readFails && RewriteLocations(old(metsLocations), namesMap).Throws? ==>
                && r == Throws(RewriteLocations(old(metsLocations), namesMap).error)
                && metsLocations == old(metsLocations)
      ensures !readFails && RewriteLocations(old(metsLocations), namesMap).Ok? ==>
                && r == Ok(!writeFails)
                && metsLocations == if writeFails then old(metsLocations)
                                    else RewriteLocations(old(metsLocations), namesMap).value
    {
      if readFails {
        return Ok(false);
      }
      var locations := metsLocations;
      var filesList := RewriteEach(locations, Rewriter(namesMap));
      if filesList.Throws? {
        return Throws(filesList.error);
      }
      if writeFails {
        return Ok(false);
      }
      metsLocations := filesList.value;
      r := Ok(true);
    }

    /** `run`: builds the names map from the derivative folder's listing and
        computes the rename targets from a second listing of the same folder.
        `successful` is never cleared, so a run that returns finishes; an
        exception from either step escapes. The manifest is not updated. */
    method Run(mapListing: seq<Path>, renameListing: seq<Path>) returns (r: Result<PluginReturnValue>)
      ensures r.Ok? <==> RunCompletes(newFileNamePrefix, mapListing, renameListing)
      ensures r.Ok? ==> r.value == Finish
      ensures mapListing == renameListing && (forall i :: 0 <= i < |mapListing| ==> HasDot(mapListing[i].fileName)) ==>
                r == Ok(Finish)
    {
      var successful := true;
      var namesMap :- CreateNamesMap(mapListing);
      if mapListing == renameListing {
        UnchangedListingCompletes(newFileNamePrefix, mapListing);
      }
      var renamed, _ := RenameFilesInFolder(renameListing, namesMap);
      if renamed.Throws? {
        return Throws(renamed.error);
      }
      r := Ok(if successful then Finish else Error);
    }

    /** `execute`: runs the step and reports whether it did not end in error. */
    method Execute(mapListing: seq<Path>, renameListing: seq<Path>) returns (r: Result<bool>)
      ensures r.Ok? <==> RunCompletes(newFileNamePrefix, mapListing, renameListing)
      ensures r.Ok? ==> r.value
    {
      var ret :- Run(mapListing, renameListing);
      r := Ok(ret != Error);
    }
  }
}
