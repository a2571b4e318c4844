# Rename files before Rosetta: a verified model of the renaming step

The Goobi workflow step plugin `RenameFilesBeforeRosettaStepPlugin` renames
the derivative images of a process before they are exported to Rosetta. The
new name of a file is the process title without its leading identifier (the
text up to and including its first `_`), then `_`, then the file's old base
name, with its suffix kept. This project models the plugin's renaming
logic in Dafny and proves what it promises.

- `java_string.dfy` (module `JavaString`) models the Java library calls the
  plugin relies on: `indexOf`, `lastIndexOf` (with -1 for "absent"), the two
  `substring` overloads, and the `StringIndexOutOfBoundsException` and
  `NullPointerException` they can raise. Code that may throw returns a
  `Result` (`Ok(value)` or `Throws(exception)`).
- `throwing_loops.dfy` (module `ThrowingLoops`) holds the shape of the
  plugin's loops whose iterations may throw. `RunAll` gives the outcome of a
  loop that stops at the first iteration that throws. `RewriteEach` is that
  loop, written imperatively, updating each element in order.
- `file_naming.dfy` (module `FileNaming`) holds the pure parts:
  - the prefix derived from the process title;
  - splitting a file name at its last `.`;
  - `getNewFileName`;
  - the map `createNamesMap` builds;
  - the rewrite of one metadata-file (METS) location.

  It also holds the lemmas about them: the split is lossless, the
  translation keeps the suffix, the map's keys are exactly the base names,
  the map is injective, and a rewrite keeps the directory prefix.
- `rename_plugin.dfy` (module `RenamePlugin`) models the plugin class.
  - Its fields are the process title, the prefix, and the locations stored
    in the process's METS file.
  - Its methods are `initializeNewFileNamePrefix`, `createNamesMap` (a loop
    filling a map), `renameFilesInFolder` (a loop computing targets),
    `updateMetsFile` (a loop rewriting every location, then writing), `run`
    and `execute`.

Exceptions are part of the model. A file name without `.` makes
`substring(-1)` throw. A base name missing from the map makes `get` return
`null`, so `concat` throws. Neither exception is caught anywhere in the
plugin, so each one escapes `run` and `updateMetsFile`. `updateMetsFile`
catches only the read/write exceptions of the metadata file; it then returns
false.

The model follows this version of the code as it stands:
- There is no temporary folder for name collisions.
- There is no sequential numbering or number-format check: the new name is
  `prefix + "_" + oldBase`.
- There is no pass-through: an unmapped name throws.
- `renameFilesInFolder` moves nothing. It only computes and logs the
  targets.
- `run` never calls `updateMetsFile`, so the model's `Run` leaves the
  stored locations untouched.
- `run` lists the derivative folder twice: once in `createNamesMap` and once
  in `renameFilesInFolder`. `Run` therefore takes the two listings as
  separate parameters.

## Model

| member | source | states |
|---|---|---|
| JavaString.IndexOf | plugin/src/main/java/de/intranda/goobi/plugins/RenameFilesBeforeRosettaStepPlugin.java:107 | `indexOf` is -1 exactly when the character is absent; otherwise it is a position holding the character, with none before it |
| JavaString.LastIndexOf | plugin/src/main/java/de/intranda/goobi/plugins/RenameFilesBeforeRosettaStepPlugin.java:189 | `lastIndexOf` is -1 exactly when the character is absent; otherwise it is a position holding the character, with none after it |
| JavaString.Substring | plugin/src/main/java/de/intranda/goobi/plugins/RenameFilesBeforeRosettaStepPlugin.java:171 | `substring(beginIndex)`: the tail from `beginIndex`, or `StringIndexOutOfBounds` when the index lies outside the string; its uses are stated by `FileNaming.Suffix` and `FileNaming.NewLocationKeepsDirectory` |
| JavaString.SubstringRange | plugin/src/main/java/de/intranda/goobi/plugins/RenameFilesBeforeRosettaStepPlugin.java:169 | `substring(beginIndex, endIndex)`: the slice, or `StringIndexOutOfBounds` unless `0 <= beginIndex <= endIndex <= length`; its uses are stated by `FileNaming.BaseName` and `FileNaming.NewLocationKeepsDirectory` |
| JavaString.LastIndexOfIsUnique | plugin/src/main/java/de/intranda/goobi/plugins/RenameFilesBeforeRosettaStepPlugin.java:189 | any position holding the character with none after it is the one `lastIndexOf` returns |
| ThrowingLoops.RunAll | plugin/src/main/java/de/intranda/goobi/plugins/RenameFilesBeforeRosettaStepPlugin.java:166-175 | a loop whose iterations may throw completes exactly when every iteration does, and then yields every value in order; otherwise it throws the exception of the first iteration that throws |
| ThrowingLoops.RewriteEach | plugin/src/main/java/de/intranda/goobi/plugins/RenameFilesBeforeRosettaStepPlugin.java:166-174 | the loop that updates each record in place, in order, yields exactly what `RunAll` says of the per-record rewrites |
| FileNaming.NewFileNamePrefix | plugin/src/main/java/de/intranda/goobi/plugins/RenameFilesBeforeRosettaStepPlugin.java:107 | the prefix computed from the title; what it is, is stated by `FileNaming.NewFileNamePrefixDropsFirstUnderscore` |
| FileNaming.NewFileNamePrefixDropsFirstUnderscore | plugin/src/main/java/de/intranda/goobi/plugins/RenameFilesBeforeRosettaStepPlugin.java:105-108 | the prefix is a suffix of the title; it is the whole title when the title has no `_`; otherwise it starts right after the first `_` |
| FileNaming.BaseName | plugin/src/main/java/de/intranda/goobi/plugins/RenameFilesBeforeRosettaStepPlugin.java:136 | `substring(0, lastIndexOf("."))` throws `StringIndexOutOfBounds` exactly when the name has no `.`; otherwise it is the text before a `.` that has no `.` after it |
| FileNaming.Suffix | plugin/src/main/java/de/intranda/goobi/plugins/RenameFilesBeforeRosettaStepPlugin.java:190 | `substring(lastIndexOf("."))` throws exactly when the name has no `.`; otherwise it is a tail of the name that starts with `.` and holds no other `.` |
| FileNaming.SplitIsLossless | plugin/src/main/java/de/intranda/goobi/plugins/RenameFilesBeforeRosettaStepPlugin.java:189-191 | base name + suffix == file name |
| FileNaming.SplitOfJoin | plugin/src/main/java/de/intranda/goobi/plugins/RenameFilesBeforeRosettaStepPlugin.java:189-191 | splitting `base + suffix` (a suffix being `.` with no further `.`) gives back `base` and `suffix`, whatever dots `base` holds |
| FileNaming.GetNewFileName | plugin/src/main/java/de/intranda/goobi/plugins/RenameFilesBeforeRosettaStepPlugin.java:188-193 | no `.` throws `StringIndexOutOfBounds`; a base name that is not a key throws `NullPointer`; otherwise the result is `namesMap[base] + suffix` |
| FileNaming.GetNewFileNameKeepsSuffix | plugin/src/main/java/de/intranda/goobi/plugins/RenameFilesBeforeRosettaStepPlugin.java:188-193 | the new name has the old name's suffix, and its base name is the mapped base name |
| FileNaming.NamesMap | plugin/src/main/java/de/intranda/goobi/plugins/RenameFilesBeforeRosettaStepPlugin.java:131-143 | the map the loop fills, one `put` per listed file in order; its keys and values are stated by `FileNaming.NamesMapContents`, its step by `FileNaming.NamesMapOfNextName` |
| FileNaming.NamesMapContents | plugin/src/main/java/de/intranda/goobi/plugins/RenameFilesBeforeRosettaStepPlugin.java:131-143 | the keys of the built map are exactly the base names of the listed files that have a `.`, and each key maps to `prefix + "_" + key` |
| FileNaming.NamesMapOfNextName | plugin/src/main/java/de/intranda/goobi/plugins/RenameFilesBeforeRosettaStepPlugin.java:134-139 | one more listed file adds exactly one `put` of its base name |
| FileNaming.NamesMapIsInjective | plugin/src/main/java/de/intranda/goobi/plugins/RenameFilesBeforeRosettaStepPlugin.java:138-139 | distinct old base names get distinct new names |
| FileNaming.RenameOfListedFile | plugin/src/main/java/de/intranda/goobi/plugins/RenameFilesBeforeRosettaStepPlugin.java:188-193 | translating a file, with a `.`, through the map built from a listing that includes it gives exactly `prefix + "_" + base + suffix` |
| FileNaming.FileNameStartIndex | plugin/src/main/java/de/intranda/goobi/plugins/RenameFilesBeforeRosettaStepPlugin.java:168 | the file-name segment starts right after the last `/`, or at 0 when there is none, and holds no `/` |
| FileNaming.NewLocation | plugin/src/main/java/de/intranda/goobi/plugins/RenameFilesBeforeRosettaStepPlugin.java:167-173 | the rewrite of one record's location; its properties are stated by `FileNaming.NewLocationKeepsDirectory` and `FileNaming.NewLocationOfJoin` |
| FileNaming.NewLocationKeepsDirectory | plugin/src/main/java/de/intranda/goobi/plugins/RenameFilesBeforeRosettaStepPlugin.java:167-173 | a rewritten location is the old directory prefix, kept verbatim, followed by the translated file-name segment; it throws exactly when the translation throws, with the same exception |
| FileNaming.NewLocationOfJoin | plugin/src/main/java/de/intranda/goobi/plugins/RenameFilesBeforeRosettaStepPlugin.java:167-173 | a location `directory + base + suffix` (directory empty or ending in `/`, file name without `/`) becomes `directory + namesMap[base] + suffix` |
| FileNaming.RewriteLocations | plugin/src/main/java/de/intranda/goobi/plugins/RenameFilesBeforeRosettaStepPlugin.java:166-175 | the whole loop over the records; its properties are stated by `FileNaming.RewriteLocationsKeepsRecords` |
| FileNaming.RewriteLocationsKeepsRecords | plugin/src/main/java/de/intranda/goobi/plugins/RenameFilesBeforeRosettaStepPlugin.java:166-175 | rewriting all locations keeps their number and order and each one's directory prefix; it fails exactly when some rewrite throws, with the first such exception |
| RenamePlugin.FileNames | plugin/src/main/java/de/intranda/goobi/plugins/RenameFilesBeforeRosettaStepPlugin.java:135 | one file name per listed path, in listing order |
| RenamePlugin.UnchangedListingCompletes | plugin/src/main/java/de/intranda/goobi/plugins/RenameFilesBeforeRosettaStepPlugin.java:118-121 | if both listings are the same and every name has a `.`, every file translates through the map built from it |
| RenamePlugin.RenameFilesBeforeRosettaStepPlugin.constructor | plugin/src/main/java/de/intranda/goobi/plugins/RenameFilesBeforeRosettaStepPlugin.java:91-92 | after `initialize`, the prefix is the one derived from the process title |
| RenamePlugin.RenameFilesBeforeRosettaStepPlugin.InitializeNewFileNamePrefix | plugin/src/main/java/de/intranda/goobi/plugins/RenameFilesBeforeRosettaStepPlugin.java:105-108 | sets only the prefix field, to the title-derived prefix |
| RenamePlugin.RenameFilesBeforeRosettaStepPlugin.CreateNamesMap | plugin/src/main/java/de/intranda/goobi/plugins/RenameFilesBeforeRosettaStepPlugin.java:131-143 | completes exactly when every listed name has a `.`, and otherwise throws `StringIndexOutOfBounds`; the map it fills is the names map of the listing |
| RenamePlugin.RenameFilesBeforeRosettaStepPlugin.RenameFilesInFolder | plugin/src/main/java/de/intranda/goobi/plugins/RenameFilesBeforeRosettaStepPlugin.java:145-158 | returns true exactly when every file translates, and otherwise throws the first failing file's exception; each computed target keeps its source's directory and carries the translated name; nothing is changed |
| RenamePlugin.RenameFilesBeforeRosettaStepPlugin.UpdateMetsFile | plugin/src/main/java/de/intranda/goobi/plugins/RenameFilesBeforeRosettaStepPlugin.java:160-186 | a failed read returns false with nothing changed; a throwing rewrite escapes with nothing written; otherwise the stored locations become the rewritten ones, unless the write fails, which returns false |
| RenamePlugin.RenameFilesBeforeRosettaStepPlugin.Run | plugin/src/main/java/de/intranda/goobi/plugins/RenameFilesBeforeRosettaStepPlugin.java:110-129 | returns exactly when both steps complete, and then always returns FINISH; one listing read twice, all of whose names have a `.`, always finishes |
| RenamePlugin.RenameFilesBeforeRosettaStepPlugin.Execute | plugin/src/main/java/de/intranda/goobi/plugins/RenameFilesBeforeRosettaStepPlugin.java:233-237 | returns exactly when `run` does, and then returns true |

## Left out

- The plugin lifecycle and UI methods (`getPluginGuiType`, `getPagePath`,
  `getType`, `cancel`, `finish`, `getInterfaceVersion`, `validate`) and
  configuration reading in `initialize`: these are framework glue, with no
  renaming logic.
- `StorageProvider.listFiles` and the `Process` folder lookups: these are
  filesystem and domain calls. Each listing is a parameter (a sequence of
  directory/file-name pairs). The folder fields, which stay `null` when a
  lookup in `initialize` fails, are not modelled.
- The metadata file and its ugh object graph (`Fileformat`,
  `DigitalDocument`, `FileSet`, `ContentFile`): this is an external library.
  - The stored file is modelled as the sequence of its record locations.
  - The caught read and write exceptions become two boolean parameters.
  - The Java loop mutates the `ContentFile` objects of the list that
    `getAllFiles()` returns. The model instead copies the stored locations
    into a local sequence (`UpdateMetsFile`'s `locations`), updates that
    sequence element by element and assigns the result back to the field,
    so aliasing between the records and other objects is not modelled.
  - A rewrite that throws stops the loop before the write, so the stored
    file keeps its old locations. The half-updated in-memory records are
    discarded and not modelled.
- Logging (`log.info`, `log.debug`) and `printStackTrace`: these have no
  effect on results.
- `Path.resolve` when the new name contains a separator: the model keeps the
  name as one segment.
- Java strings are UTF-16 code-unit sequences: they are modelled as
  sequences of `char`, with no surrogate pairs or normalisation.
- A `null` process title: `processTitle.indexOf` in
  `initializeNewFileNamePrefix` would then throw `NullPointerException`
  inside `initialize`. The model takes the title as a string, which is never
  `null`.
- The framework's other `PluginReturnValue` constants: `run` never produces
  them.
- Collision-safe renaming through a temporary folder, sequential numbering,
  number-format validation and pass-through of unmapped files: this code
  does not have them.
