# WingetManifestGenerator, modelled in Dafny

This project models the `WingetManifestGenerator` AutoPkg processor. Its `main`
does two things:

1. It builds a winget manifest record from the processor's environment. The
   record has five required keys, three optional ones and the installer type,
   then one entry per installer dictionary. Every entry carries the SHA-256 of
   the downloaded file at `destination_path`.
2. It writes the record's YAML text to `manifest_output_path/manifest_output_filename`.
   - If no regular file is there, the file is created.
   - If a file is there and its digest differs from the record's, the file is
     rewritten.
   - If the digests are equal, nothing is written.

   Either way, the JSON dump of the record is stored under `manifest_dump`.

Layout:

- `values.dfy` (`Values`) models the Python values the processor handles.
  - Strings, lists and insertion-ordered dictionaries.
  - Truthiness, `dict.get` with a default.
  - What a `for` loop visits.
- `filesystem.dfy` (`FileSystem`) models the file store.
  - The `Store` class, with regular files (path to bytes) and directories.
  - POSIX `os.path.join`, `make_directory`, `check_path_exists` and writing a file.
- `manifest.dfy` (`Manifest`) holds the record as a function of the
  environment and the files (`ManifestOf`), with its shape proved as lemmas.
  - Key order, the optional-key rule, the installer entries and the digests.
  - The foreign YAML, SHA-256 and JSON calls are a `Library` value of three
    fixed but unknown functions.
- `generator.dfy` (`Generator`) holds the class `WingetManifestGenerator`.
  - It has the environment, the store and the library.
  - `BuildManifest` is the record-building loop of `main`; it is proved equal to `ManifestOf`.
  - `Run` is `main`; it is proved to leave the state that the function `Sync` describes.
  - Lemmas about `Sync` state the three branches, the frame and idempotence.

A failing Python call becomes an `Error`, and the run stops there:

- `installer.get` on a non-dictionary becomes `InstallerNotMapping`.
- A path argument that is not a string becomes `NotAPath`.
- Opening a missing file becomes `CannotRead`.
- Opening a directory, the empty path or a path ending in `/` for writing
  becomes `CannotWrite`.

An entry's `Language` is set when the *installer's* `language` is non-empty. Its
value, however, is the *environment's* `language`, as the code does at
SharedProcessors/WingetManifestGenerator.py:176-177. `EntryOptionalFields` states
this as written.

## Model

| member | source | states |
|---|---|---|
| Values.Iterate | SharedProcessors/WingetManifestGenerator.py:168 | the loop visits nothing exactly when the `installers` value is empty, a list's own items otherwise, and only strings when the value is not a list |
| FileSystem.Join | SharedProcessors/WingetManifestGenerator.py:186-189 | the joined path ends with the file name; it starts with the directory unless the name is absolute; a separator follows a directory that lacks one; nothing else is added, so an absolute name is the whole result |
| FileSystem.AfterMakeDirectory | SharedProcessors/WingetManifestGenerator.py:144-150 | `mkdir` only adds the requested directory; it does so unless the path is empty or a regular file is in the way (the swallowed `OSError`); no path becomes both file and directory |
| FileSystem.Store.MakeDirectory | SharedProcessors/WingetManifestGenerator.py:144-150 | the store's directories become `AfterMakeDirectory` of the old ones, and the files are untouched |
| FileSystem.Store.Write | SharedProcessors/WingetManifestGenerator.py:209-211 | writing a non-empty path that is not a directory and does not end in `/` replaces that one file's bytes and nothing else; the store stays well formed (no path is both file and directory, no file path ends in `/`) |
| FileSystem.Store.CheckPathExists | SharedProcessors/WingetManifestGenerator.py:132-142 | with kind `directory` the answer is whether a directory is at the path, otherwise whether a regular file is; in a well-formed store a path reported as a file is not a directory and can be opened for writing |
| Manifest.Sha256OfFile | SharedProcessors/WingetManifestGenerator.py:118-125 | the digest is returned exactly when the argument is a string naming a regular file, and it is the digest of that file's whole contents; a non-string gives `NotAPath`, a missing file `CannotRead` |
| Manifest.Sha256OfRecord | SharedProcessors/WingetManifestGenerator.py:127-130 | any file holding the record's YAML bytes has, by `generate_sha256_of_file`, exactly the digest `generate_sha256_of_bytes` gives the record |
| Manifest.EntriesOfOk | SharedProcessors/WingetManifestGenerator.py:167-183 | the installer loop succeeds iff every item is a dictionary and, when there is any item, the destination file is readable; it then yields one entry per item, in order, each built from that item |
| Manifest.EntriesOfFirstError | SharedProcessors/WingetManifestGenerator.py:168-175 | a failing loop reports the error of the first failing iteration: the non-dictionary item, or the unreadable destination file |
| Manifest.EntriesOfErrPropagates | SharedProcessors/WingetManifestGenerator.py:168-183 | once the loop fails on a prefix of the items, the whole loop fails with the same error |
| Manifest.EntriesOfAgree | SharedProcessors/WingetManifestGenerator.py:168-183 | the entries read the environment only through `language` |
| Manifest.ManifestInputsOnly | SharedProcessors/WingetManifestGenerator.py:154-183 | the record is built afresh: two runs that agree on the twelve input keys and on the destination digest build the same record, whatever else they hold |
| Manifest.ManifestOkIff | SharedProcessors/WingetManifestGenerator.py:167-183 | the record is built exactly when every installer is a dictionary and, if there is one, the destination file can be read |
| Manifest.HeaderKeys | SharedProcessors/WingetManifestGenerator.py:154-165 | the header keys are `Id, Version, Name, Publisher, License`, then `LicenseUrl`, `AppMoniker`, `Tags`, each exactly when its value is truthy |
| Manifest.HeadKeys | SharedProcessors/WingetManifestGenerator.py:154-165 | the same key list, with each optional key decided by the environment's value |
| Manifest.ManifestKeyOrder | SharedProcessors/WingetManifestGenerator.py:154-167 | the record's keys, in order: the five required ones, the optional ones that are set, `InstallerType`, `Installers` |
| Manifest.RecordKeysDistinct | SharedProcessors/WingetManifestGenerator.py:154-167 | whichever optional keys are set, the record's key list has no duplicate |
| Manifest.ManifestKeysDistinct | SharedProcessors/WingetManifestGenerator.py:154-167 | no key of the record occurs twice |
| Manifest.ManifestRequiredFields | SharedProcessors/WingetManifestGenerator.py:155-167 | each required key holds the environment's value, or "" when the key is missing; `Installers` holds the loop's entries |
| Manifest.HeaderLicenseUrl | SharedProcessors/WingetManifestGenerator.py:160-161 | `LicenseUrl` holds its value when that value is truthy and is absent otherwise |
| Manifest.HeaderAppMoniker | SharedProcessors/WingetManifestGenerator.py:162-163 | `AppMoniker` holds its value when that value is truthy and is absent otherwise |
| Manifest.HeaderTags | SharedProcessors/WingetManifestGenerator.py:164-165 | `Tags` holds its value when that value is truthy and is absent otherwise |
| Manifest.ManifestOptionalFields | SharedProcessors/WingetManifestGenerator.py:160-165 | in the record, `LicenseUrl`, `AppMoniker` and `Tags` hold the environment's value when it is non-empty, and are absent, not empty, otherwise |
| Manifest.EntryKeyOrder | SharedProcessors/WingetManifestGenerator.py:169-181 | an entry's keys are `Arch, Url, Sha256`, then whichever of `Language, Switches, Scope` the installer sets, in that order |
| Manifest.EntryFixedFields | SharedProcessors/WingetManifestGenerator.py:169-175 | `Arch` and `Url` hold the installer's `architecture` and `download_url` (default ""); `Sha256` holds the digest |
| Manifest.EntryOptionalFields | SharedProcessors/WingetManifestGenerator.py:176-181 | `Switches` and `Scope` follow the optional-key rule on the installer's values; `Language` is present iff the installer's `language` is non-empty, and holds the environment's `language` |
| Manifest.ManifestInstallers | SharedProcessors/WingetManifestGenerator.py:167-183 | `Installers` has one entry per visited installer, in order, each built from that installer and the destination digest |
| Manifest.AllEntriesShareSha256 | SharedProcessors/WingetManifestGenerator.py:172-174 | every entry's `Sha256` is the digest of the one file at `destination_path` |
| Generator.SyncPreservesWellFormed | SharedProcessors/WingetManifestGenerator.py:185-219 | a run never makes a path both a regular file and a directory |
| Generator.SyncOutcomes | SharedProcessors/WingetManifestGenerator.py:185-221 | once the record is built: created iff no file is at the target and it can be opened; unchanged iff a file is there with the record's digest; updated iff a file is there with another digest; otherwise `CannotWrite` (a directory, or a path ending in `/`). Files change only at the target, and only when not unchanged; `manifest_dump` is set on success |
| Generator.SyncTrailingSeparatorFails | SharedProcessors/WingetManifestGenerator.py:185-211 | a target ending in `/` (e.g. an empty `manifest_output_filename`) fails with `CannotWrite` after the output directory is made, and no file is written |
| Generator.SyncErrorKeepsFilesAndEnv | SharedProcessors/WingetManifestGenerator.py:152-221 | a failed run changes no file and no environment entry; the directories are unchanged, or, when `manifest_output_path` is a string, they are exactly those after making that directory |
| Generator.PublishErrorKeepsFilesAndEnv | SharedProcessors/WingetManifestGenerator.py:185-221 | a failed write-out changes no file and no environment entry, and changes the directories only by making the output directory |
| Generator.PublishPreservesWellFormed | SharedProcessors/WingetManifestGenerator.py:185-219 | writing out a record keeps the store well formed |
| Generator.SyncTargetHoldsRecord | SharedProcessors/WingetManifestGenerator.py:194-219 | after a successful run the target is a file whose digest is the record's, and every other file is as it was |
| Generator.SyncUnchangedOnEqualBytes | SharedProcessors/WingetManifestGenerator.py:198-203 | a target already holding the record's YAML bytes is reported unchanged |
| Generator.SyncUpdatedChangesBytes | SharedProcessors/WingetManifestGenerator.py:204-212 | an update happens only when the old bytes differ from the record's YAML, and leaves the YAML there |
| Generator.PublishFrame | SharedProcessors/WingetManifestGenerator.py:185-221 | a successful write-out sets `manifest_dump` to the record's JSON and touches no file except the target |
| Generator.PublishIdempotent | SharedProcessors/WingetManifestGenerator.py:185-221 | writing out the same record again on the state it left reports unchanged and changes nothing |
| Generator.SyncIdempotent | SharedProcessors/WingetManifestGenerator.py:152-221 | a second run on the state a successful run left builds the same record, takes the unchanged branch and leaves the state as it is (when the downloaded file is not the manifest itself) |
| Generator.WingetManifestGenerator.ManifestHeader | SharedProcessors/WingetManifestGenerator.py:154-165 | the header assignments yield `RecordHead`, whose keys and values are stated by the lemmas above |
| Generator.WingetManifestGenerator.InstallerMetadata | SharedProcessors/WingetManifestGenerator.py:169-181 | the `installer_metadata` dictionary is `InstallerEntry` of the installer and digest |
| Generator.WingetManifestGenerator.BuildManifest | SharedProcessors/WingetManifestGenerator.py:153-183 | the assignments and the installer loop build exactly `ManifestOf` of the environment and files; on failure they raise the first iteration's error |
| Generator.WingetManifestGenerator.Run | SharedProcessors/WingetManifestGenerator.py:152-221 | `main` leaves the environment, files and directories that `Sync` describes, returns its outcome, and keeps the store well formed |

## Left out

- YAML emission (PyYAML with `IndentDumper`), SHA-256 and `json.dumps` are not
  implemented. They are the three fixed functions of `Library`, and nothing is
  assumed about them beyond being functions.
- The 4096-byte chunked read in `generate_sha256_of_file` is collapsed to the
  digest of the whole file; streaming does not change the value.
- The write is a plain truncate-and-write. No atomicity is modelled, and no
  concurrent writer.
- The text-mode write by `yaml.dump(record, f)` is taken to produce the same bytes as
  `yaml.dump(record).encode("utf-8")`. This assumes a UTF-8 locale, which the
  source does not check.
- FileSystem.AfterMakeDirectory: creates only the named directory. The missing
  parents that `parents=True` would create are not added, and a regular file at
  an ancestor does not block it, because the store has no notion of a parent.
- FileSystem.Store.MakeDirectory: the same gap as AfterMakeDirectory, whose
  result it stores.
- Generator.SyncOutcomes: the store has no notion of a path's parent. So a target
  whose parent directory is missing, or is a regular file, is reported `Created`.
  The source's `open` raises there (`FileNotFoundError`, `NotADirectoryError`);
  for example when `manifest_output_path` names a regular file. Permission
  errors are not modelled either.
- Generator.WingetManifestGenerator.Run: the same gap as SyncOutcomes, since it
  leaves the state that `Sync` describes. A target whose parent is missing or is
  a regular file is reported `Created`, and permission errors are not modelled.
- Paths are plain strings: `.`, `..`, repeated separators and symbolic links are
  not resolved. So two spellings of one file are two paths here.
- Values other than strings, lists and dictionaries (numbers, booleans, `None`)
  are not modelled.
- The `self.output` log lines, and the `input_variables` / `output_variables`
  tables read by the AutoPkg host, are not modelled.
- Generator.SyncIdempotent: it requires that `destination_path` is not the
  manifest's own path. If it is, writing the manifest changes the digest that
  the next run's entries carry.
- SharedProcessors/WingetYamlGenerator.py and EndNote/scripts/preinstall.py are
  not part of this model. The first fails at its first assignment (it uses an
  unbound `manifest_template`), and the second does not parse.
