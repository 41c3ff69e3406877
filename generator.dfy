/**
  The processor itself: `main` builds the manifest record, makes sure the output
  directory exists, and writes the record's YAML text to the target path only
  when no file is there yet (created) or the file's digest differs from the
  record's (updated); otherwise it writes nothing (unchanged).
 */
module Generator {
  import opened Wrappers
  import opened Values
  import opened FileSystem
  import opened Manifest

  /** Which of the three branches of `main` was taken. */
  datatype Outcome = Created | Updated | Unchanged

  /** Everything a run reads or changes: the environment, the regular files, the directories. */
  datatype State = State(env: Env, files: map<Path, Bytes>, dirs: set<Path>)

  /** What a run returns and the state it leaves. */
  datatype Step = Step(result: Result<Outcome, Error>, after: State)

  /** `os.path.join(manifest_output_path, manifest_output_filename)`, when both are strings. */
  function TargetPath(env: Env): Option<Path> {
    var outDir := EnvGet(env, "manifest_output_path", Str(""));
    var name := EnvGet(env, "manifest_output_filename", Str(""));
    if outDir.Str? && name.Str? then Some(Join(outDir.s, name.s)) else None
  }

  /** The value `main` stores under `manifest_dump`. */
  function ManifestDump(lib: Library, record: Fields): Value {
    Str(lib.jsonDump(Dict(record)))
  }

  /** One run of `main`, as a function of the state it starts from. */
  function Sync(lib: Library, s: State): Step {
    match ManifestOf(lib, s.env, s.files)
    case Err(e) => Step(Err(e), s)
    case Ok(record) => Publish(lib, s, record)
  }

  /** The second half of `main`, once `record` is built: the directory, the three branches, the dump. */
  function Publish(lib: Library, s: State, record: Fields): Step {
    var outDir := EnvGet(s.env, "manifest_output_path", Str(""));
    if !outDir.Str? then Step(Err(NotAPath(outDir)), s)
    else
      var dirs := AfterMakeDirectory(s.files, s.dirs, outDir.s);
      var name := EnvGet(s.env, "manifest_output_filename", Str(""));
      if !name.Str? then Step(Err(NotAPath(name)), s.(dirs := dirs))
      else
        var full := Join(outDir.s, name.s);
        var text := lib.yamlDump(Dict(record));
        var env := s.env["manifest_dump" := ManifestDump(lib, record)];
        if full in s.files then
          if Sha256OfRecord(lib, record) == lib.sha256Hex(s.files[full]) then
            Step(Ok(Unchanged), State(env, s.files, dirs))
          else
            Step(Ok(Updated), State(env, s.files[full := text], dirs))
        else if !Writable(dirs, full) then
          Step(Err(CannotWrite(full)), s.(dirs := dirs))
        else
          Step(Ok(Created), State(env, s.files[full := text], dirs))
  }

  /** The path `main` writes to in state `s`, when both of its parts are strings. */
  function Target(s: State): Path
    requires TargetPath(s.env).Some?
  {
    TargetPath(s.env).value
  }

  /** The directories after the `make_directory` call, when the output directory is a string. */
  function DirsAfter(s: State): set<Path>
    requires EnvGet(s.env, "manifest_output_path", Str("")).Str?
  {
    AfterMakeDirectory(s.files, s.dirs, EnvGet(s.env, "manifest_output_path", Str("")).s)
  }

  /**
    A successful write-out sets `manifest_dump`, leaves the target holding a
    file with the record's digest, and touches no other file.
   */
  lemma PublishFrame(lib: Library, s: State, record: Fields)
    requires Publish(lib, s, record).result.Ok?
    ensures TargetPath(s.env).Some? && EnvGet(s.env, "manifest_output_path", Str("")).Str?
    ensures var t := Publish(lib, s, record).after;
            && t.env == s.env["manifest_dump" := ManifestDump(lib, record)]
            && t.dirs == DirsAfter(s)
            && Target(s) in t.files
            && lib.sha256Hex(t.files[Target(s)]) == Sha256OfRecord(lib, record)
            && forall p :: p != Target(s) ==> (p in t.files <==> p in s.files) && (p in s.files ==> t.files[p] == s.files[p])
  {
    var outDir := EnvGet(s.env, "manifest_output_path", Str(""));
    var name := EnvGet(s.env, "manifest_output_filename", Str(""));
    assert outDir.Str? && name.Str?;
    var full := Join(outDir.s, name.s);
    var text := lib.yamlDump(Dict(record));
    var env := s.env["manifest_dump" := ManifestDump(lib, record)];
    var same := full in s.files && Sha256OfRecord(lib, record) == lib.sha256Hex(s.files[full]);
    var files := if same then s.files else s.files[full := text];
    assert Publish(lib, s, record).after == State(env, files, DirsAfter(s));
  }

  /** A run never makes a path both a file and a directory. */
  lemma SyncPreservesWellFormed(lib: Library, s: State)
    requires WellFormed(s.files, s.dirs)
    ensures var t := Sync(lib, s).after; WellFormed(t.files, t.dirs)
  {
    if ManifestOf(lib, s.env, s.files).Ok? {
      var record := ManifestOf(lib, s.env, s.files).value;
      assert Sync(lib, s) == Publish(lib, s, record);
      PublishPreservesWellFormed(lib, s, record);
    }
  }

  /** Writing out a record never makes a path both a file and a directory. */
  lemma PublishPreservesWellFormed(lib: Library, s: State, record: Fields)
    requires WellFormed(s.files, s.dirs)
    ensures var t := Publish(lib, s, record).after; WellFormed(t.files, t.dirs)
  {
    var outDir := EnvGet(s.env, "manifest_output_path", Str(""));
    if outDir.Str? {
      var dirs := AfterMakeDirectory(s.files, s.dirs, outDir.s);
      var name := EnvGet(s.env, "manifest_output_filename", Str(""));
      if name.Str? {
        var full := Join(outDir.s, name.s);
        if full in s.files || Writable(dirs, full) {
          WriteKeepsWellFormed(s.files, dirs, full, lib.yamlDump(Dict(record)));
        }
      }
    }
  }

  /**
    The three branches of `main`: with the record built and the target path
    formed, the run creates the file when none is there, leaves it when its
    digest matches the record's, and rewrites it otherwise; a missing target
    that cannot be opened for writing is the only failure left.
   */
  lemma SyncOutcomes(lib: Library, s: State)
    requires ManifestOf(lib, s.env, s.files).Ok? && TargetPath(s.env).Some?
    ensures var step := Sync(lib, s);
            var record := ManifestOf(lib, s.env, s.files).value;
            var full := Target(s);
            var same := full in s.files && Sha256OfRecord(lib, record) == lib.sha256Hex(s.files[full]);
            && (step.result == Ok(Created) <==> full !in s.files && Writable(DirsAfter(s), full))
            && (step.result == Ok(Unchanged) <==> same)
            && (step.result == Ok(Updated) <==> full in s.files && !same)
            && (step.result.Err? <==> full !in s.files && !Writable(DirsAfter(s), full))
            && (step.result.Err? ==> step.result.error == CannotWrite(full))
            && step.after.dirs == DirsAfter(s)
            && (step.result.Ok? ==>
                  && step.after.env == s.env["manifest_dump" := ManifestDump(lib, record)]
                  && step.after.files == if same then s.files else s.files[full := lib.yamlDump(Dict(record))])
  {
  }

  /**
    A target path ending in a separator (an empty `manifest_output_filename`,
    say) names a directory: `open` refuses it, so the run fails after the
    output directory was made, and no file is written.
   */
  lemma SyncTrailingSeparatorFails(lib: Library, s: State)
    requires WellFormed(s.files, s.dirs)
    requires ManifestOf(lib, s.env, s.files).Ok? && TargetPath(s.env).Some? && EndsWithSeparator(Target(s))
    ensures EnvGet(s.env, "manifest_output_path", Str("")).Str?
    ensures Sync(lib, s) == Step(Err(CannotWrite(Target(s))), s.(dirs := DirsAfter(s)))
  {
    var record := ManifestOf(lib, s.env, s.files).value;
    assert Sync(lib, s) == Publish(lib, s, record);
    assert Target(s) !in s.files;
  }

  /** A failed run changes neither the files nor the environment; only the output directory may have been made. */
  lemma SyncErrorKeepsFilesAndEnv(lib: Library, s: State)
    requires Sync(lib, s).result.Err?
    ensures Sync(lib, s).after.files == s.files
    ensures Sync(lib, s).after.env == s.env
    ensures Sync(lib, s).after.dirs == s.dirs
            || (EnvGet(s.env, "manifest_output_path", Str("")).Str? && Sync(lib, s).after.dirs == DirsAfter(s))
  {
    if ManifestOf(lib, s.env, s.files).Ok? {
      var record := ManifestOf(lib, s.env, s.files).value;
      assert Sync(lib, s) == Publish(lib, s, record);
      PublishErrorKeepsFilesAndEnv(lib, s, record);
    }
  }

  /** A failed write-out changes no file and no environment entry; only the output directory may have been made. */
  lemma PublishErrorKeepsFilesAndEnv(lib: Library, s: State, record: Fields)
    requires Publish(lib, s, record).result.Err?
    ensures var t := Publish(lib, s, record).after;
            && t.files == s.files && t.env == s.env
            && (t.dirs == s.dirs || (EnvGet(s.env, "manifest_output_path", Str("")).Str? && t.dirs == DirsAfter(s)))
  {
    var outDir := EnvGet(s.env, "manifest_output_path", Str(""));
    if outDir.Str? {
      var dirs := AfterMakeDirectory(s.files, s.dirs, outDir.s);
      var name := EnvGet(s.env, "manifest_output_filename", Str(""));
      if name.Str? {
        var full := Join(outDir.s, name.s);
        assert full !in s.files && !Writable(dirs, full);
        assert Publish(lib, s, record).after == s.(dirs := dirs);
      } else {
        assert Publish(lib, s, record).after == s.(dirs := dirs);
      }
    }
  }

  /**
    After a successful run the target holds a file whose digest is the
    record's, and every other file is as it was.
   */
  lemma SyncTargetHoldsRecord(lib: Library, s: State)
    requires Sync(lib, s).result.Ok?
    ensures ManifestOf(lib, s.env, s.files).Ok? && TargetPath(s.env).Some?
    ensures var t := Sync(lib, s).after;
            && Target(s) in t.files
            && lib.sha256Hex(t.files[Target(s)]) == Sha256OfRecord(lib, ManifestOf(lib, s.env, s.files).value)
            && forall p :: p != Target(s) ==> (p in t.files <==> p in s.files) && (p in s.files ==> t.files[p] == s.files[p])
  {
    var record := ManifestOf(lib, s.env, s.files).value;
    assert Sync(lib, s) == Publish(lib, s, record);
    PublishFrame(lib, s, record);
  }

  /** A target already holding the record's exact YAML text is left alone. */
  lemma SyncUnchangedOnEqualBytes(lib: Library, s: State)
    requires ManifestOf(lib, s.env, s.files).Ok? && TargetPath(s.env).Some?
    requires Target(s) in s.files && s.files[Target(s)] == lib.yamlDump(Dict(ManifestOf(lib, s.env, s.files).value))
    ensures Sync(lib, s).result == Ok(Unchanged)
  {
  }

  /** An update really changes the file's bytes. */
  lemma SyncUpdatedChangesBytes(lib: Library, s: State)
    requires Sync(lib, s).result == Ok(Updated)
    ensures ManifestOf(lib, s.env, s.files).Ok? && TargetPath(s.env).Some? && Target(s) in s.files
    ensures s.files[Target(s)] != lib.yamlDump(Dict(ManifestOf(lib, s.env, s.files).value))
    ensures Sync(lib, s).after.files[Target(s)] == lib.yamlDump(Dict(ManifestOf(lib, s.env, s.files).value))
  {
  }

  /** The file `main` hashes for the entries is not the manifest it writes. */
  predicate DestinationIsNotTarget(env: Env) {
    TargetPath(env).Some? ==> EnvGet(env, "destination_path", Str("")) != Str(TargetPath(env).value)
  }

  /**
    Publishing the same record again on the state a successful publish left
    reports the manifest unchanged and changes nothing.
   */
  lemma PublishIdempotent(lib: Library, s: State, record: Fields)
    requires Publish(lib, s, record).result.Ok?
    ensures var t := Publish(lib, s, record).after;
            Publish(lib, t, record) == Step(Ok(Unchanged), t)
  {
    var t := Publish(lib, s, record).after;
    var outDir := EnvGet(s.env, "manifest_output_path", Str(""));
    var name := EnvGet(s.env, "manifest_output_filename", Str(""));
    assert outDir.Str? && name.Str?;
    var dirs := AfterMakeDirectory(s.files, s.dirs, outDir.s);
    var full := Join(outDir.s, name.s);
    var text := lib.yamlDump(Dict(record));
    var env := s.env["manifest_dump" := ManifestDump(lib, record)];
    var same := full in s.files && Sha256OfRecord(lib, record) == lib.sha256Hex(s.files[full]);
    var files := if same then s.files else s.files[full := text];
    assert t == State(env, files, dirs);
    assert EnvGet(env, "manifest_output_path", Str("")) == outDir by {
      EnvGetOther(s.env, "manifest_dump", ManifestDump(lib, record), "manifest_output_path", Str(""));
    }
    assert EnvGet(env, "manifest_output_filename", Str("")) == name by {
      EnvGetOther(s.env, "manifest_dump", ManifestDump(lib, record), "manifest_output_filename", Str(""));
    }
    assert AfterMakeDirectory(files, dirs, outDir.s) == dirs;
    assert full in files && Sha256OfRecord(lib, record) == lib.sha256Hex(files[full]) by {
      if !same {
        assert files[full] == text;
      }
    }
    assert env["manifest_dump" := ManifestDump(lib, record)] == env;
  }

  /**
    Running `main` a second time, on the state the first successful run left,
    builds the same record and changes nothing: the manifest is reported
    unchanged and the state stays as it is.
   */
  lemma SyncIdempotent(lib: Library, s: State)
    requires Sync(lib, s).result.Ok?
    requires DestinationIsNotTarget(s.env)
    ensures var t := Sync(lib, s).after;
            Sync(lib, t) == Step(Ok(Unchanged), t)
  {
    var record := ManifestOf(lib, s.env, s.files).value;
    var t := Publish(lib, s, record).after;
    assert Sync(lib, s) == Publish(lib, s, record);
    assert ManifestOf(lib, t.env, t.files) == Ok(record) by {
      PublishFrame(lib, s, record);
      DumpIsNotAnInput();
      AgreeOnUpdate(s.env, "manifest_dump", ManifestDump(lib, record), ManifestInputs);
      assert DestinationSha256(lib, s.env, s.files) == DestinationSha256(lib, t.env, t.files) by {
        var dest := EnvGet(s.env, "destination_path", Str(""));
        EnvGetOther(s.env, "manifest_dump", ManifestDump(lib, record), "destination_path", Str(""));
        assert dest.Str? ==> dest.s != Target(s);
      }
      ManifestInputsOnly(lib, s.env, t.env, s.files, t.files);
    }
    assert Sync(lib, t) == Publish(lib, t, record);
    PublishIdempotent(lib, s, record);
  }

  class WingetManifestGenerator {
    var env: Env
    const fs: Store
    const lib: Library

    ghost predicate Valid()
      reads this, fs
    {
      fs.Valid()
    }

    function Snapshot(): State
      reads this, fs
    {
      State(env, fs.files, fs.dirs)
    }

    constructor (env0: Env, fs0: Store, lib0: Library)
      requires fs0.Valid()
      ensures Valid()
      ensures env == env0 && fs == fs0 && lib == lib0
    {
      env, fs, lib := env0, fs0, lib0;
    }

    /** The keys `main` sets before `InstallerType`: the required ones, then each optional one whose value is non-empty. */
    method ManifestHeader() returns (head: Fields)
      ensures head == RecordHead(env)
    {
      var licenseUrl := EnvGet(env, "license_url", Str(""));
      var appMoniker := EnvGet(env, "app_moniker", Str(""));
      var tags := EnvGet(env, "tags", Str(""));
      head := [
        ("Id", EnvGet(env, "package_id", Str(""))),
        ("Version", EnvGet(env, "version", Str(""))),
        ("Name", EnvGet(env, "application_name", Str(""))),
        ("Publisher", EnvGet(env, "publisher", Str(""))),
        ("License", EnvGet(env, "license_type", Str("")))];
      if Truthy(licenseUrl) {
        head := head + [("LicenseUrl", licenseUrl)];
      }
      if Truthy(appMoniker) {
        head := head + [("AppMoniker", appMoniker)];
      }
      if Truthy(tags) {
        head := head + [("Tags", tags)];
      }
    }

    /** The `installer_metadata` dictionary the loop builds for one installer. */
    method InstallerMetadata(installer: Fields, sha: string) returns (entry: Fields)
      ensures entry == InstallerEntry(env, installer, sha)
    {
      entry := [
        ("Arch", DictGet(installer, "architecture", Str(""))),
        ("Url", DictGet(installer, "download_url", Str(""))),
        ("Sha256", Str(sha))];
      if Truthy(DictGet(installer, "language", Str(""))) {
        entry := entry + [("Language", EnvGet(env, "language", Str("")))];
      }
      if Truthy(DictGet(installer, "switches", Dict([]))) {
        entry := entry + [("Switches", DictGet(installer, "switches", Dict([])))];
      }
      if Truthy(DictGet(installer, "scope", Str(""))) {
        entry := entry + [("Scope", DictGet(installer, "scope", Str("")))];
      }
    }

    /** The record-building half of `main`: the required and optional keys, then the installer loop. */
    method BuildManifest() returns (r: Result<Fields, Error>)
      ensures r == ManifestOf(lib, env, fs.files)
    {
      var record := ManifestHeader();
      record := record + [("InstallerType", EnvGet(env, "installer_type", Str("")))];
      ghost var head := record;
      record := record + [("Installers", List([]))];
      var installers: seq<Value> := [];
      var items := Iterate(EnvGet(env, "installers", List([])));
      ghost var sha0 := DestinationSha256(lib, env, fs.files);
      var i := 0;
      while i < |items|
        invariant 0 <= i <= |items|
        invariant EntriesOf(env, items[..i], sha0) == Ok(installers)
        invariant record == head + [("Installers", List(installers))]
      {
        var installer := items[i];
        assert items[..i + 1][..i] == items[..i];
        if !installer.Dict? {
          EntriesOfErrPropagates(env, items, i + 1, sha0);
          return Err(InstallerNotMapping(i));
        }
        var sha := Sha256OfFile(lib, fs.files, EnvGet(env, "destination_path", Str("")));
        if sha.Err? {
          EntriesOfErrPropagates(env, items, i + 1, sha0);
          return Err(sha.error);
        }
        var entry := InstallerMetadata(installer.fields, sha.value);
        installers := installers + [Dict(entry)];
        record := record[|record| - 1 := ("Installers", List(installers))];
        i := i + 1;
      }
      assert items[..i] == items;
      assert record == RecordHead(env)
        + [("InstallerType", EnvGet(env, "installer_type", Str(""))), ("Installers", List(installers))];
      r := Ok(record);
    }

    /** `main`: build the record, then create, update or leave the manifest file, then publish the dump. */
    method Run() returns (r: Result<Outcome, Error>)
      requires Valid()
      modifies this, fs
      ensures Valid()
      ensures Step(r, Snapshot()) == Sync(lib, old(Snapshot()))
    {
      var built := BuildManifest();
      if built.Err? {
        return Err(built.error);
      }
      var record := built.value;
      var outDir := EnvGet(env, "manifest_output_path", Str(""));
      if !outDir.Str? {
        return Err(NotAPath(outDir));
      }
      fs.MakeDirectory(outDir.s);
      var name := EnvGet(env, "manifest_output_filename", Str(""));
      if !name.Str? {
        return Err(NotAPath(name));
      }
      var full := Join(outDir.s, name.s);
      if fs.CheckPathExists(full, "file") {
        var existing := Sha256OfFile(lib, fs.files, Str(full));
        var candidate := Sha256OfRecord(lib, record);
        if candidate == existing.value {
          r := Ok(Unchanged);
        } else {
          fs.Write(full, lib.yamlDump(Dict(record)));
          r := Ok(Updated);
        }
      } else {
        if !Writable(fs.dirs, full) {
          return Err(CannotWrite(full));
        }
        fs.Write(full, lib.yamlDump(Dict(record)));
        r := Ok(Created);
      }
      env := env["manifest_dump" := ManifestDump(lib, record)];
    }
  }
}
