/**
  The winget manifest record that `main` builds from the environment, stated as
  functions of the environment and the file system, with the properties of its
  shape: key order, conditional keys, one installer entry per input installer.
 */
module Manifest {
  import opened Wrappers
  import opened Values
  import opened FileSystem

  /**
    The foreign library calls: `yaml.dump(…, sort_keys=False, Dumper=IndentDumper)`
    encoded as UTF-8, `hashlib.sha256(…).hexdigest()`, and `json.dumps(…, indent=4)`.
    Each is some fixed function; nothing else is assumed about them.
   */
  datatype Library = Library(yamlDump: Value -> Bytes, sha256Hex: Bytes -> string, jsonDump: Value -> string)

  /** The exceptions that abort a run. */
  datatype Error =
    | InstallerNotMapping(index: nat)  // `installer.get` on an element that is not a dictionary
    | NotAPath(value: Value)           // a path argument that is not a string
    | CannotRead(path: Path)           // `open(path, "rb")` where no regular file exists
    | CannotWrite(path: Path)          // `open(path, "w")` on a directory or on the empty path

  /** Every environment key that the manifest record is built from. */
  const ManifestInputs: set<string> := {
    "package_id", "version", "application_name", "publisher", "license_type",
    "license_url", "app_moniker", "tags", "installer_type", "installers",
    "destination_path", "language"
  }

  /** The output key `manifest_dump` is not one of the keys the record is built from. */
  lemma DumpIsNotAnInput()
    ensures "manifest_dump" !in ManifestInputs
  {
  }

  /** `generate_sha256_of_file`: the digest of the whole file at `path`. */
  function Sha256OfFile(lib: Library, files: map<Path, Bytes>, path: Value): (r: Result<string, Error>)
    ensures r.Ok? <==> path.Str? && path.s in files
    ensures r.Ok? ==> r.value == lib.sha256Hex(files[path.s])
    ensures !path.Str? ==> r == Err(NotAPath(path))
    ensures path.Str? && path.s !in files ==> r == Err(CannotRead(path.s))
  {
    if !path.Str? then Err(NotAPath(path))
    else if path.s in files then Ok(lib.sha256Hex(files[path.s]))
    else Err(CannotRead(path.s))
  }

  /**
    `generate_sha256_of_bytes`: the digest of the record's YAML text, which is
    what `generate_sha256_of_file` reports for any file holding that text.
   */
  function Sha256OfRecord(lib: Library, record: Fields): (digest: string)
    ensures forall files: map<Path, Bytes>, p: Path :: p in files && files[p] == lib.yamlDump(Dict(record))
              ==> Sha256OfFile(lib, files, Str(p)) == Ok(digest)
  {
    lib.sha256Hex(lib.yamlDump(Dict(record)))
  }

  /** A key that is set only when `present` holds. */
  function OptionalField(key: string, present: bool, v: Value): Fields {
    if present then [(key, v)] else []
  }

  /** The entry for one installer dictionary; `sha` is the digest of the destination file. */
  function InstallerEntry(env: Env, inst: Fields, sha: string): Fields {
    [("Arch", DictGet(inst, "architecture", Str(""))),
     ("Url", DictGet(inst, "download_url", Str(""))),
     ("Sha256", Str(sha))]
    + OptionalField("Language", Truthy(DictGet(inst, "language", Str(""))), EnvGet(env, "language", Str("")))
    + OptionalField("Switches", Truthy(DictGet(inst, "switches", Dict([]))), DictGet(inst, "switches", Dict([])))
    + OptionalField("Scope", Truthy(DictGet(inst, "scope", Str(""))), DictGet(inst, "scope", Str("")))
  }

  /** The entries the installer loop appends for `items`, or the exception that stops it. */
  function EntriesOf(env: Env, items: seq<Value>, sha: Result<string, Error>): Result<seq<Value>, Error>
    decreases |items|
  {
    if items == [] then Ok([])
    else
      var last := |items| - 1;
      match EntriesOf(env, items[..last], sha)
      case Err(e) => Err(e)
      case Ok(prev) =>
        if !items[last].Dict? then Err(InstallerNotMapping(last))
        else if sha.Err? then Err(sha.error)
        else Ok(prev + [Dict(InstallerEntry(env, items[last].fields, sha.value))])
  }

  /** The keys before `InstallerType`, given the values they are set from. */
  function Header(id: Value, version: Value, name: Value, publisher: Value, license: Value,
                  licenseUrl: Value, appMoniker: Value, tags: Value): Fields
  {
    [("Id", id), ("Version", version), ("Name", name), ("Publisher", publisher), ("License", license)]
    + OptionalField("LicenseUrl", Truthy(licenseUrl), licenseUrl)
    + OptionalField("AppMoniker", Truthy(appMoniker), appMoniker)
    + OptionalField("Tags", Truthy(tags), tags)
  }

  /** The keys before `InstallerType`: the five required ones, then the optional ones that are set. */
  function RecordHead(env: Env): Fields {
    Header(EnvGet(env, "package_id", Str("")), EnvGet(env, "version", Str("")),
           EnvGet(env, "application_name", Str("")), EnvGet(env, "publisher", Str("")),
           EnvGet(env, "license_type", Str("")), EnvGet(env, "license_url", Str("")),
           EnvGet(env, "app_moniker", Str("")), EnvGet(env, "tags", Str("")))
  }

  /** The keys after the header: `InstallerType`, then `Installers` holding the loop's entries. */
  function RecordTail(env: Env, entries: seq<Value>): Fields {
    [("InstallerType", EnvGet(env, "installer_type", Str(""))), ("Installers", List(entries))]
  }

  /** The installers the loop visits. */
  function InstallerItems(env: Env): seq<Value> {
    Iterate(EnvGet(env, "installers", List([])))
  }

  /** The digest each installer entry carries. */
  function DestinationSha256(lib: Library, env: Env, files: map<Path, Bytes>): Result<string, Error> {
    Sha256OfFile(lib, files, EnvGet(env, "destination_path", Str("")))
  }

  /** The record `main` builds, freshly, from the environment and the file at `destination_path`. */
  function ManifestOf(lib: Library, env: Env, files: map<Path, Bytes>): Result<Fields, Error> {
    match EntriesOf(env, InstallerItems(env), DestinationSha256(lib, env, files))
    case Err(e) => Err(e)
    case Ok(entries) => Ok(RecordHead(env) + RecordTail(env, entries))
  }

  /** Whether the loop reaches a failure at iteration `j`. */
  predicate FailsAt(items: seq<Value>, sha: Result<string, Error>, j: nat)
    requires j < |items|
  {
    !items[j].Dict? || sha.Err?
  }

  /**
    The loop succeeds exactly when every item is a dictionary and, if there is
    any item, the destination file can be read; it then yields one entry per
    item, in order.
   */
  lemma {:induction false} EntriesOfOk(env: Env, items: seq<Value>, sha: Result<string, Error>)
    ensures EntriesOf(env, items, sha).Ok? <==>
              (forall i :: 0 <= i < |items| ==> items[i].Dict?) && (items != [] ==> sha.Ok?)
    ensures EntriesOf(env, items, sha).Ok? ==>
              var es := EntriesOf(env, items, sha).value;
              |es| == |items| &&
              forall i :: 0 <= i < |items| ==> es[i] == Dict(InstallerEntry(env, items[i].fields, sha.value))
    decreases |items|
  {
    if items != [] {
      var last := |items| - 1;
      var init := items[..last];
      EntriesOfOk(env, init, sha);
      assert forall i :: 0 <= i < last ==> init[i] == items[i];
      var r := EntriesOf(env, items, sha);
      if r.Ok? {
        var prev := EntriesOf(env, init, sha).value;
        var entry := Dict(InstallerEntry(env, items[last].fields, sha.value));
        assert r.value == prev + [entry];
        forall i | 0 <= i < |items|
          ensures r.value[i] == Dict(InstallerEntry(env, items[i].fields, sha.value))
        {
          if i < last {
            assert r.value[i] == prev[i];
          }
        }
      }
    }
  }

  /**
    A failing loop reports the exception of the first iteration that fails:
    `j` is that iteration.
   */
  lemma {:induction false} EntriesOfFirstError(env: Env, items: seq<Value>, sha: Result<string, Error>) returns (j: nat)
    requires EntriesOf(env, items, sha).Err?
    ensures j < |items| && FailsAt(items, sha, j)
    ensures forall i :: 0 <= i < j ==> !FailsAt(items, sha, i)
    ensures EntriesOf(env, items, sha).error == if !items[j].Dict? then InstallerNotMapping(j) else sha.error
    decreases |items|
  {
    var last := |items| - 1;
    var init := items[..last];
    assert forall i :: 0 <= i < last ==> init[i] == items[i];
    if EntriesOf(env, init, sha).Err? {
      j := EntriesOfFirstError(env, init, sha);
      assert forall i :: 0 <= i <= j ==> FailsAt(init, sha, i) == FailsAt(items, sha, i);
    } else {
      j := last;
      EntriesOfOk(env, init, sha);
    }
  }

  /** Once the loop has failed on a prefix of the items, the whole loop fails with that same exception. */
  lemma {:induction false} EntriesOfErrPropagates(env: Env, items: seq<Value>, k: nat, sha: Result<string, Error>)
    requires k <= |items|
    requires EntriesOf(env, items[..k], sha).Err?
    ensures EntriesOf(env, items, sha) == EntriesOf(env, items[..k], sha)
    decreases |items|
  {
    if k < |items| {
      var init := items[..|items| - 1];
      assert init[..k] == items[..k];
      EntriesOfErrPropagates(env, init, k, sha);
    } else {
      assert items[..k] == items;
    }
  }

  /** The entries depend on the environment only through `language`. */
  lemma {:induction false} EntriesOfAgree(env1: Env, env2: Env, items: seq<Value>, sha: Result<string, Error>)
    requires AgreeOn(env1, env2, {"language"})
    ensures EntriesOf(env1, items, sha) == EntriesOf(env2, items, sha)
    decreases |items|
  {
    assert "language" in {"language"};
    if items != [] {
      EntriesOfAgree(env1, env2, items[..|items| - 1], sha);
    }
  }

  /**
    The record is built afresh from the listed environment keys and the
    destination file alone: two runs that agree on those build the same record,
    whatever else the environment or the file system holds.
   */
  lemma ManifestInputsOnly(lib: Library, env1: Env, env2: Env, files1: map<Path, Bytes>, files2: map<Path, Bytes>)
    requires AgreeOn(env1, env2, ManifestInputs)
    requires DestinationSha256(lib, env1, files1) == DestinationSha256(lib, env2, files2)
    ensures ManifestOf(lib, env1, files1) == ManifestOf(lib, env2, files2)
  {
    assert AgreeOn(env1, env2, {"language"});
    EntriesOfAgree(env1, env2, InstallerItems(env1), DestinationSha256(lib, env1, files1));
    AgreeOnGet(env1, env2, ManifestInputs, "installers", List([]));
    assert RecordHead(env1) == RecordHead(env2) by {
      AgreeOnGet(env1, env2, ManifestInputs, "package_id", Str(""));
      AgreeOnGet(env1, env2, ManifestInputs, "version", Str(""));
      AgreeOnGet(env1, env2, ManifestInputs, "application_name", Str(""));
      AgreeOnGet(env1, env2, ManifestInputs, "publisher", Str(""));
      AgreeOnGet(env1, env2, ManifestInputs, "license_type", Str(""));
      AgreeOnGet(env1, env2, ManifestInputs, "license_url", Str(""));
      AgreeOnGet(env1, env2, ManifestInputs, "app_moniker", Str(""));
      AgreeOnGet(env1, env2, ManifestInputs, "tags", Str(""));
    }
    AgreeOnGet(env1, env2, ManifestInputs, "installer_type", Str(""));
  }

  /** The record is built exactly when the installer loop completes. */
  lemma ManifestOkIff(lib: Library, env: Env, files: map<Path, Bytes>)
    ensures ManifestOf(lib, env, files).Ok? <==>
              (forall i :: 0 <= i < |InstallerItems(env)| ==> InstallerItems(env)[i].Dict?)
              && (InstallerItems(env) != [] ==> DestinationSha256(lib, env, files).Ok?)
  {
    EntriesOfOk(env, InstallerItems(env), DestinationSha256(lib, env, files));
  }

  /** The entries of a successful run's record. */
  function Entries(lib: Library, env: Env, files: map<Path, Bytes>): seq<Value>
    requires ManifestOf(lib, env, files).Ok?
  {
    EntriesOf(env, InstallerItems(env), DestinationSha256(lib, env, files)).value
  }

  /** The header's keys: the five required ones, then whichever optional ones are set. */
  lemma HeaderKeys(id: Value, version: Value, name: Value, publisher: Value, license: Value,
                   licenseUrl: Value, appMoniker: Value, tags: Value)
    ensures Keys(Header(id, version, name, publisher, license, licenseUrl, appMoniker, tags)) ==
              ["Id", "Version", "Name", "Publisher", "License"]
              + (if Truthy(licenseUrl) then ["LicenseUrl"] else [])
              + (if Truthy(appMoniker) then ["AppMoniker"] else [])
              + (if Truthy(tags) then ["Tags"] else [])
  {
    var required := [("Id", id), ("Version", version), ("Name", name), ("Publisher", publisher), ("License", license)];
    var o1 := OptionalField("LicenseUrl", Truthy(licenseUrl), licenseUrl);
    var o2 := OptionalField("AppMoniker", Truthy(appMoniker), appMoniker);
    var o3 := OptionalField("Tags", Truthy(tags), tags);
    KeysAppend(required + o1 + o2, o3);
    KeysAppend(required + o1, o2);
    KeysAppend(required, o1);
  }

  /** The header's keys, read from the environment. */
  lemma HeadKeys(env: Env)
    ensures Keys(RecordHead(env)) ==
              ["Id", "Version", "Name", "Publisher", "License"]
              + (if Truthy(EnvGet(env, "license_url", Str(""))) then ["LicenseUrl"] else [])
              + (if Truthy(EnvGet(env, "app_moniker", Str(""))) then ["AppMoniker"] else [])
              + (if Truthy(EnvGet(env, "tags", Str(""))) then ["Tags"] else [])
  {
    HeaderKeys(EnvGet(env, "package_id", Str("")), EnvGet(env, "version", Str("")),
               EnvGet(env, "application_name", Str("")), EnvGet(env, "publisher", Str("")),
               EnvGet(env, "license_type", Str("")), EnvGet(env, "license_url", Str("")),
               EnvGet(env, "app_moniker", Str("")), EnvGet(env, "tags", Str("")));
  }

  /**
    Key order: `Id, Version, Name, Publisher, License`, then whichever of
    `LicenseUrl, AppMoniker, Tags` are set, then `InstallerType, Installers`.
   */
  lemma ManifestKeyOrder(lib: Library, env: Env, files: map<Path, Bytes>)
    requires ManifestOf(lib, env, files).Ok?
    ensures Keys(ManifestOf(lib, env, files).value) ==
              ["Id", "Version", "Name", "Publisher", "License"]
              + (if Truthy(EnvGet(env, "license_url", Str(""))) then ["LicenseUrl"] else [])
              + (if Truthy(EnvGet(env, "app_moniker", Str(""))) then ["AppMoniker"] else [])
              + (if Truthy(EnvGet(env, "tags", Str(""))) then ["Tags"] else [])
              + ["InstallerType", "Installers"]
  {
    HeadKeys(env);
    KeysAppend(RecordHead(env), RecordTail(env, Entries(lib, env, files)));
  }

  /** No key occurs twice in the record, so each assignment in `main` adds a new key at the end. */
  lemma ManifestKeysDistinct(lib: Library, env: Env, files: map<Path, Bytes>)
    requires ManifestOf(lib, env, files).Ok?
    ensures DistinctKeys(ManifestOf(lib, env, files).value)
  {
    ManifestKeyOrder(lib, env, files);
    RecordKeysDistinct(Truthy(EnvGet(env, "license_url", Str(""))), Truthy(EnvGet(env, "app_moniker", Str(""))),
                       Truthy(EnvGet(env, "tags", Str(""))));
  }

  /** The record's key list has no duplicate, whichever optional keys are set. */
  lemma RecordKeysDistinct(b1: bool, b2: bool, b3: bool)
    ensures Distinct(["Id", "Version", "Name", "Publisher", "License"]
                     + (if b1 then ["LicenseUrl"] else [])
                     + (if b2 then ["AppMoniker"] else [])
                     + (if b3 then ["Tags"] else [])
                     + ["InstallerType", "Installers"])
  {
    var required := ["Id", "Version", "Name", "Publisher", "License"];
    var o1 := if b1 then ["LicenseUrl"] else [];
    var o2 := if b2 then ["AppMoniker"] else [];
    var o3 := if b3 then ["Tags"] else [];
    var tail := ["InstallerType", "Installers"];
    assert Distinct(required + o1) by {
      DistinctAppend(required, o1);
    }
    assert Distinct(required + o1 + o2) by {
      DistinctAppend(required + o1, o2);
    }
    assert Distinct(required + o1 + o2 + o3) by {
      DistinctAppend(required + o1 + o2, o3);
    }
    DistinctAppend(required + o1 + o2 + o3, tail);
  }

  /** Each required key holds the environment's value, or "" when the environment lacks it. */
  lemma ManifestRequiredFields(lib: Library, env: Env, files: map<Path, Bytes>)
    requires ManifestOf(lib, env, files).Ok?
    ensures var rec := ManifestOf(lib, env, files).value;
            && Find(rec, "Id") == Some(EnvGet(env, "package_id", Str("")))
            && Find(rec, "Version") == Some(EnvGet(env, "version", Str("")))
            && Find(rec, "Name") == Some(EnvGet(env, "application_name", Str("")))
            && Find(rec, "Publisher") == Some(EnvGet(env, "publisher", Str("")))
            && Find(rec, "License") == Some(EnvGet(env, "license_type", Str("")))
            && Find(rec, "InstallerType") == Some(EnvGet(env, "installer_type", Str("")))
            && Find(rec, "Installers") == Some(List(Entries(lib, env, files)))
  {
    var rec := ManifestOf(lib, env, files).value;
    var head := RecordHead(env);
    assert rec[..|head|] == head;
    ManifestKeysDistinct(lib, env, files);
    FindDistinct(rec, 0);
    FindDistinct(rec, 1);
    FindDistinct(rec, 2);
    FindDistinct(rec, 3);
    FindDistinct(rec, 4);
    FindDistinct(rec, |rec| - 2);
    FindDistinct(rec, |rec| - 1);
  }

  /** An optional key holds the environment's value when it is non-empty, and is absent (not empty) otherwise. */
  predicate OptionalRule(rec: Fields, key: string, v: Value) {
    Find(rec, key) == if Truthy(v) then Some(v) else None
  }

  /** Looking up an optional key that occurs nowhere else. */
  lemma FindOptional(before: Fields, key: string, present: bool, v: Value, after: Fields)
    requires key !in Keys(before) && key !in Keys(after)
    ensures Find(before + OptionalField(key, present, v) + after, key) == if present then Some(v) else None
  {
    var opt := OptionalField(key, present, v);
    assert before + opt + after == before + (opt + after);
    FindAppend(before, opt + after, key);
    FindSomeIff(before, key);
    FindAppend(opt, after, key);
    FindSomeIff(after, key);
  }

  /** The keys of an optional field. */
  lemma KeysOptional(key: string, present: bool, v: Value)
    ensures Keys(OptionalField(key, present, v)) == if present then [key] else []
  {
  }

  /** `LicenseUrl` is in the header exactly when its value is truthy. */
  lemma HeaderLicenseUrl(id: Value, version: Value, name: Value, publisher: Value, license: Value,
                   licenseUrl: Value, appMoniker: Value, tags: Value, tail: Fields)
    requires forall k :: k in Keys(tail) ==> k !in {"LicenseUrl", "AppMoniker", "Tags"}
    ensures OptionalRule(Header(id, version, name, publisher, license, licenseUrl, appMoniker, tags) + tail, "LicenseUrl", licenseUrl)
  {
    var required := [("Id", id), ("Version", version), ("Name", name), ("Publisher", publisher), ("License", license)];
    var o1 := OptionalField("LicenseUrl", Truthy(licenseUrl), licenseUrl);
    var o2 := OptionalField("AppMoniker", Truthy(appMoniker), appMoniker);
    var o3 := OptionalField("Tags", Truthy(tags), tags);
    assert "LicenseUrl" !in Keys(required) by {
      assert Keys(required) == ["Id", "Version", "Name", "Publisher", "License"];
    }
    assert "LicenseUrl" !in Keys(o2 + o3 + tail) by {
      KeysOptional("AppMoniker", Truthy(appMoniker), appMoniker);
      KeysOptional("Tags", Truthy(tags), tags);
      KeysAppend(o2 + o3, tail);
      KeysAppend(o2, o3);
    }
    assert Header(id, version, name, publisher, license, licenseUrl, appMoniker, tags) + tail == required + o1 + (o2 + o3 + tail);
    FindOptional(required, "LicenseUrl", Truthy(licenseUrl), licenseUrl, o2 + o3 + tail);
  }

  /** `AppMoniker` is in the header exactly when its value is truthy. */
  lemma HeaderAppMoniker(id: Value, version: Value, name: Value, publisher: Value, license: Value,
                   licenseUrl: Value, appMoniker: Value, tags: Value, tail: Fields)
    requires forall k :: k in Keys(tail) ==> k !in {"LicenseUrl", "AppMoniker", "Tags"}
    ensures OptionalRule(Header(id, version, name, publisher, license, licenseUrl, appMoniker, tags) + tail, "AppMoniker", appMoniker)
  {
    var required := [("Id", id), ("Version", version), ("Name", name), ("Publisher", publisher), ("License", license)];
    var o1 := OptionalField("LicenseUrl", Truthy(licenseUrl), licenseUrl);
    var o2 := OptionalField("AppMoniker", Truthy(appMoniker), appMoniker);
    var o3 := OptionalField("Tags", Truthy(tags), tags);
    assert "AppMoniker" !in Keys(required + o1) by {
      assert Keys(required) == ["Id", "Version", "Name", "Publisher", "License"];
      KeysOptional("LicenseUrl", Truthy(licenseUrl), licenseUrl);
      KeysAppend(required, o1);
    }
    assert "AppMoniker" !in Keys(o3 + tail) by {
      KeysOptional("Tags", Truthy(tags), tags);
      KeysAppend(o3, tail);
    }
    assert Header(id, version, name, publisher, license, licenseUrl, appMoniker, tags) + tail == (required + o1) + o2 + (o3 + tail);
    FindOptional(required + o1, "AppMoniker", Truthy(appMoniker), appMoniker, o3 + tail);
  }

  /** `Tags` is in the header exactly when its value is truthy. */
  lemma HeaderTags(id: Value, version: Value, name: Value, publisher: Value, license: Value,
                   licenseUrl: Value, appMoniker: Value, tags: Value, tail: Fields)
    requires forall k :: k in Keys(tail) ==> k !in {"LicenseUrl", "AppMoniker", "Tags"}
    ensures OptionalRule(Header(id, version, name, publisher, license, licenseUrl, appMoniker, tags) + tail, "Tags", tags)
  {
    var required := [("Id", id), ("Version", version), ("Name", name), ("Publisher", publisher), ("License", license)];
    var o1 := OptionalField("LicenseUrl", Truthy(licenseUrl), licenseUrl);
    var o2 := OptionalField("AppMoniker", Truthy(appMoniker), appMoniker);
    var o3 := OptionalField("Tags", Truthy(tags), tags);
    assert "Tags" !in Keys(required + o1 + o2) by {
      assert Keys(required) == ["Id", "Version", "Name", "Publisher", "License"];
      KeysOptional("LicenseUrl", Truthy(licenseUrl), licenseUrl);
      KeysOptional("AppMoniker", Truthy(appMoniker), appMoniker);
      KeysAppend(required + o1, o2);
      KeysAppend(required, o1);
    }
    assert Header(id, version, name, publisher, license, licenseUrl, appMoniker, tags) + tail == (required + o1 + o2) + o3 + tail;
    FindOptional(required + o1 + o2, "Tags", Truthy(tags), tags, tail);
  }

  /**
    `LicenseUrl`, `AppMoniker` and `Tags` each hold the environment's value when
    it is non-empty, and are absent (not set to an empty value) otherwise.
   */
  lemma ManifestOptionalFields(lib: Library, env: Env, files: map<Path, Bytes>)
    requires ManifestOf(lib, env, files).Ok?
    ensures OptionalRule(ManifestOf(lib, env, files).value, "LicenseUrl", EnvGet(env, "license_url", Str("")))
    ensures OptionalRule(ManifestOf(lib, env, files).value, "AppMoniker", EnvGet(env, "app_moniker", Str("")))
    ensures OptionalRule(ManifestOf(lib, env, files).value, "Tags", EnvGet(env, "tags", Str("")))
  {
    var tail := RecordTail(env, Entries(lib, env, files));
    assert Keys(tail) == ["InstallerType", "Installers"];
    var id, version, name := EnvGet(env, "package_id", Str("")), EnvGet(env, "version", Str("")), EnvGet(env, "application_name", Str(""));
    var publisher, license := EnvGet(env, "publisher", Str("")), EnvGet(env, "license_type", Str(""));
    var licenseUrl, appMoniker, tags := EnvGet(env, "license_url", Str("")), EnvGet(env, "app_moniker", Str("")), EnvGet(env, "tags", Str(""));
    HeaderLicenseUrl(id, version, name, publisher, license, licenseUrl, appMoniker, tags, tail);
    HeaderAppMoniker(id, version, name, publisher, license, licenseUrl, appMoniker, tags, tail);
    HeaderTags(id, version, name, publisher, license, licenseUrl, appMoniker, tags, tail);
  }

  /**
    Each installer entry begins `Arch, Url, Sha256`, followed by whichever of
    `Language, Switches, Scope` are set, in that order.
   */
  lemma EntryKeyOrder(env: Env, inst: Fields, sha: string)
    ensures Keys(InstallerEntry(env, inst, sha)) ==
              ["Arch", "Url", "Sha256"]
              + (if Truthy(DictGet(inst, "language", Str(""))) then ["Language"] else [])
              + (if Truthy(DictGet(inst, "switches", Dict([]))) then ["Switches"] else [])
              + (if Truthy(DictGet(inst, "scope", Str(""))) then ["Scope"] else [])
  {
  }

  /**
    The fixed keys hold the installer's `architecture` and `download_url` (or ""
    when it lacks them) and the digest of the destination file.
   */
  lemma EntryFixedFields(env: Env, inst: Fields, sha: string)
    ensures var e := InstallerEntry(env, inst, sha);
            && Find(e, "Arch") == Some(DictGet(inst, "architecture", Str("")))
            && Find(e, "Url") == Some(DictGet(inst, "download_url", Str("")))
            && Find(e, "Sha256") == Some(Str(sha))
  {
    var e := InstallerEntry(env, inst, sha);
    assert e[0] == ("Arch", DictGet(inst, "architecture", Str("")));
    assert e[1..][0] == ("Url", DictGet(inst, "download_url", Str("")));
    assert Find(e, "Url") == Find(e[1..], "Url");
    assert e[2..][0] == ("Sha256", Str(sha));
    assert e[1..][1..] == e[2..];
    assert Find(e, "Sha256") == Find(e[1..], "Sha256") == Find(e[2..], "Sha256");
  }

  /**
    `Switches` and `Scope` follow the optional-key rule on the installer's own
    values. `Language` is present exactly when the installer's `language` is
    non-empty, but holds the ENVIRONMENT's `language`, which may be "" or differ
    from the installer's.
   */
  lemma EntryOptionalFields(env: Env, inst: Fields, sha: string)
    ensures var e := InstallerEntry(env, inst, sha);
            && Find(e, "Language")
               == (if Truthy(DictGet(inst, "language", Str(""))) then Some(EnvGet(env, "language", Str(""))) else None)
            && OptionalRule(e, "Switches", DictGet(inst, "switches", Dict([])))
            && OptionalRule(e, "Scope", DictGet(inst, "scope", Str("")))
  {
    var e := InstallerEntry(env, inst, sha);
    var hasLang := Truthy(DictGet(inst, "language", Str("")));
    var lang := OptionalField("Language", hasLang, EnvGet(env, "language", Str("")));
    var switches := DictGet(inst, "switches", Dict([]));
    var scope := DictGet(inst, "scope", Str(""));
    var sw := OptionalField("Switches", Truthy(switches), switches);
    var sc := OptionalField("Scope", Truthy(scope), scope);
    var fixed := e[..3];
    assert Keys(fixed) == ["Arch", "Url", "Sha256"];
    assert "Language" !in Keys(sw + sc) by {
      KeysOptional("Switches", Truthy(switches), switches);
      KeysOptional("Scope", Truthy(scope), scope);
      KeysAppend(sw, sc);
    }
    assert e == fixed + lang + (sw + sc);
    FindOptional(fixed, "Language", hasLang, EnvGet(env, "language", Str("")), sw + sc);
    assert "Switches" !in Keys(fixed + lang) && "Scope" !in Keys(fixed + lang) by {
      KeysOptional("Language", hasLang, EnvGet(env, "language", Str("")));
      KeysAppend(fixed, lang);
    }
    assert "Switches" !in Keys(sc) by {
      KeysOptional("Scope", Truthy(scope), scope);
    }
    assert e == fixed + lang + sw + sc;
    FindOptional(fixed + lang, "Switches", Truthy(switches), switches, sc);
    assert "Scope" !in Keys(fixed + lang + sw) by {
      KeysOptional("Switches", Truthy(switches), switches);
      KeysAppend(fixed + lang, sw);
    }
    assert e == fixed + lang + sw + sc + [];
    FindOptional(fixed + lang + sw, "Scope", Truthy(scope), scope, []);
  }

  /**
    `Installers` has exactly one entry per installer the loop visits, in the
    same order, each built from that installer and the destination digest.
   */
  lemma ManifestInstallers(lib: Library, env: Env, files: map<Path, Bytes>)
    requires ManifestOf(lib, env, files).Ok?
    ensures var es := Entries(lib, env, files);
            var items := InstallerItems(env);
            && Find(ManifestOf(lib, env, files).value, "Installers") == Some(List(es))
            && |es| == |items|
            && forall i :: 0 <= i < |items| ==>
                 items[i].Dict? && DestinationSha256(lib, env, files).Ok?
                 && es[i] == Dict(InstallerEntry(env, items[i].fields, DestinationSha256(lib, env, files).value))
  {
    ManifestRequiredFields(lib, env, files);
    EntriesOfOk(env, InstallerItems(env), DestinationSha256(lib, env, files));
  }

  /**
    Every entry's `Sha256` is the digest of the one file named by
    `destination_path`, so all entries carry the same hash.
   */
  lemma AllEntriesShareSha256(lib: Library, env: Env, files: map<Path, Bytes>)
    requires ManifestOf(lib, env, files).Ok?
    ensures var es := Entries(lib, env, files);
            var dest := EnvGet(env, "destination_path", Str(""));
            forall i :: 0 <= i < |es| ==>
              dest.Str? && dest.s in files && es[i].Dict?
              && Find(es[i].fields, "Sha256") == Some(Str(lib.sha256Hex(files[dest.s])))
  {
    ManifestInstallers(lib, env, files);
    var es := Entries(lib, env, files);
    var items := InstallerItems(env);
    forall i | 0 <= i < |es|
      ensures Find(es[i].fields, "Sha256") == Some(Str(DestinationSha256(lib, env, files).value))
    {
      EntryFixedFields(env, items[i].fields, DestinationSha256(lib, env, files).value);
    }
  }
}
