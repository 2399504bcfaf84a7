/** The second device server, `server/new_server.js`. Its device list files
    every name under the first word of the name instead of a manufacturer
    rule and keeps duplicates; its lookup searches for `Name = <model>` with
    the model name taken verbatim. Its Pythia parsing is line for line the
    one of `server/server.js` and is modelled once, in `DeviceServer`. */
module NewDeviceServer {
  import opened Text
  import DeviceServer
  import ModelNames

  type DirEntry = DeviceServer.DirEntry

  // ---------------------------------------------------------------------
  // The device list (`/api/devices`)
  // ---------------------------------------------------------------------

  /** Property names every plain object inherits from `Object.prototype`.
      `devices[name]` is already truthy for these, so no array is created and
      the `push` that follows throws; the per-file `catch` drops the file. */
  const InheritedKeys: set<string> := {
    "constructor", "hasOwnProperty", "isPrototypeOf", "propertyIsEnumerable",
    "toString", "toLocaleString", "valueOf", "__proto__",
    "__defineGetter__", "__defineSetter__", "__lookupGetter__", "__lookupSetter__"
  }

  /** `fullName.split(' ')[0]` */
  function FirstWord(fullName: string): string {
    Split(fullName, ' ')[0]
  }

  /** The first word is the longest space-free prefix of the name. */
  lemma FirstWordShape(fullName: string)
    ensures StartsWith(fullName, FirstWord(fullName)) && ' ' !in FirstWord(fullName)
    ensures |FirstWord(fullName)| < |fullName| ==> fullName[|FirstWord(fullName)|] == ' '
  {
    SplitHead(fullName, ' ');
  }

  /** What one directory entry adds (server/new_server.js:29-46): for a
      readable `.ini` file with a `Name` line, its trimmed name under its
      first word, unless that word is an inherited property name. */
  function Contribution(file: DirEntry): Option<(string, string)> {
    if EndsWith(file.name, ".ini") && file.content.Some? then
      match DeviceServer.NameValue(file.content.value)
      case Some(raw) =>
        var fullName := Trim(raw);
        var manufacturer := FirstWord(fullName);
        if manufacturer in InheritedKeys then None else Some((manufacturer, fullName))
      case None => None
    else None
  }

  /** The contribution of every file, in listing order. */
  function Contributions(files: seq<DirEntry>): (r: seq<Option<(string, string)>>)
    ensures |r| == |files| && forall i :: 0 <= i < |files| ==> r[i] == Contribution(files[i])
  {
    seq(|files|, i requires 0 <= i < |files| => Contribution(files[i]))
  }

  /** One step of the loop: the name is appended to the array of its key,
      which is created empty on first use. */
  function Append(devices: map<string, seq<string>>, entry: Option<(string, string)>): map<string, seq<string>> {
    match entry
    case Some((key, name)) => devices[key := (if key in devices then devices[key] else []) + [name]]
    case None => devices
  }

  /** The `devices` object after the given contributions. */
  function Grouped(entries: seq<Option<(string, string)>>): map<string, seq<string>> {
    if entries == [] then map[]
    else Append(Grouped(entries[..|entries| - 1]), entries[|entries| - 1])
  }

  lemma GroupedStep(entries: seq<Option<(string, string)>>, i: nat)
    requires i < |entries|
    ensures Grouped(entries[..i + 1]) == Append(Grouped(entries[..i]), entries[i])
  {
    assert entries[..i + 1][..i] == entries[..i];
  }

  /** The loop body for one file (server/new_server.js:29-46). */
  method ContributionOf(file: DirEntry) returns (entry: Option<(string, string)>)
    ensures entry == Contribution(file)
  {
    entry := None;
    if EndsWith(file.name, ".ini") && file.content.Some? {
      var nameMatch := DeviceServer.NameValue(file.content.value);
      if nameMatch.Some? {
        var fullName := Trim(nameMatch.value);
        var parts := Split(fullName, ' ');
        if |parts| > 0 {
          var manufacturer := parts[0];
          assert manufacturer == FirstWord(fullName);
          if manufacturer !in InheritedKeys {
            entry := Some((manufacturer, fullName));
          }
        }
      }
    }
  }

  /** `if (!devices[manufacturer]) devices[manufacturer] = []` and the
      `push` that follows (server/new_server.js:40-44). */
  method Push(devices: map<string, seq<string>>, entry: Option<(string, string)>)
    returns (next: map<string, seq<string>>)
    ensures next == Append(devices, entry)
  {
    next := devices;
    if entry.Some? {
      var manufacturer := entry.value.0;
      if manufacturer !in next {
        next := next[manufacturer := []];
      }
      next := next[manufacturer := next[manufacturer] + [entry.value.1]];
    }
  }

  /** `/api/devices` (server/new_server.js:23-58). */
  method GroupByFirstWord(files: seq<DirEntry>) returns (devices: map<string, seq<string>>)
    ensures devices == Grouped(Contributions(files))
  {
    devices := map[];
    ghost var entries := Contributions(files);
    for i := 0 to |files|
      invariant devices == Grouped(entries[..i])
    {
      var entry := ContributionOf(files[i]);
      assert entries[i] == entry;
      GroupedStep(entries, i);
      devices := Push(devices, entry);
    }
    assert entries[..|files|] == entries;
  }

  /** The names contributed under `key`, in order, duplicates kept. */
  function Under(entries: seq<Option<(string, string)>>, key: string): seq<string> {
    if entries == [] then []
    else
      Under(entries[..|entries| - 1], key) +
      match entries[|entries| - 1]
      case Some((k, name)) => if k == key then [name] else []
      case None => []
  }

  /** A key is present exactly when something was contributed under it, and
      its array is the in-order list of those names. */
  lemma {:induction false} GroupedIsUnder(entries: seq<Option<(string, string)>>, key: string)
    ensures key in Grouped(entries) <==> Under(entries, key) != []
    ensures key in Grouped(entries) ==> Grouped(entries)[key] == Under(entries, key)
  {
    if entries != [] {
      GroupedIsUnder(entries[..|entries| - 1], key);
    }
  }

  /** Each name appears under its key as many times as it was contributed. */
  lemma {:induction false} UnderCounts(entries: seq<Option<(string, string)>>, key: string, name: string)
    ensures multiset(Under(entries, key))[name] == multiset(entries)[Some((key, name))]
  {
    if entries != [] {
      var init, last := entries[..|entries| - 1], entries[|entries| - 1];
      UnderCounts(init, key, name);
      assert entries == init + [last];
      assert multiset(entries) == multiset(init) + multiset{last};
      var tail := Under(entries, key)[|Under(init, key)|..];
      assert Under(entries, key) == Under(init, key) + tail;
      assert multiset(tail)[name] == if last == Some((key, name)) then 1 else 0;
    }
  }

  /** The device list of a directory: a key is present exactly when a file
      contributes under it, and each name is listed under its key once per
      contributing file. */
  lemma DeviceListShape(files: seq<DirEntry>, key: string, name: string)
    ensures key in Grouped(Contributions(files))
        <==> exists i :: 0 <= i < |files| && Contribution(files[i]).Some? && Contribution(files[i]).value.0 == key
    ensures key in Grouped(Contributions(files))
        ==> multiset(Grouped(Contributions(files))[key])[name] == multiset(Contributions(files))[Some((key, name))]
  {
    var entries := Contributions(files);
    GroupedIsUnder(entries, key);
    UnderCounts(entries, key, name);
    if Under(entries, key) != [] {
      var x := Under(entries, key)[0];
      UnderCounts(entries, key, x);
      assert x in multiset(Under(entries, key));
      assert Some((key, x)) in multiset(entries);
      var i :| 0 <= i < |entries| && entries[i] == Some((key, x));
      assert Contribution(files[i]).value.0 == key;
    }
    if exists i :: 0 <= i < |files| && Contribution(files[i]).Some? && Contribution(files[i]).value.0 == key {
      var i :| 0 <= i < |files| && Contribution(files[i]).Some? && Contribution(files[i]).value.0 == key;
      var x := entries[i].value.1;
      assert entries[i] == Some((key, x));
      UnderCounts(entries, key, x);
      assert multiset(entries)[Some((key, x))] > 0;
    }
  }

  /** Every listed name is a trimmed `Name` value whose first word is its key. */
  lemma ListedUnderFirstWord(files: seq<DirEntry>, i: nat)
    requires i < |files| && Contribution(files[i]).Some?
    ensures var (key, name) := Contribution(files[i]).value;
      IsTrimmed(name) && StartsWith(name, key) && ' ' !in key
      && (|key| < |name| ==> name[|key|] == ' ') && key !in InheritedKeys
  {
    var raw := DeviceServer.NameValue(files[i].content.value).value;
    var fullName := Trim(raw);
    assert Contribution(files[i]) == Some((FirstWord(fullName), fullName));
    FirstWordShape(fullName);
  }

  /** The number of contributions. */
  function Contributing(entries: seq<Option<(string, string)>>): nat {
    if entries == [] then 0
    else Contributing(entries[..|entries| - 1]) + (if entries[|entries| - 1].Some? then 1 else 0)
  }

  /** The number of names listed over all keys. */
  ghost function Total(devices: map<string, seq<string>>): nat
    decreases |devices|
  {
    if devices == map[] then 0
    else
      var key :| key in devices;
      |devices[key]| + Total(devices - {key})
  }

  lemma {:induction false} TotalRemove(devices: map<string, seq<string>>, key: string)
    requires key in devices
    ensures Total(devices) == |devices[key]| + Total(devices - {key})
    decreases |devices|
  {
    var k :| k in devices && Total(devices) == |devices[k]| + Total(devices - {k});
    if k != key {
      assert |devices - {k}| == |devices| - 1;
      TotalRemove(devices - {k}, key);
      TotalRemove(devices - {key}, k);
      assert devices - {k} - {key} == devices - {key} - {k};
    }
  }

  lemma AppendTotal(devices: map<string, seq<string>>, entry: Option<(string, string)>)
    ensures Total(Append(devices, entry)) == Total(devices) + (if entry.Some? then 1 else 0)
  {
    if entry.Some? {
      var (key, name) := entry.value;
      var next := Append(devices, entry);
      TotalRemove(next, key);
      assert next - {key} == devices - {key};
      if key in devices {
        TotalRemove(devices, key);
      } else {
        assert devices - {key} == devices;
      }
    }
  }

  /** With no de-duplication, the list holds one name per contributing file. */
  lemma {:induction false} TotalIsContributing(entries: seq<Option<(string, string)>>)
    ensures Total(Grouped(entries)) == Contributing(entries)
  {
    if entries != [] {
      TotalIsContributing(entries[..|entries| - 1]);
      AppendTotal(Grouped(entries[..|entries| - 1]), entries[|entries| - 1]);
    }
  }

  // ---------------------------------------------------------------------
  // The device lookup (`/api/device`)
  // ---------------------------------------------------------------------

  /** What `/api/device` answers for `?model=...` (server/new_server.js:84-114). */
  function NewDeviceResponse(modelName: Option<string>, files: seq<DirEntry>): DeviceServer.Response {
    if modelName.None? || modelName.value == "" then DeviceServer.BadRequest
    else
      match DeviceServer.FirstHolding(files, DeviceServer.Needle(modelName.value))
      case Some(c) => if c != "" then DeviceServer.Config(c) else DeviceServer.NotFound
      case None => DeviceServer.NotFound
  }

  /** `/api/device` (server/new_server.js:84-119). */
  method GetDevice(modelName: Option<string>, files: seq<DirEntry>) returns (res: DeviceServer.Response)
    ensures res == NewDeviceResponse(modelName, files)
  {
    if modelName.None? || modelName.value == "" {
      return DeviceServer.BadRequest;
    }
    var configContent := DeviceServer.FindConfig(files, DeviceServer.Needle(modelName.value));
    if configContent.Some? && configContent.value != "" {
      res := DeviceServer.Config(configContent.value);
    } else {
      res := DeviceServer.NotFound;
    }
  }

  /** A non-empty model name gets the first readable `.ini` file holding
      `Name = <model>` verbatim, and a 404 exactly when there is none. */
  lemma LookupFirstMatch(model: string, files: seq<DirEntry>)
    requires model != ""
    ensures NewDeviceResponse(Some(model), files).NotFound?
        <==> forall i :: 0 <= i < |files| ==> !DeviceServer.Holds(files, i, DeviceServer.Needle(model))
    ensures NewDeviceResponse(Some(model), files).Config? ==>
      exists i :: 0 <= i < |files| && DeviceServer.Holds(files, i, DeviceServer.Needle(model))
        && files[i].content == Some(NewDeviceResponse(Some(model), files).content)
        && forall j :: 0 <= j < i ==> !DeviceServer.Holds(files, j, DeviceServer.Needle(model))
  {
    DeviceServer.FoundIsNonEmpty(files, DeviceServer.Needle(model));
  }

  /** For a name that is not of the `full (code)` form, both servers answer
      alike. */
  lemma SameAnswerForPlainNames(model: string, files: seq<DirEntry>)
    requires ModelNames.SplitFormatted(model).None?
    ensures DeviceServer.DeviceResponse(Some(model), files) == NewDeviceResponse(Some(model), files)
  {
  }

  /** A file whose first line is `Name = <name>` lists `name`, and looking
      `name` up finds a configuration (not necessarily that file's: an
      earlier file holding the same text wins). */
  lemma ListedNameFound(files: seq<DirEntry>, i: nat, name: string, rest: string)
    requires i < |files| && EndsWith(files[i].name, ".ini")
    requires files[i].content == Some("Name = " + name + "\n" + rest)
    requires name != "" && NoLineTerminator(name) && IsTrimmed(name)
    ensures FirstWord(name) !in InheritedKeys ==> Contribution(files[i]) == Some((FirstWord(name), name))
    ensures NewDeviceResponse(Some(name), files).Config?
  {
    var content := "Name = " + name + "\n" + rest;
    DeviceServer.NameValueOfLine(name, rest);
    TrimTrimmed(name);
    assert StartsAt(content, DeviceServer.Needle(name), 0);
    assert DeviceServer.Holds(files, i, DeviceServer.Needle(name));
    DeviceServer.FoundIsNonEmpty(files, DeviceServer.Needle(name));
  }
}
