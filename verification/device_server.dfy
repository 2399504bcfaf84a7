/** The logic of the device server (server/server.js): the manufacturer
    rules, the device index of `/api/devices`, the pythia mapping parser of
    `/api/pythia-config` and the configuration lookup of `/api/device`.
    The configuration directory is given as its listing: each entry has a
    file name and, when it can be read, its content. */
module DeviceServer {
  import opened Text
  import ModelNames

  /** The six categories of the device index, in the order the index declares them. */
  datatype Manufacturer = Apple | Google | Samsung | Motorola | TCL | Other

  const Manufacturers: seq<Manufacturer> := [Apple, Google, Samsung, Motorola, TCL, Other]

  /** `^samsung (a|s)[0-9]`, `^a[0-9]+` and `^s[0-9]+` on the lower-cased name. */
  predicate SamsungPrefix(l: string) {
    || (StartsWith(l, "samsung ") && |l| >= 10 && (l[8] == 'a' || l[8] == 's') && IsDigit(l[9]))
    || (|l| >= 2 && (l[0] == 'a' || l[0] == 's') && IsDigit(l[1]))
  }

  /** `categorizeManufacturer` (server/server.js:14-36): keyword rules on the
      lower-cased name, tried in order. */
  function Categorize(name: string): Manufacturer {
    var l := ToLower(name);
    if Contains(l, "iphone") || Contains(l, "ipad") || Contains(l, "apple") then Apple
    else if Contains(l, "pixel") then Google
    else if Contains(l, "galaxy") || Contains(l, "sm-") || SamsungPrefix(l) then Samsung
    else if Contains(l, "motorola") || Contains(l, "moto") then Motorola
    else if Contains(l, "tcl") then TCL
    else Other
  }

  /** The keywords of each category on their own; `Other` takes anything. */
  predicate RuleFires(m: Manufacturer, l: string) {
    match m
    case Apple => Contains(l, "iphone") || Contains(l, "ipad") || Contains(l, "apple")
    case Google => Contains(l, "pixel")
    case Samsung => Contains(l, "galaxy") || Contains(l, "sm-") || SamsungPrefix(l)
    case Motorola => Contains(l, "motorola") || Contains(l, "moto")
    case TCL => Contains(l, "tcl")
    case Other => true
  }

  function Rank(m: Manufacturer): (r: nat)
    ensures r < |Manufacturers| && Manufacturers[r] == m
  {
    match m
    case Apple => 0
    case Google => 1
    case Samsung => 2
    case Motorola => 3
    case TCL => 4
    case Other => 5
  }

  /** The category is the first one in declaration order whose keywords the
      lower-cased name holds: earlier rules win. */
  lemma CategorizeFirstRule(name: string, m: Manufacturer)
    ensures Categorize(name) == m
        <==> (RuleFires(m, ToLower(name)) && forall j :: 0 <= j < Rank(m) ==> !RuleFires(Manufacturers[j], ToLower(name)))
  {
    assert Manufacturers[0] == Apple && Manufacturers[1] == Google && Manufacturers[2] == Samsung;
    assert Manufacturers[3] == Motorola && Manufacturers[4] == TCL;
  }

  /** A name naming an iPad and a Pixel is an Apple device. */
  lemma IpadBeatsPixel(name: string)
    requires Contains(ToLower(name), "ipad") && Contains(ToLower(name), "pixel")
    ensures Categorize(name) == Apple
  {
    CategorizeFirstRule(name, Apple);
  }

  /** A name naming a Pixel and a Galaxy is a Google device, unless an Apple keyword comes with them. */
  lemma PixelBeatsGalaxy(name: string)
    requires Contains(ToLower(name), "pixel") && Contains(ToLower(name), "galaxy")
    requires !RuleFires(Apple, ToLower(name))
    ensures Categorize(name) == Google
  {
    CategorizeFirstRule(name, Google);
  }

  /** `a<digit>` and `s<digit>` names, `sm-` and `galaxy` names are Samsung
      devices unless an Apple or Google keyword comes first. */
  lemma SamsungNames(name: string)
    requires var l := ToLower(name);
      || (|l| >= 2 && (l[0] == 'a' || l[0] == 's') && IsDigit(l[1]))
      || Contains(l, "sm-") || Contains(l, "galaxy")
    requires !RuleFires(Apple, ToLower(name)) && !RuleFires(Google, ToLower(name))
    ensures Categorize(name) == Samsung
  {
    CategorizeFirstRule(name, Samsung);
  }

  /** A name with no keyword at all is `Other`. */
  lemma UnmatchedIsOther(name: string)
    requires forall j :: 0 <= j < 5 ==> !RuleFires(Manufacturers[j], ToLower(name))
    ensures Categorize(name) == Other
  {
    CategorizeFirstRule(name, Other);
  }

  lemma LowerOfCased(s: string)
    ensures ToLower(ToUpper(s)) == ToLower(s)
    ensures ToLower(ToLower(s)) == ToLower(s)
  {
    forall k | 0 <= k < |s|
      ensures LowerChar(UpperChar(s[k])) == LowerChar(s[k]) && LowerChar(LowerChar(s[k])) == LowerChar(s[k])
    {
    }
  }

  /** The rules ignore the case of ASCII letters. */
  lemma CategorizeIgnoresCase(name: string)
    ensures Categorize(ToUpper(name)) == Categorize(name)
    ensures Categorize(ToLower(name)) == Categorize(name)
  {
    LowerOfCased(name);
  }

  /** `Name\s*=\s*(.+)` can match starting at `i`. */
  predicate NameAt(s: string, i: nat) {
    StartsAt(s, "Name", i) && AssignTail(s, i + 4).Some?
  }

  /** Group 1 of `content.match(/Name\s*=\s*(.+)/)`, untrimmed. */
  function NameValue(content: string): (r: Option<string>)
    ensures r.Some? <==> exists i: nat :: NameAt(content, i)
    ensures r.Some? ==> r.value != [] && NoLineTerminator(r.value)
  {
    match FirstAt(NameAt, content, 0)
    case Some(i) =>
      var span := AssignTail(content, i + 4).value;
      Some(content[span.0..span.1])
    case None => None
  }

  /** Where `\s*` stops when a non-space follows a run of spaces. */
  lemma SkipSpacesAt(s: string, i: nat, j: nat)
    requires i <= j < |s| && AllSpace(s[i..j]) && !IsSpace(s[j])
    ensures SkipSpaces(s, i) == j
  {
  }

  /** Where `.+` stops when a terminator, or the end, closes a terminator-free run. */
  lemma RunEndAt(s: string, i: nat, j: nat)
    requires i <= j <= |s| && NoLineTerminator(s[i..j]) && (j == |s| || IsLineTerminator(s[j]))
    ensures RunEnd(s, i) == j
  {
  }

  /** `key = value`, with a single space on each side of `=`, is matched with
      the value captured whole, when the value is trimmed, non-empty and free
      of line terminators and nothing but a terminator or the end follows. */
  lemma AssignTailSpaced(s: string, e: nat, v: string)
    requires e + 3 + |v| <= |s| && s[e..e + 3] == " = " && s[e + 3..e + 3 + |v|] == v
    requires v != [] && IsTrimmed(v) && NoLineTerminator(v)
    requires e + 3 + |v| == |s| || IsLineTerminator(s[e + 3 + |v|])
    ensures AssignTail(s, e) == Some((e + 3, e + 3 + |v|))
  {
    assert s[e] == ' ' && s[e + 1] == '=' && s[e + 2] == ' ';
    assert s[e + 3] == v[0];
    assert AllSpace(s[e..e + 1]);
    SkipSpacesAt(s, e, e + 1);
    assert AllSpace(s[e + 2..e + 3]);
    SkipSpacesAt(s, e + 2, e + 3);
    RunEndAt(s, e + 3, e + 3 + |v|);
  }

  /** A configuration that opens with the line `Name = <v>` is named `v`. */
  lemma NameValueOfLine(v: string, rest: string)
    requires v != [] && IsTrimmed(v) && NoLineTerminator(v)
    ensures NameValue("Name = " + v + "\n" + rest) == Some(v)
  {
    var s := "Name = " + v + "\n" + rest;
    assert s[..4] == "Name" && s[4..7] == " = " && s[7..7 + |v|] == v && s[7 + |v|] == '\n';
    AssignTailSpaced(s, 4, v);
    assert NameAt(s, 0);
  }

  /** One entry of the configuration directory: its file name and, unless
      reading it fails, its content. */
  datatype DirEntry = DirEntry(name: string, content: Option<string>)

  /** What one file adds to the index (server/server.js:81-93): nothing
      unless it is a readable `.ini` file with a `Name` line; otherwise the
      formatted name under the category of the trimmed name. */
  function IndexEntry(file: DirEntry): (r: Option<(Manufacturer, string)>)
    ensures r.Some? ==> EndsWith(file.name, ".ini") && file.content.Some? && NameValue(file.content.value).Some?
    ensures r.Some? ==> var full := Trim(NameValue(file.content.value).value);
      r.value == (Categorize(full), ModelNames.Format(full, ReplaceFirst(file.name, ".ini", "")))
  {
    if EndsWith(file.name, ".ini") && file.content.Some? then
      match NameValue(file.content.value)
      case Some(raw) =>
        var full := Trim(raw);
        Some((Categorize(full), ModelNames.Format(full, ReplaceFirst(file.name, ".ini", ""))))
      case None => None
    else None
  }

  /** `if (!list.includes(x)) list.push(x)` */
  function AddUnique(list: seq<string>, x: string): seq<string> {
    if x in list then list else list + [x]
  }

  /** The contribution of every file, in listing order. */
  function Entries(files: seq<DirEntry>): (r: seq<Option<(Manufacturer, string)>>)
    ensures |r| == |files| && forall i :: 0 <= i < |files| ==> r[i] == IndexEntry(files[i])
  {
    seq(|files|, i requires 0 <= i < |files| => IndexEntry(files[i]))
  }

  /** The list of category `m` after the given contributions, in order. */
  function Listed(entries: seq<Option<(Manufacturer, string)>>, m: Manufacturer): seq<string> {
    if entries == [] then []
    else
      Pushed(Listed(entries[..|entries| - 1], m), m, entries[|entries| - 1])
  }

  /** The body of `/api/devices`: every category with a non-empty list. */
  function DeviceIndex(files: seq<DirEntry>): map<Manufacturer, seq<string>> {
    map m | m in Manufacturers && Listed(Entries(files), m) != [] :: Listed(Entries(files), m)
  }

  predicate NoDuplicates(list: seq<string>) {
    forall i, j :: 0 <= i < j < |list| ==> list[i] != list[j]
  }

  /** A list holds a name exactly when some contribution puts that name in
      that category, and holds it once. */
  lemma {:induction false} ListedMembers(entries: seq<Option<(Manufacturer, string)>>, m: Manufacturer, x: string)
    ensures x in Listed(entries, m) <==> Some((m, x)) in entries
    ensures NoDuplicates(Listed(entries, m))
  {
    if entries != [] {
      var init := entries[..|entries| - 1];
      ListedMembers(init, m, x);
      assert entries == init + [entries[|entries| - 1]];
    }
  }

  /** After building and pruning, every category present has a non-empty list
      without duplicates, holding exactly the names its files contribute. */
  lemma DeviceIndexShape(files: seq<DirEntry>, m: Manufacturer, x: string)
    ensures m in DeviceIndex(files) ==> DeviceIndex(files)[m] != [] && NoDuplicates(DeviceIndex(files)[m])
    ensures (m in DeviceIndex(files) && x in DeviceIndex(files)[m])
        <==> exists i :: 0 <= i < |files| && IndexEntry(files[i]) == Some((m, x))
  {
    var entries := Entries(files);
    ListedMembers(entries, m, x);
    assert m in Manufacturers by {
      assert Manufacturers[Rank(m)] == m;
    }
    assert m in DeviceIndex(files) <==> Listed(entries, m) != [];
    if Some((m, x)) in entries {
      var i :| 0 <= i < |entries| && entries[i] == Some((m, x));
      assert IndexEntry(files[i]) == Some((m, x));
    }
    if exists i :: 0 <= i < |files| && IndexEntry(files[i]) == Some((m, x)) {
      var i :| 0 <= i < |files| && IndexEntry(files[i]) == Some((m, x));
      assert entries[i] == Some((m, x));
    }
  }

  /** The body of the loop for one file (server/server.js:81-93). */
  method IndexFile(file: DirEntry) returns (entry: Option<(Manufacturer, string)>)
    ensures entry == IndexEntry(file)
  {
    entry := None;
    if EndsWith(file.name, ".ini") && file.content.Some? {
      var nameMatch := NameValue(file.content.value);
      if nameMatch.Some? {
        var fullName := Trim(nameMatch.value);
        var modelCode := ReplaceFirst(file.name, ".ini", "");
        var formattedName := ModelNames.Format(fullName, modelCode);
        var manufacturer := Categorize(fullName);
        entry := Some((manufacturer, formattedName));
      }
    }
  }

  lemma ListedStep(entries: seq<Option<(Manufacturer, string)>>, i: nat, m: Manufacturer)
    requires i < |entries|
    ensures Listed(entries[..i + 1], m) == Pushed(Listed(entries[..i], m), m, entries[i])
  {
    assert entries[..i + 1][..i] == entries[..i];
  }

  /** What one contribution does to the lists: the name joins its category. */
  function Pushed(list: seq<string>, m: Manufacturer, entry: Option<(Manufacturer, string)>): seq<string> {
    match entry
    case Some((m', x)) => if m' == m then AddUnique(list, x) else list
    case None => list
  }

  /** `if (!devices[manufacturer].includes(formattedName)) devices[manufacturer].push(formattedName)`
      (server/server.js:95-98). */
  method PushEntry(devices: map<Manufacturer, seq<string>>, entry: Option<(Manufacturer, string)>)
    returns (next: map<Manufacturer, seq<string>>)
    requires forall m :: m in devices
    ensures forall m :: m in next && next[m] == Pushed(devices[m], m, entry)
  {
    next := devices;
    if entry.Some? {
      var (manufacturer, formattedName) := entry.value;
      if formattedName !in devices[manufacturer] {
        next := devices[manufacturer := devices[manufacturer] + [formattedName]];
      }
    }
  }

  /** The six empty lists the index starts from (server/server.js:69-76). */
  lemma NoDevicesYet(devices: map<Manufacturer, seq<string>>, files: seq<DirEntry>)
    requires devices == map[Apple := [], Google := [], Samsung := [], Motorola := [], TCL := [], Other := []]
    ensures forall m :: m in devices && devices[m] == Listed(Entries(files)[..0], m)
  {
    forall m ensures m in devices && devices[m] == [] {
      match m
      case Apple =>
      case Google =>
      case Samsung =>
      case Motorola =>
      case TCL =>
      case Other =>
    }
  }

  /** The index loop of `/api/devices` (server/server.js:69-104): each
      contributed name is pushed unless its category already lists it. */
  method CollectDevices(files: seq<DirEntry>) returns (devices: map<Manufacturer, seq<string>>)
    ensures forall m :: m in devices && devices[m] == Listed(Entries(files), m)
  {
    devices := map[Apple := [], Google := [], Samsung := [], Motorola := [], TCL := [], Other := []];
    NoDevicesYet(devices, files);
    ghost var entries := Entries(files);
    for i := 0 to |files|
      invariant forall m :: m in devices && devices[m] == Listed(entries[..i], m)
    {
      var entry := IndexFile(files[i]);
      assert entries[i] == entry;
      ghost var before := devices;
      devices := PushEntry(devices, entry);
      forall m ensures m in devices && devices[m] == Listed(entries[..i + 1], m) {
        ListedStep(entries, i, m);
      }
    }
    assert entries[..|files|] == entries;
  }

  /** `/api/devices` (server/server.js:66-113): the lists, then the removal
      of every empty category. */
  method BuildDeviceIndex(files: seq<DirEntry>) returns (devices: map<Manufacturer, seq<string>>)
    ensures devices == DeviceIndex(files)
  {
    devices := CollectDevices(files);
    ghost var entries := Entries(files);
    for k := 0 to |Manufacturers|
      invariant forall m :: m in devices <==> (Rank(m) >= k || Listed(entries, m) != [])
      invariant forall m :: m in devices ==> devices[m] == Listed(entries, m)
    {
      var key := Manufacturers[k];
      if |devices[key]| == 0 {
        devices := devices - {key};
      }
    }
    forall m ensures m in devices <==> m in DeviceIndex(files) {
      assert Manufacturers[Rank(m)] == m;
    }
  }

  /** `[a-zA-Z0-9\.]` */
  predicate IsKeyChar(c: char) {
    IsAsciiLetter(c) || IsDigit(c) || c == '.'
  }

  /** End of the run of key characters from `i`: where a greedy `[a-zA-Z0-9\.]+` stops. */
  function KeyEnd(s: string, i: nat): (j: nat)
    requires i <= |s|
    ensures i <= j <= |s|
    ensures forall k :: i <= k < j ==> IsKeyChar(s[k])
    ensures j < |s| ==> !IsKeyChar(s[j])
    decreases |s| - i
  {
    if i < |s| && IsKeyChar(s[i]) then KeyEnd(s, i + 1) else i
  }

  /** `([a-zA-Z0-9\.]+)\s*=\s*(.+)` can match starting at `i`: a key
      character there, and the assignment right after the whole run (a shorter
      key would leave a key character, which is neither space nor `=`). */
  predicate PairAt(s: string, i: nat) {
    i < |s| && IsKeyChar(s[i]) && AssignTail(s, KeyEnd(s, i)).Some?
  }

  /** The trimmed groups of the leftmost match of the mapping pattern. */
  function PairOf(line: string): (r: Option<(string, string)>)
    ensures r.Some? ==> r.value.0 != [] && (forall k :: 0 <= k < |r.value.0| ==> IsKeyChar(r.value.0[k]))
    ensures r.Some? ==> IsTrimmed(r.value.1)
    ensures r.None? <==> forall j: nat :: !PairAt(line, j)
  {
    match FirstAt(PairAt, line, 0)
    case Some(i) =>
      var e := KeyEnd(line, i);
      var span := AssignTail(line, e).value;
      var key := line[i..e];
      assert forall k :: 0 <= k < |key| ==> IsKeyChar(key[k]) && key[k] == line[i + k];
      KeyTrimmed(key);
      Some((Trim(key), Trim(line[span.0..span.1])))
    case None => None
  }

  /** Key characters are not whitespace, so `trim` leaves a key alone. */
  lemma KeyTrimmed(key: string)
    requires key != [] && forall k :: 0 <= k < |key| ==> IsKeyChar(key[k])
    ensures Trim(key) == key
  {
    assert IsKeyChar(key[0]) && IsKeyChar(key[|key| - 1]);
    TrimTrimmed(key);
  }

  /** What one line of the pythia file yields (server/server.js:128-133):
      blank lines and lines whose trim starts with `#` are skipped. */
  function PythiaLine(line: string): Option<(string, string)> {
    var t := Trim(line);
    if t == [] || StartsWith(t, "#") then None else PairOf(line)
  }

  /** The pairs a line scanner yields over `lines`, in line order. */
  function Pairs(lines: seq<string>, scan: string -> Option<(string, string)>): seq<(string, string)> {
    if lines == [] then []
    else
      var prior := Pairs(lines[..|lines| - 1], scan);
      match scan(lines[|lines| - 1])
      case Some(p) => prior + [p]
      case None => prior
  }

  /** The mapping of `/api/pythia-config`. */
  function PythiaMapping(lines: seq<string>): seq<(string, string)> {
    Pairs(lines, PythiaLine)
  }

  lemma PairsStep(lines: seq<string>, i: nat, scan: string -> Option<(string, string)>)
    requires i < |lines|
    ensures Pairs(lines[..i + 1], scan)
         == match scan(lines[i]) case Some(p) => Pairs(lines[..i], scan) + [p] case None => Pairs(lines[..i], scan)
  {
    assert lines[..i + 1][..i] == lines[..i];
  }

  /** At most one pair per line, and every pair is what the scanner yields for some line. */
  lemma {:induction false} PairsFromLines(lines: seq<string>, scan: string -> Option<(string, string)>)
    ensures |Pairs(lines, scan)| <= |lines|
    ensures forall p :: p in Pairs(lines, scan) ==> exists i :: 0 <= i < |lines| && scan(lines[i]) == Some(p)
  {
    if lines != [] {
      var init := lines[..|lines| - 1];
      PairsFromLines(init, scan);
      forall p | p in Pairs(lines, scan)
        ensures exists i :: 0 <= i < |lines| && scan(lines[i]) == Some(p)
      {
        if p in Pairs(init, scan) {
          var i :| 0 <= i < |init| && scan(init[i]) == Some(p);
          assert lines[i] == init[i];
        }
      }
    }
  }

  /** `/api/pythia-config` (server/server.js:121-136; the same parser is
      server/new_server.js:61-76). */
  method ParsePythiaMapping(content: string) returns (mapping: seq<(string, string)>)
    ensures mapping == PythiaMapping(Split(content, '\n'))
  {
    var lines := Split(content, '\n');
    mapping := [];
    for i := 0 to |lines|
      invariant mapping == PythiaMapping(lines[..i])
    {
      var line := lines[i];
      PairsStep(lines, i, PythiaLine);
      if Trim(line) == [] || StartsWith(Trim(line), "#") {
        continue;
      }
      var match_ := PairOf(line);
      if match_.Some? {
        mapping := mapping + [match_.value];
      }
    }
    assert lines[..|lines|] == lines;
  }

  /** The mapping has at most one pair per line; every pair has a non-empty
      key over `[A-Za-z0-9.]` and a trimmed value, and comes from a line that
      is neither blank nor a `#` comment. */
  lemma PythiaMappingShape(lines: seq<string>)
    ensures |PythiaMapping(lines)| <= |lines|
    ensures forall p :: p in PythiaMapping(lines) ==>
      p.0 != [] && (forall k :: 0 <= k < |p.0| ==> IsKeyChar(p.0[k])) && IsTrimmed(p.1)
    ensures forall p :: p in PythiaMapping(lines) ==>
      exists i :: 0 <= i < |lines| && Trim(lines[i]) != [] && !StartsWith(Trim(lines[i]), "#") && PairOf(lines[i]) == Some(p)
  {
    PairsFromLines(lines, PythiaLine);
  }

  /** Where a greedy `[a-zA-Z0-9\.]+` stops after a run of key characters. */
  lemma KeyEndAt(s: string, i: nat, e: nat)
    requires i <= e <= |s| && (forall k :: i <= k < e ==> IsKeyChar(s[k])) && (e == |s| || !IsKeyChar(s[e]))
    ensures KeyEnd(s, i) == e
  {
  }

  /** A line laid out as `<no key character>* key = value` gives back its key and value. */
  lemma PairOfParts(s: string, i: nat, e: nat, key: string, v: string)
    requires i <= e && e + 3 <= |s| && s[i..e] == key && s[e..e + 3] == " = " && s[e + 3..|s|] == v
    requires key != [] && forall k :: 0 <= k < |key| ==> IsKeyChar(key[k])
    requires v != [] && IsTrimmed(v) && NoLineTerminator(v)
    requires forall j :: 0 <= j < i ==> !IsKeyChar(s[j])
    ensures PairOf(s) == Some((key, v))
  {
    forall k | i <= k < e
      ensures IsKeyChar(s[k])
    {
      assert s[k] == key[k - i];
    }
    assert s[e] == ' ';
    KeyEndAt(s, i, e);
    assert s[e + 3..e + 3 + |v|] == v;
    AssignTailSpaced(s, e, v);
    assert s[i] == key[0];
    assert PairAt(s, i);
    FirstAtIs(PairAt, s, 0, i);
    PairOfIs(s, i, e, e + 3, |s|);
    calc {
      PairOf(s);
      Some((Trim(s[i..e]), Trim(s[e + 3..|s|])));
      Some((Trim(key), Trim(v)));
      { KeyTrimmed(key); TrimTrimmed(v); }
      Some((key, v));
    }
  }

  /** The pair read off the leftmost match. */
  lemma PairOfIs(line: string, i: nat, e: nat, a: nat, b: nat)
    requires FirstAt(PairAt, line, 0) == Some(i) && i <= |line|
    requires KeyEnd(line, i) == e && AssignTail(line, e) == Some((a, b))
    ensures a <= b <= |line|
    ensures PairOf(line) == Some((Trim(line[i..e]), Trim(line[a..b])))
  {
  }

  /** A `key = value` line gives back its key and value, whatever precedes
      the key, `;` included, so long as it holds no key character. */
  lemma PairOfSpaced(pre: string, key: string, v: string)
    requires key != [] && forall k :: 0 <= k < |key| ==> IsKeyChar(key[k])
    requires v != [] && IsTrimmed(v) && NoLineTerminator(v)
    requires forall j :: 0 <= j < |pre| ==> !IsKeyChar(pre[j])
    ensures PairOf(pre + key + " = " + v) == Some((key, v))
  {
    var s := pre + key + " = " + v;
    var i, e := |pre|, |pre| + |key|;
    assert s[i..e] == key && s[e..e + 3] == " = " && s[e + 3..|s|] == v;
    forall j | 0 <= j < i
      ensures !IsKeyChar(s[j])
    {
      assert s[j] == pre[j];
    }
    PairOfParts(s, i, e, key, v);
  }

  /** Lines that are blank or start with `#` after trimming add nothing. */
  lemma CommentLinesSkipped(lines: seq<string>, line: string)
    requires Trim(line) == [] || StartsWith(Trim(line), "#")
    ensures PythiaMapping(lines + [line]) == PythiaMapping(lines)
  {
    PairsStep(lines + [line], |lines|, PythiaLine);
    assert (lines + [line])[..|lines|] == lines;
  }

  /** The answer of `/api/device`. */
  datatype Response = BadRequest | Config(content: string) | NotFound | ServerError

  /** `fs.existsSync(path.join(CONFIG_DIR, fileName))`: an entry of that name. */
  function FindFile(files: seq<DirEntry>, fileName: string): (r: Option<DirEntry>)
    ensures r.Some? ==> r.value in files && r.value.name == fileName
    ensures r.None? <==> forall k :: 0 <= k < |files| ==> files[k].name != fileName
  {
    if files == [] then None
    else if files[0].name == fileName then Some(files[0])
    else FindFile(files[1..], fileName)
  }

  /** `.ini` file `files[i]` can be read and holds `needle`. */
  predicate Holds(files: seq<DirEntry>, i: nat, needle: string)
    requires i < |files|
  {
    EndsWith(files[i].name, ".ini") && files[i].content.Some? && Contains(files[i].content.value, needle)
  }

  /** The content of the first readable `.ini` file holding `needle`, in listing order. */
  function FirstHolding(files: seq<DirEntry>, needle: string): (r: Option<string>)
    ensures r.Some? ==> exists i :: 0 <= i < |files| && Holds(files, i, needle) && files[i].content == Some(r.value)
                          && forall j :: 0 <= j < i ==> !Holds(files, j, needle)
    ensures r.None? <==> forall i :: 0 <= i < |files| ==> !Holds(files, i, needle)
  {
    if files == [] then None
    else if Holds(files, 0, needle) then files[0].content
    else
      var r := FirstHolding(files[1..], needle);
      assert forall i :: 1 <= i < |files| ==> (Holds(files, i, needle) <==> Holds(files[1..], i - 1, needle));
      r
  }

  /** The scan of `/api/device` (server/server.js:170-186; server/new_server.js:92-108):
      files that cannot be read are skipped, the first holding the needle wins. */
  method FindConfig(files: seq<DirEntry>, needle: string) returns (configContent: Option<string>)
    ensures configContent == FirstHolding(files, needle)
  {
    configContent := None;
    var i := 0;
    while i < |files|
      invariant 0 <= i <= |files|
      invariant FirstHolding(files, needle) == FirstHolding(files[i..], needle)
    {
      var file := files[i];
      assert files[i..][1..] == files[i + 1..];
      if EndsWith(file.name, ".ini") && file.content.Some? {
        if Contains(file.content.value, needle) {
          configContent := file.content;
          assert Holds(files[i..], 0, needle);
          return;
        }
      }
      i := i + 1;
    }
  }

  /** A found configuration holds the needle, so it is never the empty string
      that `if (configContent)` would treat as missing. */
  lemma FoundIsNonEmpty(files: seq<DirEntry>, needle: string)
    requires needle != []
    ensures FirstHolding(files, needle).Some? ==> FirstHolding(files, needle).value != ""
  {
    if FirstHolding(files, needle).Some? {
      var c := FirstHolding(files, needle).value;
      var k: nat :| k <= |c| && StartsAt(c, needle, k);
    }
  }

  /** `Name = <search>`, the text the scan looks for. */
  function Needle(search: string): string {
    "Name = " + search
  }

  /** What `/api/device` answers for `?model=...` (server/server.js:144-192). */
  function DeviceResponse(modelName: Option<string>, files: seq<DirEntry>): Response {
    if modelName.None? || modelName.value == "" then BadRequest
    else
      var search :=
        match ModelNames.SplitFormatted(modelName.value)
        case Some((full, _)) => full
        case None => modelName.value;
      var direct :=
        match ModelNames.SplitFormatted(modelName.value)
        case Some((_, code)) => FindFile(files, code + ".ini")
        case None => None;
      if direct.Some? then
        match direct.value.content
        case Some(c) => Config(c)
        case None => ServerError
      else
        match FirstHolding(files, Needle(search))
        case Some(c) => if c != "" then Config(c) else NotFound
        case None => NotFound
  }

  /** `/api/device` (server/server.js:144-197). Reading a file the directory
      lists but that cannot be read is the server error of the handler. */
  method GetDevice(modelName: Option<string>, files: seq<DirEntry>) returns (res: Response)
    ensures res == DeviceResponse(modelName, files)
  {
    if modelName.None? || modelName.value == "" {
      return BadRequest;
    }
    var searchModelName := modelName.value;
    var modelCodeMatch := ModelNames.SplitFormatted(modelName.value);
    if modelCodeMatch.Some? {
      var modelCode := modelCodeMatch.value.1;
      var fileName := modelCode + ".ini";
      var entry := FindFile(files, fileName);
      if entry.Some? {
        if entry.value.content.None? {
          return ServerError;
        }
        return Config(entry.value.content.value);
      }
      searchModelName := modelCodeMatch.value.0;
    }
    var configContent := FindConfig(files, Needle(searchModelName));
    if configContent.Some? && configContent.value != "" {
      res := Config(configContent.value);
    } else {
      res := NotFound;
    }
  }

  /** A name from the index finds its own file: for `full (code)` the file
      `code.ini` is served when it is listed and readable. */
  lemma IndexNameFindsFile(full: string, code: string, files: seq<DirEntry>, i: nat)
    requires full != [] && NoLineTerminator(full)
    requires code != [] && '(' !in code && ')' !in code
    requires i < |files| && files[i].name == code + ".ini" && files[i].content.Some?
    requires forall j :: 0 <= j < i ==> files[j].name != code + ".ini"
    ensures DeviceResponse(Some(ModelNames.Format(full, code)), files) == Config(files[i].content.value)
  {
    ModelNames.SplitFormattedOfFormat(full, code);
    var r := FindFile(files, code + ".ini");
    assert r.Some? by {
      assert files[i] in files;
    }
    assert r == Some(files[i]) by {
      FindFileFirst(files, code + ".ini", i);
    }
  }

  lemma {:induction false} FindFileFirst(files: seq<DirEntry>, fileName: string, i: nat)
    requires i < |files| && files[i].name == fileName
    requires forall j :: 0 <= j < i ==> files[j].name != fileName
    ensures FindFile(files, fileName) == Some(files[i])
  {
    if i > 0 {
      FindFileFirst(files[1..], fileName, i - 1);
    }
  }

  /** Without its code file, a formatted name falls back to searching for
      `Name = <full>`. */
  lemma FallbackSearchesFullName(full: string, code: string, files: seq<DirEntry>)
    requires full != [] && NoLineTerminator(full)
    requires code != [] && '(' !in code && ')' !in code
    requires forall j :: 0 <= j < |files| ==> files[j].name != code + ".ini"
    ensures DeviceResponse(Some(ModelNames.Format(full, code)), files)
         == match FirstHolding(files, Needle(full)) case Some(c) => Config(c) case None => NotFound
  {
    ModelNames.SplitFormattedOfFormat(full, code);
    FoundIsNonEmpty(files, Needle(full));
  }

  /** A non-empty model name is never refused, and a missing one always is. */
  lemma BadRequestExactly(modelName: Option<string>, files: seq<DirEntry>)
    ensures DeviceResponse(modelName, files) == BadRequest <==> (modelName.None? || modelName.value == "")
  {
  }
}
