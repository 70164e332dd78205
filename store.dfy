/** The configuration store of `ConfigFile`, as a value: the state Go keeps in
    the struct's fields, and what each updating method does to it. */
module ConfigStore {
  import opened Wrappers
  import opened TextFields
  import opened Properties

  /** `DEFAULT_SECTION`: the name of the section opened for keys that come
      before any recognised section header. */
  const DEFAULT_SECTION: string := "DEFAULT"

  /** The keys of one section instance: key name to its records, in file order. */
  type KeyTable = map<string, seq<PropertyValue>>

  /** Go's `CurrentKeys` aliases one map inside `data`; here it names that map
      by section and position. */
  datatype KeyRef = KeyRef(section: string, index: nat)

  datatype Store = Store(
    fileNames: seq<string>,                        // every file given to LoadFile so far
    data: map<string, seq<KeyTable>>,              // section name to one key table per instance
    sectionData: map<string, seq<PropertyValue>>,  // section name to one header record per instance
    sectionList: seq<string>,                      // the recognised section names
    currentKeys: Option<KeyRef>)                   // where keys go; None is Go's nil map

  /** `NewConfigFile()`. */
  function Empty(): (r: Store)
    ensures r.fileNames == [] && r.sectionList == [] && r.currentKeys == None
    ensures r.data == map[] && r.sectionData == map[]
  {
    Store([], map[], map[], [], None)
  }

  /** A map lookup that, like Go's, yields the empty (nil) slice for a missing key. */
  function Lookup<V>(m: map<string, seq<V>>, k: string): seq<V>
  {
    if k in m then m[k] else []
  }

  /** The shape every update keeps: the two maps have the same sections, one key
      table per header record, at least one instance per section, and the
      routing reference designates the last table of an opened section (it is
      unset only while no section has been opened). */
  ghost predicate Valid(st: Store)
  {
    && st.sectionData.Keys == st.data.Keys
    && (forall s :: s in st.sectionData ==> 0 < |st.sectionData[s]| == |st.data[s]|)
    && (st.currentKeys.None? ==> st.data == map[])
    && (st.currentKeys.Some? ==>
          st.currentKeys.value.section in st.data &&
          st.currentKeys.value.index == |st.data[st.currentKeys.value.section]| - 1)
  }

  lemma EmptyIsValid()
    ensures Valid(Empty())
  {
  }

  /** `SetSectionName(sections...)`: the names are appended to the recognised ones. */
  function SetSectionName(st: Store, sections: seq<string>): (r: Store)
    ensures r.sectionList == st.sectionList + sections
    ensures r.data == st.data && r.sectionData == st.sectionData
    ensures r.currentKeys == st.currentKeys && r.fileNames == st.fileNames
    ensures Valid(st) ==> Valid(r)
  {
    st.(sectionList := st.sectionList + sections)
  }

  /** `AddSectionValue(section, prop)`: a new instance of `section` with header
      `prop` and an empty key table, which becomes the current one. A repeated
      name gives another instance, never a merge. */
  function AddSectionValue(st: Store, section: string, prop: PropertyValue): (r: Store)
    requires Valid(st)
    ensures r.sectionData == st.sectionData[section := Lookup(st.sectionData, section) + [prop]]
    ensures r.data == st.data[section := Lookup(st.data, section) + [map[]]]
    ensures r.currentKeys == Some(KeyRef(section, |Lookup(st.data, section)|))
    ensures r.sectionList == st.sectionList && r.fileNames == st.fileNames
    ensures Valid(r)
  {
    var tables := Lookup(st.data, section) + [map[]];
    st.(sectionData := st.sectionData[section := Lookup(st.sectionData, section) + [prop]],
        data := st.data[section := tables],
        currentKeys := Some(KeyRef(section, |tables| - 1)))
  }

  /** The store with `table` in place of the table `ref` designates. */
  function PutTable(st: Store, ref: KeyRef, table: KeyTable): (r: Store)
    requires ref.section in st.data && ref.index < |st.data[ref.section]|
    ensures r.data.Keys == st.data.Keys && |r.data[ref.section]| == |st.data[ref.section]|
    ensures r.data[ref.section][ref.index] == table
    ensures forall s :: s in st.data ==> |r.data[s]| == |st.data[s]|
    ensures forall s, j :: s in st.data && 0 <= j < |st.data[s]| && (s, j) != (ref.section, ref.index) ==>
              r.data[s][j] == st.data[s][j]
    ensures r.(data := st.data) == st
  {
    st.(data := st.data[ref.section := st.data[ref.section][ref.index := table]])
  }

  /** `table` with `prop` appended after the records already held under its name. */
  function AddRecord(table: KeyTable, prop: PropertyValue): (r: KeyTable)
    ensures r.Keys == table.Keys + {prop.name}
    ensures r[prop.name] == Lookup(table, prop.name) + [prop]
    ensures forall k :: k in table && k != prop.name ==> r[k] == table[k]
  {
    table[prop.name := Lookup(table, prop.name) + [prop]]
  }

  /** The store `SetKey` writes into: unchanged when a section is open;
      otherwise `DEFAULT_SECTION` is appended to the recognised names and an
      instance of it is opened with `newProperty(DEFAULT_SECTION)` as header. */
  function WithOpenSection(st: Store): (r: Store)
    requires Valid(st)
    ensures Valid(r) && r.currentKeys.Some?
    ensures st.currentKeys.Some? ==> r == st
    ensures st.currentKeys.None? ==>
      && r.sectionList == st.sectionList + [DEFAULT_SECTION]
      && r.sectionData == map[DEFAULT_SECTION := [NewProperty(DEFAULT_SECTION)]]
      && r.data == map[DEFAULT_SECTION := [map[]]]
      && r.currentKeys == Some(KeyRef(DEFAULT_SECTION, 0))
  {
    if st.currentKeys.None? then
      assert st.sectionData.Keys == {} && st.sectionData == map[];
      assert Lookup(st.sectionData, DEFAULT_SECTION) + [NewProperty(DEFAULT_SECTION)] == [NewProperty(DEFAULT_SECTION)];
      assert Lookup(st.data, DEFAULT_SECTION) + [map[]] == [map[]];
      AddSectionValue(SetSectionName(st, [DEFAULT_SECTION]), DEFAULT_SECTION, NewProperty(DEFAULT_SECTION))
    else st
  }

  /** `SetKey(prop)`: `prop` goes into the current key table (opening the
      default section first if none is open), after the records that already
      have its name; no other table changes. */
  function SetKey(st: Store, prop: PropertyValue): (r: Store)
    requires Valid(st)
    ensures Valid(r)
    ensures var o := WithOpenSection(st); var ref := o.currentKeys.value;
      r == PutTable(o, ref, AddRecord(o.data[ref.section][ref.index], prop))
  {
    var o := WithOpenSection(st);
    var ref := o.currentKeys.value;
    PutTable(o, ref, AddRecord(o.data[ref.section][ref.index], prop))
  }

  /** What `SetKey` leaves alone: the headers, the recognised names, the
      current position, the file names, the number of tables of every
      section, and every table but the current one. */
  lemma SetKeyTouchesOnlyCurrent(st: Store, prop: PropertyValue)
    requires Valid(st)
    ensures var o := WithOpenSection(st); var ref := o.currentKeys.value; var r := SetKey(st, prop);
      && r.sectionData == o.sectionData && r.sectionList == o.sectionList
      && r.currentKeys == o.currentKeys && r.fileNames == st.fileNames
      && r.data.Keys == o.data.Keys
      && (forall s :: s in r.data ==> |r.data[s]| == |o.data[s]|)
      && (forall s, i :: s in o.data && 0 <= i < |o.data[s]| && (s != ref.section || i != ref.index) ==>
            r.data[s][i] == o.data[s][i])
      && r.data[ref.section][ref.index][prop.name] == Lookup(o.data[ref.section][ref.index], prop.name) + [prop]
  {
  }

  /** `contains`: a linear scan of the recognised names. */
  method Contains(s: seq<string>, e: string) returns (found: bool)
    ensures found <==> e in s
  {
    for i := 0 to |s|
      invariant e !in s[..i]
    {
      if s[i] == e {
        return true;
      }
    }
    return false;
  }

  /** `LoadString(line)`: parse the line; drop it if it has no fields, open a
      section instance if its name is recognised, and add it as a key otherwise. */
  function LoadString(st: Store, line: string): (r: Store)
    requires Valid(st)
    ensures Valid(r) && r.fileNames == st.fileNames
  {
    LoadRecord(st, Parse(line))
  }

  /** What `LoadString` does with the outcome of parsing its line. */
  function LoadRecord(st: Store, out: LoadOutcome): (r: Store)
    requires Valid(st)
    ensures Valid(r) && r.fileNames == st.fileNames
  {
    if !out.ok then st
    else if out.prop.name in st.sectionList then AddSectionValue(st, out.prop.name, out.prop)
    else SetKey(st, out.prop)
  }

  /** The lines of one file, fed to `LoadString` in order. */
  function LoadLines(st: Store, lines: seq<string>): (r: Store)
    requires Valid(st)
    ensures Valid(r) && r.fileNames == st.fileNames
    decreases |lines|
  {
    if lines == [] then st
    else LoadString(LoadLines(st, lines[..|lines| - 1]), lines[|lines| - 1])
  }

  /** The walk of `LoadFile` over `names`: each file in turn, stopping at the
      first that cannot be opened; what was loaded before stays loaded. The
      file system is the map `fs` from names to lines; a name it lacks is a
      file that cannot be opened. */
  function LoadFiles(st: Store, fs: map<string, seq<string>>, names: seq<string>): (r: (Store, Option<ConfError>))
    requires Valid(st)
    ensures Valid(r.0) && r.0.fileNames == st.fileNames
    decreases |names|
  {
    if names == [] then (st, None)
    else
      var (before, err) := LoadFiles(st, fs, names[..|names| - 1]);
      var last := names[|names| - 1];
      if err.Some? then (before, err)
      else if last !in fs then (before, Some(ReadError(last)))
      else (LoadLines(before, fs[last]), None)
  }

  /** One more file of the walk, after files that could all be opened. */
  lemma LoadFilesNext(st: Store, fs: map<string, seq<string>>, names: seq<string>, k: nat)
    requires Valid(st) && k < |names| && LoadFiles(st, fs, names[..k]).1 == None
    ensures var before := LoadFiles(st, fs, names[..k]).0;
      LoadFiles(st, fs, names[..k + 1]) ==
        if names[k] in fs then (LoadLines(before, fs[names[k]]), None)
        else (before, Some(ReadError(names[k])))
  {
    assert names[..k + 1][..k] == names[..k];
  }

  /** The first file that cannot be opened ends the walk: no later file is read. */
  lemma {:induction false} LoadFilesStopsAtError(st: Store, fs: map<string, seq<string>>, names: seq<string>, k: nat)
    requires Valid(st) && k <= |names|
    requires LoadFiles(st, fs, names[..k]).1.Some?
    ensures LoadFiles(st, fs, names) == LoadFiles(st, fs, names[..k])
    decreases |names| - k
  {
    if k < |names| {
      assert names[..k + 1][..k] == names[..k];
      LoadFilesStopsAtError(st, fs, names, k + 1);
    } else {
      assert names[..k] == names;
    }
  }

  /** `LoadFile(fileName...)`: the names are added to `fileNames`, and then ALL
      the names recorded so far are walked, the earlier ones again included. */
  function LoadFile(st: Store, fs: map<string, seq<string>>, fileName: seq<string>): (r: (Store, Option<ConfError>))
    requires Valid(st)
    ensures Valid(r.0) && r.0.fileNames == st.fileNames + fileName
  {
    var st1 := st.(fileNames := st.fileNames + fileName);
    LoadFiles(st1, fs, st1.fileNames)
  }

  /** `Reload()`: a store made by `NewConfigFile()` loads the recorded files;
      it replaces the state only if that load reports no error. The fresh
      store has no recognised section names. */
  function Reload(st: Store, fs: map<string, seq<string>>): (r: (Store, Option<ConfError>))
    requires Valid(st)
    ensures Valid(r.0)
    ensures r.1.Some? ==> r.0 == st
    ensures r.1.None? ==> r.0 == LoadFile(Empty(), fs, st.fileNames).0
  {
    var (reloaded, err) := LoadFile(Empty(), fs, st.fileNames);
    if err.None? then (reloaded, None) else (st, err)
  }

  // ---------------------------------------------------------------------------
  // What LoadString does with a line
  // ---------------------------------------------------------------------------

  /** The three ways a line goes: a line with nothing but white space before
      its comment leaves the store as it was; a line whose first word is a
      recognised section name opens a new instance of that section; any other
      line becomes a key of the current instance. */
  lemma LoadStringDispatch(st: Store, line: string)
    requires Valid(st)
    ensures var out := Parse(line); var r := LoadString(st, line);
      && (AllSpace(Content(line)) ==> r == st)
      && (!AllSpace(Content(line)) && out.prop.name in st.sectionList ==>
            r == AddSectionValue(st, out.prop.name, out.prop))
      && (!AllSpace(Content(line)) && out.prop.name !in st.sectionList ==>
            r == SetKey(st, out.prop))
      && (!AllSpace(Content(line)) ==> out.prop.name == Fields(Content(line))[0])
  {
    LoadedFields(NewProperty(""), line);
  }

  /** How LoadString groups what it stores: every section is a recognised name
      and a single word, each instance's header record carries the section's
      name, and each key table files records under their own names. */
  ghost predicate Grouped(st: Store)
  {
    && (forall s :: s in st.sectionData ==> s in st.sectionList && IsField(s))
    && (forall s, i :: s in st.sectionData && 0 <= i < |st.sectionData[s]| ==>
          st.sectionData[s][i].name == s)
    && (forall s, i :: s in st.data && 0 <= i < |st.data[s]| ==> TableGrouped(st.data[s][i]))
  }

  /** A key table that files every record under the record's own name, a
      single word. */
  ghost predicate TableGrouped(t: KeyTable)
  {
    forall k :: k in t ==> IsField(k) && forall j :: 0 <= j < |t[k]| ==> t[k][j].name == k
  }

  lemma AddRecordKeepsGrouped(t: KeyTable, prop: PropertyValue)
    requires TableGrouped(t) && IsField(prop.name)
    ensures TableGrouped(AddRecord(t, prop))
  {
    var r: KeyTable := AddRecord(t, prop);
    forall k: string | k in r
      ensures IsField(k) && forall j :: 0 <= j < |r[k]| ==> r[k][j].name == k
    {
      if k != prop.name {
        assert r[k] == t[k];
      } else {
        assert r[k] == Lookup(t, k) + [prop];
      }
    }
  }

  lemma AddSectionKeepsGrouped(st: Store, prop: PropertyValue)
    requires Valid(st) && Grouped(st)
    requires prop.name in st.sectionList && IsField(prop.name)
    ensures Grouped(AddSectionValue(st, prop.name, prop))
  {
    var r := AddSectionValue(st, prop.name, prop);
    forall s, i | s in r.sectionData && 0 <= i < |r.sectionData[s]|
      ensures r.sectionData[s][i].name == s
    {
      if s == prop.name && i == |Lookup(st.sectionData, s)| {
      } else {
        assert r.sectionData[s][i] == st.sectionData[s][i];
      }
    }
    forall s, i | s in r.data && 0 <= i < |r.data[s]|
      ensures TableGrouped(r.data[s][i])
    {
      if s == prop.name && i == |Lookup(st.data, s)| {
        assert r.data[s][i] == map[];
      } else {
        assert r.data[s][i] == st.data[s][i];
      }
    }
  }

  lemma DefaultSectionIsField()
    ensures IsField(DEFAULT_SECTION)
  {
    var d := DEFAULT_SECTION;
    assert forall i :: 0 <= i < |d| ==> d[i] in {'D', 'E', 'F', 'A', 'U', 'L', 'T'};
  }

  lemma SetKeyKeepsGrouped(st: Store, prop: PropertyValue)
    requires Valid(st) && Grouped(st)
    requires IsField(prop.name)
    ensures Grouped(SetKey(st, prop))
  {
    var o := WithOpenSection(st);
    assert Grouped(o) by {
      if st.currentKeys.None? {
        DefaultSectionIsField();
        var st1 := SetSectionName(st, [DEFAULT_SECTION]);
        assert DEFAULT_SECTION in st1.sectionList;
        AddSectionKeepsGrouped(st1, NewProperty(DEFAULT_SECTION));
      }
    }
    var ref := o.currentKeys.value;
    var r := SetKey(st, prop);
    SetKeyTouchesOnlyCurrent(st, prop);
    forall s, i | s in r.data && 0 <= i < |r.data[s]|
      ensures TableGrouped(r.data[s][i])
    {
      if s == ref.section && i == ref.index {
        AddRecordKeepsGrouped(o.data[s][i], prop);
      } else {
        assert r.data[s][i] == o.data[s][i];
      }
    }
  }

  /** LoadString keeps the grouping. */
  lemma LoadStringKeepsGrouped(st: Store, line: string)
    requires Valid(st) && Grouped(st)
    ensures Grouped(LoadString(st, line))
  {
    var out := Parse(line);
    if out.ok {
      LoadedFields(NewProperty(""), line);
      if out.prop.name in st.sectionList {
        AddSectionKeepsGrouped(st, out.prop);
      } else {
        SetKeyKeepsGrouped(st, out.prop);
      }
    }
  }

  /** Loading whole files keeps the grouping, so a store built only by
      `SetSectionName` and loading is grouped. */
  lemma {:induction false} LoadLinesKeepsGrouped(st: Store, lines: seq<string>)
    requires Valid(st) && Grouped(st)
    ensures Grouped(LoadLines(st, lines))
    decreases |lines|
  {
    if lines != [] {
      LoadLinesKeepsGrouped(st, lines[..|lines| - 1]);
      LoadStringKeepsGrouped(LoadLines(st, lines[..|lines| - 1]), lines[|lines| - 1]);
    }
  }

  // ---------------------------------------------------------------------------
  // Repeated sections, repeated keys, the default section
  // ---------------------------------------------------------------------------

  /** Two headers with the same recognised name are two instances, each with
      its own key table, kept in file order. */
  lemma RepeatedSectionsAreDistinct(st: Store, line1: string, line2: string)
    requires Valid(st)
    requires Parse(line1).ok && Parse(line2).ok
    requires Parse(line1).prop.name == Parse(line2).prop.name && Parse(line1).prop.name in st.sectionList
    ensures var name := Parse(line1).prop.name;
            var r := LoadString(LoadString(st, line1), line2);
            var n := |Lookup(st.sectionData, name)|;
      && |r.sectionData[name]| == |r.data[name]| == n + 2
      && r.sectionData[name][n] == Parse(line1).prop
      && r.sectionData[name][n + 1] == Parse(line2).prop
      && r.data[name][n] == map[] && r.data[name][n + 1] == map[]
      && r.currentKeys == Some(KeyRef(name, n + 1))
  {
    RepeatedHeaderRecords(st, Parse(line1), Parse(line2));
  }

  /** The same, for the two parsed header records. */
  lemma RepeatedHeaderRecords(st: Store, o1: LoadOutcome, o2: LoadOutcome)
    requires Valid(st)
    requires o1.ok && o2.ok && o1.prop.name == o2.prop.name && o1.prop.name in st.sectionList
    ensures var name := o1.prop.name;
            var r := LoadRecord(LoadRecord(st, o1), o2);
            var n := |Lookup(st.sectionData, name)|;
      && |r.sectionData[name]| == |r.data[name]| == n + 2
      && r.sectionData[name][n] == o1.prop
      && r.sectionData[name][n + 1] == o2.prop
      && r.data[name][n] == map[] && r.data[name][n + 1] == map[]
      && r.currentKeys == Some(KeyRef(name, n + 1))
  {
  }

  /** Two key lines with the same name in one instance are both kept, in the
      order of the file, and the second does not disturb any other table. */
  lemma RepeatedKeysKeepOrder(st: Store, line1: string, line2: string)
    requires Valid(st) && st.currentKeys.Some?
    requires Parse(line1).ok && Parse(line2).ok
    requires Parse(line1).prop.name == Parse(line2).prop.name && Parse(line1).prop.name !in st.sectionList
    ensures var key := Parse(line1).prop.name;
            var ref := st.currentKeys.value;
            var r := LoadString(LoadString(st, line1), line2);
            var before := Lookup(st.data[ref.section][ref.index], key);
      && r.currentKeys == st.currentKeys
      && r.data[ref.section][ref.index][key] == before + [Parse(line1).prop, Parse(line2).prop]
      && r.sectionData == st.sectionData
  {
    RepeatedKeyRecords(st, Parse(line1), Parse(line2));
  }

  /** The same, for the two parsed key records. */
  lemma RepeatedKeyRecords(st: Store, o1: LoadOutcome, o2: LoadOutcome)
    requires Valid(st) && st.currentKeys.Some?
    requires o1.ok && o2.ok && o1.prop.name == o2.prop.name && o1.prop.name !in st.sectionList
    ensures var key := o1.prop.name;
            var ref := st.currentKeys.value;
            var r := LoadRecord(LoadRecord(st, o1), o2);
            var before := Lookup(st.data[ref.section][ref.index], key);
      && r.currentKeys == st.currentKeys
      && r.data[ref.section][ref.index][key] == before + [o1.prop, o2.prop]
      && r.sectionData == st.sectionData
  {
    var key := o1.prop.name;
    var ref := st.currentKeys.value;
    var r1 := LoadRecord(st, o1);
    var before := Lookup(st.data[ref.section][ref.index], key);
    assert r1.data[ref.section][ref.index][key] == before + [o1.prop];
    var r := LoadRecord(r1, o2);
    assert r.data[ref.section][ref.index][key] == before + [o1.prop] + [o2.prop];
  }

  /** A key line before any section header lands in a fresh `DEFAULT` instance,
      and `DEFAULT` becomes a recognised section name. */
  lemma KeyBeforeAnySectionGoesToDefault(st: Store, line: string)
    requires Valid(st) && st.currentKeys.None?
    requires Parse(line).ok && Parse(line).prop.name !in st.sectionList
    ensures var prop := Parse(line).prop; var r := LoadString(st, line);
      && r.sectionList == st.sectionList + [DEFAULT_SECTION]
      && r.sectionData == map[DEFAULT_SECTION := [NewProperty(DEFAULT_SECTION)]]
      && r.data == map[DEFAULT_SECTION := [map[prop.name := [prop]]]]
  {
    var prop := Parse(line).prop;
    var o := WithOpenSection(st);
    assert Lookup(map[], prop.name) + [prop] == [prop];
    assert AddRecord(map[], prop) == map[prop.name := [prop]];
    assert o.data[DEFAULT_SECTION][0 := map[prop.name := [prop]]] == [map[prop.name := [prop]]];
  }

  // ---------------------------------------------------------------------------
  // LoadFile and Reload
  // ---------------------------------------------------------------------------

  /** Lines put nothing but records into the store: the list of file names
      is carried along untouched. */
  lemma LoadRecordIgnoresFileNames(st: Store, names: seq<string>, out: LoadOutcome)
    requires Valid(st)
    ensures Valid(st.(fileNames := names))
    ensures LoadRecord(st.(fileNames := names), out) == LoadRecord(st, out).(fileNames := names)
  {
  }

  lemma {:induction false} LoadLinesIgnoresFileNames(st: Store, names: seq<string>, lines: seq<string>)
    requires Valid(st)
    ensures Valid(st.(fileNames := names))
    ensures LoadLines(st.(fileNames := names), lines) == LoadLines(st, lines).(fileNames := names)
    decreases |lines|
  {
    if lines != [] {
      var init := lines[..|lines| - 1];
      LoadLinesIgnoresFileNames(st, names, init);
      LoadRecordIgnoresFileNames(LoadLines(st, init), names, Parse(lines[|lines| - 1]));
    }
  }

  /** `LoadFile` walks every name it has recorded, not only the new ones: a
      second call loads the first file's lines once more. */
  lemma LoadFileRewalksEarlierFiles(st: Store, fs: map<string, seq<string>>, a: string, b: string)
    requires Valid(st) && st.fileNames == []
    requires a in fs && b in fs
    ensures var first := LoadFile(st, fs, [a]);
      && first.1 == None
      && LoadFile(first.0, fs, [b]) ==
           (LoadLines(LoadLines(LoadLines(st, fs[a]), fs[a]), fs[b]).(fileNames := [a, b]), None)
  {
    var sa := st.(fileNames := [a]);
    assert [a][..0] == [];
    assert LoadFile(st, fs, [a]) == LoadFiles(sa, fs, [a]);
    assert LoadFiles(sa, fs, [a]) == (LoadLines(sa, fs[a]), None);
    LoadLinesIgnoresFileNames(st, [a], fs[a]);
    var first := LoadLines(st, fs[a]).(fileNames := [a]);
    var sab := first.(fileNames := [a, b]);
    assert [a, b][..1] == [a];
    assert [a] + [b] == [a, b];
    assert LoadFile(first, fs, [b]) == LoadFiles(sab, fs, [a, b]);
    var once := LoadLines(LoadLines(st, fs[a]), fs[a]);
    LoadLinesIgnoresFileNames(LoadLines(st, fs[a]), [a, b], fs[a]);
    assert LoadFiles(sab, fs, [a]) == (once.(fileNames := [a, b]), None);
    LoadLinesIgnoresFileNames(once, [a, b], fs[b]);
  }

  /** Only `DEFAULT` is recognised and only `DEFAULT` has instances. */
  ghost predicate OnlyDefault(st: Store)
  {
    && (forall i :: 0 <= i < |st.sectionList| ==> st.sectionList[i] == DEFAULT_SECTION)
    && st.sectionData.Keys <= {DEFAULT_SECTION}
  }

  lemma LoadRecordOnlyDefault(st: Store, out: LoadOutcome)
    requires Valid(st) && OnlyDefault(st)
    ensures OnlyDefault(LoadRecord(st, out))
  {
    var r := LoadRecord(st, out);
    assert forall i :: 0 <= i < |r.sectionList| ==> r.sectionList[i] == DEFAULT_SECTION;
  }

  lemma {:induction false} LoadLinesOnlyDefault(st: Store, lines: seq<string>)
    requires Valid(st) && OnlyDefault(st)
    ensures OnlyDefault(LoadLines(st, lines))
    decreases |lines|
  {
    if lines != [] {
      var init := lines[..|lines| - 1];
      LoadLinesOnlyDefault(st, init);
      LoadRecordOnlyDefault(LoadLines(st, init), Parse(lines[|lines| - 1]));
    }
  }

  lemma {:induction false} LoadFilesOnlyDefault(st: Store, fs: map<string, seq<string>>, names: seq<string>)
    requires Valid(st) && OnlyDefault(st)
    ensures OnlyDefault(LoadFiles(st, fs, names).0)
    decreases |names|
  {
    if names != [] {
      LoadFilesOnlyDefault(st, fs, names[..|names| - 1]);
      var before := LoadFiles(st, fs, names[..|names| - 1]).0;
      var last := names[|names| - 1];
      if last in fs {
        LoadLinesOnlyDefault(before, fs[last]);
      }
    }
  }

  /** Reload starts from `NewConfigFile()`, whose recognised names are empty,
      so after a successful reload every record sits in `DEFAULT`: the
      section names the caller configured are not carried over. */
  lemma ReloadLandsInDefault(st: Store, fs: map<string, seq<string>>)
    requires Valid(st)
    ensures var r := Reload(st, fs);
      r.1.None? ==> r.0.sectionData.Keys <= {DEFAULT_SECTION} && r.0.data.Keys <= {DEFAULT_SECTION}
  {
    var e := Empty().(fileNames := st.fileNames);
    assert [] + st.fileNames == st.fileNames;
    assert LoadFile(Empty(), fs, st.fileNames) == LoadFiles(e, fs, st.fileNames);
    LoadFilesOnlyDefault(e, fs, st.fileNames);
  }

  // ---------------------------------------------------------------------------
  // Reload without the configured section names
  // ---------------------------------------------------------------------------

  /** What loading only adds to: recognised names stay recognised and
      sections that have instances keep them. */
  ghost predicate Grows(st: Store, r: Store)
  {
    && (forall x :: x in st.sectionList ==> x in r.sectionList)
    && st.sectionData.Keys <= r.sectionData.Keys
  }

  lemma LoadStringGrows(st: Store, line: string)
    requires Valid(st)
    ensures Grows(st, LoadString(st, line))
  {
    LoadStringDispatch(st, line);
  }

  lemma {:induction false} LoadLinesGrows(st: Store, lines: seq<string>)
    requires Valid(st)
    ensures Grows(st, LoadLines(st, lines))
    decreases |lines|
  {
    if lines != [] {
      LoadLinesGrows(st, lines[..|lines| - 1]);
      LoadStringGrows(LoadLines(st, lines[..|lines| - 1]), lines[|lines| - 1]);
    }
  }

  lemma {:induction false} LoadFilesGrows(st: Store, fs: map<string, seq<string>>, names: seq<string>)
    requires Valid(st)
    ensures Grows(st, LoadFiles(st, fs, names).0)
    decreases |names|
  {
    if names != [] {
      LoadFilesGrows(st, fs, names[..|names| - 1]);
      var before := LoadFiles(st, fs, names[..|names| - 1]).0;
      var last := names[|names| - 1];
      if last in fs {
        LoadLinesGrows(before, fs[last]);
      }
    }
  }

  /** A line whose first word is recognised from the start puts an instance
      of that section into the store. */
  lemma {:induction false} LoadLinesOpensHeader(st: Store, lines: seq<string>, k: nat)
    requires Valid(st) && k < |lines|
    requires Parse(lines[k]).ok && Parse(lines[k]).prop.name in st.sectionList
    ensures Parse(lines[k]).prop.name in LoadLines(st, lines).sectionData
    decreases |lines|
  {
    var name := Parse(lines[k]).prop.name;
    var init := lines[..|lines| - 1];
    var before := LoadLines(st, init);
    if k == |lines| - 1 {
      LoadLinesGrows(st, init);
      LoadStringDispatch(before, lines[k]);
      LoadedFields(NewProperty(""), lines[k]);
    } else {
      assert init[k] == lines[k];
      LoadLinesOpensHeader(st, init, k);
      LoadStringGrows(before, lines[|lines| - 1]);
    }
  }

  /** Every file can be opened: the walk reports no error. */
  lemma {:induction false} LoadFilesReadsAll(st: Store, fs: map<string, seq<string>>, names: seq<string>)
    requires Valid(st)
    requires forall i :: 0 <= i < |names| ==> names[i] in fs
    ensures LoadFiles(st, fs, names).1 == None
    decreases |names|
  {
    if names != [] {
      LoadFilesReadsAll(st, fs, names[..|names| - 1]);
    }
  }

  /** A recorded file that cannot be opened, after files that all can, ends
      the walk with a read error naming it; what the earlier files loaded is
      kept. */
  lemma LoadFilesReportsMissing(st: Store, fs: map<string, seq<string>>, names: seq<string>, j: nat)
    requires Valid(st) && j < |names| && names[j] !in fs
    requires forall i :: 0 <= i < j ==> names[i] in fs
    ensures LoadFiles(st, fs, names) == (LoadFiles(st, fs, names[..j]).0, Some(ReadError(names[j])))
  {
    var init := names[..j];
    assert forall i :: 0 <= i < |init| ==> init[i] == names[i];
    LoadFilesReadsAll(st, fs, init);
    LoadFilesNext(st, fs, names, j);
    LoadFilesStopsAtError(st, fs, names, j + 1);
  }

  /** So a reload after a recorded file has become unreadable reports a read
      error naming the first such file and leaves the store as it was. */
  lemma ReloadReportsMissing(st: Store, fs: map<string, seq<string>>, j: nat)
    requires Valid(st) && j < |st.fileNames| && st.fileNames[j] !in fs
    requires forall i :: 0 <= i < j ==> st.fileNames[i] in fs
    ensures Reload(st, fs) == (st, Some(ReadError(st.fileNames[j])))
  {
    var e := Empty().(fileNames := st.fileNames);
    assert [] + st.fileNames == st.fileNames;
    assert LoadFile(Empty(), fs, st.fileNames) == LoadFiles(e, fs, st.fileNames);
    LoadFilesReportsMissing(e, fs, st.fileNames, j);
  }

  /** Dropping the last name of `a + b` drops the last name of `b`. */
  lemma InitOfAppend(a: seq<string>, b: seq<string>)
    requires b != []
    ensures (a + b)[..|a + b| - 1] == a + b[..|b| - 1]
    ensures (a + b)[|a + b| - 1] == b[|b| - 1]
  {
    assert (a + b)[..|a + b| - 1] == a + b[..|b| - 1];
  }

  /** An instance present after an error-free walk over `pre` is still
      present after walking `rest` as well. */
  lemma {:induction false} LoadFilesKeepsInstance(st: Store, fs: map<string, seq<string>>, pre: seq<string>, rest: seq<string>, name: string)
    requires Valid(st) && LoadFiles(st, fs, pre).1 == None
    requires name in LoadFiles(st, fs, pre).0.sectionData
    ensures name in LoadFiles(st, fs, pre + rest).0.sectionData
    decreases |rest|
  {
    if rest == [] {
      assert pre + rest == pre;
    } else {
      var init := rest[..|rest| - 1];
      var last := rest[|rest| - 1];
      LoadFilesKeepsInstance(st, fs, pre, init, name);
      InitOfAppend(pre, rest);
      var (before, err) := LoadFiles(st, fs, pre + init);
      if err.None? && last in fs {
        LoadLinesGrows(before, fs[last]);
      }
    }
  }

  /** The same, for a prefix of one list of names. */
  lemma LoadFilesKeepsInstanceFrom(st: Store, fs: map<string, seq<string>>, names: seq<string>, j: nat, name: string)
    requires Valid(st) && j <= |names| && LoadFiles(st, fs, names[..j]).1 == None
    requires name in LoadFiles(st, fs, names[..j]).0.sectionData
    ensures name in LoadFiles(st, fs, names).0.sectionData
  {
    assert names[..j] + names[j..] == names;
    LoadFilesKeepsInstance(st, fs, names[..j], names[j..], name);
  }

  /** The walk up to and including the file holding a recognised header
      line has no error and has an instance of its section. */
  lemma LoadFilesOpensHeaderAt(st: Store, fs: map<string, seq<string>>, names: seq<string>, f: nat, k: nat)
    requires Valid(st)
    requires forall i :: 0 <= i < |names| ==> names[i] in fs
    requires f < |names| && k < |fs[names[f]]|
    requires Parse(fs[names[f]][k]).ok && Parse(fs[names[f]][k]).prop.name in st.sectionList
    ensures LoadFiles(st, fs, names[..f + 1]).1 == None
    ensures Parse(fs[names[f]][k]).prop.name in LoadFiles(st, fs, names[..f + 1]).0.sectionData
  {
    var init := names[..f];
    assert forall i :: 0 <= i < |init| ==> init[i] == names[i];
    LoadFilesReadsAll(st, fs, init);
    LoadFilesGrows(st, fs, init);
    LoadLinesOpensHeader(LoadFiles(st, fs, init).0, fs[names[f]], k);
    LoadFilesNext(st, fs, names, f);
  }

  /** A header line of any file walked, recognised from the start, puts an
      instance of its section into the store. */
  lemma LoadFilesOpensHeader(st: Store, fs: map<string, seq<string>>, names: seq<string>, f: nat, k: nat)
    requires Valid(st)
    requires forall i :: 0 <= i < |names| ==> names[i] in fs
    requires f < |names| && k < |fs[names[f]]|
    requires Parse(fs[names[f]][k]).ok && Parse(fs[names[f]][k]).prop.name in st.sectionList
    ensures Parse(fs[names[f]][k]).prop.name in LoadFiles(st, fs, names).0.sectionData
  {
    LoadFilesOpensHeaderAt(st, fs, names, f, k);
    LoadFilesKeepsInstanceFrom(st, fs, names, f + 1, Parse(fs[names[f]][k]).prop.name);
  }

  /** The reload `Reload` evidently intends: the fresh store is given the
      section names this one recognises before the files are replayed. */
  function ReloadKeepingSections(st: Store, fs: map<string, seq<string>>): (r: (Store, Option<ConfError>))
    requires Valid(st)
    ensures Valid(r.0)
    ensures r.1.Some? ==> r.0 == st
    ensures r.1.None? ==> forall x :: x in st.sectionList ==> x in r.0.sectionList
  {
    var start := SetSectionName(Empty(), st.sectionList);
    assert [] + st.sectionList == st.sectionList;
    assert [] + st.fileNames == st.fileNames;
    LoadFilesGrows(start.(fileNames := st.fileNames), fs, st.fileNames);
    var (reloaded, err) := LoadFile(SetSectionName(Empty(), st.sectionList), fs, st.fileNames);
    if err.None? then (reloaded, None) else (st, err)
  }

  /** As written, a successful reload loses every configured section: a
      header line of a recorded file whose name is recognised, other than
      `DEFAULT`, has no instance afterwards (it was stored as a key of
      `DEFAULT`). */
  lemma ReloadDropsSections(st: Store, fs: map<string, seq<string>>, f: nat, k: nat)
    requires Valid(st)
    requires forall i :: 0 <= i < |st.fileNames| ==> st.fileNames[i] in fs
    requires f < |st.fileNames| && k < |fs[st.fileNames[f]]|
    requires Parse(fs[st.fileNames[f]][k]).ok && Parse(fs[st.fileNames[f]][k]).prop.name in st.sectionList
    requires Parse(fs[st.fileNames[f]][k]).prop.name != DEFAULT_SECTION
    ensures Reload(st, fs).1 == None
    ensures Parse(fs[st.fileNames[f]][k]).prop.name !in Reload(st, fs).0.sectionData
  {
    var e := Empty().(fileNames := st.fileNames);
    assert [] + st.fileNames == st.fileNames;
    LoadFilesReadsAll(e, fs, st.fileNames);
    assert LoadFile(Empty(), fs, st.fileNames) == LoadFiles(e, fs, st.fileNames);
    ReloadLandsInDefault(st, fs);
  }

  /** The corrected reload keeps them: the same header line opens an
      instance of its section again. */
  lemma ReloadKeepingSectionsKeepsSections(st: Store, fs: map<string, seq<string>>, f: nat, k: nat)
    requires Valid(st)
    requires forall i :: 0 <= i < |st.fileNames| ==> st.fileNames[i] in fs
    requires f < |st.fileNames| && k < |fs[st.fileNames[f]]|
    requires Parse(fs[st.fileNames[f]][k]).ok && Parse(fs[st.fileNames[f]][k]).prop.name in st.sectionList
    ensures ReloadKeepingSections(st, fs).1 == None
    ensures Parse(fs[st.fileNames[f]][k]).prop.name in ReloadKeepingSections(st, fs).0.sectionData
  {
    var e := SetSectionName(Empty(), st.sectionList).(fileNames := st.fileNames);
    assert [] + st.fileNames == st.fileNames;
    assert [] + st.sectionList == st.sectionList;
    LoadFilesReadsAll(e, fs, st.fileNames);
    assert LoadFile(SetSectionName(Empty(), st.sectionList), fs, st.fileNames) == LoadFiles(e, fs, st.fileNames);
    LoadFilesOpensHeader(e, fs, st.fileNames, f, k);
  }

  // ---------------------------------------------------------------------------
  // LoadFile walking the earlier files again
  // ---------------------------------------------------------------------------

  /** The walk does not look at the recorded file names. */
  lemma {:induction false} LoadFilesIgnoresFileNames(st: Store, names: seq<string>, fs: map<string, seq<string>>, walk: seq<string>)
    requires Valid(st)
    ensures Valid(st.(fileNames := names))
    ensures LoadFiles(st.(fileNames := names), fs, walk) ==
              (LoadFiles(st, fs, walk).0.(fileNames := names), LoadFiles(st, fs, walk).1)
    decreases |walk|
  {
    if walk != [] {
      var init := walk[..|walk| - 1];
      LoadFilesIgnoresFileNames(st, names, fs, init);
      var last := walk[|walk| - 1];
      if LoadFiles(st, fs, init).1.None? && last in fs {
        LoadLinesIgnoresFileNames(LoadFiles(st, fs, init).0, names, fs[last]);
      }
    }
  }

  /** Walking `a + b` is walking `a` and then, if that had no error, `b`. */
  lemma {:induction false} LoadFilesAppend(st: Store, fs: map<string, seq<string>>, a: seq<string>, b: seq<string>)
    requires Valid(st) && LoadFiles(st, fs, a).1 == None
    ensures LoadFiles(st, fs, a + b) == LoadFiles(LoadFiles(st, fs, a).0, fs, b)
    decreases |b|
  {
    if b == [] {
      assert a + b == a;
    } else {
      InitOfAppend(a, b);
      LoadFilesAppend(st, fs, a, b[..|b| - 1]);
    }
  }

  /** The `LoadFile` evidently intended: the new names are recorded and only
      they are walked. */
  function LoadFileNewOnly(st: Store, fs: map<string, seq<string>>, fileName: seq<string>): (r: (Store, Option<ConfError>))
    requires Valid(st)
    ensures Valid(r.0) && r.0.fileNames == st.fileNames + fileName
  {
    LoadFiles(st.(fileNames := st.fileNames + fileName), fs, fileName)
  }

  /** With it, two calls load what one call with both lists loads. */
  lemma LoadFileNewOnlyComposes(st: Store, fs: map<string, seq<string>>, a: seq<string>, b: seq<string>)
    requires Valid(st) && LoadFileNewOnly(st, fs, a).1 == None
    ensures LoadFileNewOnly(LoadFileNewOnly(st, fs, a).0, fs, b) == LoadFileNewOnly(st, fs, a + b)
  {
    var st1 := LoadFileNewOnly(st, fs, a).0;
    var all := st.fileNames + a + b;
    assert st1.fileNames + b == all;
    assert st.fileNames + (a + b) == all;
    LoadFilesIgnoresFileNames(st.(fileNames := st.fileNames + a), all, fs, a);
    assert st.(fileNames := st.fileNames + a).(fileNames := all) == st.(fileNames := all);
    LoadFilesAppend(st.(fileNames := all), fs, a, b);
  }

  /** A key record stored into a new store lands in a `DEFAULT` instance. */
  lemma KeyRecordOnce(out: LoadOutcome)
    requires out.ok
    ensures Valid(Empty())
    ensures var s1 := LoadRecord(Empty(), out); var p := out.prop;
      && s1.data == map[DEFAULT_SECTION := [map[p.name := [p]]]]
      && s1.sectionList == [DEFAULT_SECTION] && s1.currentKeys == Some(KeyRef(DEFAULT_SECTION, 0))
  {
    EmptyIsValid();
    var p := out.prop;
    var o := WithOpenSection(Empty());
    assert Lookup(map[], p.name) + [p] == [p];
    assert AddRecord(map[], p) == map[p.name := [p]];
    assert o.data[DEFAULT_SECTION][0 := map[p.name := [p]]] == [map[p.name := [p]]];
  }

  /** The same record stored once more is a second record under the same key. */
  lemma KeyRecordTwice(out: LoadOutcome)
    requires out.ok && out.prop.name != DEFAULT_SECTION
    ensures Valid(Empty()) && Valid(LoadRecord(Empty(), out))
    ensures var p := out.prop;
      LoadRecord(LoadRecord(Empty(), out), out).data == map[DEFAULT_SECTION := [map[p.name := [p, p]]]]
  {
    KeyRecordOnce(out);
    var p := out.prop;
    var s1 := LoadRecord(Empty(), out);
    assert LoadRecord(s1, out) == SetKey(s1, p);
    var t := AddRecord(map[p.name := [p]], p);
    assert Lookup(map[p.name := [p]], p.name) == [p] && [p] + [p] == [p, p];
    assert t == map[p.name := [p, p]];
    assert [map[p.name := [p]]][0 := t] == [t];
  }

  /** Loading one line is storing what it parses to. */
  lemma LoadOneLine(st: Store, line: string)
    requires Valid(st)
    ensures LoadLines(st, [line]) == LoadRecord(st, Parse(line))
  {
    assert [line][..0] == [];
    assert LoadLines(st, []) == st;
  }

  /** One key line loaded into a new store lands in a `DEFAULT` instance. */
  lemma KeyLineOnce(line: string)
    requires Parse(line).ok
    ensures Valid(Empty())
    ensures var s1 := LoadLines(Empty(), [line]); var p := Parse(line).prop;
      && s1.data == map[DEFAULT_SECTION := [map[p.name := [p]]]]
      && s1.sectionList == [DEFAULT_SECTION] && s1.currentKeys == Some(KeyRef(DEFAULT_SECTION, 0))
  {
    EmptyIsValid();
    LoadOneLine(Empty(), line);
    KeyRecordOnce(Parse(line));
  }

  /** The same line loaded once more is a second record under the same key. */
  lemma KeyLineTwice(line: string)
    requires Parse(line).ok && Parse(line).prop.name != DEFAULT_SECTION
    ensures Valid(Empty()) && Valid(LoadLines(Empty(), [line]))
    ensures var p := Parse(line).prop;
      LoadLines(LoadLines(Empty(), [line]), [line]).data == map[DEFAULT_SECTION := [map[p.name := [p, p]]]]
  {
    EmptyIsValid();
    LoadOneLine(Empty(), line);
    LoadOneLine(LoadLines(Empty(), [line]), line);
    KeyRecordTwice(Parse(line));
  }

  /** Two calls, a file holding one key line and then an empty file. */
  lemma TwoCallsLoadKeyTwice(fs: map<string, seq<string>>, a: string, b: string, line: string)
    requires a != b && fs == map[a := [line], b := []]
    requires Parse(line).ok && Parse(line).prop.name != DEFAULT_SECTION
    ensures var p := Parse(line).prop;
      LoadFile(LoadFile(Empty(), fs, [a]).0, fs, [b]).0.data == map[DEFAULT_SECTION := [map[p.name := [p, p]]]]
  {
    EmptyIsValid();
    KeyLineTwice(line);
    assert fs[a] == [line] && fs[b] == [];
    LoadFileRewalksEarlierFiles(Empty(), fs, a, b);
    var s2 := LoadLines(LoadLines(Empty(), [line]), [line]);
    assert LoadLines(s2, []) == s2;
  }

  /** One call with the same two files. */
  lemma OneCallLoadsKeyOnce(fs: map<string, seq<string>>, a: string, b: string, line: string)
    requires a != b && fs == map[a := [line], b := []]
    requires Parse(line).ok && Parse(line).prop.name != DEFAULT_SECTION
    ensures var p := Parse(line).prop;
      LoadFile(Empty(), fs, [a, b]).0.data == map[DEFAULT_SECTION := [map[p.name := [p]]]]
  {
    EmptyIsValid();
    KeyLineOnce(line);
    var s1 := LoadLines(Empty(), [line]);
    var e := Empty().(fileNames := [a, b]);
    assert [] + [a, b] == [a, b];
    assert [a, b][..1] == [a] && [a][..0] == [];
    assert LoadFile(Empty(), fs, [a, b]) == LoadFiles(e, fs, [a, b]);
    LoadLinesIgnoresFileNames(Empty(), [a, b], [line]);
    assert LoadFiles(e, fs, [a]) == (s1.(fileNames := [a, b]), None);
  }

  /** As written, two calls load the first file twice: a file holding one key
      line, then an empty file, leave two copies of the key, where one call
      with both files leaves one. */
  lemma LoadFileTwiceDuplicates(fs: map<string, seq<string>>, a: string, b: string, line: string)
    requires a != b && fs == map[a := [line], b := []]
    requires Parse(line).ok && Parse(line).prop.name != DEFAULT_SECTION
    ensures var p := Parse(line).prop;
      && LoadFile(LoadFile(Empty(), fs, [a]).0, fs, [b]).0.data == map[DEFAULT_SECTION := [map[p.name := [p, p]]]]
      && LoadFile(Empty(), fs, [a, b]).0.data == map[DEFAULT_SECTION := [map[p.name := [p]]]]
  {
    TwoCallsLoadKeyTwice(fs, a, b, line);
    OneCallLoadsKeyOnce(fs, a, b, line);
  }
}
