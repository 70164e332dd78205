/** `ConfigFile`: the store as Go keeps it, a struct whose methods update its
    fields in place, and its queries. */
module ConfigFiles {
  import opened Wrappers
  import opened Properties
  import CS = ConfigStore

  class ConfigFile {
    var fileNames: seq<string>
    var data: map<string, seq<CS.KeyTable>>
    var sectionData: map<string, seq<PropertyValue>>
    var sectionList: seq<string>
    var currentKeys: Option<CS.KeyRef>

    /** The fields, as one value. */
    function State(): CS.Store
      reads this
    {
      CS.Store(fileNames, data, sectionData, sectionList, currentKeys)
    }

    ghost predicate Valid()
      reads this
    {
      CS.Valid(State())
    }

    /** `NewConfigFile()`. */
    constructor ()
      ensures State() == CS.Empty() && Valid()
    {
      fileNames := [];
      data := map[];
      sectionData := map[];
      sectionList := [];
      currentKeys := None;
    }
  
    /** `SetSectionName(sections...)`. */
    method SetSectionName(sections: seq<string>)
      modifies this
      ensures State() == CS.SetSectionName(old(State()), sections)
    {
      sectionList := sectionList + sections;
    }

    /** `AddSectionValue(section, prop)`. */
    method AddSectionValue(section: string, prop: PropertyValue)
      requires Valid()
      modifies this
      ensures Valid() && State() == CS.AddSectionValue(old(State()), section, prop)
    {
      ghost var target := CS.AddSectionValue(State(), section, prop);
      assert CS.Valid(target);
      var headers, tables := sectionData, data;
      if section !in headers {
        headers := headers[section := []];
        tables := tables[section := []];
      }
      var key: CS.KeyTable := map[];
      headers := headers[section := headers[section] + [prop]];
      tables := tables[section := tables[section] + [key]];
      assert headers == target.sectionData && tables == target.data;
      sectionData, data := headers, tables;
      currentKeys := Some(CS.KeyRef(section, |tables[section]| - 1));
      assert State() == target;
    }

    /** `SetKey(prop)`: the write goes through the current table, which Go
        reaches by its alias and this model by its position. */
    method SetKey(prop: PropertyValue)
      requires Valid()
      modifies this
      ensures Valid() && State() == CS.SetKey(old(State()), prop)
    {
      if currentKeys.None? {
        SetSectionName([CS.DEFAULT_SECTION]);
        var header := new Property(CS.DEFAULT_SECTION);
        AddSectionValue(CS.DEFAULT_SECTION, header.Value());
      }
      assert State() == CS.WithOpenSection(old(State()));
      var ref := currentKeys.value;
      var keys := data[ref.section][ref.index];
      ghost var table := keys;
      if prop.name !in keys {
        keys := keys[prop.name := []];
      }
      keys := keys[prop.name := keys[prop.name] + [prop]];
      assert keys == CS.AddRecord(table, prop);
      data := data[ref.section := data[ref.section][ref.index := keys]];
    }

    /** `LoadString(line)`. */
    method LoadString(line: string)
      requires Valid()
      modifies this
      ensures Valid() && State() == CS.LoadString(old(State()), line)
    {
      var p := new Property("");
      var ok := p.Load(line);
      if !ok {
        return;
      }
      var sectionName := p.name;
      var known := CS.Contains(sectionList, sectionName);
      if known {
        AddSectionValue(sectionName, p.Value());
      } else {
        SetKey(p.Value());
      }
    }

    /** The scanner loop of `LoadFile`: every line of one file, in order. */
    method LoadLines(lines: seq<string>)
      requires Valid()
      modifies this
      ensures Valid() && State() == CS.LoadLines(old(State()), lines)
    {
      var j := 0;
      while j < |lines|
        invariant 0 <= j <= |lines|
        invariant Valid() && State() == CS.LoadLines(old(State()), lines[..j])
      {
        assert lines[..j + 1][..j] == lines[..j];
        LoadString(lines[j]);
        j := j + 1;
      }
      assert lines[..j] == lines;
    }

    /** `LoadFile(fileName...)` with the file system as the map `fs` from file
        names to their lines. */
    method LoadFile(fs: map<string, seq<string>>, fileName: seq<string>) returns (err: Option<ConfError>)
      requires Valid()
      modifies this
      ensures Valid() && (State(), err) == CS.LoadFile(old(State()), fs, fileName)
    {
      fileNames := fileNames + fileName;
      ghost var start := State();
      var names := fileNames;
      var k := 0;
      while k < |names|
        invariant 0 <= k <= |names| && names == start.fileNames
        invariant CS.Valid(start) && Valid()
        invariant CS.LoadFiles(start, fs, names[..k]) == (State(), None)
      {
        var name := names[k];
        CS.LoadFilesNext(start, fs, names, k);
        if name !in fs {
          CS.LoadFilesStopsAtError(start, fs, names, k + 1);
          return Some(ReadError(name));
        }
        LoadLines(fs[name]);
        k := k + 1;
      }
      assert names[..k] == names;
      return None;
    }

    /** `Reload()`: the fields are replaced (Go's `*c = *cfg`) only when the
        fresh store loaded without error. */
    method Reload(fs: map<string, seq<string>>) returns (err: Option<ConfError>)
      requires Valid()
      modifies this
      ensures Valid() && (State(), err) == CS.Reload(old(State()), fs)
    {
      var cfg := new ConfigFile();
      err := cfg.LoadFile(fs, fileNames);
      if err.None? {
        fileNames, data, sectionData := cfg.fileNames, cfg.data, cfg.sectionData;
        sectionList, currentKeys := cfg.sectionList, cfg.currentKeys;
      }
    }

    // -------------------------------------------------------------------------
    // Queries: functions of the fields, so none of them can change the store.
    // -------------------------------------------------------------------------

    /** `GetALLSection()`: every section's header records. */
    function GetALLSection(): (r: map<string, seq<PropertyValue>>)
      reads this
      ensures r == sectionData
      ensures forall s :: s in r ==> GetSection(s) == Ok(r[s])
      ensures forall s :: s !in r ==> GetSection(s) == Err(SectionNotFound)
    {
      sectionData
    }

    /** `GetSection(name)`: fails exactly when no instance of `name` exists.
        Go tests for a nil slice; a stored slice is never nil, because
        AddSectionValue makes it before appending. */
    function GetSection(name: string): (r: Answer<seq<PropertyValue>>)
      reads this
      ensures r == Err(SectionNotFound) <==> name !in sectionData
      ensures name in sectionData ==> r == Ok(sectionData[name])
    {
      if name !in sectionData then Err(SectionNotFound) else Ok(sectionData[name])
    }

    /** `GetSectionIndex(name, index)` as written: the guard `len(s) < index`
        lets `index == len(s)` and negative indexes through to an
        out-of-range slice access, a runtime panic. */
    function GetSectionIndex(name: string, index: int): (r: Answer<PropertyValue>)
      reads this
      ensures r == Err(SectionNotFound) <==> name !in sectionData
      ensures r == Err(IndexOutOfRange) <==> name in sectionData && index > |sectionData[name]|
      ensures r == Panic <==> name in sectionData && (index < 0 || index == |sectionData[name]|)
      ensures r.Ok? <==> name in sectionData && 0 <= index < |sectionData[name]|
      ensures r.Ok? ==> r.value == sectionData[name][index]
    {
      if name !in sectionData then Err(SectionNotFound)
      else
        var s := sectionData[name];
        if |s| < index then Err(IndexOutOfRange)
        else if 0 <= index < |s| then Ok(s[index])
        else Panic
    }

    /** `GetALLKeys(section)`: the key tables of every instance, aligned with
        the header records; fails exactly when the section is absent. */
    function GetALLKeys(section: string): (r: Answer<seq<CS.KeyTable>>)
      reads this
      ensures r == Err(KeyNotFound) <==> section !in data
      ensures section in data ==> r == Ok(data[section])
    {
      if section !in data then Err(KeyNotFound) else Ok(data[section])
    }

    /** `GetKeysIndex(section, index)` as written, with the same guard as
        `GetSectionIndex`. */
    function GetKeysIndex(section: string, index: int): (r: Answer<CS.KeyTable>)
      reads this
      ensures r == Err(KeyNotFound) <==> section !in data
      ensures r == Err(IndexOutOfRange) <==> section in data && index > |data[section]|
      ensures r == Panic <==> section in data && (index < 0 || index == |data[section]|)
      ensures r.Ok? <==> section in data && 0 <= index < |data[section]|
      ensures r.Ok? ==> r.value == data[section][index]
    {
      if section !in data then Err(KeyNotFound)
      else
        var keys := data[section];
        if |keys| < index then Err(IndexOutOfRange)
        else if 0 <= index < |keys| then Ok(keys[index])
        else Panic
    }

    /** The guard `GetSectionIndex` evidently intends: every index outside the
        slice is reported, and nothing panics. */
    function GetSectionIndexChecked(name: string, index: int): (r: Answer<PropertyValue>)
      reads this
      ensures !r.Panic?
      ensures r == Err(SectionNotFound) <==> name !in sectionData
      ensures r == Err(IndexOutOfRange) <==>
                name in sectionData && !(0 <= index < |sectionData[name]|)
      ensures r.Ok? ==> r.value == sectionData[name][index]
    {
      if name !in sectionData then Err(SectionNotFound)
      else
        var s := sectionData[name];
        if index < 0 || index >= |s| then Err(IndexOutOfRange) else Ok(s[index])
    }

    /** The guard `GetKeysIndex` evidently intends. */
    function GetKeysIndexChecked(section: string, index: int): (r: Answer<CS.KeyTable>)
      reads this
      ensures !r.Panic?
      ensures r == Err(KeyNotFound) <==> section !in data
      ensures r == Err(IndexOutOfRange) <==> section in data && !(0 <= index < |data[section]|)
      ensures r.Ok? ==> r.value == data[section][index]
    {
      if section !in data then Err(KeyNotFound)
      else
        var keys := data[section];
        if index < 0 || index >= |keys| then Err(IndexOutOfRange) else Ok(keys[index])
    }
  }

  /** The headers and the key tables stay aligned: a section has a header
      exactly when it has key tables, and the two index ranges agree. */
  lemma QueriesAligned(c: ConfigFile, name: string, index: int)
    requires c.Valid()
    ensures c.GetSection(name).Ok? <==> c.GetALLKeys(name).Ok?
    ensures c.GetSectionIndexChecked(name, index).Ok? <==> c.GetKeysIndexChecked(name, index).Ok?
  {
  }

  /** The errors the queries return carry Go's texts: "section not found"
      from the header queries, "key not found" from the key-table queries,
      and "index out of range" from either index guard. */
  lemma QueryErrorTexts(c: ConfigFile, name: string, index: int)
    ensures c.GetSection(name).Err? ==> c.GetSection(name).error.Message() == "section not found"
    ensures c.GetALLKeys(name).Err? ==> c.GetALLKeys(name).error.Message() == "key not found"
    ensures c.GetSectionIndex(name, index).Err? ==>
              c.GetSectionIndex(name, index).error.Message() ==
                (if name in c.sectionData then "index out of range" else "section not found")
    ensures c.GetKeysIndex(name, index).Err? ==>
              c.GetKeysIndex(name, index).error.Message() ==
                (if name in c.data then "index out of range" else "key not found")
  {
  }

  /** The off-by-one of the guard: one past the last instance gets past the
      "index out of range" test and panics. */
  lemma IndexAtLengthPanics(c: ConfigFile, name: string)
    requires c.Valid() && name in c.sectionData
    ensures c.GetSectionIndex(name, |c.sectionData[name]|) == Panic
    ensures c.GetKeysIndex(name, |c.data[name]|) == Panic
    ensures c.GetSectionIndexChecked(name, |c.sectionData[name]|) == Err(IndexOutOfRange)
    ensures c.GetKeysIndexChecked(name, |c.data[name]|) == Err(IndexOutOfRange)
  {
  }
}
