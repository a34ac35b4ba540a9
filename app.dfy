/**
 * The session of app.py as an object: the registry dictionary and the query
 * engine's table namespace are fields that the handlers update in place.
 * Each method follows the Python code step by step and is proved to reach
 * the state, and raise the exception, that the matching function of
 * Registry or Sheets describes.
 */
module App {
  import opened Strings
  import opened Registry
  import opened Sheets

  lemma NoValuesNoKeys(m: map<string, Entry>)
    requires m.Values == {}
    ensures m == map[]
  {
  }

  /** Removing an entry stored under its own display key removes exactly that value. */
  lemma ValuesRemove(m: map<string, Entry>, f: Entry)
    requires forall k :: k in m ==> m[k].fullname == k
    requires f.fullname in m && m[f.fullname] == f
    ensures (m - {f.fullname}).Values == m.Values - {f}
  {
    var r := m - {f.fullname};
    forall g | g in m.Values - {f} ensures g in r.Values {
      var j :| j in m && m[j] == g;
      assert j != f.fullname;
      assert r[j] == g;
    }
  }

  /** Dropping one more alias from the engine. */
  lemma EngineDrop(e0: map<string, Table>, gone: set<string>, a: string)
    ensures (e0 - gone) - {a} == e0 - (gone + {a})
  {
  }

  /** The aliases of the entries of `reg0` that are no longer in `reg`. */
  function Gone(reg0: map<string, Entry>, reg: map<string, Entry>): (aliases: set<string>)
    ensures reg == map[] ==> aliases == AliasesOf(reg0)
  {
    set k | k in reg0 && k !in reg :: reg0[k].tabname
  }

  /** Deleting one more entry adds its alias to those gone. */
  lemma GoneStep(reg0: map<string, Entry>, reg: map<string, Entry>, f: Entry)
    requires f.fullname in reg && f.fullname in reg0 && reg0[f.fullname] == f
    ensures Gone(reg0, reg - {f.fullname}) == Gone(reg0, reg) + {f.tabname}
  {
    var r := reg - {f.fullname};
    forall a | a in Gone(reg0, r) ensures a in Gone(reg0, reg) + {f.tabname} {
      var k :| k in reg0 && k !in r && reg0[k].tabname == a;
      if k != f.fullname { assert k !in reg; }
    }
    assert f.fullname !in r;
  }

  class Session {
    /** `st.session_state.reg_files`: display key -> registered file. */
    var reg: map<string, Entry>
    /** The query engine's tables, by alias. */
    var engine: map<string, Table>

    function Snapshot(): (s: State)
      reads this
    {
      State(reg, engine)
    }

    predicate Valid()
      reads this
    {
      WellFormed(Snapshot())
    }

    /** A new session: `reg_files = {}` and no table registered. */
    constructor ()
      ensures Valid()
      ensures reg == map[] && engine == map[]
    {
      reg := map[];
      engine := map[];
    }

    /** register_file. */
    method RegisterFile(file: File, sheet: string, alias: string) returns (status: Status)
      requires Valid()
      modifies this
      ensures Valid()
      ensures Step(Snapshot(), status) == Register(old(Snapshot()), file, sheet, alias)
    {
      RegisterWellFormed(Snapshot(), file, sheet, alias);
      var regAlias: string;
      if alias != "" {
        if StartsWith(alias, "table") {
          return Raised(ReservedAlias);
        }
        regAlias := alias;
      } else {
        regAlias := AliasPrefix + NatToString(|reg| + 1);
      }
      var e := Entry(if sheet == "" then file.name else CreateFileName(file.name, sheet),
                     file.name, sheet, file.kind, file.size, file.data, regAlias);
      if e.name in reg {
        return Completed;
      }
      var table: Table;
      if e.kind == "xlsx" || e.kind == "xls" {
        table := Table(e.data, sheet);
      } else if e.kind == "csv" {
        table := Table(e.data, "");
      } else {
        return Raised(UnsupportedType(e.kind));
      }
      engine := engine[e.tabname := table];
      reg := reg[e.fullname := e];
      status := Completed;
    }

    /** unregister_file: delete the dictionary entry, then drop the alias. */
    method UnregisterFile(e: Entry)
      requires Valid() && e.fullname in reg
      modifies this
      ensures Valid()
      ensures Snapshot() == Unregister(old(Snapshot()), e)
    {
      UnregisterRemoves(Snapshot(), e);
      reg := reg - {e.fullname};
      engine := engine - {e.tabname};
    }

    /** The delete button of one registered file: drop the alias, then delete the dictionary entry. */
    method DeleteEntry(e: Entry)
      requires Valid() && e.fullname in reg
      modifies this
      ensures Valid()
      ensures Snapshot() == Unregister(old(Snapshot()), e)
    {
      UnregisterRemoves(Snapshot(), e);
      engine := engine - {e.tabname};
      reg := reg - {e.fullname};
    }

    /** The "Delete all" button: unregister every entry of a snapshot of the dictionary's values. */
    method DeleteAll()
      requires Valid()
      modifies this
      ensures Valid()
      ensures Snapshot() == ClearAll(old(Snapshot()))
    {
      var pending := reg.Values;
      while pending != {}
        invariant Valid()
        invariant pending == reg.Values
        invariant forall k :: k in reg ==> k in old(reg) && reg[k] == old(reg)[k]
        invariant engine == old(engine) - Gone(old(reg), reg)
        decreases pending
      {
        var f :| f in pending;
        ghost var k :| k in reg && reg[k] == f;
        assert k == f.fullname;
        GoneStep(old(reg), reg, f);
        EngineDrop(old(engine), Gone(old(reg), reg), f.tabname);
        ValuesRemove(reg, f);
        engine := engine - {f.tabname};
        reg := reg - {f.fullname};
        pending := pending - {f};
      }
      NoValuesNoKeys(reg);
      assert Snapshot() == State(map[], old(engine) - AliasesOf(old(reg)));
    }

    /** change_reg_alias: reject a reserved alias, unregister, re-register the same file and sheet under the new alias. */
    method ChangeRegAlias(e: Entry, newAlias: string) returns (status: Status)
      requires Valid() && e.fullname in reg
      modifies this
      ensures Valid()
      ensures Step(Snapshot(), status) == Rename(old(Snapshot()), e, newAlias)
    {
      if StartsWith(newAlias, "table") {
        return Raised(ReservedAlias);
      }
      UnregisterFile(e);
      var file := File(e.name, e.kind, e.size, e.data);
      status := RegisterFile(file, e.sheetname, newAlias);
    }

    /** filter_multi_sheets: for each workbook, the sheets whose display key is not registered. */
    method FilterMultiSheets(multi: seq<Workbook>) returns (filtered: seq<Workbook>)
      ensures filtered == FilterMulti(multi, reg.Keys)
    {
      filtered := [];
      var i := 0;
      while i < |multi|
        invariant 0 <= i <= |multi|
        invariant filtered == FilterMulti(multi[..i], reg.Keys)
      {
        var (filename, names) := multi[i];
        var sheets := [];
        var j := 0;
        while j < |names|
          invariant 0 <= j <= |names|
          invariant sheets == Keep(filename, names[..j], reg.Keys)
        {
          assert names[..j + 1][..j] == names[..j];
          if CreateFileName(filename, names[j]) !in reg {
            sheets := sheets + [names[j]];
          }
          j := j + 1;
        }
        assert names[..j] == names;
        assert multi[..i + 1][..i] == multi[..i];
        if sheets != [] {
          filtered := filtered + [(filename, sheets)];
        }
        i := i + 1;
      }
      assert multi[..i] == multi;
    }

    /** The loop of the "Register file" button: register every upload not named in `names`; the first exception ends it. */
    method RegisterPlainFiles(files: seq<File>, names: set<string>) returns (status: Status)
      requires Valid()
      modifies this
      ensures Valid()
      ensures Step(Snapshot(), status) == RegisterPlain(old(Snapshot()), files, names)
    {
      ghost var before := Snapshot();
      var i := 0;
      while i < |files|
        invariant 0 <= i <= |files|
        invariant Valid()
        invariant Step(Snapshot(), Completed) == RegisterPlain(before, files[..i], names)
      {
        assert files[..i] + [files[i]] == files[..i + 1];
        RegisterPlainSnoc(before, files[..i], files[i], names);
        if files[i].name !in names {
          var st := RegisterFile(files[i], "", "");
          if st.Raised? {
            RegisterPlainStops(before, files, names, i + 1);
            return st;
          }
        }
        i := i + 1;
      }
      assert files[..i] == files;
      status := Completed;
    }

    /**
     * The "Register file" button, after the uploads are read and the
     * multi-sheet workbooks listed: register every other upload, then list
     * the unregistered sheets of the workbooks for the selection dialog. One
     * `try` covers it all, so the first exception ends it.
     */
    method RegisterUploads(files: seq<File>, multi: seq<Workbook>) returns (status: Status, pending: seq<Workbook>)
      requires Valid()
      modifies this
      ensures Valid()
      ensures Step(Snapshot(), status) == RegisterPlain(old(Snapshot()), files, NameSet(multi))
      ensures pending == if status.Completed? then FilterMulti(multi, reg.Keys) else []
    {
      status := RegisterPlainFiles(files, NameSet(multi));
      pending := [];
      if status.Completed? && multi != [] {
        pending := FilterMultiSheets(multi);
      }
    }

    /** The inner loop of the confirm button: register the sheet for every upload with the selected name. */
    method RegisterMatchingFiles(files: seq<File>, filename: string, sheet: string) returns (status: Status)
      requires Valid()
      modifies this
      ensures Valid()
      ensures Step(Snapshot(), status) == RegisterMatching(old(Snapshot()), files, filename, sheet)
    {
      ghost var before := Snapshot();
      var i := 0;
      while i < |files|
        invariant 0 <= i <= |files|
        invariant Valid()
        invariant Step(Snapshot(), Completed) == RegisterMatching(before, files[..i], filename, sheet)
      {
        assert files[..i] + [files[i]] == files[..i + 1];
        RegisterMatchingSnoc(before, files[..i], files[i], filename, sheet);
        if files[i].name == filename {
          var st := RegisterFile(files[i], sheet, "");
          if st.Raised? {
            RegisterMatchingStops(before, files, filename, sheet, i + 1);
            return st;
          }
        }
        i := i + 1;
      }
      assert files[..i] == files;
      status := Completed;
    }

    /** The "Confirm sheets" button: the ticked checkbox keys, sorted, each parsed and registered. */
    method ConfirmSheets(checks: seq<(string, bool)>, files: seq<File>) returns (status: Status)
      requires Valid()
      modifies this
      ensures Valid()
      ensures Step(Snapshot(), status) == Confirm(old(Snapshot()), Sort(SelectedKeys(checks)), files)
    {
      var keys := Sort(SelectedKeys(checks));
      var i := 0;
      while i < |keys|
        invariant 0 <= i <= |keys|
        invariant Valid()
        invariant Step(Snapshot(), Completed) == Confirm(old(Snapshot()), keys[..i], files)
      {
        ConfirmNext(old(Snapshot()), keys, files, i);
        var sel := ParseSelKey(keys[i]);
        if sel.None? {
          status := Raised(MalformedSelection(keys[i]));
          ConfirmStops(old(Snapshot()), keys, files, i + 1);
          return;
        }
        var st := RegisterMatchingFiles(files, sel.value.file, sel.value.sheet);
        if st.Raised? {
          ConfirmStops(old(Snapshot()), keys, files, i + 1);
          return st;
        }
        i := i + 1;
      }
      assert keys[..i] == keys;
      status := Completed;
    }
  }
}
