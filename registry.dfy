/**
 * The table registry of app.py as values: the session's dictionary of
 * registered files (`reg_files`, display key -> entry) next to the query
 * engine's namespace of table aliases, and every operation of app.py that
 * changes them, as a function from the old state to the new state and the
 * exception (if any) that the Python code raises.
 */
module Registry {
  import opened Strings

  type Bytes = seq<bv8>

  /** An uploaded file as app.py builds it: name, lower-case extension tag, size in bytes, raw payload. */
  datatype File = File(name: string, kind: string, size: int, data: Bytes)

  /**
   * A registered file (`RegFile`): display key, source file name, sheet name
   * ("" when none), type tag, size, payload and the alias it is registered
   * under in the query engine.
   */
  datatype Entry = Entry(fullname: string, name: string, sheetname: string,
                         kind: string, size: int, data: Bytes, tabname: string)

  /**
   * Stand-in for the dataframe the extractors build: the bytes it was read
   * from and, for a workbook, the sheet asked for. Its contents are not modelled.
   */
  datatype Table = Table(source: Bytes, sheet: string)

  /** The exceptions the registry operations raise. */
  datatype Error =
    | ReservedAlias               // ValueError: alias starts with "table"
    | UnsupportedType(kind: string) // ValueError: neither csv nor xlsx/xls
    | MalformedSelection(key: string) // IndexError: a checkbox key with fewer than three "_"-parts

  datatype Status = Completed | Raised(error: Error)

  /** `reg_files` and the live aliases of the query engine. */
  datatype State = State(reg: map<string, Entry>, engine: map<string, Table>)

  datatype Step = Step(state: State, status: Status)

  const Empty := State(map[], map[])

  /** FILE_DATA_ALIAS_PREFIX, also the literal of the reserved-alias tests. */
  const AliasPrefix: string := "table"

  /** The alias generated for the `n`-th table: "table" followed by `n` in decimal. */
  function AutoAlias(n: nat): (alias: string)
    ensures StartsWith(alias, AliasPrefix)
    ensures |alias| > |AliasPrefix|
    ensures forall i :: |AliasPrefix| <= i < |alias| ==> '0' <= alias[i] <= '9'
  {
    AliasPrefix + NatToString(n)
  }

  /** An alias the user may not choose. */
  predicate Reserved(alias: string)
    ensures Reserved(alias) ==> alias != ""
  {
    StartsWith(alias, AliasPrefix)
  }

  /** create_file_name: the display key of one sheet of a workbook. */
  function CreateFileName(filename: string, sheetname: string): (key: string)
    ensures StartsWith(key, filename)
    ensures |key| == |filename| + |sheetname| + 5
    ensures key[|key| - 1] == ']'
  {
    filename + " - [" + sheetname + "]"
  }

  /** Within one workbook, different sheets get different display keys. */
  lemma CreateFileNameInjective(filename: string, a: string, b: string)
    requires CreateFileName(filename, a) == CreateFileName(filename, b)
    ensures a == b
  {
    var ka, kb := CreateFileName(filename, a), CreateFileName(filename, b);
    var n := |filename| + 4;
    assert ka[n..|ka| - 1] == a;
    assert kb[n..|kb| - 1] == b;
  }

  /** The display key: the file name alone, or the sheet's key when a sheet is named. */
  function DisplayKey(filename: string, sheetname: string): (key: string)
    ensures StartsWith(key, filename)
    ensures key == filename <==> sheetname == ""
  {
    if sheetname == "" then filename else CreateFileName(filename, sheetname)
  }

  /** The type tags for which an extractor exists. */
  predicate Supported(kind: string)
    ensures Supported(kind) ==> kind == "csv" || StartsWith(kind, "xls")
  {
    kind == "xlsx" || kind == "xls" || kind == "csv"
  }

  /** The dataframe an extractor yields: the CSV extractor ignores the sheet. */
  function Extract(kind: string, data: Bytes, sheet: string): (t: Table)
    ensures t.source == data
    ensures kind != "csv" ==> t.sheet == sheet
    ensures t.sheet == "" || t.sheet == sheet
  {
    if kind == "csv" then Table(data, "") else Table(data, sheet)
  }

  /** The alias register_file uses: the caller's when non-empty, else one past the registry size. */
  function ResolveAlias(alias: string, count: nat): (tab: string)
    ensures tab != ""
    ensures alias != "" ==> tab == alias
    ensures alias == "" ==> Reserved(tab)
  {
    if alias != "" then alias else AutoAlias(count + 1)
  }

  /** The set of aliases the entries of `reg` carry. */
  function AliasesOf(reg: map<string, Entry>): (aliases: set<string>)
  {
    set k | k in reg :: reg[k].tabname
  }

  /**
   * What every reachable registry satisfies: each entry sits under its own
   * display key, that key is derived from its file and sheet name, and its
   * type is one an extractor exists for.
   */
  predicate WellFormed(s: State)
  {
    forall k :: k in s.reg ==>
      s.reg[k].fullname == k &&
      DisplayKey(s.reg[k].name, s.reg[k].sheetname) == k &&
      Supported(s.reg[k].kind)
  }

  /**
   * register_file. The alias is resolved first (a reserved explicit alias
   * raises); the duplicate test looks up the SOURCE file name among the
   * display keys; an unsupported type raises; otherwise the table is
   * registered with the engine and the entry stored under its display key.
   */
  function Register(s: State, file: File, sheet: string, alias: string): (r: Step)
    ensures r.status.Raised? ==> r.state == s
    ensures r.status == Raised(ReservedAlias) <==> alias != "" && Reserved(alias)
  {
    if alias != "" && Reserved(alias) then Step(s, Raised(ReservedAlias))
    else
      var e := Entry(DisplayKey(file.name, sheet), file.name, sheet,
                     file.kind, file.size, file.data, ResolveAlias(alias, |s.reg|));
      if e.name in s.reg then Step(s, Completed)
      else if !Supported(e.kind) then Step(s, Raised(UnsupportedType(e.kind)))
      else Step(State(s.reg[e.fullname := e], s.engine[e.tabname := Extract(e.kind, e.data, sheet)]), Completed)
  }

  /** unregister_file and the per-entry delete button: drop the key and the entry's alias. */
  function Unregister(s: State, e: Entry): (r: State)
    requires e.fullname in s.reg
    ensures r.reg.Keys == s.reg.Keys - {e.fullname}
    ensures r.engine.Keys == s.engine.Keys - {e.tabname}
  {
    State(s.reg - {e.fullname}, s.engine - {e.tabname})
  }

  /** change_reg_alias: reject a reserved alias, unregister, re-register the same file and sheet under the new alias. */
  function Rename(s: State, e: Entry, newAlias: string): (r: Step)
    requires e.fullname in s.reg
    ensures r.status == Raised(ReservedAlias) <==> Reserved(newAlias)
    ensures e.fullname == DisplayKey(e.name, e.sheetname) ==> r.state.reg.Keys <= s.reg.Keys
  {
    if Reserved(newAlias) then Step(s, Raised(ReservedAlias))
    else Register(Unregister(s, e), File(e.name, e.kind, e.size, e.data), e.sheetname, newAlias)
  }

  /** The "Delete all" button: no entry left, and none of their aliases left in the engine. */
  function ClearAll(s: State): (r: State)
    ensures r.reg == map[]
    ensures r.engine.Keys <= s.engine.Keys
    ensures forall k :: k in s.reg ==> s.reg[k].tabname !in r.engine
  {
    State(map[], s.engine - AliasesOf(s.reg))
  }

  /** The entries deleted one key at a time, in the order given. */
  function DeleteEach(s: State, keys: seq<string>): (r: State)
    requires WellFormed(s)
    requires forall i, j :: 0 <= i < j < |keys| ==> keys[i] != keys[j]
    requires forall i :: 0 <= i < |keys| ==> keys[i] in s.reg
    decreases |keys|
  {
    if keys == [] then s else DeleteEach(Unregister(s, s.reg[keys[0]]), keys[1..])
  }

  /**
   * The first loop of the "Register file" button: each upload whose name is
   * not among the multi-sheet workbooks `multi` is registered with no sheet
   * and no alias; the first exception ends the loop.
   */
  function RegisterPlain(s: State, files: seq<File>, multi: set<string>): (r: Step)
    ensures r.status.Raised? ==> r.status.error.UnsupportedType?
    decreases |files|
  {
    if files == [] then Step(s, Completed)
    else
      var prev := RegisterPlain(s, files[..|files| - 1], multi);
      var f := files[|files| - 1];
      if prev.status.Raised? || f.name in multi then prev
      else Register(prev.state, f, "", "")
  }

  // ---------------------------------------------------------------------
  // Properties of register_file
  // ---------------------------------------------------------------------

  /** A generated alias always starts with the reserved prefix, so as a string it never equals an alias a user may choose. */
  lemma AutoAliasReserved(n: nat, user: string)
    requires !Reserved(user)
    ensures Reserved(AutoAlias(n))
    ensures AutoAlias(n) != user
  {
    assert AutoAlias(n)[..|AliasPrefix|] == AliasPrefix;
  }

  /** Generated aliases for different counts differ. */
  lemma AutoAliasInjective(n: nat, m: nat)
    requires AutoAlias(n) == AutoAlias(m)
    ensures n == m
  {
    assert NatToString(n) == AutoAlias(n)[|AliasPrefix|..];
    assert NatToString(m) == AutoAlias(m)[|AliasPrefix|..];
    NatToStringInjective(n, m);
  }

  /** A non-empty alias starting with "table" raises before anything is looked at or changed. */
  lemma RegisterReservedRejected(s: State, file: File, sheet: string, alias: string)
    requires alias != "" && Reserved(alias)
    ensures Register(s, file, sheet, alias) == Step(s, Raised(ReservedAlias))
  {
  }

  /** A file whose source name is already a display key is silently skipped. */
  lemma RegisterDuplicateIgnored(s: State, file: File, sheet: string, alias: string)
    requires alias == "" || !Reserved(alias)
    requires file.name in s.reg
    ensures Register(s, file, sheet, alias) == Step(s, Completed)
  {
  }

  /** A type other than csv, xlsx, xls raises and changes nothing. */
  lemma RegisterUnsupportedRejected(s: State, file: File, sheet: string, alias: string)
    requires alias == "" || !Reserved(alias)
    requires file.name !in s.reg && !Supported(file.kind)
    ensures Register(s, file, sheet, alias) == Step(s, Raised(UnsupportedType(file.kind)))
  {
  }

  /** The state a successful registration produces. */
  lemma RegisterSucceeds(s: State, file: File, sheet: string, alias: string)
    requires alias == "" || !Reserved(alias)
    requires file.name !in s.reg && Supported(file.kind)
    ensures var key := DisplayKey(file.name, sheet);
      var tab := ResolveAlias(alias, |s.reg|);
      Register(s, file, sheet, alias) ==
        Step(State(s.reg[key := Entry(key, file.name, sheet, file.kind, file.size, file.data, tab)],
                   s.engine[tab := Extract(file.kind, file.data, sheet)]), Completed)
  {
  }

  /**
   * A successful registration stores one entry under the display key,
   * carrying the resolved alias ("table<size+1>" when none is given), makes
   * that alias live with the file's table, and changes nothing else.
   */
  lemma RegisterInserts(s: State, file: File, sheet: string, alias: string)
    requires alias == "" || !Reserved(alias)
    requires file.name !in s.reg && Supported(file.kind)
    ensures Register(s, file, sheet, alias).status == Completed
    ensures var r := Register(s, file, sheet, alias).state;
      var key := DisplayKey(file.name, sheet);
      var tab := if alias == "" then AutoAlias(|s.reg| + 1) else alias;
      r.reg.Keys == s.reg.Keys + {key} &&
      key in r.reg && r.reg[key] == Entry(key, file.name, sheet, file.kind, file.size, file.data, tab) &&
      (forall k :: k in s.reg && k != key ==> k in r.reg && r.reg[k] == s.reg[k]) &&
      (key !in s.reg ==> |r.reg| == |s.reg| + 1)
    ensures var r := Register(s, file, sheet, alias).state;
      var tab := if alias == "" then AutoAlias(|s.reg| + 1) else alias;
      r.engine.Keys == s.engine.Keys + {tab} &&
      tab in r.engine && r.engine[tab] == Extract(file.kind, file.data, sheet) &&
      (forall a :: a in s.engine && a != tab ==> a in r.engine && r.engine[a] == s.engine[a])
  {
    RegisterSucceeds(s, file, sheet, alias);
    var key := DisplayKey(file.name, sheet);
    var tab := ResolveAlias(alias, |s.reg|);
    var e := Entry(key, file.name, sheet, file.kind, file.size, file.data, tab);
    var t := Extract(file.kind, file.data, sheet);
    MapUpdate(s.reg, key, e);
    MapUpdate(s.engine, tab, t);
    assert Register(s, file, sheet, alias).state == State(s.reg[key := e], s.engine[tab := t]);
  }

  /** Storing `v` under `k` adds `k` to the keys, grows a map that lacked `k` by one, and keeps every other key's value. */
  lemma MapUpdate<V>(m: map<string, V>, k: string, v: V)
    ensures m[k := v].Keys == m.Keys + {k}
    ensures k in m[k := v] && m[k := v][k] == v
    ensures forall j :: j in m && j != k ==> j in m[k := v] && m[k := v][j] == m[j]
    ensures k !in m ==> |m[k := v]| == |m| + 1
  {
    if k !in m {
      assert |m[k := v].Keys| == |m.Keys + {k}| == |m.Keys| + 1;
    }
  }

  /** Registration keeps the registry well formed. */
  lemma RegisterWellFormed(s: State, file: File, sheet: string, alias: string)
    requires WellFormed(s)
    ensures WellFormed(Register(s, file, sheet, alias).state)
  {
  }

  /**
   * The duplicate test looks at the source file name, not the display key:
   * registering a sheet that is already registered is not skipped. The entry
   * is replaced under the generated alias, the registry does not grow, and
   * the old alias stays live in the engine; unless the generated alias or
   * another entry carries it, no entry names the old alias any more.
   */
  lemma RegisterSheetAgainReplaces(s: State, file: File, sheet: string)
    requires WellFormed(s)
    requires sheet != "" && Supported(file.kind)
    requires file.name !in s.reg
    requires CreateFileName(file.name, sheet) in s.reg
    requires s.reg[CreateFileName(file.name, sheet)].tabname in s.engine
    ensures var key := CreateFileName(file.name, sheet);
      var old_alias := s.reg[key].tabname;
      var r := Register(s, file, sheet, "");
      r.status == Completed &&
      |r.state.reg| == |s.reg| &&
      r.state.reg[key].tabname == AutoAlias(|s.reg| + 1) &&
      old_alias in r.state.engine &&
      (old_alias != AutoAlias(|s.reg| + 1) &&
       (forall k :: k in s.reg && k != key ==> s.reg[k].tabname != old_alias) ==>
         old_alias !in AliasesOf(r.state.reg))
  {
    var key := CreateFileName(file.name, sheet);
    var r := Register(s, file, sheet, "");
    assert r.state.reg.Keys == s.reg.Keys;
    assert |r.state.reg| == |r.state.reg.Keys| == |s.reg.Keys| == |s.reg|;
  }

  // ---------------------------------------------------------------------
  // Properties of unregister_file, change_reg_alias and the delete buttons
  // ---------------------------------------------------------------------

  lemma MapRemoveSize<V>(m: map<string, V>, k: string)
    requires k in m
    ensures |m - {k}| == |m| - 1
  {
    assert (m - {k}).Keys == m.Keys - {k};
    assert |(m - {k}).Keys| == |m.Keys| - 1;
  }

  /** Unregistering removes exactly the entry's key and the entry's alias. */
  lemma UnregisterRemoves(s: State, e: Entry)
    requires e.fullname in s.reg
    ensures var r := Unregister(s, e);
      r.reg.Keys == s.reg.Keys - {e.fullname} &&
      (forall k :: k in r.reg ==> r.reg[k] == s.reg[k]) &&
      r.engine.Keys == s.engine.Keys - {e.tabname} &&
      (forall a :: a in r.engine ==> r.engine[a] == s.engine[a])
    ensures |Unregister(s, e).reg| == |s.reg| - 1
    ensures WellFormed(s) ==> WellFormed(Unregister(s, e))
  {
    MapRemoveSize(s.reg, e.fullname);
  }

  /** Renaming to an alias starting with "table" raises before anything is touched. */
  lemma RenameReservedRejected(s: State, e: Entry, newAlias: string)
    requires e.fullname in s.reg
    requires Reserved(newAlias)
    ensures Rename(s, e, newAlias) == Step(s, Raised(ReservedAlias))
  {
  }

  /**
   * Renaming a registered entry to a permitted alias keeps its display key,
   * file, sheet, type, size and payload, gives it the new alias (the
   * generated one if the new alias is empty), drops the old alias from the
   * engine, makes the new one live with the same table, and leaves every
   * other entry alone. This holds unless the entry's source file name is the
   * display key of another entry (see RenameDropsShadowedEntry).
   */
  lemma RenameKeepsDisplayKey(s: State, key: string, newAlias: string)
    requires WellFormed(s) && key in s.reg
    requires !Reserved(newAlias)
    requires s.reg[key].name !in s.reg.Keys - {key}
    ensures var e := s.reg[key];
      var tab := ResolveAlias(newAlias, |s.reg - {key}|);
      var r := Rename(s, e, newAlias);
      r.status == Completed &&
      r.state.reg == s.reg[key := e.(tabname := tab)] &&
      r.state.engine == (s.engine - {e.tabname})[tab := Extract(e.kind, e.data, e.sheetname)] &&
      (newAlias != "" ==> tab == newAlias) &&
      tab in r.state.engine &&
      (e.tabname != tab ==> e.tabname !in r.state.engine)
  {
    var e := s.reg[key];
    var s1 := Unregister(s, e);
    assert e.fullname == key;
    assert s1 == State(s.reg - {key}, s.engine - {e.tabname});
    assert e.name !in s1.reg;
    assert DisplayKey(e.name, e.sheetname) == key && Supported(e.kind);
    var file := File(e.name, e.kind, e.size, e.data);
    assert Rename(s, e, newAlias) == Register(s1, file, e.sheetname, newAlias);
    RegisterSucceeds(s1, file, e.sheetname, newAlias);
    var tab := ResolveAlias(newAlias, |s1.reg|);
    var e2 := Entry(key, e.name, e.sheetname, e.kind, e.size, e.data, tab);
    assert e2 == e.(tabname := tab);
    MapRemoveUpdate(s.reg, key, e2);
  }

  lemma MapRemoveUpdate<V>(m: map<string, V>, k: string, v: V)
    ensures (m - {k})[k := v] == m[k := v]
  {
  }

  /**
   * When the renamed entry is a sheet whose workbook name is also the
   * display key of another entry, the re-registration is skipped as a
   * duplicate: the entry disappears and its alias with it, with no error.
   */
  lemma RenameDropsShadowedEntry(s: State, key: string, newAlias: string)
    requires WellFormed(s) && key in s.reg
    requires !Reserved(newAlias)
    requires s.reg[key].name in s.reg.Keys - {key}
    ensures var e := s.reg[key];
      Rename(s, e, newAlias) == Step(Unregister(s, e), Completed) &&
      key !in Rename(s, e, newAlias).state.reg &&
      e.tabname !in Rename(s, e, newAlias).state.engine
  {
  }

  /**
   * Rename does not check whether the new alias is live: renaming an entry
   * to the alias of another entry leaves both carrying it, and the engine
   * serves the renamed entry's table under it.
   */
  lemma RenameOntoLiveAlias(s: State, key: string, other: string, newAlias: string)
    requires WellFormed(s) && key in s.reg && other in s.reg && other != key
    requires newAlias != "" && !Reserved(newAlias)
    requires s.reg[other].tabname == newAlias
    requires s.reg[key].name !in s.reg.Keys - {key}
    ensures var e := s.reg[key];
      var r := Rename(s, e, newAlias).state;
      r.reg[key].tabname == newAlias && r.reg[other].tabname == newAlias &&
      r.engine[newAlias] == Extract(e.kind, e.data, e.sheetname)
  {
    RenameKeepsDisplayKey(s, key, newAlias);
  }

  /** Renaming keeps the registry well formed. */
  lemma RenameWellFormed(s: State, e: Entry, newAlias: string)
    requires WellFormed(s) && e.fullname in s.reg
    ensures WellFormed(Rename(s, e, newAlias).state)
  {
    UnregisterRemoves(s, e);
    RegisterWellFormed(Unregister(s, e), File(e.name, e.kind, e.size, e.data), e.sheetname, newAlias);
  }

  /**
   * After "Delete all" the registry is empty, no alias of a former entry is
   * live, and aliases no entry carried are untouched.
   */
  lemma ClearAllForgets(s: State)
    ensures ClearAll(s).reg == map[]
    ensures forall k :: k in s.reg ==> s.reg[k].tabname !in ClearAll(s).engine
    ensures forall a :: a in s.engine && a !in AliasesOf(s.reg) ==>
      a in ClearAll(s).engine && ClearAll(s).engine[a] == s.engine[a]
  {
  }

  lemma AliasesOfRemove(reg: map<string, Entry>, k: string)
    requires k in reg
    ensures AliasesOf(reg) == AliasesOf(reg - {k}) + {reg[k].tabname}
  {
    forall a | a in AliasesOf(reg) ensures a in AliasesOf(reg - {k}) + {reg[k].tabname} {
      var k' :| k' in reg && reg[k'].tabname == a;
      if k' != k { assert k' in reg - {k}; }
    }
    forall a | a in AliasesOf(reg - {k}) ensures a in AliasesOf(reg) {
      var k' :| k' in reg - {k} && (reg - {k})[k'].tabname == a;
      assert k' in reg;
    }
  }

  /** Deleting every entry one by one, in any order, is "Delete all". */
  lemma {:induction false} DeleteEachIsClearAll(s: State, keys: seq<string>)
    requires WellFormed(s)
    requires forall i, j :: 0 <= i < j < |keys| ==> keys[i] != keys[j]
    requires forall k :: k in s.reg <==> k in keys
    ensures DeleteEach(s, keys) == ClearAll(s)
    decreases |keys|
  {
    if keys == [] {
      assert s.reg == map[];
      assert s.engine - AliasesOf(s.reg) == s.engine;
    } else {
      var k := keys[0];
      var e := s.reg[k];
      var s1 := Unregister(s, e);
      assert s1.reg == s.reg - {k};
      UnregisterRemoves(s, e);
      KeysTail(s.reg, keys);
      DeleteEachIsClearAll(s1, keys[1..]);
      assert DeleteEach(s, keys) == ClearAll(s1);
      AliasesOfRemove(s.reg, k);
      SetDrop(s.engine, AliasesOf(s1.reg), e.tabname);
    }
  }

  /** With the first key removed, the map's keys are the rest of a list of distinct keys. */
  lemma KeysTail(m: map<string, Entry>, keys: seq<string>)
    requires keys != []
    requires forall i, j :: 0 <= i < j < |keys| ==> keys[i] != keys[j]
    requires forall k :: k in m <==> k in keys
    ensures forall x :: x in m - {keys[0]} <==> x in keys[1..]
  {
    forall x ensures x in m - {keys[0]} <==> x in keys[1..] {
      if x in keys[1..] {
        var j :| 0 <= j < |keys[1..]| && keys[1..][j] == x;
        assert keys[j + 1] == x;
      }
    }
  }

  /** Dropping one alias and then a set of them is dropping both at once. */
  lemma SetDrop(m: map<string, Table>, aliases: set<string>, a: string)
    ensures (m - {a}) - aliases == m - (aliases + {a})
  {
  }

  // ---------------------------------------------------------------------
  // Properties of the upload batch
  // ---------------------------------------------------------------------

  /** An exception in the batch loop ends it: later uploads are not registered. */
  lemma {:induction false} RegisterPlainStops(s: State, files: seq<File>, multi: set<string>, i: nat)
    requires i <= |files|
    requires RegisterPlain(s, files[..i], multi).status.Raised?
    ensures RegisterPlain(s, files, multi) == RegisterPlain(s, files[..i], multi)
    decreases |files|
  {
    if i < |files| {
      assert files[..|files| - 1][..i] == files[..i];
      RegisterPlainStops(s, files[..|files| - 1], multi, i);
    } else {
      assert files[..i] == files;
    }
  }

  /** Uploads that are all multi-sheet workbooks register nothing until their sheets are confirmed. */
  lemma {:induction false} RegisterPlainSkipsWorkbooks(s: State, files: seq<File>, multi: set<string>)
    requires forall i :: 0 <= i < |files| ==> files[i].name in multi
    ensures RegisterPlain(s, files, multi) == Step(s, Completed)
    decreases |files|
  {
    if files != [] {
      RegisterPlainSkipsWorkbooks(s, files[..|files| - 1], multi);
    }
  }

  /** The batch loop keeps the registry well formed. */
  lemma {:induction false} RegisterPlainWellFormed(s: State, files: seq<File>, multi: set<string>)
    requires WellFormed(s)
    ensures WellFormed(RegisterPlain(s, files, multi).state)
    decreases |files|
  {
    if files != [] {
      var prev := RegisterPlain(s, files[..|files| - 1], multi);
      RegisterPlainWellFormed(s, files[..|files| - 1], multi);
      RegisterWellFormed(prev.state, files[|files| - 1], "", "");
    }
  }

  /** Registration never removes a display key. */
  lemma RegisterKeepsKeys(s: State, file: File, sheet: string, alias: string)
    ensures s.reg.Keys <= Register(s, file, sheet, alias).state.reg.Keys
  {
  }

  /** The batch loop never removes a display key. */
  lemma {:induction false} RegisterPlainKeepsKeys(s: State, files: seq<File>, multi: set<string>)
    ensures s.reg.Keys <= RegisterPlain(s, files, multi).state.reg.Keys
    decreases |files|
  {
    if files != [] {
      var prev := RegisterPlain(s, files[..|files| - 1], multi);
      RegisterPlainKeepsKeys(s, files[..|files| - 1], multi);
      RegisterKeepsKeys(prev.state, files[|files| - 1], "", "");
    }
  }

  /** A registration with no sheet that completes leaves the file's name among the display keys. */
  lemma RegisterCompletedHasName(s: State, file: File, alias: string)
    requires Register(s, file, "", alias).status == Completed
    ensures s.reg.Keys + {file.name} <= Register(s, file, "", alias).state.reg.Keys
  {
  }

  /** The last step of a batch that completes: the batch so far completed, and the last upload's name is added unless skipped. */
  lemma RegisterPlainLastStep(s: State, files: seq<File>, multi: set<string>)
    requires files != []
    requires RegisterPlain(s, files, multi).status == Completed
    ensures var prev := RegisterPlain(s, files[..|files| - 1], multi);
      var f := files[|files| - 1];
      prev.status == Completed &&
      prev.state.reg.Keys <= RegisterPlain(s, files, multi).state.reg.Keys &&
      (f.name !in multi ==> f.name in RegisterPlain(s, files, multi).state.reg)
  {
    var prev := RegisterPlain(s, files[..|files| - 1], multi);
    var f := files[|files| - 1];
    if f.name !in multi {
      RegisterCompletedHasName(prev.state, f, "");
    }
  }

  /**
   * A batch that ends without an exception leaves every upload that is not a
   * multi-sheet workbook registered under its own name: either it was added,
   * or its name was already a display key and the duplicate test skipped it.
   */
  lemma {:induction false} RegisterPlainRegistersAll(s: State, files: seq<File>, multi: set<string>)
    requires RegisterPlain(s, files, multi).status == Completed
    ensures forall i :: 0 <= i < |files| && files[i].name !in multi ==>
      files[i].name in RegisterPlain(s, files, multi).state.reg
  {
    forall i | 0 <= i < |files| && files[i].name !in multi
      ensures files[i].name in RegisterPlain(s, files, multi).state.reg
    {
      RegisterPlainRegistersOne(s, files, multi, i);
    }
  }

  /** One upload of a completed batch, by induction on the uploads after it. */
  lemma {:induction false} RegisterPlainRegistersOne(s: State, files: seq<File>, multi: set<string>, i: nat)
    requires i < |files| && files[i].name !in multi
    requires RegisterPlain(s, files, multi).status == Completed
    ensures files[i].name in RegisterPlain(s, files, multi).state.reg
    decreases |files|
  {
    var init := files[..|files| - 1];
    var final := RegisterPlain(s, files, multi).state.reg;
    RegisterPlainLastStep(s, files, multi);
    if i < |init| {
      var prev := RegisterPlain(s, init, multi);
      assert prev.status == Completed && prev.state.reg.Keys <= final.Keys;
      assert init[i] == files[i];
      RegisterPlainRegistersOne(s, init, multi, i);
      assert files[i].name in prev.state.reg;
    } else {
      assert files[i] == files[|files| - 1];
    }
  }

  /** Every display key the batch loop adds is the name of an upload that is not a multi-sheet workbook. */
  lemma {:induction false} RegisterPlainAddsOnlyUploads(s: State, files: seq<File>, multi: set<string>)
    ensures forall k :: k in RegisterPlain(s, files, multi).state.reg && k !in s.reg ==>
      exists i :: 0 <= i < |files| && files[i].name == k && k !in multi
    decreases |files|
  {
    if files != [] {
      var init := files[..|files| - 1];
      var prev := RegisterPlain(s, init, multi).state;
      RegisterPlainAddsOnlyUploads(s, init, multi);
      RegisterPlainAddsLast(s, files, multi);
      forall k | k in RegisterPlain(s, files, multi).state.reg && k !in s.reg
        ensures exists i :: 0 <= i < |files| && files[i].name == k && k !in multi
      {
        if k in prev.reg {
          var i :| 0 <= i < |init| && init[i].name == k && k !in multi;
          assert files[i] == init[i];
        } else {
          assert files[|files| - 1].name == k;
        }
      }
    }
  }

  /** The last step of the batch adds at most the last upload's name, and only when it is not a workbook. */
  lemma RegisterPlainAddsLast(s: State, files: seq<File>, multi: set<string>)
    requires files != []
    ensures var prev := RegisterPlain(s, files[..|files| - 1], multi).state;
      var f := files[|files| - 1];
      forall k :: k in RegisterPlain(s, files, multi).state.reg ==> k in prev.reg || (k == f.name && k !in multi)
  {
    var prev := RegisterPlain(s, files[..|files| - 1], multi);
    var f := files[|files| - 1];
    var r := RegisterPlain(s, files, multi);
    if prev.status.Raised? || f.name in multi {
      assert r == prev;
    } else {
      assert r == Register(prev.state, f, "", "");
      RegisterAddsAtMostName(prev.state, f, "");
    }
  }

  /** Registering with no sheet adds at most the file's own name as a display key. */
  lemma RegisterAddsAtMostName(s: State, file: File, alias: string)
    ensures Register(s, file, "", alias).state.reg.Keys <= s.reg.Keys + {file.name}
  {
  }

  /** The batch loop over one more upload. */
  lemma RegisterPlainSnoc(s: State, files: seq<File>, f: File, multi: set<string>)
    ensures var prev := RegisterPlain(s, files, multi);
      RegisterPlain(s, files + [f], multi) ==
        if prev.status.Raised? || f.name in multi then prev else Register(prev.state, f, "", "")
  {
    assert (files + [f])[..|files|] == files;
  }

  /** Registering a CSV under no sheet and no alias, when its name is new. */
  lemma RegisterNewCsv(s: State, f: File)
    requires f.kind == "csv" && f.name !in s.reg
    ensures var tab := AutoAlias(|s.reg| + 1);
      Register(s, f, "", "") ==
        Step(State(s.reg[f.name := Entry(f.name, f.name, "", "csv", f.size, f.data, tab)],
                   s.engine[tab := Table(f.data, "")]), Completed)
  {
  }

  /** The first two uploads of a batch of CSVs. */
  lemma TwoCsvAliases(a: File, b: File)
    requires a.kind == "csv" && b.kind == "csv"
    requires a.name != b.name
    ensures var r := RegisterPlain(Empty, [a, b], {});
      r.status == Completed &&
      r.state.reg.Keys == {a.name, b.name} &&
      r.state.engine.Keys == {"table1", "table2"} &&
      r.state.reg[a.name].tabname == "table1" &&
      r.state.reg[b.name].tabname == "table2" 
  {
    assert AutoAlias(1) == "table1" && AutoAlias(2) == "table2";
    RegisterPlainSnoc(Empty, [], a, {});
    assert [] + [a] == [a];
    RegisterNewCsv(Empty, a);
    var s1 := Register(Empty, a, "", "").state;
    assert RegisterPlain(Empty, [a], {}) == Step(s1, Completed);
    assert s1.reg.Keys == {a.name} && s1.engine.Keys == {"table1"};
    assert |s1.reg| == 1;

    RegisterPlainSnoc(Empty, [a], b, {});
    assert [a] + [b] == [a, b];
    RegisterNewCsv(s1, b);
    var s2 := Register(s1, b, "", "").state;
    assert RegisterPlain(Empty, [a, b], {}) == Step(s2, Completed);
    assert s2.reg.Keys == {a.name, b.name};
    assert s2.engine.Keys == {"table1", "table2"};
  }
  /**
   * Three CSV uploads with distinct names registered into an empty registry
   * get the aliases table1, table2, table3 in upload order.
   */
  lemma ThreeCsvAliases(a: File, b: File, c: File)
    requires a.kind == "csv" && b.kind == "csv" && c.kind == "csv"
    requires a.name != b.name && a.name != c.name && b.name != c.name
    ensures var r := RegisterPlain(Empty, [a, b, c], {});
      r.status == Completed &&
      r.state.reg.Keys == {a.name, b.name, c.name} &&
      r.state.reg[a.name].tabname == "table1" &&
      r.state.reg[b.name].tabname == "table2" &&
      r.state.reg[c.name].tabname == "table3" &&
      r.state.engine.Keys == {"table1", "table2", "table3"}
  {
    TwoCsvAliases(a, b);
    var s2 := RegisterPlain(Empty, [a, b], {}).state;
    assert |s2.reg| == |s2.reg.Keys| == 2;
    assert AutoAlias(3) == "table3";
    RegisterPlainSnoc(Empty, [a, b], c, {});
    assert [a, b] + [c] == [a, b, c];
    RegisterNewCsv(s2, c);
  }

  /**
   * The generated alias follows the registry size, so it can repeat after a
   * delete: with a, b, c registered as table1..table3, deleting a and
   * registering d gives d the alias table3 too. The engine then holds d's
   * table under table3, and deleting c afterwards leaves d registered with
   * no live table.
   */
  lemma AutoAliasCollision(a: File, b: File, c: File, d: File)
    requires a.kind == "csv" && b.kind == "csv" && c.kind == "csv" && d.kind == "csv"
    requires a.name != b.name && a.name != c.name && b.name != c.name
    requires d.name != b.name && d.name != c.name
    ensures var s3 := RegisterPlain(Empty, [a, b, c], {}).state;
      a.name in s3.reg && s3.reg[a.name].fullname == a.name &&
      var s4 := Unregister(s3, s3.reg[a.name]);
      var s5 := Register(s4, d, "", "").state;
      c.name in s5.reg && d.name in s5.reg && s5.reg[c.name].fullname == c.name &&
      s5.reg[c.name].tabname == "table3" &&
      s5.reg[d.name].tabname == "table3" &&
      "table3" in s5.engine && s5.engine["table3"] == Extract("csv", d.data, "") &&
      var s6 := Unregister(s5, s5.reg[c.name]);
      d.name in s6.reg && s6.reg[d.name].tabname == "table3" && "table3" !in s6.engine
  {
    ThreeCsvAliases(a, b, c);
    var s3 := RegisterPlain(Empty, [a, b, c], {}).state;
    RegisterPlainWellFormed(Empty, [a, b, c], {});
    assert s3.reg[a.name].fullname == a.name && s3.reg[c.name].fullname == c.name;
    var s4 := Unregister(s3, s3.reg[a.name]);
    assert s4.reg == s3.reg - {a.name};
    assert s4.reg.Keys == {b.name, c.name};
    assert |s4.reg| == |s4.reg.Keys| == 2;
    assert d.name !in s4.reg;
    assert AutoAlias(3) == "table3";
    RegisterNewCsv(s4, d);
    var s5 := Register(s4, d, "", "").state;
    assert s5.reg[c.name] == s3.reg[c.name];
    assert s5.reg[d.name].tabname == "table3";
  }
}
