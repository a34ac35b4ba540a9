/**
 * Sheet disambiguation in app.py: hiding the sheets of multi-sheet
 * workbooks that are already registered (filter_multi_sheets), the
 * checkbox key "selsheet_{file}_{sheet}" and its parse by `split("_")`, and
 * the registration of the confirmed sheets in sorted key order.
 */
module Sheets {
  import opened Strings
  import opened Registry

  /** A workbook name with its sheet names, one item of an ordered dict. */
  type Workbook = (string, seq<string>)

  const SelPrefix: string := "selsheet_"

  /** The session-state key of the checkbox for one sheet of one workbook. */
  function SelKey(filename: string, sheetname: string): (key: string)
    ensures StartsWith(key, SelPrefix)
    ensures |key| == |SelPrefix| + |filename| + 1 + |sheetname|
  {
    SelPrefix + filename + "_" + sheetname
  }

  datatype Selection = Selection(file: string, sheet: string)

  /** `parts = key.split("_")`, then `parts[1]` and `parts[2]`; None where the indexing raises IndexError. */
  function ParseSelKey(key: string): (sel: Option<Selection>)
    ensures sel.Some? ==> '_' !in sel.value.file && '_' !in sel.value.sheet
  {
    var parts := Split(key, '_');
    if |parts| < 3 then None else Some(Selection(parts[1], parts[2]))
  }

  /** A key built from names without "_" parses back to those names. */
  lemma ParseSelKeyRoundTrip(filename: string, sheetname: string)
    requires '_' !in filename && '_' !in sheetname
    ensures ParseSelKey(SelKey(filename, sheetname)) == Some(Selection(filename, sheetname))
  {
    var parts := ["selsheet", filename, sheetname];
    assert parts[1..][1..] == [sheetname];
    assert Join(parts[1..], '_') == filename + "_" + sheetname;
    assert SelKey(filename, sheetname) == Join(parts, '_');
    assert '_' !in parts[0];
    SplitJoin(parts, '_');
  }

  /**
   * A workbook name holding "_" is cut at its first "_": the key parses to
   * the part before it as the file and the part after it as the sheet, not
   * to the workbook name and sheet the key was built from.
   */
  lemma ParseSelKeyUnderscoreInName(f1: string, f2: string, sheetname: string)
    requires '_' !in f1 && '_' !in f2 && '_' !in sheetname
    ensures ParseSelKey(SelKey(f1 + "_" + f2, sheetname)) == Some(Selection(f1, f2))
    ensures ParseSelKey(SelKey(f1 + "_" + f2, sheetname)) != Some(Selection(f1 + "_" + f2, sheetname))
  {
    var parts := ["selsheet", f1, f2, sheetname];
    assert parts[1..][1..][1..] == [sheetname];
    assert Join(parts[1..][1..], '_') == f2 + "_" + sheetname;
    assert Join(parts[1..], '_') == f1 + "_" + (f2 + "_" + sheetname);
    assert SelKey(f1 + "_" + f2, sheetname) == Join(parts, '_');
    assert '_' !in parts[0];
    SplitJoin(parts, '_');
    assert |f1 + "_" + f2| > |f1|;
  }

  /** `[key for key in session_state.keys() if key.startswith("selsheet_") and session_state[key]]`. */
  function SelectedKeys(checks: seq<(string, bool)>): (keys: seq<string>)
    ensures |keys| <= |checks|
    ensures forall i :: 0 <= i < |keys| ==> StartsWith(keys[i], SelPrefix)
    decreases |checks|
  {
    if checks == [] then []
    else
      var (key, on) := checks[|checks| - 1];
      SelectedKeys(checks[..|checks| - 1]) + (if StartsWith(key, SelPrefix) && on then [key] else [])
  }

  /** The selected keys are exactly the ticked checkbox keys. */
  lemma {:induction false} SelectedKeysExactly(checks: seq<(string, bool)>, key: string)
    ensures key in SelectedKeys(checks) <==>
      StartsWith(key, SelPrefix) && exists i :: 0 <= i < |checks| && checks[i] == (key, true)
    decreases |checks|
  {
    if checks != [] {
      var init := checks[..|checks| - 1];
      SelectedKeysExactly(init, key);
      if exists i :: 0 <= i < |init| && init[i] == (key, true) {
        var i :| 0 <= i < |init| && init[i] == (key, true);
        assert checks[i] == (key, true);
      }
      if exists i :: 0 <= i < |checks| && checks[i] == (key, true) {
        var i :| 0 <= i < |checks| && checks[i] == (key, true);
        if i < |init| { assert init[i] == (key, true); }
      }
    }
  }

  /**
   * The order in which confirmed sheets are registered depends only on
   * which keys are ticked, not on the order of the session state.
   */
  lemma ConfirmOrderDeterminate(c1: seq<(string, bool)>, c2: seq<(string, bool)>)
    requires multiset(SelectedKeys(c1)) == multiset(SelectedKeys(c2))
    ensures Sort(SelectedKeys(c1)) == Sort(SelectedKeys(c2))
  {
    SortedUnique(Sort(SelectedKeys(c1)), Sort(SelectedKeys(c2)));
  }

  /** The sheets of one workbook whose display key is not registered, in their order. */
  function Keep(filename: string, sheets: seq<string>, registered: set<string>): (kept: seq<string>)
    ensures |kept| <= |sheets|
    ensures forall i :: 0 <= i < |kept| ==> kept[i] in sheets && CreateFileName(filename, kept[i]) !in registered
    decreases |sheets|
  {
    if sheets == [] then []
    else
      var last := sheets[|sheets| - 1];
      Keep(filename, sheets[..|sheets| - 1], registered) +
        (if CreateFileName(filename, last) in registered then [] else [last])
  }

  /** filter_multi_sheets, given the registered display keys: each workbook with its unregistered sheets, workbooks left with none dropped. */
  function FilterMulti(multi: seq<Workbook>, registered: set<string>): (filtered: seq<Workbook>)
    ensures |filtered| <= |multi|
    ensures forall i :: 0 <= i < |filtered| ==> filtered[i].1 != [] && filtered[i].0 in NameSet(multi)
    decreases |multi|
  {
    if multi == [] then []
    else
      var (filename, sheets) := multi[|multi| - 1];
      var kept := Keep(filename, sheets, registered);
      FilterMulti(multi[..|multi| - 1], registered) + (if kept == [] then [] else [(filename, kept)])
  }

  /** `multi_sheets_files.keys()`. */
  function NameSet(multi: seq<Workbook>): (names: set<string>)
    ensures forall i :: 0 <= i < |multi| ==> multi[i].0 in names
  {
    set w | w in multi :: w.0
  }

  /** A name is among the workbook names exactly when some workbook carries it. */
  lemma NameSetExactly(multi: seq<Workbook>, n: string)
    ensures n in NameSet(multi) <==> exists i :: 0 <= i < |multi| && multi[i].0 == n
  {
    if n in NameSet(multi) {
      var w :| w in multi && w.0 == n;
      var i :| 0 <= i < |multi| && multi[i] == w;
    }
  }

  /** The workbook names of an ordered dict. */
  function Names(multi: seq<Workbook>): (names: seq<string>)
  {
    seq(|multi|, i requires 0 <= i < |multi| => multi[i].0)
  }

  /** A sheet is kept exactly when it is one of the workbook's sheets and its display key is not registered. */
  lemma {:induction false} KeepExactly(filename: string, sheets: seq<string>, registered: set<string>, sheet: string)
    ensures sheet in Keep(filename, sheets, registered) <==>
      sheet in sheets && CreateFileName(filename, sheet) !in registered
    decreases |sheets|
  {
    if sheets != [] {
      var init := sheets[..|sheets| - 1];
      KeepExactly(filename, init, registered, sheet);
      assert sheets == init + [sheets[|sheets| - 1]];
    }
  }

  /** The kept sheets keep the order they had. */
  lemma {:induction false} KeepInOrder(filename: string, sheets: seq<string>, registered: set<string>)
    ensures Subseq(Keep(filename, sheets, registered), sheets)
    decreases |sheets|
  {
    if sheets != [] {
      var init := sheets[..|sheets| - 1];
      var kept := Keep(filename, init, registered);
      KeepInOrder(filename, init, registered);
      var last := sheets[|sheets| - 1];
      if CreateFileName(filename, last) !in registered {
        var r := kept + [last];
        assert r[..|r| - 1] == kept && r[|r| - 1] == last;
        assert Subseq(r[..|r| - 1], sheets[..|sheets| - 1]);
        assert Keep(filename, sheets, registered) == r;
      } else {
        assert Keep(filename, sheets, registered) == kept;
        assert Subseq(kept, sheets[..|sheets| - 1]);
      }
    }
  }

  /**
   * A workbook appears in the result, with exactly its kept sheets, when some
   * of its sheets are unregistered; and every listed workbook has at least one.
   */
  lemma {:induction false} FilterMultiExactly(multi: seq<Workbook>, registered: set<string>, w: Workbook)
    ensures w in FilterMulti(multi, registered) <==> w.1 != [] && Listed(multi, registered, w)
    decreases |multi|
  {
    if multi != [] {
      var init := multi[..|multi| - 1];
      var (filename, sheets) := multi[|multi| - 1];
      var kept := Keep(filename, sheets, registered);
      var tail := if kept == [] then [] else [(filename, kept)];
      assert FilterMulti(multi, registered) == FilterMulti(init, registered) + tail;
      assert w in FilterMulti(multi, registered) <==> w in FilterMulti(init, registered) || w in tail;
      assert w in tail <==> w.1 != [] && filename == w.0 && w.1 == kept;
      FilterMultiExactly(init, registered, w);
      ListedSnoc(multi, registered, w);
    }
  }

  /** `w` is the entry of some workbook of `multi` with exactly its kept sheets. */
  predicate Listed(multi: seq<Workbook>, registered: set<string>, w: Workbook)
  {
    exists i :: 0 <= i < |multi| && multi[i].0 == w.0 && w.1 == Keep(w.0, multi[i].1, registered)
  }

  /** Being listed in a non-empty list: listed in all but the last, or the last one. */
  lemma ListedSnoc(multi: seq<Workbook>, registered: set<string>, w: Workbook)
    requires multi != []
    ensures var last := multi[|multi| - 1];
      Listed(multi, registered, w) <==>
        Listed(multi[..|multi| - 1], registered, w) || (last.0 == w.0 && w.1 == Keep(w.0, last.1, registered))
  {
    var init := multi[..|multi| - 1];
    if Listed(init, registered, w) {
      var i :| 0 <= i < |init| && init[i].0 == w.0 && w.1 == Keep(w.0, init[i].1, registered);
      assert multi[i] == init[i];
    }
    if Listed(multi, registered, w) {
      var i :| 0 <= i < |multi| && multi[i].0 == w.0 && w.1 == Keep(w.0, multi[i].1, registered);
      if i < |init| { assert init[i] == multi[i]; }
    }
  }

  /** The workbooks listed keep the order they had. */
  lemma {:induction false} FilterMultiInOrder(multi: seq<Workbook>, registered: set<string>)
    ensures Subseq(Names(FilterMulti(multi, registered)), Names(multi))
    decreases |multi|
  {
    if multi != [] {
      var init := multi[..|multi| - 1];
      FilterMultiInOrder(init, registered);
      var (filename, sheets) := multi[|multi| - 1];
      var prev := FilterMulti(init, registered);
      assert Names(multi)[..|multi| - 1] == Names(init);
      var kept := Keep(filename, sheets, registered);
      if kept != [] {
        var r := prev + [(filename, kept)];
        assert Names(r)[..|r| - 1] == Names(prev);
        assert Names(r)[|r| - 1] == filename == Names(multi)[|multi| - 1];
        assert Subseq(Names(r)[..|Names(r)| - 1], Names(multi)[..|Names(multi)| - 1]);
      } else {
        assert FilterMulti(multi, registered) == prev;
        assert Subseq(Names(prev), Names(multi)[..|Names(multi)| - 1]);
      }
    }
  }

  /** The inner loop of the confirm button: register the chosen sheet of every upload with the chosen name. */
  function RegisterMatching(s: State, files: seq<File>, filename: string, sheet: string): (r: Step)
    ensures r.status.Raised? ==> r.status.error.UnsupportedType?
    decreases |files|
  {
    if files == [] then Step(s, Completed)
    else
      var prev := RegisterMatching(s, files[..|files| - 1], filename, sheet);
      var f := files[|files| - 1];
      if prev.status.Raised? || f.name != filename then prev
      else Register(prev.state, f, sheet, "")
  }

  /** The confirm button: each key parsed and its sheet registered, in the order given; the first exception ends it. */
  function Confirm(s: State, keys: seq<string>, files: seq<File>): (r: Step)
    ensures r.status.Raised? ==> !r.status.error.ReservedAlias?
    decreases |keys|
  {
    if keys == [] then Step(s, Completed)
    else
      var prev := Confirm(s, keys[..|keys| - 1], files);
      var key := keys[|keys| - 1];
      if prev.status.Raised? then prev
      else match ParseSelKey(key)
        case None => Step(prev.state, Raised(MalformedSelection(key)))
        case Some(sel) => RegisterMatching(prev.state, files, sel.file, sel.sheet)
  }

  /** One more key of the confirm loop. */
  lemma ConfirmNext(s: State, keys: seq<string>, files: seq<File>, i: nat)
    requires i < |keys|
    requires Confirm(s, keys[..i], files).status == Completed
    ensures var prev := Confirm(s, keys[..i], files).state;
      Confirm(s, keys[..i + 1], files) ==
        match ParseSelKey(keys[i])
        case None => Step(prev, Raised(MalformedSelection(keys[i])))
        case Some(sel) => RegisterMatching(prev, files, sel.file, sel.sheet)
  {
    assert keys[..i + 1][..i] == keys[..i];
  }

  /** The inner loop over one more upload. */
  lemma RegisterMatchingSnoc(s: State, files: seq<File>, f: File, filename: string, sheet: string)
    ensures var prev := RegisterMatching(s, files, filename, sheet);
      RegisterMatching(s, files + [f], filename, sheet) ==
        if prev.status.Raised? || f.name != filename then prev else Register(prev.state, f, sheet, "")
  {
    assert (files + [f])[..|files|] == files;
  }

  lemma {:induction false} RegisterMatchingStops(s: State, files: seq<File>, filename: string, sheet: string, i: nat)
    requires i <= |files|
    requires RegisterMatching(s, files[..i], filename, sheet).status.Raised?
    ensures RegisterMatching(s, files, filename, sheet) == RegisterMatching(s, files[..i], filename, sheet)
    decreases |files|
  {
    if i < |files| {
      assert files[..|files| - 1][..i] == files[..i];
      RegisterMatchingStops(s, files[..|files| - 1], filename, sheet, i);
    } else {
      assert files[..i] == files;
    }
  }

  lemma {:induction false} ConfirmStops(s: State, keys: seq<string>, files: seq<File>, i: nat)
    requires i <= |keys|
    requires Confirm(s, keys[..i], files).status.Raised?
    ensures Confirm(s, keys, files) == Confirm(s, keys[..i], files)
    decreases |keys|
  {
    if i < |keys| {
      assert keys[..|keys| - 1][..i] == keys[..i];
      ConfirmStops(s, keys[..|keys| - 1], files, i);
    } else {
      assert keys[..i] == keys;
    }
  }

  lemma {:induction false} RegisterMatchingWellFormed(s: State, files: seq<File>, filename: string, sheet: string)
    requires WellFormed(s)
    ensures WellFormed(RegisterMatching(s, files, filename, sheet).state)
    decreases |files|
  {
    if files != [] {
      var prev := RegisterMatching(s, files[..|files| - 1], filename, sheet);
      RegisterMatchingWellFormed(s, files[..|files| - 1], filename, sheet);
      RegisterWellFormed(prev.state, files[|files| - 1], sheet, "");
    }
  }

  lemma {:induction false} ConfirmWellFormed(s: State, keys: seq<string>, files: seq<File>)
    requires WellFormed(s)
    ensures WellFormed(Confirm(s, keys, files).state)
    decreases |keys|
  {
    if keys != [] {
      var prev := Confirm(s, keys[..|keys| - 1], files);
      ConfirmWellFormed(s, keys[..|keys| - 1], files);
      var key := keys[|keys| - 1];
      if !prev.status.Raised? && ParseSelKey(key).Some? {
        var sel := ParseSelKey(key).value;
        RegisterMatchingWellFormed(prev.state, files, sel.file, sel.sheet);
      }
    }
  }

  /** The inner loop adds no display key other than that of the chosen sheet. */
  lemma {:induction false} RegisterMatchingAddsOnly(s: State, files: seq<File>, filename: string, sheet: string)
    ensures forall k :: k in RegisterMatching(s, files, filename, sheet).state.reg ==>
      k in s.reg || k == DisplayKey(filename, sheet)
    decreases |files|
  {
    if files != [] {
      var prev := RegisterMatching(s, files[..|files| - 1], filename, sheet);
      RegisterMatchingAddsOnly(s, files[..|files| - 1], filename, sheet);
      var f := files[|files| - 1];
      if !prev.status.Raised? && f.name == filename {
        assert Register(prev.state, f, sheet, "").state.reg.Keys <= prev.state.reg.Keys + {DisplayKey(filename, sheet)};
      }
    }
  }

  /** `key` is the display key of the sheet some checkbox key in `keys` parses to. */
  predicate Chosen(keys: seq<string>, key: string)
  {
    exists j :: 0 <= j < |keys| && ParseSelKey(keys[j]).Some? &&
      key == DisplayKey(ParseSelKey(keys[j]).value.file, ParseSelKey(keys[j]).value.sheet)
  }

  /** The last key of the confirm loop adds no display key other than that of the sheet it parses to. */
  lemma ConfirmLastStep(s: State, keys: seq<string>, files: seq<File>)
    requires keys != []
    ensures var prev := Confirm(s, keys[..|keys| - 1], files).state;
      var sel := ParseSelKey(keys[|keys| - 1]);
      forall k :: k in Confirm(s, keys, files).state.reg ==>
        k in prev.reg || (sel.Some? && k == DisplayKey(sel.value.file, sel.value.sheet))
  {
    var prev := Confirm(s, keys[..|keys| - 1], files);
    var sel := ParseSelKey(keys[|keys| - 1]);
    if !prev.status.Raised? && sel.Some? {
      RegisterMatchingAddsOnly(prev.state, files, sel.value.file, sel.value.sheet);
    }
  }

  /**
   * Every display key the confirm button adds is that of a sheet one of the
   * ticked keys parses to: nothing outside the selection is registered.
   */
  lemma {:induction false} ConfirmAddsOnlyChosen(s: State, keys: seq<string>, files: seq<File>)
    ensures forall k :: k in Confirm(s, keys, files).state.reg && k !in s.reg ==> Chosen(keys, k)
    decreases |keys|
  {
    if keys != [] {
      var init := keys[..|keys| - 1];
      ConfirmLastStep(s, keys, files);
      ConfirmAddsOnlyChosen(s, init, files);
      forall k | k in Confirm(s, keys, files).state.reg && k !in s.reg
        ensures Chosen(keys, k)
      {
        if k in Confirm(s, init, files).state.reg {
          var j :| 0 <= j < |init| && ParseSelKey(init[j]).Some? &&
            k == DisplayKey(ParseSelKey(init[j]).value.file, ParseSelKey(init[j]).value.sheet);
          assert keys[j] == init[j];
        } else {
          assert ParseSelKey(keys[|keys| - 1]).Some?;
        }
      }
    }
  }

  /** The inner loop never removes a display key. */
  lemma {:induction false} RegisterMatchingKeepsKeys(s: State, files: seq<File>, filename: string, sheet: string)
    ensures s.reg.Keys <= RegisterMatching(s, files, filename, sheet).state.reg.Keys
    decreases |files|
  {
    if files != [] {
      var prev := RegisterMatching(s, files[..|files| - 1], filename, sheet);
      RegisterMatchingKeepsKeys(s, files[..|files| - 1], filename, sheet);
      RegisterKeepsKeys(prev.state, files[|files| - 1], sheet, "");
    }
  }

  /**
   * When the inner loop completes and some upload carries the chosen name,
   * the chosen sheet's display key is registered, unless the workbook name
   * itself is a display key (the duplicate test then skips the sheet).
   */
  lemma {:induction false} RegisterMatchingRegistersChosen(s: State, files: seq<File>, filename: string, sheet: string, i: nat)
    requires i < |files| && files[i].name == filename
    requires RegisterMatching(s, files, filename, sheet).status == Completed
    ensures var r := RegisterMatching(s, files, filename, sheet).state;
      DisplayKey(filename, sheet) in r.reg || filename in r.reg
    decreases |files|
  {
    var init := files[..|files| - 1];
    var prev := RegisterMatching(s, init, filename, sheet);
    var f := files[|files| - 1];
    assert prev.status == Completed;
    if f.name == filename {
      assert RegisterMatching(s, files, filename, sheet) == Register(prev.state, f, sheet, "");
    } else {
      assert i < |init| && init[i] == files[i];
      RegisterMatchingRegistersChosen(s, init, filename, sheet, i);
      assert RegisterMatching(s, files, filename, sheet) == prev;
    }
  }

  /** A confirm loop that completes parsed every key it was given. */
  lemma ConfirmCompletedParsesAll(s: State, keys: seq<string>, files: seq<File>)
    requires Confirm(s, keys, files).status == Completed
    ensures forall j :: 0 <= j < |keys| ==> ParseSelKey(keys[j]).Some?
  {
    forall j | 0 <= j < |keys| ensures ParseSelKey(keys[j]).Some? {
      ConfirmCompletedParsesOne(s, keys, files, j);
    }
  }

  /** One key of a completed confirm loop, by induction on the keys after it. */
  lemma {:induction false} ConfirmCompletedParsesOne(s: State, keys: seq<string>, files: seq<File>, j: nat)
    requires j < |keys|
    requires Confirm(s, keys, files).status == Completed
    ensures ParseSelKey(keys[j]).Some?
    decreases |keys|
  {
    var init := keys[..|keys| - 1];
    assert Confirm(s, init, files).status == Completed;
    if j < |init| {
      assert init[j] == keys[j];
      ConfirmCompletedParsesOne(s, init, files, j);
    }
  }

  /**
   * A confirm loop that completes registers the display key of every ticked
   * sheet for which an upload carries the workbook name, unless the workbook
   * name itself is a display key.
   */
  lemma {:induction false} ConfirmRegistersChosen(s: State, keys: seq<string>, files: seq<File>, j: nat, i: nat)
    requires j < |keys| && ParseSelKey(keys[j]).Some?
    requires i < |files| && files[i].name == ParseSelKey(keys[j]).value.file
    requires Confirm(s, keys, files).status == Completed
    ensures var sel := ParseSelKey(keys[j]).value;
      var r := Confirm(s, keys, files).state;
      DisplayKey(sel.file, sel.sheet) in r.reg || sel.file in r.reg
    decreases |keys|
  {
    var init := keys[..|keys| - 1];
    var prev := Confirm(s, init, files);
    var sel := ParseSelKey(keys[j]).value;
    var last := ParseSelKey(keys[|keys| - 1]);
    assert prev.status == Completed && last.Some?;
    assert Confirm(s, keys, files) == RegisterMatching(prev.state, files, last.value.file, last.value.sheet);
    if j == |keys| - 1 {
      RegisterMatchingRegistersChosen(prev.state, files, sel.file, sel.sheet, i);
    } else {
      assert init[j] == keys[j];
      ConfirmRegistersChosen(s, init, files, j, i);
      RegisterMatchingKeepsKeys(prev.state, files, last.value.file, last.value.sheet);
    }
  }

  /** One sheet of a workbook whose name is not a display key, registered with no alias. */
  lemma RegisterNewSheet(s: State, f: File, sheet: string)
    requires f.kind == "xlsx" && f.name !in s.reg && sheet != ""
    ensures var tab := AutoAlias(|s.reg| + 1);
      var key := CreateFileName(f.name, sheet);
      Register(s, f, sheet, "") ==
        Step(State(s.reg[key := Entry(key, f.name, sheet, "xlsx", f.size, f.data, tab)],
                   s.engine[tab := Table(f.data, sheet)]), Completed)
  {
  }

  /** The confirm loop over one upload that matches the selection. */
  lemma RegisterMatchingOne(s: State, f: File, sheet: string)
    ensures RegisterMatching(s, [f], f.name, sheet) == Register(s, f, sheet, "")
  {
    assert [f][..0] == [];
  }

  /** The ticked keys of the three-sheet example, sorted: "Jan" before "Mar". */
  lemma TickedJanMarSorted(n: string)
    ensures var checks := [(SelKey(n, "Mar"), true), (SelKey(n, "Feb"), false), (SelKey(n, "Jan"), true)];
      Sort(SelectedKeys(checks)) == [SelKey(n, "Jan"), SelKey(n, "Mar")]
  {
    var checks := [(SelKey(n, "Mar"), true), (SelKey(n, "Feb"), false), (SelKey(n, "Jan"), true)];
    var kJan, kMar := SelKey(n, "Jan"), SelKey(n, "Mar");
    assert kJan[..|SelPrefix|] == SelPrefix && kMar[..|SelPrefix|] == SelPrefix;
    assert checks[..2][..1] == checks[..1] && checks[..1][..0] == [];
    assert SelectedKeys(checks[..1]) == [kMar];
    assert SelectedKeys(checks[..2]) == [kMar];
    assert SelectedKeys(checks) == [kMar, kJan];
    var p := SelPrefix + n + "_";
    assert kJan == p + "Jan" && kMar == p + "Mar";
    BelowCommonPrefix(p, "Jan", "Mar");
    assert Sorted([kJan, kMar]);
    assert multiset([kJan, kMar]) == multiset([kMar, kJan]);
    SortedUnique([kJan, kMar], Sort([kMar, kJan]));
  }

  /** Confirming the keys of "Jan" then "Mar" of one workbook into an empty registry. */
  lemma ConfirmJanMar(book: File)
    requires book.kind == "xlsx" && '_' !in book.name
    ensures var r := Confirm(Empty, [SelKey(book.name, "Jan"), SelKey(book.name, "Mar")], [book]);
      var jan := CreateFileName(book.name, "Jan");
      var mar := CreateFileName(book.name, "Mar");
      r.status == Completed &&
      r.state.reg.Keys == {jan, mar} &&
      r.state.reg[jan].tabname == "table1" &&
      r.state.reg[mar].tabname == "table2" &&
      r.state.engine == map["table1" := Table(book.data, "Jan"), "table2" := Table(book.data, "Mar")]
  {
    var n := book.name;
    var kJan, kMar := SelKey(n, "Jan"), SelKey(n, "Mar");
    ParseSelKeyRoundTrip(n, "Jan");
    ParseSelKeyRoundTrip(n, "Mar");
    var keys := [kJan, kMar];
    assert keys[..1] == [kJan] && [kJan][..0] == [];
    assert AutoAlias(1) == "table1" && AutoAlias(2) == "table2";

    RegisterMatchingOne(Empty, book, "Jan");
    RegisterNewSheet(Empty, book, "Jan");
    var s1 := Register(Empty, book, "Jan", "").state;
    assert Confirm(Empty, [kJan], [book]) == Step(s1, Completed);

    var jan := CreateFileName(n, "Jan");
    assert |jan| > |n|;
    assert s1.reg.Keys == {jan} && |s1.reg| == 1;
    RegisterMatchingOne(s1, book, "Mar");
    RegisterNewSheet(s1, book, "Mar");
    var s2 := Register(s1, book, "Mar", "").state;
    assert Confirm(Empty, keys, [book]) == Step(s2, Completed);
    var mar := CreateFileName(n, "Mar");
    assert jan[|n| + 4] == 'J' && mar[|n| + 4] == 'M';
    assert s2.reg.Keys == {jan, mar};
    assert s2.reg[jan].tabname == "table1";
    assert s2.reg[mar].tabname == "table2";
    assert s2.engine == map["table1" := Table(book.data, "Jan"), "table2" := Table(book.data, "Mar")];
  }

  /**
   * A three-sheet workbook with "Mar" and "Jan" ticked and "Feb" not: the
   * confirm button registers exactly the two ticked sheets, "Jan" first,
   * under table1 and table2.
   */
  lemma ConfirmTwoOfThreeSheets(book: File)
    requires book.kind == "xlsx" && '_' !in book.name
    ensures var checks := [(SelKey(book.name, "Mar"), true), (SelKey(book.name, "Feb"), false),
                           (SelKey(book.name, "Jan"), true)];
      var r := Confirm(Empty, Sort(SelectedKeys(checks)), [book]);
      var jan := CreateFileName(book.name, "Jan");
      var mar := CreateFileName(book.name, "Mar");
      r.status == Completed &&
      r.state.reg.Keys == {jan, mar} &&
      r.state.reg[jan].tabname == "table1" &&
      r.state.reg[mar].tabname == "table2" &&
      r.state.engine == map["table1" := Table(book.data, "Jan"), "table2" := Table(book.data, "Mar")]
  {
    TickedJanMarSorted(book.name);
    ConfirmJanMar(book);
  }
}
