/**
 * The exchange resolver: alias -> MIC and MIC -> display-name maps loaded
 * once from a CSV table, and the two lookups. The CSV file is an input: its
 * rows after `fillna("")`, or `None` when reading it fails.
 */
module Exchanges {
  import opened Wrappers
  import opened Text

  /** One CSV row; a missing column or empty cell reads as "". */
  datatype CsvRow = CsvRow(alias: string, mic: string, displayName: string)

  /** A row as `_load` reads it: alias and MIC stripped and upper-cased, display name stripped. */
  datatype Entry = Entry(alias: string, mic: string, display: string)

  /** The key both lookups use: `strip().upper()`. */
  function Key(name: string): string { Upper(Strip(name)) }

  function Normalize(row: CsvRow): Entry {
    Entry(Key(row.alias), Key(row.mic), Strip(row.displayName))
  }

  /** Every row, normalised. */
  function Entries(rows: seq<CsvRow>): seq<Entry> {
    MapSeq(Normalize, rows)
  }

  /** The alias entry of a row is its alias's lookup key. */
  lemma EntryAliasIsKey(rows: seq<CsvRow>, i: nat)
    requires i < |rows|
    ensures Entries(rows)[i].alias == Key(rows[i].alias)
  {
    MapSeqAt(Normalize, rows, i);
  }

  /** The entry fills the alias map: both its alias and its MIC are non-empty. */
  predicate AliasEntry(e: Entry) {
    e.alias != "" && e.mic != ""
  }

  /** The entry can name its MIC: both its MIC and its display name are non-empty. */
  predicate NameEntry(e: Entry) {
    e.mic != "" && e.display != ""
  }

  /** The alias map after the given entries: every alias entry writes its alias, later ones overwriting. */
  function AliasTable(es: seq<Entry>): map<string, string> {
    if es == [] then map[]
    else
      var m := AliasTable(es[..|es| - 1]);
      var e := es[|es| - 1];
      if AliasEntry(e) then m[e.alias := e.mic] else m
  }

  /** The name map after the given entries: a MIC keeps the first display name given for it. */
  function NameTable(es: seq<Entry>): map<string, string> {
    if es == [] then map[]
    else
      var m := NameTable(es[..|es| - 1]);
      var e := es[|es| - 1];
      if NameEntry(e) && e.mic !in m then m[e.mic := e.display] else m
  }

  /** The maps `_load` leaves behind: empty when the file cannot be read. */
  function LoadedAliases(csv: Option<seq<CsvRow>>): map<string, string> {
    if csv.None? then map[] else AliasTable(Entries(csv.value))
  }

  function LoadedNames(csv: Option<seq<CsvRow>>): map<string, string> {
    if csv.None? then map[] else NameTable(Entries(csv.value))
  }

  /**
   * An alias is mapped exactly when some alias entry has it, and its MIC is
   * that of the last such entry.
   */
  lemma {:induction false} AliasLastWins(es: seq<Entry>, a: string)
    ensures a in AliasTable(es) <==> exists i :: 0 <= i < |es| && AliasEntry(es[i]) && es[i].alias == a
    ensures a in AliasTable(es) ==> exists i :: (0 <= i < |es| && AliasEntry(es[i]) && es[i].alias == a
      && AliasTable(es)[a] == es[i].mic
      && forall j :: i < j < |es| ==> !(AliasEntry(es[j]) && es[j].alias == a))
  {
    if es != [] {
      var n := |es| - 1;
      var init := es[..n];
      AliasLastWins(init, a);
      AliasTableStep(es, a);
      if AliasEntry(es[n]) && es[n].alias == a {
        assert AliasTable(es)[a] == es[n].mic;
      } else if a in AliasTable(init) {
        var i :| 0 <= i < n && AliasEntry(init[i]) && init[i].alias == a && AliasTable(init)[a] == init[i].mic
          && forall j :: i < j < n ==> !(AliasEntry(init[j]) && init[j].alias == a);
        assert es[i] == init[i];
        assert forall j :: i < j < |es| ==> !(AliasEntry(es[j]) && es[j].alias == a) by {
          forall j | i < j < |es| ensures !(AliasEntry(es[j]) && es[j].alias == a) {
            if j < n {
              assert es[j] == init[j];
            }
          }
        }
      } else {
        forall i | 0 <= i < |es| ensures !(AliasEntry(es[i]) && es[i].alias == a) {
          if i < n {
            assert es[i] == init[i];
          }
        }
      }
    }
  }

  /** What the last entry does to one alias of the table. */
  lemma AliasTableStep(es: seq<Entry>, a: string)
    requires es != []
    ensures var n := |es| - 1;
      if AliasEntry(es[n]) && es[n].alias == a then a in AliasTable(es) && AliasTable(es)[a] == es[n].mic
      else (a in AliasTable(es) <==> a in AliasTable(es[..n])) && (a in AliasTable(es) ==> AliasTable(es)[a] == AliasTable(es[..n])[a])
  {
  }

  /**
   * A MIC is named exactly when some name entry has it, and its display name
   * is that of the first such entry.
   */
  lemma {:induction false} NameFirstWins(es: seq<Entry>, m: string)
    ensures m in NameTable(es) <==> exists i :: 0 <= i < |es| && NameEntry(es[i]) && es[i].mic == m
    ensures m in NameTable(es) ==> exists i :: (0 <= i < |es| && NameEntry(es[i]) && es[i].mic == m
      && NameTable(es)[m] == es[i].display
      && forall j :: 0 <= j < i ==> !(NameEntry(es[j]) && es[j].mic == m))
  {
    if es != [] {
      var n := |es| - 1;
      var init := es[..n];
      NameFirstWins(init, m);
      assert forall i :: 0 <= i < n ==> init[i] == es[i];
      if m in NameTable(init) {
        var i :| 0 <= i < n && NameEntry(init[i]) && init[i].mic == m && NameTable(init)[m] == init[i].display
          && forall j :: 0 <= j < i ==> !(NameEntry(init[j]) && init[j].mic == m);
        assert NameTable(es)[m] == es[i].display;
      } else if NameEntry(es[n]) && es[n].mic == m {
        assert forall j :: 0 <= j < n ==> !(NameEntry(es[j]) && es[j].mic == m) by {
          forall j | 0 <= j < n ensures !(NameEntry(es[j]) && es[j].mic == m) {
            assert es[j] == init[j];
          }
        }
      }
    }
  }

  /** `to_mic` as a value: nothing for an empty name, else the alias map at the normalised name. */
  function ToMicOf(csv: Option<seq<CsvRow>>, exchangeName: Option<string>): (r: Option<string>)
    ensures !Truthy(exchangeName) ==> r.None?
    ensures Truthy(exchangeName) ==>
      (r.Some? <==> Key(exchangeName.value) in LoadedAliases(csv))
      && (r.Some? ==> r.value == LoadedAliases(csv)[Key(exchangeName.value)])
  {
    if !Truthy(exchangeName) then None
    else
      var key := Key(exchangeName.value);
      if key in LoadedAliases(csv) then Some(LoadedAliases(csv)[key]) else None
  }

  /** `mic_to_name` as a value: nothing for an empty MIC, else the display name, or the normalised MIC itself. */
  function MicToNameOf(csv: Option<seq<CsvRow>>, mic: Option<string>): (r: Option<string>)
    ensures !Truthy(mic) ==> r.None?
    ensures Truthy(mic) ==> r.Some?
    ensures Truthy(mic) && Key(mic.value) in LoadedNames(csv) ==> r.value == LoadedNames(csv)[Key(mic.value)]
    ensures Truthy(mic) && Key(mic.value) !in LoadedNames(csv) ==> r.value == Key(mic.value)
  {
    if !Truthy(mic) then None
    else
      var key := Key(mic.value);
      Some(if key in LoadedNames(csv) then LoadedNames(csv)[key] else key)
  }

  /** An unreadable file resolves no alias, and every MIC names itself. */
  lemma UnreadableFallsBack(name: Option<string>, mic: Option<string>)
    ensures ToMicOf(None, name) == None
    ensures Truthy(mic) ==> MicToNameOf(None, mic) == Some(Key(mic.value))
  {
  }

  /** Upper-casing a string with no whitespace at its ends leaves none there, and removes every lower-case letter. */
  lemma UpperOfStripped(t: string)
    requires t == [] || (!IsSpace(t[0]) && !IsSpace(t[|t| - 1]))
    ensures Key(Upper(t)) == Upper(t)
  {
    var u := Upper(t);
    StripFixed(u);
    UpperNoLower(u);
  }

  /** Normalising a normalised name changes nothing. */
  lemma KeyIdempotent(s: string)
    ensures Key(Key(s)) == Key(s)
  {
    StripEnds(s);
    UpperOfStripped(Strip(s));
  }

  /** The last entry with a given alias decides that alias's MIC. */
  lemma LastAliasEntryDecides(es: seq<Entry>, i: nat)
    requires i < |es| && AliasEntry(es[i])
    requires forall j :: i < j < |es| ==> !(AliasEntry(es[j]) && es[j].alias == es[i].alias)
    ensures es[i].alias in AliasTable(es) && AliasTable(es)[es[i].alias] == es[i].mic
  {
    var a := es[i].alias;
    AliasLastWins(es, a);
    var k :| 0 <= k < |es| && AliasEntry(es[k]) && es[k].alias == a
      && AliasTable(es)[a] == es[k].mic
      && forall j :: k < j < |es| ==> !(AliasEntry(es[j]) && es[j].alias == a);
    assert k == i;
  }

  /**
   * The alias of a row, looked up as written, resolves to that row's MIC
   * unless a later row claims the same alias.
   */
  lemma RowAliasResolves(rows: seq<CsvRow>, i: nat)
    requires i < |rows| && AliasEntry(Entries(rows)[i])
    requires forall j :: i < j < |rows| ==> !(AliasEntry(Entries(rows)[j]) && Entries(rows)[j].alias == Entries(rows)[i].alias)
    ensures ToMicOf(Some(rows), Some(rows[i].alias)) == Some(Entries(rows)[i].mic)
  {
    LastAliasEntryDecides(Entries(rows), i);
    EntryAliasIsKey(rows, i);
    assert rows[i].alias != "";
  }

  /** `ExchangeResolver`: the two maps, the load-once flag, and the CSV file it reads. */
  class ExchangeResolver {
    var aliasToMic: map<string, string>
    var micToName: map<string, string>
    var loaded: bool
    const csv: Option<seq<CsvRow>>

    /** Before loading both maps are empty; after loading they are the loaded tables. */
    ghost predicate Valid()
      reads this
    {
      if loaded then aliasToMic == LoadedAliases(csv) && micToName == LoadedNames(csv)
      else aliasToMic == map[] && micToName == map[]
    }

    constructor (csv: Option<seq<CsvRow>>)
      ensures this.csv == csv && !loaded && aliasToMic == map[] && micToName == map[]
      ensures Valid()
    {
      this.csv := csv;
      aliasToMic := map[];
      micToName := map[];
      loaded := false;
    }

    /** `_load`: clear both maps, then fill them row by row; an unreadable file leaves them empty. */
    method Load()
      modifies this
      ensures aliasToMic == LoadedAliases(csv) && micToName == LoadedNames(csv)
      ensures loaded == old(loaded)
    {
      aliasToMic := map[];
      micToName := map[];
      if csv.None? {
        return;
      }
      Fill(Normalize, csv.value);
    }

    /** The loop of `_load`, for a row normaliser `norm`, on cleared maps. */
    method Fill(norm: CsvRow -> Entry, rows: seq<CsvRow>)
      requires aliasToMic == map[] && micToName == map[]
      modifies this
      ensures aliasToMic == AliasTable(MapSeq(norm, rows)) && micToName == NameTable(MapSeq(norm, rows))
      ensures loaded == old(loaded)
    {
      ghost var es := MapSeq(norm, rows);
      var i := 0;
      while i < |rows|
        invariant 0 <= i <= |rows|
        invariant aliasToMic == AliasTable(es[..i])
        invariant micToName == NameTable(es[..i])
        invariant loaded == old(loaded)
      {
        assert es[..i + 1][..i] == es[..i];
        var e := norm(rows[i]);
        MapSeqAt(norm, rows, i);
        if e.alias != "" && e.mic != "" {
          aliasToMic := aliasToMic[e.alias := e.mic];
        }
        if e.mic != "" && e.display != "" && e.mic !in micToName {
          micToName := micToName[e.mic := e.display];
        }
        i := i + 1;
      }
      assert es[..i] == es;
    }

    /** `_ensure_loaded`: load at most once, whether or not the file could be read. */
    method EnsureLoaded()
      requires Valid()
      modifies this
      ensures Valid() && loaded
      ensures old(loaded) ==> unchanged(this)
    {
      if loaded {
        return;
      }
      Load();
      loaded := true;
    }

    /** `to_mic`: an empty name gives nothing without loading; otherwise the alias map at the normalised name. */
    method ToMic(exchangeName: Option<string>) returns (r: Option<string>)
      requires Valid()
      modifies this
      ensures Valid()
      ensures r == ToMicOf(csv, exchangeName)
      ensures !Truthy(exchangeName) ==> unchanged(this)
      ensures Truthy(exchangeName) ==> loaded
    {
      if !Truthy(exchangeName) {
        return None;
      }
      EnsureLoaded();
      var key := Key(exchangeName.value);
      r := if key in aliasToMic then Some(aliasToMic[key]) else None;
    }

    /** `mic_to_name`: an empty MIC gives nothing without loading; an unknown MIC gives itself, normalised. */
    method MicToName(mic: Option<string>) returns (r: Option<string>)
      requires Valid()
      modifies this
      ensures Valid()
      ensures r == MicToNameOf(csv, mic)
      ensures !Truthy(mic) ==> unchanged(this)
      ensures Truthy(mic) ==> loaded
    {
      if !Truthy(mic) {
        return None;
      }
      EnsureLoaded();
      var key := Key(mic.value);
      r := Some(if key in micToName then micToName[key] else key);
    }
  }
}
