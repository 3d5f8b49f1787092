/** The parsers of the species list, the annotations table and the
    functional-categories text (eggnog-db.py). Each reads its lines in
    order and assigns into a dict, so a later line overwrites an earlier
    one with the same key; a line the parser cannot read aborts the load. */
module Tables {
  import opened Outcomes
  import opened PyStr

  // Column positions of the species list and the annotations table.
  const NameCol: nat := 0
  const TaxIdCol: nat := 1
  const GroupCol: nat := 1
  const DescCol: nat := 5

  /** The characters `translate(None, '[]')` deletes. */
  const Brackets: set<char> := {'[', ']'}

  /** What one line contributes to a dict: a key and a value, or nothing. */
  type Entry = Option<(string, string)>

  /** A line's columns: the line stripped, then split at every tab. */
  function Columns(line: string): (cols: seq<string>)
    ensures |cols| >= 1
  {
    Split(Strip(line), '\t')
  }

  /** The parsers' common loop as a specification: the entries of the lines
      are assigned into the dict in file order; the first line whose entry
      fails aborts the load with that line's error. */
  function Load(lines: seq<string>, entry: string -> Result<Entry>): Result<map<string, string>>
    decreases |lines|
  {
    if |lines| == 0 then Ok(map[])
    else
      match Load(lines[..|lines| - 1], entry)
      case Err(e) => Err(e)
      case Ok(d) =>
        match entry(lines[|lines| - 1])
        case Err(e) => Err(e)
        case Ok(None) => Ok(d)
        case Ok(Some(kv)) => Ok(d[kv.0 := kv.1])
  }

  /** The line's entry is read without error and assigns key `k`. */
  predicate Yields(entry: string -> Result<Entry>, line: string, k: string) {
    entry(line).Ok? && entry(line).value.Some? && entry(line).value.value.0 == k
  }

  /** Once a prefix of the lines fails, the whole load fails with its error. */
  lemma {:induction false} LoadStopsAtError(lines: seq<string>, entry: string -> Result<Entry>, n: nat)
    requires n <= |lines|
    requires Load(lines[..n], entry).Err?
    ensures Load(lines, entry) == Load(lines[..n], entry)
    decreases |lines|
  {
    if n < |lines| {
      var init := lines[..|lines| - 1];
      assert init[..n] == lines[..n];
      LoadStopsAtError(init, entry, n);
    } else {
      assert lines[..n] == lines;
    }
  }

  /** A load succeeds exactly when every line's entry can be read. */
  lemma {:induction false} LoadSucceeds(lines: seq<string>, entry: string -> Result<Entry>)
    ensures Load(lines, entry).Ok? <==> forall i :: 0 <= i < |lines| ==> entry(lines[i]).Ok?
    decreases |lines|
  {
    if |lines| > 0 {
      var init := lines[..|lines| - 1];
      LoadSucceeds(init, entry);
      assert forall i :: 0 <= i < |init| ==> init[i] == lines[i];
    }
  }

  /** A failed load reports the error of the first line that fails. */
  lemma {:induction false} LoadFirstError(lines: seq<string>, entry: string -> Result<Entry>)
    requires Load(lines, entry).Err?
    ensures exists i ::
      && 0 <= i < |lines|
      && entry(lines[i]).Err?
      && Load(lines, entry).error == entry(lines[i]).error
      && forall j :: 0 <= j < i ==> entry(lines[j]).Ok?
    decreases |lines|
  {
    var init := lines[..|lines| - 1];
    assert forall i :: 0 <= i < |init| ==> init[i] == lines[i];
    if Load(init, entry).Err? {
      LoadFirstError(init, entry);
    } else {
      LoadSucceeds(init, entry);
      assert entry(lines[|lines| - 1]).Err?;
    }
  }

  /** The keys of a loaded dict are exactly the keys some line assigns. */
  lemma {:induction false} LoadKeys(lines: seq<string>, entry: string -> Result<Entry>, k: string)
    requires Load(lines, entry).Ok?
    ensures k in Load(lines, entry).value <==> exists i :: 0 <= i < |lines| && Yields(entry, lines[i], k)
    decreases |lines|
  {
    if |lines| > 0 {
      var init := lines[..|lines| - 1];
      LoadKeys(init, entry, k);
      assert forall i :: 0 <= i < |init| ==> init[i] == lines[i];
      if k in Load(lines, entry).value && !Yields(entry, lines[|lines| - 1], k) {
        assert k in Load(init, entry).value;
      }
    }
  }

  /** The value of a key is the one assigned by the last line with that key. */
  lemma {:induction false} LoadLastWins(lines: seq<string>, entry: string -> Result<Entry>, i: nat)
    requires Load(lines, entry).Ok?
    requires i < |lines| && entry(lines[i]).Ok? && entry(lines[i]).value.Some?
    requires forall j :: i < j < |lines| ==> !Yields(entry, lines[j], entry(lines[i]).value.value.0)
    ensures entry(lines[i]).value.value.0 in Load(lines, entry).value
    ensures Load(lines, entry).value[entry(lines[i]).value.value.0] == entry(lines[i]).value.value.1
    decreases |lines|
  {
    var init := lines[..|lines| - 1];
    if i < |lines| - 1 {
      assert forall j :: 0 <= j < |init| ==> init[j] == lines[j];
      LoadLastWins(init, entry, i);
    }
  }

  /** The entry of a two-column table row: `cols[keyCol] -> cols[valCol]`,
      with an IndexError when the row is too short for either column. */
  function KeyedEntry(line: string, keyCol: nat, valCol: nat): Result<Entry> {
    var cols := Columns(line);
    if |cols| <= keyCol || |cols| <= valCol then Err(IndexError(IndexMessage))
    else Ok(Some((cols[keyCol], cols[valCol])))
  }

  /** The stripped line is its tab-free fields joined by tabs, and any such
      reading of it decides the entry: an IndexError when it has too few
      fields for either column, else its `keyCol`-th field maps to its
      `valCol`-th one, neither holding a tab. */
  lemma KeyedEntryFields(line: string, keyCol: nat, valCol: nat, fields: seq<string>)
    requires |fields| >= 1 && forall i :: 0 <= i < |fields| ==> '\t' !in fields[i]
    requires Join(fields, "\t") == Strip(line)
    ensures Join(Columns(line), "\t") == Strip(line)
    ensures KeyedEntry(line, keyCol, valCol).Err? <==> (|fields| <= keyCol || |fields| <= valCol)
    ensures KeyedEntry(line, keyCol, valCol).Err? ==> KeyedEntry(line, keyCol, valCol).error == IndexError(IndexMessage)
    ensures KeyedEntry(line, keyCol, valCol).Ok? ==>
      && KeyedEntry(line, keyCol, valCol).value == Some((fields[keyCol], fields[valCol]))
      && '\t' !in fields[keyCol] && '\t' !in fields[valCol]
  {
    assert "\t" == ['\t'];
    JoinSplit(Strip(line), '\t');
    SplitJoin(fields, '\t');
  }

  /** A species-list row maps the species name to its taxon id. */
  function SpeciesEntry(line: string): Result<Entry> {
    KeyedEntry(line, NameCol, TaxIdCol)
  }

  /** An annotations row maps the group id to its description. */
  function AnnotationEntry(line: string): Result<Entry> {
    KeyedEntry(line, GroupCol, DescCol)
  }

  /** `process_species_list_file`: species name -> taxon id. */
  method ProcessSpeciesListFile(lines: seq<string>) returns (r: Result<map<string, string>>)
    ensures r == Load(lines, SpeciesEntry)
  {
    var d: map<string, string> := map[];
    var i := 0;
    while i < |lines|
      invariant 0 <= i <= |lines|
      invariant Load(lines[..i], SpeciesEntry) == Ok(d)
    {
      assert lines[..i + 1][..i] == lines[..i];
      var cols := Split(Strip(lines[i]), '\t');
      if |cols| <= TaxIdCol {
        LoadStopsAtError(lines, SpeciesEntry, i + 1);
        return Err(IndexError(IndexMessage));
      }
      var name := cols[NameCol];
      var taxId := cols[TaxIdCol];
      d := d[name := taxId];
      i := i + 1;
    }
    assert lines[..i] == lines;
    return Ok(d);
  }

  /** `process_annotations_file`: group id -> description. */
  method ProcessAnnotationsFile(lines: seq<string>) returns (r: Result<map<string, string>>)
    ensures r == Load(lines, AnnotationEntry)
  {
    var d: map<string, string> := map[];
    var i := 0;
    while i < |lines|
      invariant 0 <= i <= |lines|
      invariant Load(lines[..i], AnnotationEntry) == Ok(d)
    {
      assert lines[..i + 1][..i] == lines[..i];
      var cols := Split(Strip(lines[i]), '\t');
      if |cols| <= DescCol {
        LoadStopsAtError(lines, AnnotationEntry, i + 1);
        return Err(IndexError(IndexMessage));
      }
      var groupId := cols[GroupCol];
      var desc := cols[DescCol];
      d := d[groupId := desc];
      i := i + 1;
    }
    assert lines[..i] == lines;
    return Ok(d);
  }

  /** The entry of a functional-categories line, given the section header in
      force: a stripped line starting with `[` loses every bracket, is split
      at its first space into key and text, and maps the key to
      `header + " - " + text`; it fails when no space is left to split at.
      Every other line contributes nothing. */
  function CategoryLine(header: string, line: string): (r: Result<Entry>)
    ensures !StartsWith(Strip(line), "[") ==> r == Ok(None)
    ensures r.Err? <==> StartsWith(Strip(line), "[") && ' ' !in DeleteChars(Strip(line), Brackets)
    ensures r.Err? ==> r.error == ValueError(UnpackMessage)
  {
    var l := Strip(line);
    if StartsWith(l, "[") then
      match SplitFirst(DeleteChars(l, Brackets), ' ')
      case None => Err(ValueError(UnpackMessage))
      case Some(kv) => Ok(Some((kv.0, header + " - " + kv.1)))
    else Ok(None)
  }

  /** An entry read from a bracketed line: the key is the text before the
      first space once the brackets are gone, and the value is the header,
      " - ", and everything after that space. */
  lemma CategoryLineShape(header: string, line: string, key: string, value: string)
    requires CategoryLine(header, line) == Ok(Some((key, value)))
    ensures StartsWith(Strip(line), "[")
    ensures ' ' !in key && '[' !in key && ']' !in key
    ensures |value| >= |header| + 3 && value[..|header| + 3] == header + " - "
    ensures key + " " + value[|header| + 3..] == DeleteChars(Strip(line), Brackets)
  {
    var deleted := DeleteChars(Strip(line), Brackets);
    var kv := SplitFirst(deleted, ' ').value;
    assert forall i :: 0 <= i < |key| ==> key[i] == deleted[i];
    assert value == header + " - " + kv.1;
    assert value[|header| + 3..] == kv.1;
  }

  /** The header the source keeps across lines is never anything but "", so
      every line is read under the empty header. */
  function CategoryEntry(line: string): Result<Entry> {
    CategoryLine("", line)
  }

  /** `process_functional_categories_file`: category key -> " - " + text.
      The header assignment keeps "" whatever the line, since both arms of
      its conditional are "" or the previous, empty, header. */
  method ProcessFunctionalCategoriesFile(lines: seq<string>) returns (r: Result<map<string, string>>)
    ensures r == Load(lines, CategoryEntry)
  {
    var d: map<string, string> := map[];
    var header := "";
    var i := 0;
    while i < |lines|
      invariant 0 <= i <= |lines|
      invariant header == ""
      invariant Load(lines[..i], CategoryEntry) == Ok(d)
    {
      assert lines[..i + 1][..i] == lines[..i];
      var l := Strip(lines[i]);
      // The source's emptiness test compares the line with the integer 0,
      // which a Python 2 string never equals, so its reset branch never runs.
      header := if IsUpper(l) then "" else header;
      if StartsWith(l, "[") {
        l := DeleteChars(l, Brackets);
        var split := SplitFirst(l, ' ');
        if split.None? {
          LoadStopsAtError(lines, CategoryEntry, i + 1);
          return Err(ValueError(UnpackMessage));
        }
        var key, value := split.value.0, split.value.1;
        value := header + " - " + value;
        d := d[key := value];
      }
      i := i + 1;
    }
    assert lines[..i] == lines;
    return Ok(d);
  }
}
