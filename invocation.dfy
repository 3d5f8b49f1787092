/** The command-line run of the script (`main` in eggnog-db.py): the two
    organisms must differ, the species list maps organism names to taxon ids,
    the members file is loaded and indexed, the exclude list becomes a
    blacklist of taxon ids, and the orthologue query feeds the one report the
    export flag asks for. Reading the input files is replaced by their lines,
    and the report is returned as its lines instead of being written. */
module Invocation {
  import opened Outcomes
  import opened PyStr
  import opened Tables
  import opened FunctionalGroup
  import opened GroupIndex
  import opened Query
  import opened Reports

  const SameOrganismsMessage: string := "Organism 1 and 2 can't be the same."
  const NotIncludedMessage: string := "Not included in the database... "
  /** The exclude-list entry that stands for every organism of the database. */
  const AllOrganisms: string := "all"

  /** The export flags `-p`, `-d` and `-e`; the argument parser requires
      exactly one of them. */
  datatype Export = ProteinIds | CategoryCounts | ExtensiveReport

  /** The lines of the four input files of the input folder. */
  datatype InputFiles = InputFiles(
    members: seq<string>,      // meNOG.members.tsv
    annotations: seq<string>,  // meNOG.annotations.tsv
    categories: seq<string>,   // eggnog4.functional_categories.txt
    species: seq<string>)      // eggnog4.species_list.txt

  /** The blacklist of taxon ids, as a specification. Without an exclude list
      it is empty; with "all" in it, every taxon id of the species list except
      the two queried ones; otherwise the taxon ids of the named organisms, or
      a LookupError for the first name the species list does not know. */
  function Blacklist(organismDict: map<string, string>, tax1: string, tax2: string,
                     orgExclude: Option<seq<string>>): Result<set<string>> {
    match orgExclude
    case None => Ok({})
    case Some(names) =>
      if AllOrganisms in names then Ok(organismDict.Values - {tax1, tax2})
      else if exists i :: 0 <= i < |names| && names[i] !in organismDict.Keys then
        Err(LookupError([names[FirstAbsent(names, organismDict.Keys)], NotIncludedMessage]))
      else Ok(set o | o in names && o in organismDict :: organismDict[o])
  }

  /** The taxon ids of the organisms named in `names`. */
  ghost function NamedTaxa(organismDict: map<string, string>, names: seq<string>): set<string> {
    set o | o in names && o in organismDict :: organismDict[o]
  }

  lemma NamedTaxaGrow(organismDict: map<string, string>, names: seq<string>, i: nat)
    requires i < |names| && names[i] in organismDict
    ensures NamedTaxa(organismDict, names[..i + 1]) == NamedTaxa(organismDict, names[..i]) + {organismDict[names[i]]}
  {
    assert names[..i + 1] == names[..i] + [names[i]];
  }

  /** The blacklist step of `main`: the loop over the exclude list adds the
      taxon id of each organism and stops at the first unknown one. */
  method ResolveBlacklist(organismDict: map<string, string>, tax1: string, tax2: string,
                          orgExclude: Option<seq<string>>) returns (r: Result<set<string>>)
    ensures r == Blacklist(organismDict, tax1, tax2, orgExclude)
  {
    var organismBlacklist: set<string> := {};
    if orgExclude.Some? {
      var names := orgExclude.value;
      if AllOrganisms in names {
        organismBlacklist := organismDict.Values;
        organismBlacklist := organismBlacklist - {tax1, tax2};
      } else {
        var i := 0;
        while i < |names|
          invariant 0 <= i <= |names|
          invariant forall j :: 0 <= j < i ==> names[j] in organismDict
          invariant organismBlacklist == NamedTaxa(organismDict, names[..i])
        {
          var o := names[i];
          if o !in organismDict {
            return Err(LookupError([o, NotIncludedMessage]));
          }
          NamedTaxaGrow(organismDict, names, i);
          organismBlacklist := organismBlacklist + {organismDict[o]};
          i := i + 1;
        }
        assert names[..i] == names;
      }
    }
    return Ok(organismBlacklist);
  }

  /** With "all", the blacklist holds the taxon id of every organism of the
      species list except the two queried taxa, which it never holds. */
  lemma AllExcludesEveryOtherTaxon(organismDict: map<string, string>, tax1: string, tax2: string,
                                   names: seq<string>, o: string)
    requires AllOrganisms in names
    ensures Blacklist(organismDict, tax1, tax2, Some(names)).Ok?
    ensures var blacklist := Blacklist(organismDict, tax1, tax2, Some(names)).value;
      && tax1 !in blacklist && tax2 !in blacklist
      && (o in organismDict && organismDict[o] != tax1 && organismDict[o] != tax2 ==> organismDict[o] in blacklist)
  {
    if o in organismDict {
      assert organismDict[o] in organismDict.Values;
    }
  }

  /** Without "all", the blacklist exists exactly when the species list knows
      every named organism, and then holds exactly their taxon ids; otherwise
      the error names the first unknown organism. */
  lemma NamedBlacklist(organismDict: map<string, string>, tax1: string, tax2: string,
                       names: seq<string>, t: string)
    requires AllOrganisms !in names
    ensures Blacklist(organismDict, tax1, tax2, Some(names)).Ok? <==>
      forall i :: 0 <= i < |names| ==> names[i] in organismDict
    ensures Blacklist(organismDict, tax1, tax2, Some(names)).Ok? ==>
      (t in Blacklist(organismDict, tax1, tax2, Some(names)).value <==>
        exists i :: 0 <= i < |names| && organismDict[names[i]] == t)
    ensures Blacklist(organismDict, tax1, tax2, Some(names)).Err? ==> exists i ::
      && 0 <= i < |names|
      && names[i] !in organismDict
      && (forall j :: 0 <= j < i ==> names[j] in organismDict)
      && Blacklist(organismDict, tax1, tax2, Some(names)) == Err(LookupError([names[i], NotIncludedMessage]))
  {
    if forall i :: 0 <= i < |names| ==> names[i] in organismDict {
      if exists i :: 0 <= i < |names| && organismDict[names[i]] == t {
        var i :| 0 <= i < |names| && organismDict[names[i]] == t;
        assert names[i] in names;
      }
    } else {
      var i := FirstAbsent(names, organismDict.Keys);
      assert names[i] !in organismDict;
    }
  }

  /** A blacklist holding one of the queried taxa selects no group at all. */
  lemma BlacklistingAQueriedTaxonSelectsNothing(fgDict: Index, tax1: string, tax2: string, blacklist: set<string>)
    requires tax1 in blacklist || tax2 in blacklist
    ensures Selected(fgDict, tax1, tax2, Some(blacklist)) == {}
  {
    forall i | i in Lookup(fgDict, tax1) * Lookup(fgDict, tax2)
      ensures i in Excluded(fgDict, Some(blacklist))
    {
    }
  }

  /** "all" is the strongest exclusion: it selects no more groups than any
      list of known organisms other than the two queried ones. */
  lemma AllSelectsFewest(organismDict: map<string, string>, fgDict: Index, tax1: string, tax2: string,
                         all: seq<string>, names: seq<string>)
    requires AllOrganisms in all && AllOrganisms !in names
    requires Blacklist(organismDict, tax1, tax2, Some(names)).Ok?
    requires tax1 !in Blacklist(organismDict, tax1, tax2, Some(names)).value
    requires tax2 !in Blacklist(organismDict, tax1, tax2, Some(names)).value
    ensures Selected(fgDict, tax1, tax2, Some(Blacklist(organismDict, tax1, tax2, Some(all)).value)) <=
            Selected(fgDict, tax1, tax2, Some(Blacklist(organismDict, tax1, tax2, Some(names)).value))
  {
    var named := Blacklist(organismDict, tax1, tax2, Some(names)).value;
    forall t | t in named
      ensures t in organismDict.Values - {tax1, tax2}
    {
      var o :| o in names && o in organismDict && organismDict[o] == t;
    }
    ExcludingMoreSelectsFewer(fgDict, tax1, tax2, Some(named), organismDict.Values - {tax1, tax2});
  }

  /** Everything `main` needs before the query: the two taxon ids, the
      blacklist, the loaded groups (the arena) and their index. */
  datatype Setup = Setup(tax1: string, tax2: string, blacklist: set<string>,
                         groups: seq<Group>, fgDict: Index)

  /** The species list of the input folder. */
  function Species(files: InputFiles): Result<map<string, string>> {
    Load(files.species, SpeciesEntry)
  }

  /** Every line of the members file parses. */
  predicate MembersLoad(lines: seq<string>) {
    forall i :: 0 <= i < |lines| ==> ParseGroup(Strip(lines[i])).Ok?
  }

  /** The run gets past the setup of `main`: the organisms differ, both input
      files load, both organisms are in the species list and the blacklist
      resolves. */
  predicate Resolvable(org1: string, org2: string, orgExclude: Option<seq<string>>, files: InputFiles) {
    && org1 != org2
    && Species(files).Ok?
    && MembersLoad(files.members)
    && org1 in Species(files).value
    && org2 in Species(files).value
    && var dict := Species(files).value;
       Blacklist(dict, dict[org1], dict[org2], orgExclude).Ok?
  }

  /** The groups of a members file that loads, in file order. */
  ghost function LoadedGroups(lines: seq<string>): seq<Group>
    requires MembersLoad(lines)
  {
    seq(|lines|, i requires 0 <= i < |lines| => ParseGroup(Strip(lines[i])).value)
  }

  /** The setup of `main`, in its order: the organism check, the species
      list, the members file, the two taxon ids and the blacklist. The first
      step that fails decides the error. */
  method Prepare(org1: string, org2: string, orgExclude: Option<seq<string>>, files: InputFiles)
    returns (r: Result<Setup>)
    ensures r.Ok? <==> Resolvable(org1, org2, orgExclude, files)
    ensures org1 == org2 ==> r == Err(ValueError(SameOrganismsMessage))
    ensures org1 != org2 && Species(files).Err? ==> r == Err(Species(files).error)
    ensures org1 != org2 && Species(files).Ok? && !MembersLoad(files.members) ==> r.Err? && exists i ::
      && 0 <= i < |files.members|
      && ParseGroup(Strip(files.members[i])) == Err(r.error)
      && forall j :: 0 <= j < i ==> ParseGroup(Strip(files.members[j])).Ok?
    ensures org1 != org2 && Species(files).Ok? && MembersLoad(files.members) ==>
      var dict := Species(files).value;
      && (org1 !in dict ==> r == Err(KeyError(org1)))
      && (org1 in dict && org2 !in dict ==> r == Err(KeyError(org2)))
      && (org1 in dict && org2 in dict && Blacklist(dict, dict[org1], dict[org2], orgExclude).Err? ==>
            r == Err(Blacklist(dict, dict[org1], dict[org2], orgExclude).error))
    ensures r.Ok? ==>
      var dict := Species(files).value;
      && r.value.tax1 == dict[org1]
      && r.value.tax2 == dict[org2]
      && Blacklist(dict, dict[org1], dict[org2], orgExclude) == Ok(r.value.blacklist)
      && r.value.groups == LoadedGroups(files.members)
      && Indexes(r.value.fgDict, r.value.groups)
  {
    if org1 == org2 {
      return Err(ValueError(SameOrganismsMessage));
    }
    var organismDict := ProcessSpeciesListFile(files.species);
    if organismDict.Err? {
      return Err(organismDict.error);
    }
    var fgDict := ProcessMembersFile(files.members);
    if fgDict.Err? {
      return Err(fgDict.error);
    }
    var (groups, index) := fgDict.value;
    assert groups == LoadedGroups(files.members);
    var dict := organismDict.value;
    if org1 !in dict {
      return Err(KeyError(org1));
    }
    var taxId1 := dict[org1];
    if org2 !in dict {
      return Err(KeyError(org2));
    }
    var taxId2 := dict[org2];
    var organismBlacklist := ResolveBlacklist(dict, taxId1, taxId2, orgExclude);
    if organismBlacklist.Err? {
      return Err(organismBlacklist.error);
    }
    return Ok(Setup(taxId1, taxId2, organismBlacklist.value, groups, index));
  }

  /** The groups the run reports on: those holding both queried taxa and
      none of the blacklisted ones. */
  ghost function Orthologous(groups: seq<Group>, tax1: string, tax2: string, blacklist: set<string>): set<nat> {
    set i: nat | i < |groups| && tax1 in groups[i].taxIds && tax2 in groups[i].taxIds && groups[i].taxIds !! blacklist
  }

  /** On the loaded index, the query selects exactly the orthologous groups. */
  lemma SelectedIsOrthologous(fgDict: Index, groups: seq<Group>, tax1: string, tax2: string, blacklist: set<string>)
    requires Indexes(fgDict, groups)
    ensures Selected(fgDict, tax1, tax2, Some(blacklist)) == Orthologous(groups, tax1, tax2, blacklist)
  {
    forall i: nat
      ensures i in Selected(fgDict, tax1, tax2, Some(blacklist)) <==> i in Orthologous(groups, tax1, tax2, blacklist)
    {
      SelectedMeaning(fgDict, groups, tax1, tax2, blacklist, i);
    }
  }

  /** With "all", the groups reported hold no taxon of the species list
      other than the two queried ones: they are specific to the pair. */
  lemma AllKeepsPairSpecificGroups(organismDict: map<string, string>, groups: seq<Group>, tax1: string, tax2: string,
                                   names: seq<string>, i: nat, t: string)
    requires AllOrganisms in names
    requires i < |groups| && i in Orthologous(groups, tax1, tax2, Blacklist(organismDict, tax1, tax2, Some(names)).value)
    requires t in groups[i].taxIds && t in organismDict.Values
    ensures t == tax1 || t == tax2
  {
    var blacklist := Blacklist(organismDict, tax1, tax2, Some(names)).value;
    assert groups[i].taxIds !! blacklist;
  }

  /** The proteins of taxon `org` per functional category of the groups `fgs`. */
  ghost function CategoryTable(groups: seq<Group>, fgs: set<nat>, org: string): map<string, set<string>> {
    map c | c in CategoriesOf(groups, fgs) :: CategoryProteins(groups, fgs, org, c)
  }

  /** The category-count report after the categories file is read: its
      error, or the report on the category table `catProts`. */
  ghost predicate CountsReported(r: Result<seq<string>>, catProts: map<string, set<string>>, categories: seq<string>) {
    var catDesc := Load(categories, CategoryEntry);
    && (catDesc.Err? ==> r == Err(catDesc.error))
    && (catDesc.Ok? ==>
          && (r.Err? <==> exists k :: k in catProts && Description(k, catDesc.value).Err?)
          && (r.Err? ==> exists k :: k in catProts && Description(k, catDesc.value) == Err(r.error))
          && (r.Ok? ==> CountReport(r.value, catProts, catDesc.value)))
  }

  /** The extensive report after the annotations file is read: its error, or
      one line per group of `fgs`. */
  ghost predicate ExtensiveReported(r: Result<seq<string>>, order: seq<nat>, groups: seq<Group>, fgs: set<nat>,
                                    tax1: string, tax2: string, annotations: seq<string>) {
    var annoDict := Load(annotations, AnnotationEntry);
    && (annoDict.Err? ==> r == Err(annoDict.error))
    && (annoDict.Ok? ==>
          var lineOf := ExtensiveLineAt(groups, tax1, tax2, annoDict.value);
          && (r.Err? <==> exists i :: i in fgs && lineOf(i).Err?)
          && (r.Err? ==> exists i :: i in fgs && lineOf(i) == Err(r.error))
          && (r.Ok? ==> LinesInOrder(r.value, order, fgs, lineOf)))
  }

  /** The report `main` produces once the setup succeeded, for each export
      flag: the protein report, which needs the exclude list; the category
      counts, after the categories file; the extensive report, after the
      annotations file. */
  ghost predicate Reported(r: Result<seq<string>>, order: seq<nat>, org1: string, org2: string,
                           orgExclude: Option<seq<string>>, flag: Export, files: InputFiles)
    requires Resolvable(org1, org2, orgExclude, files)
  {
    var dict := Species(files).value;
    var tax1 := dict[org1];
    var tax2 := dict[org2];
    var groups := LoadedGroups(files.members);
    var fgs := Orthologous(groups, tax1, tax2, Blacklist(dict, tax1, tax2, orgExclude).value);
    match flag
    case ProteinIds =>
      r == (if orgExclude.None? then Err(TypeError(NoLenMessage))
            else Ok(WriteProteinIds(org1, org2, orgExclude.value, |fgs|, ProteinsOfGroups(groups, fgs, tax1))))
    case CategoryCounts => CountsReported(r, CategoryTable(groups, fgs, tax1), files.categories)
    case ExtensiveReport => ExtensiveReported(r, order, groups, fgs, tax1, tax2, files.annotations)
  }

  /** The `-d` branch of `main`: read the categories file, then count. */
  method ReportCounts(catProts: map<string, set<string>>, categories: seq<string>) returns (r: Result<seq<string>>)
    ensures CountsReported(r, catProts, categories)
  {
    var categoryMappingDict := ProcessFunctionalCategoriesFile(categories);
    if categoryMappingDict.Err? {
      return Err(categoryMappingDict.error);
    }
    r := WriteFunctionalGroupsCounts(catProts, categoryMappingDict.value);
  }

  /** The `-e` branch of `main`: read the annotations file, then list the groups. */
  method ReportExtensive(groups: seq<Group>, fgs: set<nat>, tax1: string, tax2: string, annotations: seq<string>)
    returns (r: Result<seq<string>>, ghost order: seq<nat>)
    requires forall i :: i in fgs ==> i < |groups|
    ensures ExtensiveReported(r, order, groups, fgs, tax1, tax2, annotations)
  {
    order := [];
    var annoDict := ProcessAnnotationsFile(annotations);
    if annoDict.Err? {
      return Err(annoDict.error), order;
    }
    r, order := WriteExtensive(fgs, groups, tax1, tax2, annoDict.value);
  }

  /** The query of `main` on the loaded index: it cannot fail there, and it
      answers with the orthologous groups, their number, and the proteins of
      the first taxon in them, overall and per functional category. */
  method QueryOrthologues(fgDict: Index, groups: seq<Group>, tax1: string, tax2: string, blacklist: set<string>)
    returns (o: Orthologues)
    requires Indexes(fgDict, groups)
    requires forall i :: 0 <= i < |groups| ==> ValidGroup(groups[i])
    ensures o.fgs == Orthologous(groups, tax1, tax2, blacklist)
    ensures o.numberOrthologues == |o.fgs|
    ensures o.proteinsOrg1 == ProteinsOfGroups(groups, o.fgs, tax1)
    ensures o.protsPerCategory == CategoryTable(groups, o.fgs, tax1)
  {
    LoadedIndexQueryNeverFails(fgDict, groups, tax1, tax2, Some(blacklist));
    SelectedIsOrthologous(fgDict, groups, tax1, tax2, blacklist);
    var orthologues := GetOrthologues(fgDict, groups, tax1, tax2, Some(blacklist));
    assert orthologues.Ok?;
    o := orthologues.value;
    assert o.protsPerCategory == CategoryTable(groups, o.fgs, tax1);
  }

  /** `main`: the setup, the orthologue query on the blacklist, and the
      report of the export flag. A run that fails in the setup fails with the
      error `Prepare` describes; after it the query cannot fail, and the
      report is the one `Reported` describes. */
  method RunQuery(org1: string, org2: string, orgExclude: Option<seq<string>>, flag: Export,
                  files: InputFiles) returns (r: Result<seq<string>>, ghost order: seq<nat>)
    ensures !Resolvable(org1, org2, orgExclude, files) ==> r.Err?
    ensures org1 == org2 ==> r == Err(ValueError(SameOrganismsMessage))
    ensures Resolvable(org1, org2, orgExclude, files) ==> Reported(r, order, org1, org2, orgExclude, flag, files)
  {
    order := [];
    var setup := Prepare(org1, org2, orgExclude, files);
    if setup.Err? {
      return Err(setup.error), order;
    }
    var Setup(taxId1, taxId2, organismBlacklist, groups, fgDict) := setup.value;
    LoadedGroupsValid(files.members, groups);
    var orthologues := QueryOrthologues(fgDict, groups, taxId1, taxId2, organismBlacklist);
    var Orthologues(fgs, numberOrthologues, proteins, categoryDict) := orthologues;
    match flag {
      case ProteinIds =>
        if orgExclude.None? {
          return Err(TypeError(NoLenMessage)), order;
        }
        r := Ok(WriteProteinIds(org1, org2, orgExclude.value, numberOrthologues, proteins));
      case CategoryCounts =>
        r := ReportCounts(categoryDict, files.categories);
      case ExtensiveReport =>
        r, order := ReportExtensive(groups, fgs, taxId1, taxId2, files.annotations);
    }
  }
}
