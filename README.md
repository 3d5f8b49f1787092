# Orthologue query over the meNOG tables, modelled in Dafny

The script `eggnog-db.py` answers one question about the eggNOG meNOG
database. Which orthologous groups are shared by two organisms and by none
of a list of excluded organisms? It reads four tab-separated files:

- the species list, which maps organism names to taxon ids;
- the members table, with one orthologous group per line and its members
  written as `taxon.protein` tokens;
- the annotations table, which maps each group id to a description;
- the functional-categories text, which maps one-letter category keys to
  descriptions.

The script loads the members into an index from taxon id to groups. It
resolves the exclude list to a blacklist of taxon ids. The query intersects
the groups of the two taxa, removes every group of a blacklisted taxon, and
gathers the first taxon's proteins, overall and per functional category.
Exactly one of three reports is then produced:

- `-p`: the sorted protein ids;
- `-d`: one line per distinct per-category protein count;
- `-e`: one line per group, with the group id, both protein lists and the
  annotation.

`lib/functional_group.py` parses one members line into a group object.

The model is split by the script's own structure:

| module | file | models |
|---|---|---|
| `Outcomes` | outcomes.dfy | the exceptions the code raises, as `Result` values |
| `PyStr` | pystr.dfy | the Python string operations the code uses: `strip`, `split`, `split(sep, 1)`, `join`, `translate`, `str(int)`, `sorted` |
| `Tables` | tables.dfy | the species, annotations and functional-categories parsers |
| `FunctionalGroup` | functional_group.dfy | `Functional_group` |
| `GroupIndex` | group_index.dfy | the members parser and `add_functional_group_to_dict` |
| `Query` | query.dfy | `get_orthologues` |
| `Reports` | reports.dfy | the lines of the three writers |
| `Invocation` | invocation.dfy | `main` |

Three choices shape the model:

- **Groups are values.** A group object is never changed after its
  constructor, so it is a datatype. The index holds the groups' positions in
  an arena, the sequence of loaded groups in file order. Python compares
  group objects by identity; two equal lines stay two groups here too.
- **Loops stay loops.** Every loop of the code is a method with a `while`
  loop, proved against a specification function. Loops over a set or over
  dict keys pick an arbitrary next element, so their contracts hold for
  every iteration order.
- **Failures are values.** Each exception the code raises becomes an `Err`
  with the same exception kind and arguments, and the first failing step
  decides the error.

Where the code and its documentation differ, the model follows the code:

- A taxon missing from the members index reads as "no groups", because the
  index is a `defaultdict`. It does not raise an error.
- The functional-categories parser compares its stripped line with the
  integer `0`, which no Python 2 string equals. Its header assignment keeps
  `""` on both arms. As a result every category description is
  `" - " + text`, with no section header.
- The `-p` report calls `len` on the exclude list before checking it for
  `None`. Without `-x` the run therefore ends in a `TypeError`, and
  `Invocation.RunQuery` models exactly that.

## Model

| member | source | states |
|---|---|---|
| Tables.LoadSucceeds | eggnog-db.py:87-91 | a table loads exactly when every line's entry is read without error |
| Tables.LoadFirstError | eggnog-db.py:87-91 | a failed load carries the error of the first failing line, and all lines before it are read |
| Tables.LoadStopsAtError | eggnog-db.py:103-107 | once a prefix of the lines fails, the whole load fails with that prefix's error |
| Tables.LoadKeys | eggnog-db.py:103-107 | the keys of a loaded dict are exactly the keys the lines assign |
| Tables.LoadLastWins | eggnog-db.py:107 | a key holds the value of the last line that assigns it |
| Tables.KeyedEntryFields | eggnog-db.py:104-106 | the stripped line is its tab-free fields joined by tabs; for any such reading, a row with too few fields for the key or the value column is the IndexError, and otherwise the key-th field, tab-free, maps to the value-th field |
| Tables.ProcessSpeciesListFile | eggnog-db.py:94-108 | the loop builds the load of the species list, name to taxon id, columns 0 and 1 |
| Tables.ProcessAnnotationsFile | eggnog-db.py:78-92 | the loop builds the load of the annotations table, group id to description, columns 1 and 5 |
| Tables.CategoryLine | eggnog-db.py:141-147 | a line not starting with `[` assigns nothing; a bracketed line without a space left after deleting the brackets is the unpacking ValueError; nothing else fails |
| Tables.CategoryLineShape | eggnog-db.py:143-147 | the key is the space- and bracket-free text before the first space, and the value is the header, `" - "`, and the rest of the line |
| Tables.ProcessFunctionalCategoriesFile | eggnog-db.py:124-148 | the loop builds the load of the categories text, with the header constantly `""` |
| FunctionalGroup.TokenParts | lib/functional_group.py:37-38 | a token is its taxon, a dot and its protein, and the taxon holds no dot |
| FunctionalGroup.ProteinKeepsDots | lib/functional_group.py:37-38 | only the first dot splits: for every dot-free taxon and every protein id, dots included, the token `taxon.protein` splits back into that taxon and that protein |
| FunctionalGroup.ProcessTaxProtIds | lib/functional_group.py:26-42 | fails with the unpacking ValueError exactly when some token has no dot; otherwise it returns the taxa, the proteins and the taxon-to-proteins map the tokens name |
| FunctionalGroup.NewFunctionalGroup | lib/functional_group.py:5-24 | the constructor computes the specification `ParseGroup`: IndexError for fewer than six columns, else the fields of columns 1 to 5 |
| FunctionalGroup.ParseGroupSpec | lib/functional_group.py:13-24 | a line yields a group exactly when it has six columns and every member token has a dot; the group is valid, its fields are the columns, and its tokens are the comma-split column 5 without duplicates |
| FunctionalGroup.TaxProtDictShape | lib/functional_group.py:32-42 | in a valid group the map's keys are the taxa, no taxon maps to an empty set, the proteins are the union of the map's sets, and every token is filed under its taxon |
| FunctionalGroup.TaxonProteins | lib/functional_group.py:39-41 | each taxon of a valid group has a non-empty set of the group's proteins |
| FunctionalGroup.ProteinsForSpecies | lib/functional_group.py:44-51 | an absent taxon is the LookupError naming the group id |
| FunctionalGroup.ProteinsForSpeciesOfValidGroup | lib/functional_group.py:44-51 | on a valid group the lookup succeeds exactly for the group's taxa and gives the proteins the tokens name for that taxon |
| GroupIndex.AddFunctionalGroupToDict | eggnog-db.py:150-157 | the group is added to the set of each of its taxa, creating missing sets; every other set is unchanged |
| GroupIndex.IndexGrows | eggnog-db.py:117-121 | filing one more group at the end of the arena keeps the index exact |
| GroupIndex.ProcessMembersFile | eggnog-db.py:110-122 | fails exactly when some line does not parse, with the first such line's error; otherwise the arena holds each line's group in file order and the index files each group under exactly its taxa |
| GroupIndex.LoadedGroupsValid | eggnog-db.py:117-120 | every loaded group satisfies the group invariant |
| Query.ExcludedGroups | eggnog-db.py:187-194 | the union of the groups of the excluded taxa |
| Query.GatherProteins | eggnog-db.py:198-205 | fails exactly when some group has no proteins for the first taxon; otherwise the first taxon's proteins of the groups, overall and per category |
| Query.GetOrthologues | eggnog-db.py:174-217 | the selected groups are those under both taxa and no excluded taxon; their number, the first taxon's proteins and the per-category proteins; or the LookupError of a selected group without the first taxon |
| Query.NoExcludeSubtractsNothing | eggnog-db.py:190 | no exclude list and an empty one both select the plain intersection |
| Query.ExcludingMoreSelectsFewer | eggnog-db.py:196 | a larger exclude set never selects more groups |
| Query.SelectedMeaning | eggnog-db.py:180-196 | on an exact index a group is selected exactly when it holds both taxa and none of the excluded ones |
| Query.LoadedIndexQueryNeverFails | eggnog-db.py:202-203 | on the loaded index every position names an arena group, and every selected group has proteins for the first taxon |
| Query.CategoriesCoverProteins | eggnog-db.py:202-205 | the per-category protein sets together are exactly the first taxon's proteins |
| Reports.WriteProteinIds | eggnog-db.py:219-239 | the protein report is two lines: the header and the joined, right-stripped sorted ids |
| Reports.ProteinIdsCount | eggnog-db.py:229-231 | the header starts with `"# "` and the orthologue count, which reads back from the digits before the next space |
| Reports.ProteinIdsListed | eggnog-db.py:236-238 | for non-empty ids without whitespace, the second line is empty for no proteins and otherwise splits at newlines into the ids in ascending order |
| Reports.DescriptionListsCategories | eggnog-db.py:251-253 | when every character of a key has a non-empty description without `;`, the description splits at `;` into those descriptions in key order |
| Reports.DescriptionMissing | eggnog-db.py:253 | the first key character without a description is the KeyError |
| Reports.DescribeCategory | eggnog-db.py:250-253 | the inner loop computes the specification `Description` |
| Reports.CountLineReadsBack | eggnog-db.py:255 | a count line splits at its first tab into the count's digits and the description, and the digits read back as the count |
| Reports.CountLines | eggnog-db.py:245-256 | fails exactly when some category has no description, with such a category's error; otherwise one kept line per distinct count, each the line of some category with that count |
| Reports.InCountOrder | eggnog-db.py:258-260 | the kept lines in strictly ascending order of their counts |
| Reports.WriteFunctionalGroupsCounts | eggnog-db.py:241-261 | the category-count report: the error of a category without description, or one line per distinct count in ascending order, each the line of a category with that count |
| Reports.CountReportAscends | eggnog-db.py:255-260 | the counts read back from the report ascend strictly, so no count repeats, and they are exactly the categories' counts |
| Reports.ProteinField | eggnog-db.py:268-271 | for non-empty ids, a protein list joined by `,` and stripped of `,` splits back into the sorted ids and holds no tab |
| Reports.TabFields | eggnog-db.py:277-278 | four tab-free fields joined by tabs split back into those fields |
| Reports.ExtensiveLineFields | eggnog-db.py:265-278 | for non-empty protein ids, a group's extensive line splits at tabs into the group id, the two protein lists and the annotation, and each list splits back into that taxon's sorted proteins |
| Reports.BuildExtensiveLine | eggnog-db.py:266-277 | the loop body computes the specification `ExtensiveLine`: the LookupError for either taxon, then the KeyError of a group without annotation, else the line |
| Reports.WriteExtensive | eggnog-db.py:263-280 | fails exactly when some group's line fails, with such a group's error; otherwise one line per group, each group exactly once, in some order |
| Invocation.ResolveBlacklist | eggnog-db.py:335-345 | the loop computes the specification `Blacklist` |
| Invocation.AllExcludesEveryOtherTaxon | eggnog-db.py:337-339 | with "all" the blacklist holds every taxon id of the species list except the two queried ones, and never those two |
| Invocation.NamedBlacklist | eggnog-db.py:340-345 | without "all" the blacklist exists exactly when every name is known, and then holds exactly their taxon ids; otherwise the LookupError names the first unknown organism |
| Invocation.BlacklistingAQueriedTaxonSelectsNothing | eggnog-db.py:340-345 | excluding one of the two queried organisms by name selects no group |
| Invocation.AllSelectsFewest | eggnog-db.py:335-345 | "all" selects no more groups than any list of known organisms that leaves out the two queried ones |
| Invocation.AllKeepsPairSpecificGroups | eggnog-db.py:337-339 | with "all" every reported group holds no taxon of the species list other than the two queried ones |
| Invocation.Prepare | eggnog-db.py:323-345 | the setup fails in the code's order: equal organisms (ValueError), the species list, the members file, KeyError for either organism, the blacklist; on success the taxon ids, the blacklist, the loaded groups and the exact index |
| Invocation.SelectedIsOrthologous | eggnog-db.py:348-351 | on the loaded index the query selects exactly the groups that hold both taxa and no blacklisted taxon |
| Invocation.QueryOrthologues | eggnog-db.py:348-351 | on the loaded index the query cannot fail and answers with those groups, their number and the first taxon's proteins, overall and per category |
| Invocation.RunQuery | eggnog-db.py:296-362 | the whole run: ValueError for equal organisms, failure when the setup fails, and otherwise the report of the chosen flag on the orthologous groups, including the TypeError of `-p` without `-x` |
| PyStr.JoinSplit | eggnog-db.py:104 | joining the pieces of a split with the separator gives the string back |
| PyStr.SplitJoin | eggnog-db.py:276-277 | splitting a join of separator-free parts gives the parts back |
| PyStr.SplitFirstJoin | eggnog-db.py:145 | `split(sep, 1)` of `a + sep + b`, with no separator in `a`, is `(a, b)` |
| PyStr.NatToStringRoundTrip | eggnog-db.py:229 | the decimal digits of `str(n)` read back as `n` |
| PyStr.SortedAscending | eggnog-db.py:236 | `sorted` of a set of strings ascends strictly in Python's string order |
| PyStr.SortedCounts | eggnog-db.py:259 | `sorted` of a set of counts holds every count once, strictly ascending |
| PyStr.JoinTrimSplit | eggnog-db.py:270-273 | non-empty, separator-free parts joined by the separator lose nothing when the separator is stripped from the ends |

## Left out

- Reading and writing files (`read_file`, `write_to_file`) are left out. The model takes each input file as its lines and returns the report as its lines. A missing input file (IOError) is therefore not modelled.
- The argument parser is left out. Its outcome is an `Invocation.Export` value plus the organism and exclude arguments.
- Console output (`print`) is left out.
- The model treats strings as sequences of characters. Python 2 byte strings and Unicode details are not modelled. `strip` removes ASCII whitespace, and `isupper` considers ASCII letters only.
- Iteration order over sets and dicts is not fixed by the code. The model allows any order; see `Reports.WriteExtensive`.
- Query.GetOrthologues: reading `fg_dict[o]` for a taxon missing from the `defaultdict` inserts an empty set into the caller's index. The model reads the index without changing it, and that side effect has no effect on the outcome.
- Query.GetOrthologues: requires that the index names only arena positions. Python object references cannot dangle, and `Query.LoadedIndexQueryNeverFails` proves this holds for the loaded index.
- Reports.WriteProteinIds: takes the exclude list as present. The missing-list case is the `TypeError` that `Invocation.RunQuery` produces before this function is reached.
- Reports.WriteFunctionalGroupsCounts: when two categories share a count, the report keeps the line of one of them. Which one depends on dict iteration order; the contract says only "some category with that count".
- Reports.ProteinIdsListed: the read-back is proved only for non-empty ids free of whitespace. Ids with whitespace are cut by `rstrip` or by the split at newlines.
- Reports.ProteinField: the read-back is proved only when every protein id is non-empty. A token such as `9606.` gives the empty protein id, and `','.join(...).strip(',')` (eggnog-db.py:271,273) drops it from the field, so that field no longer splits back into the sorted ids.
- Reports.ExtensiveLineFields: the read-back of the two protein lists needs every protein id non-empty, for the reason given under `Reports.ProteinField`. It also needs the group id and the annotation to be tab-free, which holds for the fields of a tab-split line.
- Invocation.RunQuery: when the setup fails, the contract states only that the run fails. The exact error of each failing step is stated by `Invocation.Prepare`.
