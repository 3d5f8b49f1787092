/** The orthologue query `get_orthologues` (eggnog-db.py): the groups shared
    by two taxa minus the groups of any excluded taxon, and the proteins of
    the first taxon in those groups, overall and per functional category. */
module Query {
  import opened Outcomes
  import opened Visits
  import opened FunctionalGroup
  import opened GroupIndex

  /** The tuple `get_orthologues` returns. */
  datatype Orthologues = Orthologues(
    fgs: set<nat>,
    numberOrthologues: nat,
    proteinsOrg1: set<string>,
    protsPerCategory: map<string, set<string>>)

  /** Every group position the index holds names a group of the arena. */
  predicate InArena(fgDict: Index, groups: seq<Group>) {
    forall t :: t in fgDict ==> forall i :: i in fgDict[t] ==> i < |groups|
  }

  /** The groups of the excluded taxa, all together; none without a list. */
  ghost function Excluded(fgDict: Index, exclude: Option<set<string>>): set<nat> {
    if exclude.None? then {}
    else set o, i | o in exclude.value && i in Lookup(fgDict, o) :: i
  }

  /** The groups the query selects: those filed under both taxa and under
      none of the excluded ones. A taxon absent from the index has no groups. */
  ghost function Selected(fgDict: Index, org1: string, org2: string, exclude: Option<set<string>>): set<nat> {
    (Lookup(fgDict, org1) * Lookup(fgDict, org2)) - Excluded(fgDict, exclude)
  }

  /** The proteins the groups `fgs` hold for taxon `org`. */
  ghost function ProteinsOfGroups(groups: seq<Group>, fgs: set<nat>, org: string): set<string> {
    set i, p | i in fgs && i < |groups| && org in groups[i].taxProtDict && p in groups[i].taxProtDict[org] :: p
  }

  /** The proteins for taxon `org` of those groups of `fgs` whose functional
      category is `c`. */
  ghost function CategoryProteins(groups: seq<Group>, fgs: set<nat>, org: string, c: string): set<string> {
    set i, p | i in fgs && i < |groups| && groups[i].functCat == c &&
               org in groups[i].taxProtDict && p in groups[i].taxProtDict[org] :: p
  }

  /** The functional categories of the groups `fgs`. */
  ghost function CategoriesOf(groups: seq<Group>, fgs: set<nat>): set<string> {
    set i | i in fgs && i < |groups| :: groups[i].functCat
  }

  lemma ExcludedGrows(fgDict: Index, done: set<string>, o: string)
    ensures Excluded(fgDict, Some(done + {o})) == Excluded(fgDict, Some(done)) + Lookup(fgDict, o)
  {
  }

  lemma AggregatesGrow(groups: seq<Group>, done: set<nat>, i: nat, org: string)
    requires i < |groups| && org in groups[i].taxProtDict
    ensures ProteinsOfGroups(groups, done + {i}, org) ==
            ProteinsOfGroups(groups, done, org) + groups[i].taxProtDict[org]
    ensures CategoriesOf(groups, done + {i}) == CategoriesOf(groups, done) + {groups[i].functCat}
    ensures forall c :: (CategoryProteins(groups, done + {i}, org, c) ==
      CategoryProteins(groups, done, org, c) + (if c == groups[i].functCat then groups[i].taxProtDict[org] else {}))
  {
  }

  /** The exclusion step of `get_orthologues`: the union of the groups filed
      under each excluded taxon, the taxa visited in any order. */
  method ExcludedGroups(fgDict: Index, exclude: set<string>) returns (s: set<nat>)
    ensures s == Excluded(fgDict, Some(exclude))
    ensures forall o :: o in exclude ==> Lookup(fgDict, o) <= s
  {
    s := {};
    var rest := exclude;
    while rest != {}
      invariant rest <= exclude
      invariant s == Excluded(fgDict, Some(exclude - rest))
      decreases rest
    {
      var o :| o in rest;
      ExcludedGrows(fgDict, exclude - rest, o);
      VisitOne(exclude, rest, o);
      s := s + Lookup(fgDict, o);
      rest := rest - {o};
    }
    assert exclude - rest == exclude;
  }

  /** The aggregation loop of `get_orthologues`: the org1 proteins of the
      groups `fgs`, overall and per functional category, or the error of the
      first group visited that has no org1 proteins. Groups are visited in any
      order. */
  method GatherProteins(groups: seq<Group>, fgs: set<nat>, org1: string)
    returns (r: Result<(set<string>, map<string, set<string>>)>)
    requires forall i :: i in fgs ==> i < |groups|
    ensures r.Err? <==> exists i :: i in fgs && org1 !in groups[i].taxProtDict
    ensures r.Err? ==> exists i ::
      && i in fgs
      && org1 !in groups[i].taxProtDict
      && r.error == LookupError(["Taxon id not present in " + groups[i].groupId])
    ensures r.Ok? ==>
      && r.value.0 == ProteinsOfGroups(groups, fgs, org1)
      && r.value.1.Keys == CategoriesOf(groups, fgs)
      && forall c :: c in r.value.1 ==> r.value.1[c] == CategoryProteins(groups, fgs, org1, c)
  {
    var protsPerOrganism: map<string, set<string>> := map[];
    var protsPerCategory: map<string, set<string>> := map[];
    var rest := fgs;
    while rest != {}
      invariant rest <= fgs
      invariant forall i :: i in fgs - rest ==> org1 in groups[i].taxProtDict
      invariant protsPerOrganism.Keys <= {org1}
      invariant Lookup(protsPerOrganism, org1) == ProteinsOfGroups(groups, fgs - rest, org1)
      invariant protsPerCategory.Keys == CategoriesOf(groups, fgs - rest)
      invariant forall c :: c in protsPerCategory ==> protsPerCategory[c] == CategoryProteins(groups, fgs - rest, org1, c)
      decreases rest
    {
      var fg :| fg in rest;
      var prots := ProteinsForSpecies(groups[fg], org1);
      if prots.Err? {
        return Err(prots.error);
      }
      AggregatesGrow(groups, fgs - rest, fg, org1);
      VisitOne(fgs, rest, fg);
      var cat := groups[fg].functCat;
      protsPerCategory := protsPerCategory[cat := Lookup(protsPerCategory, cat) + prots.value];
      protsPerOrganism := protsPerOrganism[org1 := Lookup(protsPerOrganism, org1) + prots.value];
      rest := rest - {fg};
    }
    assert fgs - rest == fgs;
    return Ok((Lookup(protsPerOrganism, org1), protsPerCategory));
  }

  /** `get_orthologues`. The result's groups are the selected ones and their
      number is the answer's count; the org1 proteins of those groups are
      gathered overall and per category. Asking a selected group for its org1
      proteins fails when the group has none (see LoadedIndexQueryNeverFails
      for why this does not happen on a loaded index). */
  method GetOrthologues(fgDict: Index, groups: seq<Group>, org1: string, org2: string,
                        organismsExclude: Option<set<string>>)
    returns (r: Result<Orthologues>)
    requires InArena(fgDict, groups)
    ensures r.Err? <==> exists i :: i in Selected(fgDict, org1, org2, organismsExclude) && org1 !in groups[i].taxProtDict
    ensures r.Err? ==> exists i ::
      && i in Selected(fgDict, org1, org2, organismsExclude)
      && org1 !in groups[i].taxProtDict
      && r.error == LookupError(["Taxon id not present in " + groups[i].groupId])
    ensures r.Ok? ==>
      && r.value.fgs == Selected(fgDict, org1, org2, organismsExclude)
      && r.value.numberOrthologues == |r.value.fgs|
      && r.value.proteinsOrg1 == ProteinsOfGroups(groups, r.value.fgs, org1)
      && r.value.protsPerCategory.Keys == CategoriesOf(groups, r.value.fgs)
      && forall c :: c in r.value.protsPerCategory ==>
           r.value.protsPerCategory[c] == CategoryProteins(groups, r.value.fgs, org1, c)
  {
    var fgInclude := [Lookup(fgDict, org1), Lookup(fgDict, org2)];
    var fgIncludeCommon := fgInclude[0] * fgInclude[1];

    var fgExcludeCommon: set<nat> := {};
    if organismsExclude.Some? && |organismsExclude.value| > 0 {
      fgExcludeCommon := ExcludedGroups(fgDict, organismsExclude.value);
    } else {
      NoExcludeSubtractsNothing(fgDict, org1, org2);
    }

    var fgs := fgIncludeCommon - fgExcludeCommon;
    assert fgs == Selected(fgDict, org1, org2, organismsExclude);
    assert forall i :: i in fgs ==> i < |groups|;
    var gathered := GatherProteins(groups, fgs, org1);
    if gathered.Err? {
      return Err(gathered.error);
    }
    var numberOrthologues := |fgs|;
    var (proteinsOrg1, protsPerCategory) := gathered.value;
    return Ok(Orthologues(fgs, numberOrthologues, proteinsOrg1, protsPerCategory));
  }

  /** Without an exclude list, or with an empty one, nothing is subtracted. */
  lemma NoExcludeSubtractsNothing(fgDict: Index, org1: string, org2: string)
    ensures Excluded(fgDict, None) == Excluded(fgDict, Some({})) == {}
    ensures Selected(fgDict, org1, org2, None) == Lookup(fgDict, org1) * Lookup(fgDict, org2)
    ensures Selected(fgDict, org1, org2, Some({})) == Lookup(fgDict, org1) * Lookup(fgDict, org2)
  {
    assert Excluded(fgDict, Some({})) == {};
  }

  /** Excluding more taxa never selects more groups. */
  lemma ExcludingMoreSelectsFewer(fgDict: Index, org1: string, org2: string,
                                  exclude: Option<set<string>>, more: set<string>)
    requires exclude.Some? ==> exclude.value <= more
    ensures Selected(fgDict, org1, org2, Some(more)) <= Selected(fgDict, org1, org2, exclude)
  {
    forall i | i in Excluded(fgDict, exclude)
      ensures i in Excluded(fgDict, Some(more))
    {
      var o :| o in exclude.value && i in Lookup(fgDict, o);
    }
  }

  /** On an index that files every group under exactly its taxa, the query
      selects the groups that contain both taxa and none of the excluded ones. */
  lemma SelectedMeaning(fgDict: Index, groups: seq<Group>, org1: string, org2: string,
                        exclude: set<string>, i: nat)
    requires Indexes(fgDict, groups)
    ensures i in Selected(fgDict, org1, org2, Some(exclude)) <==>
      && i < |groups|
      && org1 in groups[i].taxIds
      && org2 in groups[i].taxIds
      && forall o :: o in exclude ==> o !in groups[i].taxIds
  {
    if i in Excluded(fgDict, Some(exclude)) {
      var o :| o in exclude && i in Lookup(fgDict, o);
      IndexesAt(fgDict, groups, o, i);
    }
    IndexesAt(fgDict, groups, org1, i);
    IndexesAt(fgDict, groups, org2, i);
    if i < |groups| {
      forall o | o in exclude && o in groups[i].taxIds
        ensures i in Excluded(fgDict, Some(exclude))
      {
        IndexesAt(fgDict, groups, o, i);
      }
    }
  }

  /** The index the members parser builds refers only to arena groups, and
      every group it selects has proteins for the first taxon, so the query
      never fails on it. */
  lemma LoadedIndexQueryNeverFails(fgDict: Index, groups: seq<Group>, org1: string, org2: string,
                                   exclude: Option<set<string>>)
    requires Indexes(fgDict, groups)
    requires forall i :: 0 <= i < |groups| ==> ValidGroup(groups[i])
    ensures InArena(fgDict, groups)
    ensures forall i :: i in Selected(fgDict, org1, org2, exclude) ==> org1 in groups[i].taxProtDict
  {
    forall t | t in fgDict
      ensures forall i :: i in fgDict[t] ==> i < |groups|
    {
      forall i | i in fgDict[t]
        ensures i < |groups|
      {
        IndexesAt(fgDict, groups, t, i);
      }
    }
    forall i | i in Selected(fgDict, org1, org2, exclude)
      ensures org1 in groups[i].taxProtDict
    {
      IndexesAt(fgDict, groups, org1, i);
      TaxProtDictShape(groups[i]);
    }
  }

  /** The per-category protein sets together hold exactly the org1 proteins. */
  lemma CategoriesCoverProteins(groups: seq<Group>, fgs: set<nat>, org: string, p: string)
    ensures p in ProteinsOfGroups(groups, fgs, org) <==>
      exists c :: c in CategoriesOf(groups, fgs) && p in CategoryProteins(groups, fgs, org, c)
  {
    if p in ProteinsOfGroups(groups, fgs, org) {
      var i :| i in fgs && i < |groups| && org in groups[i].taxProtDict && p in groups[i].taxProtDict[org];
      var c := groups[i].functCat;
      assert c in CategoriesOf(groups, fgs);
      assert p in CategoryProteins(groups, fgs, org, c);
    }
  }
}
