/** One orthologous group, built from one line of the members table
    (lib/functional_group.py). The record is never changed after its
    constructor has run, so it is a value here; the identity the script's
    sets of groups rely on is given by the group's position in the arena
    of loaded groups (see GroupIndex). */
module FunctionalGroup {
  import opened Outcomes
  import opened Visits
  import opened PyStr

  // Column positions of a members-table line.
  const GroupIdCol: nat := 1
  const ProtCountCol: nat := 2
  const SpeciesCountCol: nat := 3
  const FunctCatCol: nat := 4
  const TaxProtIdsCol: nat := 5

  /** The fields `Functional_group.__init__` assigns. The two counts are
      kept as the strings read from the line. */
  datatype Group = Group(
    cols: seq<string>,
    groupId: string,
    protCount: string,
    speciesCount: string,
    functCat: string,
    taxProtIds: set<string>,
    taxIds: set<string>,
    protIds: set<string>,
    taxProtDict: map<string, set<string>>)

  /** The taxon of a `taxon.protein` token: the text before its first dot. */
  function TaxOf(t: string): string
    requires '.' in t
  {
    SplitFirst(t, '.').value.0
  }

  /** The protein of a `taxon.protein` token: everything after its first dot. */
  function ProtOf(t: string): string
    requires '.' in t
  {
    SplitFirst(t, '.').value.1
  }

  /** A token is its taxon, a dot and its protein; the taxon has no dot,
      while the protein may. */
  lemma TokenParts(t: string)
    requires '.' in t
    ensures t == TaxOf(t) + "." + ProtOf(t)
    ensures '.' !in TaxOf(t)
  {
  }

  /** Only the first dot separates: a protein id keeps its own dots. */
  lemma ProteinKeepsDots(tax: string, prot: string)
    requires '.' !in tax
    ensures TaxOf(tax + "." + prot) == tax
    ensures ProtOf(tax + "." + prot) == prot
  {
    assert tax + "." + prot == tax + ['.'] + prot;
    SplitFirstJoin(tax, '.', prot);
  }

  /** The taxa named by the tokens. */
  function TaxIdsOf(tokens: set<string>): set<string> {
    set t | t in tokens && '.' in t :: TaxOf(t)
  }

  /** The proteins named by the tokens. */
  function ProtIdsOf(tokens: set<string>): set<string> {
    set t | t in tokens && '.' in t :: ProtOf(t)
  }

  /** The proteins the tokens name for taxon `tax`. */
  function ProteinsOf(tokens: set<string>, tax: string): set<string> {
    set t | t in tokens && '.' in t && TaxOf(t) == tax :: ProtOf(t)
  }

  /** The taxon -> proteins map the tokens describe. */
  function TaxProtMap(tokens: set<string>): map<string, set<string>> {
    map tax | tax in TaxIdsOf(tokens) :: ProteinsOf(tokens, tax)
  }

  // What the loop of `process_tax_prot_ids` has built once the tokens of
  // `done` are processed, extended by one more token.

  lemma AddTokenTaxIds(done: set<string>, t: string)
    requires '.' in t
    ensures TaxIdsOf(done + {t}) == TaxIdsOf(done) + {TaxOf(t)}
  {
  }

  lemma AddTokenProtIds(done: set<string>, t: string)
    requires '.' in t
    ensures ProtIdsOf(done + {t}) == ProtIdsOf(done) + {ProtOf(t)}
  {
  }

  lemma AddTokenProteins(done: set<string>, t: string, tax: string)
    requires '.' in t
    ensures ProteinsOf(done + {t}, tax) ==
            ProteinsOf(done, tax) + (if tax == TaxOf(t) then {ProtOf(t)} else {})
  {
  }

  lemma AddTokenMap(done: set<string>, t: string)
    requires '.' in t
    ensures TaxProtMap(done + {t}) == TaxProtMap(done)[TaxOf(t) :=
      (if TaxOf(t) in TaxProtMap(done) then TaxProtMap(done)[TaxOf(t)] else {}) + {ProtOf(t)}]
  {
    var m, m' := TaxProtMap(done), TaxProtMap(done + {t});
    var n := m[TaxOf(t) := (if TaxOf(t) in m then m[TaxOf(t)] else {}) + {ProtOf(t)}];
    AddTokenTaxIds(done, t);
    assert m'.Keys == n.Keys;
    forall tax | tax in m'
      ensures m'[tax] == n[tax]
    {
      AddTokenProteins(done, t, tax);
      if tax == TaxOf(t) && TaxOf(t) !in m {
        assert ProteinsOf(done, tax) == {};
      }
    }
  }

  /** `process_tax_prot_ids`: splits every token at its first dot and collects
      the taxa, the proteins and the taxon -> proteins map; a token without a
      dot makes the two-name unpacking fail. The tokens form a set, visited
      here in any order. */
  method ProcessTaxProtIds(taxProtIds: set<string>)
    returns (r: Result<(set<string>, set<string>, map<string, set<string>>)>)
    ensures r.Err? <==> exists t :: t in taxProtIds && '.' !in t
    ensures r.Err? ==> r.error == ValueError(UnpackMessage)
    ensures r.Ok? ==> r.value == (TaxIdsOf(taxProtIds), ProtIdsOf(taxProtIds), TaxProtMap(taxProtIds))
  {
    var taxProtDict: map<string, set<string>> := map[];
    var taxIds: set<string> := {};
    var protIds: set<string> := {};
    var rest := taxProtIds;
    while rest != {}
      invariant rest <= taxProtIds
      invariant forall t :: t in taxProtIds - rest ==> '.' in t
      invariant taxIds == TaxIdsOf(taxProtIds - rest)
      invariant protIds == ProtIdsOf(taxProtIds - rest)
      invariant taxProtDict == TaxProtMap(taxProtIds - rest)
      decreases rest
    {
      var i :| i in rest;
      var split := SplitFirst(i, '.');
      if split.None? {
        return Err(ValueError(UnpackMessage));
      }
      var taxId, protId := split.value.0, split.value.1;
      AddTokenTaxIds(taxProtIds - rest, i);
      AddTokenProtIds(taxProtIds - rest, i);
      AddTokenMap(taxProtIds - rest, i);
      VisitOne(taxProtIds, rest, i);
      taxIds := taxIds + {taxId};
      protIds := protIds + {protId};
      var known := if taxId in taxProtDict then taxProtDict[taxId] else {};
      taxProtDict := taxProtDict[taxId := known + {protId}];
      rest := rest - {i};
    }
    assert taxProtIds - rest == taxProtIds;
    return Ok((taxIds, protIds, taxProtDict));
  }

  /** The group a members-table line describes, as a specification: columns
      1 to 5 of the stripped, tab-split line, with the comma-split tokens of
      column 5 collected into a set. A line with fewer than six columns is an
      IndexError; a token without a dot is a ValueError. */
  function ParseGroup(line: string): Result<Group> {
    var cols := Split(Strip(line), '\t');
    if |cols| <= TaxProtIdsCol then Err(IndexError(IndexMessage))
    else
      var tokens := SetOf(Split(cols[TaxProtIdsCol], ','));
      if exists t :: t in tokens && '.' !in t then Err(ValueError(UnpackMessage))
      else Ok(Group(cols, cols[GroupIdCol], cols[ProtCountCol], cols[SpeciesCountCol],
                    cols[FunctCatCol], tokens, TaxIdsOf(tokens), ProtIdsOf(tokens), TaxProtMap(tokens)))
  }

  /** `Functional_group.__init__`. */
  method NewFunctionalGroup(line: string) returns (r: Result<Group>)
    ensures r == ParseGroup(line)
  {
    var cols := Split(Strip(line), '\t');
    if |cols| <= TaxProtIdsCol {
      return Err(IndexError(IndexMessage));
    }
    var groupId := cols[GroupIdCol];
    var protCount := cols[ProtCountCol];
    var speciesCount := cols[SpeciesCountCol];
    var functCat := cols[FunctCatCol];
    var taxProtIds := SetOf(Split(cols[TaxProtIdsCol], ','));
    var processed := ProcessTaxProtIds(taxProtIds);
    if processed.Err? {
      return Err(processed.error);
    }
    var (taxIds, protIds, taxProtDict) := processed.value;
    return Ok(Group(cols, groupId, protCount, speciesCount, functCat,
                    taxProtIds, taxIds, protIds, taxProtDict));
  }

  /** The invariant every constructed group satisfies. */
  predicate ValidGroup(g: Group) {
    && (forall t :: t in g.taxProtIds ==> '.' in t)
    && g.taxIds == TaxIdsOf(g.taxProtIds)
    && g.protIds == ProtIdsOf(g.taxProtIds)
    && g.taxProtDict == TaxProtMap(g.taxProtIds)
  }

  /** A line yields a group exactly when it has six columns and every member
      token has a dot; the group's fields are the line's columns 1 to 5, and
      duplicate tokens collapse into one. */
  lemma ParseGroupSpec(line: string)
    ensures var cols := Split(Strip(line), '\t');
      && (ParseGroup(line).Ok? <==>
           |cols| > TaxProtIdsCol && forall t :: t in Split(cols[TaxProtIdsCol], ',') ==> '.' in t)
      && (ParseGroup(line).Ok? ==>
           var g := ParseGroup(line).value;
           && ValidGroup(g)
           && g.groupId == cols[GroupIdCol] && g.protCount == cols[ProtCountCol]
           && g.speciesCount == cols[SpeciesCountCol] && g.functCat == cols[FunctCatCol]
           && forall t :: t in g.taxProtIds <==> t in Split(cols[TaxProtIdsCol], ','))
  {
  }

  /** The shape of a valid group's taxon -> proteins map: its keys are the
      group's taxa, no taxon has an empty protein set, the proteins of all
      taxa together are the group's proteins, and each token `tax.prot`
      puts `prot` under `tax`. */
  lemma TaxProtDictShape(g: Group)
    requires ValidGroup(g)
    ensures g.taxProtDict.Keys == g.taxIds
    ensures forall tax :: tax in g.taxProtDict ==> g.taxProtDict[tax] != {}
    ensures forall p :: p in g.protIds <==> exists tax :: tax in g.taxProtDict && p in g.taxProtDict[tax]
    ensures forall t :: t in g.taxProtIds ==> TaxOf(t) in g.taxProtDict && ProtOf(t) in g.taxProtDict[TaxOf(t)]
  {
    forall tax | tax in g.taxProtDict
      ensures g.taxProtDict[tax] != {}
    {
      var t :| t in g.taxProtIds && '.' in t && TaxOf(t) == tax;
      assert ProtOf(t) in g.taxProtDict[tax];
    }
    forall p | p in g.protIds
      ensures exists tax :: tax in g.taxProtDict && p in g.taxProtDict[tax]
    {
      var t :| t in g.taxProtIds && '.' in t && ProtOf(t) == p;
      assert p in g.taxProtDict[TaxOf(t)];
    }
  }

  /** A taxon of a valid group has a non-empty set of the group's proteins. */
  lemma TaxonProteins(g: Group, tax: string)
    requires ValidGroup(g) && tax in g.taxIds
    ensures tax in g.taxProtDict && g.taxProtDict[tax] != {} && g.taxProtDict[tax] <= g.protIds
  {
    TaxProtDictShape(g);
  }

  /** `get_proteins_for_species`: the group's proteins for taxon `tax`, or a
      LookupError naming the group when the group has no such taxon. The
      group is a value, so it is left as it was. */
  function ProteinsForSpecies(g: Group, tax: string): (r: Result<set<string>>)
    ensures r.Err? ==> r.error == LookupError(["Taxon id not present in " + g.groupId])
  {
    if tax !in g.taxProtDict then Err(LookupError(["Taxon id not present in " + g.groupId]))
    else Ok(g.taxProtDict[tax])
  }

  /** On a valid group, asking for a taxon's proteins succeeds exactly for
      the group's taxa and gives the proteins its tokens name for the taxon. */
  lemma ProteinsForSpeciesOfValidGroup(g: Group, tax: string)
    requires ValidGroup(g)
    ensures ProteinsForSpecies(g, tax).Ok? <==> tax in g.taxIds
    ensures ProteinsForSpecies(g, tax).Ok? ==> ProteinsForSpecies(g, tax).value == ProteinsOf(g.taxProtIds, tax)
  {
    TaxProtDictShape(g);
  }
}
