/** The lines of the three reports (eggnog-db.py, `write_protein_ids`,
    `write_functional_groups_counts` and `write_exensive`), up to the point
    where they are handed to the file writer. */
module Reports {
  import opened Outcomes
  import opened Visits
  import opened PyStr
  import opened FunctionalGroup

  /** The header of the protein report, as `write_protein_ids` builds it. */
  function ProteinIdsHeader(org1: string, org2: string, exclude: seq<string>, n: nat): string {
    var excludedOrganisms := if |exclude| != 0 then Join(exclude, " ") else "";
    "# " + (NatToString(n) + (" orthologues of " + org1 + " in " + org2
      + " - excluded_organisms: " + excludedOrganisms + "\n" + "protein_ids"))
  }

  /** `write_protein_ids`: a header naming the count, the two organisms and
      the excluded organisms, then the protein ids in ascending order, one
      per line, with trailing whitespace removed. The exclude list is never
      None here: the source measures its length before testing for None. */
  function WriteProteinIds(org1: string, org2: string, exclude: seq<string>,
                           numberOrthologues: nat, prots: set<string>): (lines: seq<string>)
    ensures |lines| == 2
  {
    [ProteinIdsHeader(org1, org2, exclude, numberOrthologues), RStrip(Join(Sorted(prots), "\n"))]
  }

  /** The header of the protein report starts with "# " and the number of
      orthologues, which reads back from the digits before the next space. */
  lemma ProteinIdsCount(org1: string, org2: string, exclude: seq<string>, n: nat)
    ensures var header := ProteinIdsHeader(org1, org2, exclude, n);
      && header[..2] == "# "
      && SplitFirst(header[2..], ' ').Some?
      && SplitFirst(header[2..], ' ').value.0 == NatToString(n)
      && DigitsValue(NatToString(n)) == n
  {
    var header := ProteinIdsHeader(org1, org2, exclude, n);
    var digits := NatToString(n);
    var rest := header[|digits| + 3..];
    assert header[2..] == digits + [' '] + rest;
    DigitsOnly(n, ' ');
    SplitFirstJoin(digits, ' ', rest);
    NatToStringRoundTrip(n);
  }

  /** Protein ids are free of whitespace. */
  predicate PlainIds(prots: set<string>) {
    forall p :: p in prots ==> p != [] && forall i :: 0 <= i < |p| ==> p[i] !in Whitespace
  }

  /** The sorted ids joined by newlines have no whitespace at either end. */
  lemma PlainJoinEnds(prots: set<string>)
    requires prots != {} && PlainIds(prots)
    ensures RStrip(Join(Sorted(prots), "\n")) == Join(Sorted(prots), "\n")
  {
    var sorted := Sorted(prots);
    var joined := Join(sorted, "\n");
    assert sorted[0] in prots;
    var last := sorted[|sorted| - 1];
    assert last in prots;
    JoinEnds(sorted, "\n");
    TrimUntouched(joined, Whitespace);
  }

  /** The body of the protein report lists every protein exactly once, in
      ascending order: split at its newlines it gives back the sorted ids. */
  lemma ProteinIdsListed(org1: string, org2: string, exclude: seq<string>, n: nat, prots: set<string>)
    requires PlainIds(prots)
    ensures prots == {} ==> WriteProteinIds(org1, org2, exclude, n, prots)[1] == ""
    ensures prots != {} ==> Split(WriteProteinIds(org1, org2, exclude, n, prots)[1], '\n') == Sorted(prots)
  {
    if prots != {} {
      var sorted := Sorted(prots);
      PlainJoinEnds(prots);
      forall i | 0 <= i < |sorted|
        ensures '\n' !in sorted[i]
      {
        assert sorted[i] in prots;
      }
      SplitJoin(sorted, '\n');
    } else {
      assert Sorted(prots) == [];
    }
  }

  /** The category characters of a functional-category key, each as the key
      of the description map. */
  function CharKeys(key: string): (keys: seq<string>)
    ensures |keys| == |key|
    ensures forall i :: 0 <= i < |key| ==> keys[i] == [key[i]]
  {
    seq(|key|, i requires 0 <= i < |key| => [key[i]])
  }

  /** The descriptions of the `keys`, in order. */
  function CategoryNames(keys: seq<string>, catDesc: map<string, string>): (names: seq<string>)
    requires forall i :: 0 <= i < |keys| ==> keys[i] in catDesc
    ensures |names| == |keys|
  {
    seq(|keys|, i requires 0 <= i < |keys| => catDesc[keys[i]])
  }

  /** The description of a category key, as a specification: the
      descriptions of its characters joined by ";" with ";" stripped from
      both ends, or a KeyError for the first character without one. */
  function Description(key: string, catDesc: map<string, string>): Result<string> {
    var keys := CharKeys(key);
    if exists i :: 0 <= i < |keys| && keys[i] !in catDesc.Keys then
      Err(KeyError(keys[FirstAbsent(keys, catDesc.Keys)]))
    else
      Ok(Trim(Join(CategoryNames(keys, catDesc), ";"), {';'}))
  }

  /** When every category character has a non-empty description without
      ";", the description splits back at ";" into those descriptions, one
      per character of the key, in key order. */
  lemma DescriptionListsCategories(key: string, catDesc: map<string, string>)
    requires |key| >= 1
    requires forall i :: 0 <= i < |key| ==> [key[i]] in catDesc
    requires forall c :: c in catDesc ==> catDesc[c] != [] && ';' !in catDesc[c]
    ensures Description(key, catDesc).Ok?
    ensures var names := Split(Description(key, catDesc).value, ';');
      |names| == |key| && forall i :: 0 <= i < |key| ==> names[i] == catDesc[[key[i]]]
  {
    var keys := CharKeys(key);
    var names := CategoryNames(keys, catDesc);
    assert forall i :: 0 <= i < |names| ==> names[i] == catDesc[keys[i]];
    JoinTrimSplit(names, ';');
  }

  /** A key with a character the description map lacks has no description:
      the error names the first such character. */
  lemma DescriptionMissing(key: string, catDesc: map<string, string>, i: nat)
    requires i < |key| && [key[i]] !in catDesc
    requires forall j :: 0 <= j < i ==> [key[j]] in catDesc
    ensures Description(key, catDesc) == Err(KeyError([key[i]]))
  {
    var keys := CharKeys(key);
    assert keys[i] !in catDesc.Keys;
    var first := FirstAbsent(keys, catDesc.Keys);
    assert keys[first] !in catDesc.Keys;
  }

  /** The inner loop of `write_functional_groups_counts`: looks up every
      character of the key, then joins and strips. */
  method DescribeCategory(key: string, catDesc: map<string, string>) returns (r: Result<string>)
    ensures r == Description(key, catDesc)
  {
    ghost var keys := CharKeys(key);
    var description: seq<string> := [];
    var i := 0;
    while i < |key|
      invariant 0 <= i <= |key|
      invariant forall j :: 0 <= j < i ==> [key[j]] in catDesc
      invariant |description| == i
      invariant forall j :: 0 <= j < i ==> description[j] == catDesc[keys[j]]
    {
      var c := [key[i]];
      if c !in catDesc {
        DescriptionMissing(key, catDesc, i);
        return Err(KeyError(c));
      }
      description := description + [catDesc[c]];
      i := i + 1;
    }
    assert description == CategoryNames(keys, catDesc);
    return Ok(Trim(Join(description, ";"), {';'}));
  }

  /** A line of the category-count report. */
  function CountLine(n: nat, description: string): string {
    NatToString(n) + "\t" + description
  }

  /** The count of a report line reads back from the digits before its first
      tab, and the description is everything after that tab. */
  lemma CountLineReadsBack(n: nat, description: string)
    ensures SplitFirst(CountLine(n, description), '\t') == Some((NatToString(n), description))
    ensures DigitsValue(NatToString(n)) == n
  {
    DigitsOnly(n, '\t');
    SplitFirstJoin(NatToString(n), '\t', description);
    NatToStringRoundTrip(n);
  }

  /** The member counts of the category keys in `keys`. */
  ghost function CountsOf(catProts: map<string, set<string>>, keys: set<string>): set<nat> {
    set k | k in keys && k in catProts :: |catProts[k]|
  }

  /** The lines kept by count once the categories of `done` are visited:
      one per count of those categories, each the count line of some
      category with that count. */
  ghost predicate KeptLines(d: map<nat, string>, catProts: map<string, set<string>>,
                            catDesc: map<string, string>, done: set<string>) {
    && (forall k :: k in done ==> k in catProts && Description(k, catDesc).Ok?)
    && d.Keys == CountsOf(catProts, done)
    && forall n :: n in d ==> exists k ::
         && k in done && k in catProts
         && |catProts[k]| == n
         && Description(k, catDesc).Ok?
         && d[n] == CountLine(n, Description(k, catDesc).value)
  }

  lemma KeptLinesGrow(d: map<nat, string>, catProts: map<string, set<string>>,
                      catDesc: map<string, string>, done: set<string>, key: string)
    requires KeptLines(d, catProts, catDesc, done)
    requires key in catProts && Description(key, catDesc).Ok?
    ensures var n := |catProts[key]|;
      KeptLines(d[n := CountLine(n, Description(key, catDesc).value)], catProts, catDesc, done + {key})
  {
    var n := |catProts[key]|;
    var d' := d[n := CountLine(n, Description(key, catDesc).value)];
    assert d'.Keys == CountsOf(catProts, done + {key});
    forall m | m in d'
      ensures exists k ::
        && k in done + {key} && k in catProts
        && |catProts[k]| == m
        && Description(k, catDesc).Ok?
        && d'[m] == CountLine(m, Description(k, catDesc).value)
    {
      if m == n {
        assert key in done + {key};
      } else {
        var k :| k in done && k in catProts && |catProts[k]| == m && Description(k, catDesc).Ok?
                 && d[m] == CountLine(m, Description(k, catDesc).value);
        assert k in done + {key};
      }
    }
  }

  /** The loop over the categories in `write_functional_groups_counts`: a
      line per category, filed under its member count, so that a later
      category with the same count replaces the line of an earlier one. */
  method CountLines(catProts: map<string, set<string>>, catDesc: map<string, string>)
    returns (r: Result<map<nat, string>>)
    ensures r.Err? <==> exists k :: k in catProts && Description(k, catDesc).Err?
    ensures r.Err? ==> exists k :: k in catProts && Description(k, catDesc) == Err(r.error)
    ensures r.Ok? ==> KeptLines(r.value, catProts, catDesc, catProts.Keys)
  {
    var d: map<nat, string> := map[];
    var rest := catProts.Keys;
    while rest != {}
      invariant rest <= catProts.Keys
      invariant KeptLines(d, catProts, catDesc, catProts.Keys - rest)
      decreases rest
    {
      var key :| key in rest;
      var members := catProts[key];
      var numbMembers := |members|;
      var description := DescribeCategory(key, catDesc);
      if description.Err? {
        return Err(description.error);
      }
      var line := NatToString(numbMembers) + "\t" + description.value;
      KeptLinesGrow(d, catProts, catDesc, catProts.Keys - rest, key);
      VisitOne(catProts.Keys, rest, key);
      d := d[numbMembers := line];
      rest := rest - {key};
    }
    assert catProts.Keys - rest == catProts.Keys;
    return Ok(d);
  }

  /** The final loop of `write_functional_groups_counts`: the kept lines in
      ascending order of their counts. */
  method InCountOrder(d: map<nat, string>) returns (lines: seq<string>)
    ensures |lines| == |d.Keys|
    ensures forall j :: 0 <= j < |lines| ==> SortedCounts(d.Keys)[j] in d && lines[j] == d[SortedCounts(d.Keys)[j]]
  {
    var keys := SortedCounts(d.Keys);
    lines := [];
    var i := 0;
    while i < |keys|
      invariant 0 <= i <= |keys|
      invariant |lines| == i
      invariant forall j :: 0 <= j < i ==> keys[j] in d && lines[j] == d[keys[j]]
    {
      lines := lines + [d[keys[i]]];
      i := i + 1;
    }
  }

  /** The category-count report `lines` as `write_functional_groups_counts`
      promises it: one line per distinct member count, in strictly ascending
      count, each the count line of some category with that count. */
  ghost predicate CountReport(lines: seq<string>, catProts: map<string, set<string>>, catDesc: map<string, string>) {
    var counts := SortedCounts(CountsOf(catProts, catProts.Keys));
    && |lines| == |counts|
    && forall i :: 0 <= i < |lines| ==> exists k ::
         && k in catProts
         && |catProts[k]| == counts[i]
         && Description(k, catDesc).Ok?
         && lines[i] == CountLine(counts[i], Description(k, catDesc).value)
  }

  /** The kept lines, put in ascending order of their counts, form the report. */
  lemma KeptLinesReport(d: map<nat, string>, catProts: map<string, set<string>>,
                        catDesc: map<string, string>, lines: seq<string>)
    requires KeptLines(d, catProts, catDesc, catProts.Keys)
    requires |lines| == |d.Keys|
    requires forall j :: 0 <= j < |lines| ==> SortedCounts(d.Keys)[j] in d && lines[j] == d[SortedCounts(d.Keys)[j]]
    ensures CountReport(lines, catProts, catDesc)
  {
    var counts := SortedCounts(d.Keys);
    forall j | 0 <= j < |lines|
      ensures exists k ::
        && k in catProts
        && |catProts[k]| == counts[j]
        && Description(k, catDesc).Ok?
        && lines[j] == CountLine(counts[j], Description(k, catDesc).value)
    {
      assert counts[j] in d;
      var k :| k in catProts.Keys && k in catProts && |catProts[k]| == counts[j] && Description(k, catDesc).Ok?
               && d[counts[j]] == CountLine(counts[j], Description(k, catDesc).value);
    }
  }

  /** `write_functional_groups_counts`: one line per distinct member count,
      in strictly ascending count (see CountReport). When several categories
      share a count, the one visited last keeps the line, and which one that
      is is not fixed, since the categories are visited in any order. A
      category with a character the description map lacks aborts the report. */
  method WriteFunctionalGroupsCounts(catProts: map<string, set<string>>, catDesc: map<string, string>)
    returns (r: Result<seq<string>>)
    ensures r.Err? <==> exists k :: k in catProts && Description(k, catDesc).Err?
    ensures r.Err? ==> exists k :: k in catProts && Description(k, catDesc) == Err(r.error)
    ensures r.Ok? ==> CountReport(r.value, catProts, catDesc)
  {
    var counted := CountLines(catProts, catDesc);
    if counted.Err? {
      return Err(counted.error);
    }
    var d := counted.value;
    var lines := InCountOrder(d);
    KeptLinesReport(d, catProts, catDesc, lines);
    return Ok(lines);
  }

  /** Reads the count back from a line of the category-count report: the
      digits before its first tab. */
  function LineCount(line: string): Option<nat> {
    match SplitFirst(line, '\t')
    case None => None
    case Some(parts) =>
      if |parts.0| >= 1 && forall i :: 0 <= i < |parts.0| ==> '0' <= parts.0[i] <= '9'
      then Some(DigitsValue(parts.0))
      else None
  }

  /** Reading a count line gives back its count. */
  lemma LineCountReadsCountLine(n: nat, description: string)
    ensures LineCount(CountLine(n, description)) == Some(n)
  {
    CountLineReadsBack(n, description);
  }

  /** The count of each report line reads back as the line's count. */
  lemma CountReportLine(lines: seq<string>, catProts: map<string, set<string>>, catDesc: map<string, string>, i: nat)
    requires CountReport(lines, catProts, catDesc) && i < |lines|
    ensures LineCount(lines[i]) == Some(SortedCounts(CountsOf(catProts, catProts.Keys))[i])
  {
    var counts := SortedCounts(CountsOf(catProts, catProts.Keys));
    var k :| k in catProts && |catProts[k]| == counts[i] && Description(k, catDesc).Ok?
             && lines[i] == CountLine(counts[i], Description(k, catDesc).value);
    LineCountReadsCountLine(counts[i], Description(k, catDesc).value);
  }

  /** The counts read back from the report's lines ascend strictly, so no
      two lines share a count, and they are exactly the categories' counts. */
  lemma CountReportAscends(lines: seq<string>, catProts: map<string, set<string>>, catDesc: map<string, string>)
    requires CountReport(lines, catProts, catDesc)
    ensures forall i :: 0 <= i < |lines| ==> LineCount(lines[i]).Some?
    ensures forall i, j :: 0 <= i < j < |lines| ==> LineCount(lines[i]).value < LineCount(lines[j]).value
    ensures forall n :: n in CountsOf(catProts, catProts.Keys) <==>
      exists i :: 0 <= i < |lines| && LineCount(lines[i]) == Some(n)
  {
    var counts := SortedCounts(CountsOf(catProts, catProts.Keys));
    forall i | 0 <= i < |lines|
      ensures LineCount(lines[i]) == Some(counts[i])
    {
      CountReportLine(lines, catProts, catDesc, i);
    }
    forall n | n in CountsOf(catProts, catProts.Keys)
      ensures exists i :: 0 <= i < |lines| && LineCount(lines[i]) == Some(n)
    {
      var i :| 0 <= i < |counts| && counts[i] == n;
      assert LineCount(lines[i]) == Some(n);
    }
  }

  /** A line of the extensive report, as a specification: the group id, the
      sorted org1 proteins and the sorted org2 proteins, each list joined by
      "," with "," stripped from its ends, and the group's annotation, all
      tab-separated. Either taxon missing from the group is the group's
      LookupError; a group without annotation is a KeyError. */
  function ExtensiveLine(g: Group, org1: string, org2: string, annoDict: map<string, string>): Result<string> {
    match ProteinsForSpecies(g, org1)
    case Err(e) => Err(e)
    case Ok(prots1) =>
      match ProteinsForSpecies(g, org2)
      case Err(e) => Err(e)
      case Ok(prots2) =>
        if g.groupId !in annoDict then Err(KeyError(g.groupId))
        else
          Ok(g.groupId + "\t" + Trim(Join(Sorted(prots1), ","), {','}) + "\t"
             + Trim(Join(Sorted(prots2), ","), {','}) + "\t" + annoDict[g.groupId])
  }

  /** Proteins that can be listed in a field of the extensive report. */
  predicate ListableIds(prots: set<string>) {
    forall p :: p in prots ==> p != [] && ',' !in p && '\t' !in p
  }

  /** A protein list field: splitting it at "," gives back the sorted
      proteins, and it holds no tab. */
  lemma ProteinField(prots: set<string>)
    requires prots != {} && ListableIds(prots)
    ensures Split(Trim(Join(Sorted(prots), ","), {','}), ',') == Sorted(prots)
    ensures '\t' !in Trim(Join(Sorted(prots), ","), {','})
  {
    var sorted := Sorted(prots);
    assert "," == [','];
    SortedElements(prots);
    JoinTrimSplit(sorted, ',');
    JoinFree(sorted, ",", '\t');
  }

  /** The extensive line of a group holding both taxa and an annotation. */
  lemma ExtensiveLineOk(g: Group, org1: string, org2: string, annoDict: map<string, string>)
    requires org1 in g.taxProtDict && org2 in g.taxProtDict && g.groupId in annoDict
    ensures ExtensiveLine(g, org1, org2, annoDict) ==
      Ok(g.groupId + "\t" + Trim(Join(Sorted(g.taxProtDict[org1]), ","), {','}) + "\t"
         + Trim(Join(Sorted(g.taxProtDict[org2]), ","), {','}) + "\t" + annoDict[g.groupId])
  {
  }

  /** Four tab-free fields joined by tabs split back into those fields. */
  lemma TabFields(a: string, b: string, c: string, d: string)
    requires '\t' !in a && '\t' !in b && '\t' !in c && '\t' !in d
    ensures Split(a + "\t" + b + "\t" + c + "\t" + d, '\t') == [a, b, c, d]
  {
    assert "\t" == ['\t'];
    var cd := c + "\t" + d;
    var bcd := b + "\t" + cd;
    assert a + "\t" + b + "\t" + c + "\t" + d == a + "\t" + bcd;
    SplitWithoutSeparator(d, '\t');
    SplitAfterPiece(c, '\t', d);
    assert Split(cd, '\t') == [c, d];
    SplitAfterPiece(b, '\t', cd);
    assert Split(bcd, '\t') == [b, c, d];
    SplitAfterPiece(a, '\t', bcd);
  }

  /** For a group with proteins for both taxa and with an annotation, the
      extensive line splits at its tabs into the group id, the two protein
      lists and the annotation, and each list splits back at "," into that
      taxon's proteins in ascending order; this needs the ids and the
      annotation to be free of the separators. A valid group has proteins
      for each of its taxa (TaxonProteins). */
  lemma ExtensiveLineFields(g: Group, org1: string, org2: string, annoDict: map<string, string>)
    requires org1 in g.taxProtDict && org2 in g.taxProtDict && g.groupId in annoDict
    requires g.taxProtDict[org1] != {} && ListableIds(g.taxProtDict[org1])
    requires g.taxProtDict[org2] != {} && ListableIds(g.taxProtDict[org2])
    requires '\t' !in g.groupId && '\t' !in annoDict[g.groupId]
    ensures ExtensiveLine(g, org1, org2, annoDict).Ok?
    ensures var fields := Split(ExtensiveLine(g, org1, org2, annoDict).value, '\t');
      && |fields| == 4
      && fields[0] == g.groupId
      && Split(fields[1], ',') == Sorted(g.taxProtDict[org1])
      && Split(fields[2], ',') == Sorted(g.taxProtDict[org2])
      && fields[3] == annoDict[g.groupId]
  {
    var p1, p2 := g.taxProtDict[org1], g.taxProtDict[org2];
    ProteinField(p1);
    ProteinField(p2);
    ExtensiveLineOk(g, org1, org2, annoDict);
    TabFields(g.groupId, Trim(Join(Sorted(p1), ","), {','}), Trim(Join(Sorted(p2), ","), {','}), annoDict[g.groupId]);
  }

  /** The body of the loop of `write_exensive`: the line of one group. */
  method BuildExtensiveLine(g: Group, org1: string, org2: string, annoDict: map<string, string>)
    returns (r: Result<string>)
    ensures r == ExtensiveLine(g, org1, org2, annoDict)
  {
    var groupId := g.groupId;
    var prots1 := ProteinsForSpecies(g, org1);
    if prots1.Err? {
      assert ExtensiveLine(g, org1, org2, annoDict) == Err(prots1.error);
      return Err(prots1.error);
    }
    var protsOrg1 := Trim(Join(Sorted(prots1.value), ","), {','});
    var prots2 := ProteinsForSpecies(g, org2);
    if prots2.Err? {
      assert ExtensiveLine(g, org1, org2, annoDict) == Err(prots2.error);
      return Err(prots2.error);
    }
    var protsOrg2 := Trim(Join(Sorted(prots2.value), ","), {','});
    if groupId !in annoDict {
      assert ExtensiveLine(g, org1, org2, annoDict) == Err(KeyError(groupId));
      return Err(KeyError(groupId));
    }
    var annotation := annoDict[groupId];
    var line := g.groupId + "\t" + protsOrg1 + "\t" + protsOrg2 + "\t" + annotation;
    ExtensiveLineOk(g, org1, org2, annoDict);
    return Ok(line);
  }

  /** The extensive line of the group at each arena position. */
  function ExtensiveLineAt(groups: seq<Group>, org1: string, org2: string, annoDict: map<string, string>)
    : nat -> Result<string>
  {
    (i: nat) => if i < |groups| then ExtensiveLine(groups[i], org1, org2, annoDict) else Err(IndexError(IndexMessage))
  }

  /** `lines` are the lines `lineOf` gives the positions `done`, each
      position once, in the order `order`. */
  ghost predicate LinesInOrder(lines: seq<string>, order: seq<nat>, done: set<nat>, lineOf: nat -> Result<string>) {
    && |lines| == |order| == |done|
    && (forall j :: 0 <= j < |order| ==> order[j] in done && lineOf(order[j]) == Ok(lines[j]))
    && (forall i :: i in done ==> i in order)
  }

  lemma LinesInOrderGrow(lines: seq<string>, order: seq<nat>, done: set<nat>, lineOf: nat -> Result<string>,
                         fg: nat, line: string)
    requires LinesInOrder(lines, order, done, lineOf)
    requires fg !in done && lineOf(fg) == Ok(line)
    ensures LinesInOrder(lines + [line], order + [fg], done + {fg}, lineOf)
  {
    var lines', order' := lines + [line], order + [fg];
    forall j | 0 <= j < |order'|
      ensures order'[j] in done + {fg} && lineOf(order'[j]) == Ok(lines'[j])
    {
      if j < |order| {
        assert order'[j] == order[j] && lines'[j] == lines[j];
      }
    }
    forall i | i in done + {fg}
      ensures i in order'
    {
      if i != fg {
        assert i in order;
      }
    }
  }

  /** Every position with a line in order has a line that does not fail. */
  lemma LinesInOrderSucceed(lines: seq<string>, order: seq<nat>, done: set<nat>, lineOf: nat -> Result<string>)
    requires LinesInOrder(lines, order, done, lineOf)
    ensures forall i :: i in done ==> lineOf(i).Ok?
  {
    forall i | i in done
      ensures lineOf(i).Ok?
    {
      var j :| 0 <= j < |order| && order[j] == i;
    }
  }

  /** Every group with a line in the report has a line that does not fail. */
  lemma ExtensiveLinesSucceed(lines: seq<string>, order: seq<nat>, fgs: set<nat>, groups: seq<Group>,
                              org1: string, org2: string, annoDict: map<string, string>)
    requires forall i :: i in fgs ==> i < |groups|
    requires LinesInOrder(lines, order, fgs, ExtensiveLineAt(groups, org1, org2, annoDict))
    ensures forall i :: i in fgs ==> ExtensiveLine(groups[i], org1, org2, annoDict).Ok?
  {
    var lineOf := ExtensiveLineAt(groups, org1, org2, annoDict);
    LinesInOrderSucceed(lines, order, fgs, lineOf);
    forall i | i in fgs
      ensures ExtensiveLine(groups[i], org1, org2, annoDict).Ok?
    {
      assert lineOf(i).Ok?;
    }
  }

  /** `write_exensive`: one line per selected group. The groups form a set,
      visited in any order; `order` is the order the lines come out in, each
      group exactly once. The first group whose line fails aborts the report
      with that group's error. */
  method WriteExtensive(fgs: set<nat>, groups: seq<Group>, org1: string, org2: string,
                        annoDict: map<string, string>)
    returns (r: Result<seq<string>>, ghost order: seq<nat>)
    requires forall i :: i in fgs ==> i < |groups|
    ensures r.Err? <==> exists i :: i in fgs && ExtensiveLine(groups[i], org1, org2, annoDict).Err?
    ensures r.Err? ==> exists i :: i in fgs && ExtensiveLine(groups[i], org1, org2, annoDict) == Err(r.error)
    ensures r.Ok? ==> LinesInOrder(r.value, order, fgs, ExtensiveLineAt(groups, org1, org2, annoDict))
  {
    ghost var lineOf := ExtensiveLineAt(groups, org1, org2, annoDict);
    var lines: seq<string> := [];
    order := [];
    var rest := fgs;
    while rest != {}
      invariant rest <= fgs
      invariant LinesInOrder(lines, order, fgs - rest, lineOf)
      decreases rest
    {
      var fg :| fg in rest;
      var line := BuildExtensiveLine(groups[fg], org1, org2, annoDict);
      if line.Err? {
        return Err(line.error), order;
      }
      assert lineOf(fg) == line;
      LinesInOrderGrow(lines, order, fgs - rest, lineOf, fg, line.value);
      VisitOne(fgs, rest, fg);
      lines := lines + [line.value];
      order := order + [fg];
      rest := rest - {fg};
    }
    assert fgs - rest == fgs;
    ExtensiveLinesSucceed(lines, order, fgs, groups, org1, org2, annoDict);
    return Ok(lines), order;
  }
}
