/** The index from taxon id to the groups that contain it, built by
    `process_members_file` and `add_functional_group_to_dict`
    (eggnog-db.py). The script's index holds group objects, compared by
    identity; here the loaded groups live in an arena (a sequence, in file
    order) and the index holds their positions. */
module GroupIndex {
  import opened Outcomes
  import opened PyStr
  import opened FunctionalGroup

  /** The `defaultdict(set)`: taxon id -> positions of the groups under it. */
  type Index = map<string, set<nat>>

  /** Reading a `defaultdict(set)`: an absent key reads as the empty set. */
  function Lookup<V>(d: map<string, set<V>>, t: string): set<V> {
    if t in d then d[t] else {}
  }

  /** `index` files each group of the arena under exactly the taxa of that
      group, and has no key without a group. */
  ghost predicate Indexes(index: Index, groups: seq<Group>) {
    && (forall t, i: nat :: i in Lookup(index, t) <==> (i < |groups| && t in groups[i].taxIds))
    && (forall t :: t in index ==> index[t] != {})
  }

  /** The index's content for one taxon and one group position. */
  lemma IndexesAt(index: Index, groups: seq<Group>, t: string, i: nat)
    requires Indexes(index, groups)
    ensures i in Lookup(index, t) <==> (i < |groups| && t in groups[i].taxIds)
  {
  }

  /** `add_functional_group_to_dict`: adds group `fg` to the set of every taxon
      of the group, creating the sets that do not exist yet. Every other
      taxon's set, and every group already filed, stays as it was. */
  method AddFunctionalGroupToDict(fg: nat, g: Group, d: Index) returns (d': Index)
    ensures forall t :: Lookup(d', t) == (if t in g.taxIds then Lookup(d, t) + {fg} else Lookup(d, t))
    ensures d'.Keys == d.Keys + g.taxIds
  {
    d' := d;
    var rest := g.taxIds;
    while rest != {}
      invariant rest <= g.taxIds
      invariant d'.Keys == d.Keys + (g.taxIds - rest)
      invariant forall t :: Lookup(d', t) == (if t in g.taxIds - rest then Lookup(d, t) + {fg} else Lookup(d, t))
      decreases rest
    {
      var key :| key in rest;
      d' := d'[key := Lookup(d', key) + {fg}];
      rest := rest - {key};
    }
  }

  /** Filing one more group, at the end of the arena, keeps the index exact:
      for one taxon and one position. */
  lemma IndexGrowsAt(d: Index, groups: seq<Group>, g: Group, d': Index, t: string, i: nat)
    requires Indexes(d, groups)
    requires Lookup(d', t) == (if t in g.taxIds then Lookup(d, t) + {|groups|} else Lookup(d, t))
    ensures i in Lookup(d', t) <==> (i < |groups| + 1 && t in (groups + [g])[i].taxIds)
  {
    IndexesAt(d, groups, t, i);
    if i < |groups| {
      assert (groups + [g])[i] == groups[i];
    } else if i == |groups| {
      assert (groups + [g])[i] == g;
    }
  }

  /** Filing one more group, at the end of the arena, keeps the index exact. */
  lemma IndexGrows(d: Index, groups: seq<Group>, g: Group, d': Index)
    requires Indexes(d, groups)
    requires forall t :: Lookup(d', t) == (if t in g.taxIds then Lookup(d, t) + {|groups|} else Lookup(d, t))
    requires d'.Keys == d.Keys + g.taxIds
    ensures Indexes(d', groups + [g])
  {
    var groups' := groups + [g];
    forall t, i: nat
      ensures i in Lookup(d', t) <==> (i < |groups'| && t in groups'[i].taxIds)
    {
      IndexGrowsAt(d, groups, g, d', t, i);
    }
    forall t | t in d'
      ensures d'[t] != {}
    {
      assert Lookup(d', t) == d'[t];
    }
  }

  /** The group each line parses to, for the first `n` lines. */
  predicate ParsedPrefix(lines: seq<string>, groups: seq<Group>, n: nat)
    requires n <= |lines|
  {
    |groups| == n && forall i :: 0 <= i < n ==> ParseGroup(Strip(lines[i])) == Ok(groups[i])
  }

  lemma ParsedPrefixGrows(lines: seq<string>, groups: seq<Group>, n: nat, g: Group)
    requires n < |lines| && ParsedPrefix(lines, groups, n)
    requires ParseGroup(Strip(lines[n])) == Ok(g)
    ensures ParsedPrefix(lines, groups + [g], n + 1)
  {
  }

  /** `process_members_file`: one group per line, in file order, each filed
      under its taxa. The first line that does not parse aborts the load with
      its error. Besides the index, the arena of the loaded groups is
      returned: it stands for the heap the index's group objects live in. */
  method ProcessMembersFile(lines: seq<string>) returns (r: Result<(seq<Group>, Index)>)
    ensures r.Err? <==> exists i :: 0 <= i < |lines| && ParseGroup(Strip(lines[i])).Err?
    ensures r.Err? ==> exists i ::
      && 0 <= i < |lines|
      && ParseGroup(Strip(lines[i])) == Err(r.error)
      && forall j :: 0 <= j < i ==> ParseGroup(Strip(lines[j])).Ok?
    ensures r.Ok? ==> ParsedPrefix(lines, r.value.0, |lines|) && Indexes(r.value.1, r.value.0)
  {
    var d: Index := map[];
    var groups: seq<Group> := [];
    var i := 0;
    assert forall t :: Lookup(d, t) == {};
    while i < |lines|
      invariant 0 <= i <= |lines|
      invariant ParsedPrefix(lines, groups, i)
      invariant Indexes(d, groups)
    {
      var l := Strip(lines[i]);
      var fg := NewFunctionalGroup(l);
      if fg.Err? {
        assert ParseGroup(Strip(lines[i])) == Err(fg.error);
        return Err(fg.error);
      }
      var g := fg.value;
      ParsedPrefixGrows(lines, groups, i, g);
      var d' := AddFunctionalGroupToDict(|groups|, g, d);
      IndexGrows(d, groups, g, d');
      d, groups := d', groups + [g];
      i := i + 1;
    }
    assert forall j :: 0 <= j < |lines| ==> ParseGroup(Strip(lines[j])).Ok?;
    return Ok((groups, d));
  }

  /** Every group the members parser loads satisfies the group invariant. */
  lemma LoadedGroupsValid(lines: seq<string>, groups: seq<Group>)
    requires ParsedPrefix(lines, groups, |lines|)
    ensures forall i :: 0 <= i < |groups| ==> ValidGroup(groups[i])
  {
    forall i | 0 <= i < |groups|
      ensures ValidGroup(groups[i])
    {
      ParseGroupSpec(Strip(lines[i]));
    }
  }
}
