/**
 * The two checkbox handlers of the edit-baseline table. Each scans the
 * table data, builds the list of fact ids to toggle and hands it, with the
 * new checked state, to the `selectFact` action; here they return that call.
 */
module FactSelection {
  import opened Wrappers
  import opened BaselineFacts

  /** The arguments passed to `selectFact(facts, isSelected)`. */
  datatype SelectCall = SelectCall(ids: seq<int>, isSelected: bool)

  /**
   * No fact has the id: the handler dereferences an undefined fact and
   * throws before `selectFact` is called.
   */
  datatype SelectError = NoFactWithId(id: int)

  /** The ids toggled for a found fact: its own, then those of its sub-facts. */
  function SelectionIds(f: Fact): seq<int> {
    [f.id] + Ids(SubFacts(f))
  }

  /**
   * `onSelect`: search the top-level facts and the sub-facts of every
   * category for the id carried by the clicked checkbox, then toggle the
   * found fact, together with its sub-facts when it is a category.
   */
  method OnSelect(tableData: seq<Fact>, id: int, isSelected: bool) returns (r: Result<SelectCall, SelectError>)
    ensures r.Failure? <==> id !in Ids(Flatten(tableData))
    ensures r.Failure? ==> r.error == NoFactWithId(id)
    ensures r.Success? ==>
              && Lookup(tableData, id).Some?
              && Lookup(tableData, id).value.id == id
              && r.value == SelectCall(SelectionIds(Lookup(tableData, id).value), isSelected)
  {
    var factData: Option<Fact> := None;
    for i := 0 to |tableData|
      invariant factData == Lookup(tableData[..i], id)
    {
      var fact := tableData[i];
      assert tableData[..i + 1][..i] == tableData[..i];
      if fact.id == id {
        factData := Some(fact);
      } else if IsCategory(fact) {
        var subs := SubFacts(fact);
        ghost var before := factData;
        for j := 0 to |subs|
          invariant factData == if FindLast(subs[..j], id).Some? then FindLast(subs[..j], id) else before
        {
          assert subs[..j + 1][..j] == subs[..j];
          if subs[j].id == id {
            factData := Some(subs[j]);
          }
        }
        assert subs[..|subs|] == subs;
      }
    }
    assert tableData[..|tableData|] == tableData;
    LookupFindsListedIds(tableData, id);
    LookupSpec(tableData, id);

    if factData.None? {
      return Failure(NoFactWithId(id));
    }
    var found := factData.value;
    var facts := [found.id];
    if IsCategory(found) {
      var subs := SubFacts(found);
      for j := 0 to |subs|
        invariant facts == [found.id] + Ids(subs[..j])
      {
        IdsPrefixStep(subs, j);
        facts := facts + [subs[j].id];
      }
      assert subs[..|subs|] == subs;
    }
    r := Success(SelectCall(facts, isSelected));
  }

  /**
   * `onBulkSelect`: every top-level fact id in the fully expanded table
   * order, each category's id followed by its sub-fact ids, all with the one
   * given flag.
   */
  method OnBulkSelect(tableData: seq<Fact>, isSelected: bool) returns (call: SelectCall)
    ensures call.ids == Ids(Flatten(tableData))
    ensures call.isSelected == isSelected
  {
    var facts: seq<int> := [];
    for i := 0 to |tableData|
      invariant facts == Ids(Flatten(tableData[..i]))
    {
      var fact := tableData[i];
      IdsPrefixGroupStep(tableData, i);
      ghost var done := facts;
      facts := facts + [fact.id];
      if IsCategory(fact) {
        var subs := SubFacts(fact);
        for j := 0 to |subs|
          invariant facts == done + [fact.id] + Ids(subs[..j])
        {
          IdsPrefixStep(subs, j);
          facts := facts + [subs[j].id];
        }
        assert subs[..|subs|] == subs;
      }
    }
    assert tableData[..|tableData|] == tableData;
    call := SelectCall(facts, isSelected);
  }

  // ---------------------------------------------------------------------
  // What the handlers pass, stated per fact.

  /** Selecting a category toggles exactly its id followed by all its sub-fact ids, in order. */
  lemma SelectCategory(tableData: seq<Fact>, f: Fact)
    requires DistinctIds(Flatten(tableData))
    requires f in Flatten(tableData) && IsCategory(f)
    ensures Lookup(tableData, f.id).Some?
    ensures SelectionIds(Lookup(tableData, f.id).value) == [f.id] + Ids(f.value.subFacts)
  {
    LookupUnique(tableData, f);
  }

  /** Selecting a leaf (top-level or a sub-fact) toggles the one-element list of its id. */
  lemma SelectLeaf(tableData: seq<Fact>, f: Fact)
    requires DistinctIds(Flatten(tableData))
    requires f in Flatten(tableData) && !IsCategory(f)
    ensures Lookup(tableData, f.id).Some?
    ensures SelectionIds(Lookup(tableData, f.id).value) == [f.id]
  {
    LookupUnique(tableData, f);
  }

  /**
   * Bulk selection lists the ids group by group: `tableData[i]`'s id comes
   * right after the ids of the facts before it and is followed at once by
   * its sub-fact ids, then by the ids of the facts after it.
   */
  lemma BulkSelectLayout(tableData: seq<Fact>, i: nat)
    requires i < |tableData|
    ensures Ids(Flatten(tableData))
            == Ids(Flatten(tableData[..i])) + [tableData[i].id] + Ids(SubFacts(tableData[i]))
               + Ids(Flatten(tableData[i + 1..]))
  {
    GroupLayout(tableData, i);
    IdsGroup(Flatten(tableData[..i]), tableData[i], SubFacts(tableData[i]));
    IdsAppend(Flatten(tableData[..i]) + [tableData[i]] + SubFacts(tableData[i]), Flatten(tableData[i + 1..]));
  }

  /** The bulk id list has one entry per top-level fact and one per sub-fact. */
  lemma BulkSelectLength(tableData: seq<Fact>)
    ensures |Ids(Flatten(tableData))| == |tableData| + SubFactCount(tableData)
  {
    FlattenLength(tableData);
  }
}
