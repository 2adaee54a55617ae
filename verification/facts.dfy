/**
 * The edit-baseline fact table's data: an ordered list of facts, each a leaf
 * (a string value) or a category (a list of sub-facts), and the two scans the
 * table's handlers make over it: the flattened order that bulk selection
 * walks, and the search by id that single selection performs.
 */
module BaselineFacts {
  import opened Wrappers

  /** A fact's value: a string, or the list of a category's sub-facts. */
  datatype FactValue = Leaf(text: string) | Category(subFacts: seq<Fact>)

  /**
   * One entry of the table data: id, name and value are the source's
   * FACT_ID, FACT_NAME and FACT_VALUE slots; `selected` is the flag the
   * checkbox displays.
   */
  datatype Fact = Fact(id: int, name: string, value: FactValue, selected: bool)

  /** A category is a fact whose value is a list. */
  predicate IsCategory(f: Fact) {
    f.value.Category?
  }

  /** The sub-facts of a category; a leaf has none. */
  function SubFacts(f: Fact): seq<Fact> {
    if f.value.Category? then f.value.subFacts else []
  }

  function Ids(fs: seq<Fact>): seq<int> {
    seq(|fs|, k requires 0 <= k < |fs| => fs[k].id)
  }

  /** No two facts of the list share an id. */
  ghost predicate DistinctIds(fs: seq<Fact>) {
    forall p, q :: 0 <= p < q < |fs| ==> fs[p].id != fs[q].id
  }

  /**
   * The fully expanded table order, which bulk selection walks: every
   * top-level fact followed directly by its own sub-facts (one level only,
   * as the table goes no deeper). The rendered table omits the sub-facts
   * of collapsed categories; `FactTable.FactRows` gives the rows it shows.
   */
  function Flatten(facts: seq<Fact>): seq<Fact> {
    if facts == [] then []
    else Flatten(facts[..|facts| - 1]) + [facts[|facts| - 1]] + SubFacts(facts[|facts| - 1])
  }

  /** Total number of sub-facts under the top-level facts. */
  function SubFactCount(facts: seq<Fact>): nat {
    if facts == [] then 0
    else SubFactCount(facts[..|facts| - 1]) + |SubFacts(facts[|facts| - 1])|
  }

  /** Position in the flattened order at which the group of `facts[i]` starts. */
  function GroupStart(facts: seq<Fact>, i: nat): nat
    requires i <= |facts|
  {
    |Flatten(facts[..i])|
  }

  /** Member `k` of a fact's group in the fully expanded table order: the fact itself, then its sub-facts. */
  function GroupMember(f: Fact, k: nat): Fact
    requires k <= |SubFacts(f)|
  {
    if k == 0 then f else SubFacts(f)[k - 1]
  }

  // ---------------------------------------------------------------------
  // The search by id performed by the selection handler.

  /** The last of `subs` with the given id, as a forEach that overwrites finds it. */
  function FindLast(subs: seq<Fact>, id: int): Option<Fact> {
    if subs == [] then None
    else if subs[|subs| - 1].id == id then Some(subs[|subs| - 1])
    else FindLast(subs[..|subs| - 1], id)
  }

  /**
   * What one step of the outer scan assigns: the fact itself when its id
   * matches; otherwise, for a category, the last matching sub-fact.
   */
  function ScanStep(f: Fact, id: int): Option<Fact> {
    if f.id == id then Some(f)
    else if IsCategory(f) then FindLast(SubFacts(f), id)
    else None
  }

  /**
   * The fact the scan is left holding: the one assigned by the last step
   * that assigned anything; None when nothing matched (still undefined).
   */
  function Lookup(facts: seq<Fact>, id: int): Option<Fact> {
    if facts == [] then None
    else match ScanStep(facts[|facts| - 1], id)
      case Some(g) => Some(g)
      case None => Lookup(facts[..|facts| - 1], id)
  }

  // ---------------------------------------------------------------------
  // Lemmas.

  lemma IdsAppend(a: seq<Fact>, b: seq<Fact>)
    ensures Ids(a + b) == Ids(a) + Ids(b)
  {
  }

  lemma IdsGroup(a: seq<Fact>, f: Fact, c: seq<Fact>)
    ensures Ids(a + [f] + c) == Ids(a) + [f.id] + Ids(c)
  {
    IdsAppend(a + [f], c);
    IdsAppend(a, [f]);
  }

  /** Taking one more element of a list adds its id at the end. */
  lemma IdsPrefixStep(fs: seq<Fact>, j: nat)
    requires j < |fs|
    ensures Ids(fs[..j + 1]) == Ids(fs[..j]) + [fs[j].id]
  {
  }

  lemma InIds(fs: seq<Fact>, id: int)
    ensures id in Ids(fs) <==> exists g :: g in fs && g.id == id
  {
    if id in Ids(fs) {
      var k :| 0 <= k < |fs| && Ids(fs)[k] == id;
      assert fs[k] in fs;
    }
    if exists g :: g in fs && g.id == id {
      var g :| g in fs && g.id == id;
      var k :| 0 <= k < |fs| && fs[k] == g;
      assert Ids(fs)[k] == id;
    }
  }

  lemma SplitAt<T>(s: seq<T>, i: nat)
    requires i < |s|
    ensures s == s[..i] + [s[i]] + s[i + 1..]
  {
  }

  lemma GroupIndex<T>(a: seq<T>, x: T, s: seq<T>, c: seq<T>, k: nat)
    requires k <= |s|
    ensures |a| + k < |a + [x] + s + c|
    ensures (a + [x] + s + c)[|a| + k] == if k == 0 then x else s[k - 1]
  {
  }

  lemma FlattenSingle(f: Fact)
    ensures Flatten([f]) == [f] + SubFacts(f)
  {
    assert [f][..0] == [];
  }

  /** Flattening distributes over concatenation of fact lists. */
  lemma {:induction false} FlattenAppend(a: seq<Fact>, b: seq<Fact>)
    ensures Flatten(a + b) == Flatten(a) + Flatten(b)
    decreases |b|
  {
    if b == [] {
      assert a + b == a;
    } else {
      var b' := b[..|b| - 1];
      assert (a + b)[..|a + b| - 1] == a + b';
      assert (a + b)[|a + b| - 1] == b[|b| - 1];
      FlattenAppend(a, b');
    }
  }

  /** Taking one more top-level fact adds its group at the end of the fully expanded table order. */
  lemma FlattenPrefixStep(facts: seq<Fact>, i: nat)
    requires i < |facts|
    ensures Flatten(facts[..i + 1]) == Flatten(facts[..i]) + [facts[i]] + SubFacts(facts[i])
  {
    assert facts[..i + 1][..i] == facts[..i];
  }

  /** Taking one more top-level fact adds its id and its sub-fact ids at the end of the id list. */
  lemma IdsPrefixGroupStep(facts: seq<Fact>, i: nat)
    requires i < |facts|
    ensures Ids(Flatten(facts[..i + 1])) == Ids(Flatten(facts[..i])) + [facts[i].id] + Ids(SubFacts(facts[i]))
  {
    FlattenPrefixStep(facts, i);
    IdsGroup(Flatten(facts[..i]), facts[i], SubFacts(facts[i]));
  }

  /** The flattened list holds every top-level fact and every sub-fact, once each. */
  lemma {:induction false} FlattenLength(facts: seq<Fact>)
    ensures |Flatten(facts)| == |facts| + SubFactCount(facts)
  {
    if facts != [] {
      FlattenLength(facts[..|facts| - 1]);
    }
  }

  /**
   * In the flattened order, the group of `facts[i]` is the fact itself
   * immediately followed by all its sub-facts in their own order.
   */
  lemma GroupLayout(facts: seq<Fact>, i: nat)
    requires i < |facts|
    ensures Flatten(facts) == Flatten(facts[..i]) + [facts[i]] + SubFacts(facts[i]) + Flatten(facts[i + 1..])
  {
    var before, after := facts[..i], facts[i + 1..];
    SplitAt(facts, i);
    calc {
      Flatten(facts);
      Flatten(before + [facts[i]] + after);
      { FlattenAppend(before + [facts[i]], after); }
      Flatten(before + [facts[i]]) + Flatten(after);
      { FlattenAppend(before, [facts[i]]); FlattenSingle(facts[i]); }
      Flatten(before) + [facts[i]] + SubFacts(facts[i]) + Flatten(after);
    }
  }

  /** Member `k` of the group of `facts[i]` sits at position `GroupStart(facts, i) + k` of the fully expanded table order. */
  lemma GroupMemberAt(facts: seq<Fact>, i: nat, k: nat)
    requires i < |facts| && k <= |SubFacts(facts[i])|
    ensures GroupStart(facts, i) + k < |Flatten(facts)|
    ensures Flatten(facts)[GroupStart(facts, i) + k] == GroupMember(facts[i], k)
  {
    GroupLayout(facts, i);
    GroupIndex(Flatten(facts[..i]), facts[i], SubFacts(facts[i]), Flatten(facts[i + 1..]), k);
  }

  /** The id of every member of every group is in the bulk-selection id list. */
  lemma GroupMemberListed(facts: seq<Fact>, i: nat, k: nat)
    requires i < |facts| && k <= |SubFacts(facts[i])|
    ensures GroupMember(facts[i], k).id in Ids(Flatten(facts))
  {
    GroupMemberAt(facts, i, k);
    assert Ids(Flatten(facts))[GroupStart(facts, i) + k] == GroupMember(facts[i], k).id;
  }

  /** Every fact of the flattened list is a top-level fact or a sub-fact of one, and conversely. */
  lemma {:induction false} FlattenMembers(facts: seq<Fact>, g: Fact)
    ensures g in Flatten(facts) <==> exists i :: 0 <= i < |facts| && (g == facts[i] || g in SubFacts(facts[i]))
  {
    if facts != [] {
      var n := |facts| - 1;
      assert Flatten(facts) == Flatten(facts[..n]) + [facts[n]] + SubFacts(facts[n]);
      FlattenMembers(facts[..n], g);
      if g in Flatten(facts[..n]) {
        var i :| 0 <= i < n && (g == facts[..n][i] || g in SubFacts(facts[..n][i]));
        assert facts[i] == facts[..n][i];
      }
      if exists i :: 0 <= i < |facts| && (g == facts[i] || g in SubFacts(facts[i])) {
        var i :| 0 <= i < |facts| && (g == facts[i] || g in SubFacts(facts[i]));
        if i < n {
          assert facts[..n][i] == facts[i];
        }
      }
    }
  }

  lemma {:induction false} FindLastSpec(subs: seq<Fact>, id: int)
    ensures FindLast(subs, id).Some? <==> exists g :: g in subs && g.id == id
    ensures FindLast(subs, id).Some? ==> FindLast(subs, id).value in subs && FindLast(subs, id).value.id == id
  {
    if subs != [] {
      var n := |subs| - 1;
      assert subs == subs[..n] + [subs[n]];
      FindLastSpec(subs[..n], id);
    }
  }

  /**
   * The scan finds something exactly when some fact of the flattened list
   * has the id, and what it finds is such a fact.
   */
  lemma {:induction false} LookupSpec(facts: seq<Fact>, id: int)
    ensures Lookup(facts, id).Some? <==> exists g :: g in Flatten(facts) && g.id == id
    ensures Lookup(facts, id).Some? ==>
              Lookup(facts, id).value in Flatten(facts) && Lookup(facts, id).value.id == id
  {
    if facts != [] {
      var n := |facts| - 1;
      var f := facts[n];
      LookupSpec(facts[..n], id);
      FindLastSpec(SubFacts(f), id);
      assert Flatten(facts) == Flatten(facts[..n]) + [f] + SubFacts(f);
    }
  }

  /** In terms of ids: the scan fails exactly when the id is not in the flattened id list. */
  lemma LookupFindsListedIds(facts: seq<Fact>, id: int)
    ensures Lookup(facts, id).Some? <==> id in Ids(Flatten(facts))
  {
    LookupSpec(facts, id);
    InIds(Flatten(facts), id);
  }

  /** With distinct ids, the scan returns the one fact carrying the id. */
  lemma LookupUnique(facts: seq<Fact>, f: Fact)
    requires DistinctIds(Flatten(facts))
    requires f in Flatten(facts)
    ensures Lookup(facts, f.id) == Some(f)
  {
    var fl := Flatten(facts);
    LookupSpec(facts, f.id);
    var g := Lookup(facts, f.id).value;
    var p :| 0 <= p < |fl| && fl[p] == f;
    var q :| 0 <= q < |fl| && fl[q] == g;
    assert p == q;
  }
}
