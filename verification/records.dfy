/** Bookkeeping over the records of a Foundry world before and after conversion:
    dropping soft-deleted records (foundrytoencounter.py:2149-2197), numbering the
    folders, journal entries and maps in name order (2198-2221) and pruning the
    groups nothing refers to (2654-2670). */
module Records {
  import opened Common
  import opened Sorting

  // ---------------------------------------------------------------------------
  // Soft-deleted records

  /** A world record: its id, the `$$deleted` flag (absent reads as false), its
      optional name, its `sort` value (0 when absent or falsy) and, for a journal
      entry, the R20Converter `handout-order` flag. */
  datatype Rec = Rec(id: string, deleted: bool, name: Option<string>, sort: int, handoutOrder: Option<int>)

  /** The ids of the records flagged as deleted. */
  function DeletedIds(rs: seq<Rec>): set<string>
  {
    set r | r in rs && r.deleted :: r.id
  }

  /** The records whose id is not in `gone`, in their order. */
  function KeepOut(rs: seq<Rec>, gone: set<string>): (r: seq<Rec>)
    ensures |r| <= |rs|
  {
    if |rs| == 0 then []
    else KeepOut(rs[..|rs| - 1], gone) + (if rs[|rs| - 1].id in gone then [] else [rs[|rs| - 1]])
  }

  /** The records that survive: every record sharing its id with a deleted one goes. */
  function Survivors(rs: seq<Rec>): seq<Rec>
  {
    KeepOut(rs, DeletedIds(rs))
  }

  lemma {:induction false} KeepOutMembers(rs: seq<Rec>, gone: set<string>, x: Rec)
    ensures x in KeepOut(rs, gone) <==> x in rs && x.id !in gone
  {
    if |rs| > 0 {
      KeepOutMembers(rs[..|rs| - 1], gone, x);
      assert rs == rs[..|rs| - 1] + [rs[|rs| - 1]];
    }
  }

  /** The filter works record by record, so it keeps the relative order. */
  lemma {:induction false} KeepOutAppend(a: seq<Rec>, b: seq<Rec>, gone: set<string>)
    ensures KeepOut(a + b, gone) == KeepOut(a, gone) + KeepOut(b, gone)
  {
    if |b| > 0 {
      var c := a + b;
      assert c[..|c| - 1] == a + b[..|b| - 1];
      KeepOutAppend(a, b[..|b| - 1], gone);
    } else {
      assert a + b == a;
    }
  }

  /** A record survives exactly when no deleted record has its id. */
  lemma SurvivorsExactly(rs: seq<Rec>, x: Rec)
    ensures x in Survivors(rs) <==> x in rs && forall d :: d in rs && d.deleted ==> d.id != x.id
  {
    KeepOutMembers(rs, DeletedIds(rs), x);
    if x in rs && x.id in DeletedIds(rs) {
      var d :| d in rs && d.deleted && d.id == x.id;
    }
  }

  lemma {:induction false} KeepOutNothing(rs: seq<Rec>, gone: set<string>)
    requires forall i :: 0 <= i < |rs| ==> rs[i].id !in gone
    ensures KeepOut(rs, gone) == rs
  {
    if |rs| > 0 {
      var init := rs[..|rs| - 1];
      assert forall i :: 0 <= i < |init| ==> init[i] == rs[i];
      KeepOutNothing(init, gone);
      assert rs == init + [rs[|rs| - 1]];
    }
  }

  /** No deleted record survives, so filtering twice is filtering once. */
  lemma SurvivorsIdempotent(rs: seq<Rec>)
    ensures forall r :: r in Survivors(rs) ==> !r.deleted
    ensures Survivors(Survivors(rs)) == Survivors(rs)
  {
    var s := Survivors(rs);
    forall r | r in s
      ensures !r.deleted
    {
      KeepOutMembers(rs, DeletedIds(rs), r);
    }
    assert DeletedIds(s) == {};
    KeepOutNothing(s, {});
  }

  // ---------------------------------------------------------------------------
  // Sort order

  /** Which list is being numbered: journal entries add their handout order, and maps
      only raise the running maximum with a non-zero sort. */
  datatype Kind = Folders | Journal | Maps

  function NameKey(r: Rec): string
  {
    r.name.GetOr("")
  }

  /** The sort value the record at position `pos` of the name-sorted list gets. */
  function SortOf(r: Rec, pos: nat, kind: Kind): int
  {
    (if r.sort == 0 then pos + 1 else r.sort)
      + (if kind == Journal && r.handoutOrder.Some? then r.handoutOrder.value else 0)
  }

  /** Whether a sort value raises the running maximum. */
  predicate Raises(s: int, maxorder: int, kind: Kind)
  {
    (kind != Maps || s != 0) && s > maxorder
  }

  /** The running maximum after numbering `out`, from `maxorder` on. */
  function RunningMax(out: seq<Rec>, maxorder: int, kind: Kind): int
  {
    if |out| == 0 then maxorder
    else
      var m := RunningMax(out[..|out| - 1], maxorder, kind);
      if Raises(out[|out| - 1].sort, m, kind) then out[|out| - 1].sort else m
  }

  /** The new maximum is at least the old one, at least every sort value that may raise
      it, and is either the old maximum or one of the sort values. */
  lemma {:induction false} RunningMaxBounds(out: seq<Rec>, maxorder: int, kind: Kind)
    ensures RunningMax(out, maxorder, kind) >= maxorder
    ensures forall i :: 0 <= i < |out| && Raises(out[i].sort, maxorder, kind) ==> out[i].sort <= RunningMax(out, maxorder, kind)
    ensures RunningMax(out, maxorder, kind) == maxorder
            || exists i :: 0 <= i < |out| && out[i].sort == RunningMax(out, maxorder, kind)
  {
    if |out| > 0 {
      var init := out[..|out| - 1];
      RunningMaxBounds(init, maxorder, kind);
      var m := RunningMax(init, maxorder, kind);
      forall i | 0 <= i < |out| - 1
        ensures out[i] == init[i]
      {
      }
      if m != maxorder {
        var k :| 0 <= k < |init| && init[k].sort == m;
        assert out[k].sort == m;
      }
    }
  }

  /** The records of a name-sorted list, each with the sort value of its position. */
  function Numbered(sorted: seq<Rec>, kind: Kind): (r: seq<Rec>)
    ensures |r| == |sorted|
  {
    if |sorted| == 0 then []
    else
      var last := sorted[|sorted| - 1];
      Numbered(sorted[..|sorted| - 1], kind) + [last.(sort := SortOf(last, |sorted| - 1, kind))]
  }

  /** Each record keeps everything but its sort value, which is its position plus one
      unless it already had one. */
  lemma {:induction false} NumberedExactly(sorted: seq<Rec>, kind: Kind, i: nat)
    requires i < |sorted|
    ensures Numbered(sorted, kind)[i] == sorted[i].(sort := SortOf(sorted[i], i, kind))
  {
    if i < |sorted| - 1 {
      NumberedExactly(sorted[..|sorted| - 1], kind, i);
    }
  }

  lemma NumberedSnoc(sorted: seq<Rec>, i: nat, kind: Kind)
    requires i < |sorted|
    ensures Numbered(sorted[..i + 1], kind) == Numbered(sorted[..i], kind) + [sorted[i].(sort := SortOf(sorted[i], i, kind))]
  {
    assert sorted[..i + 1][..i] == sorted[..i];
  }

  lemma RunningMaxSnoc(out: seq<Rec>, x: Rec, maxorder: int, kind: Kind)
    ensures RunningMax(out + [x], maxorder, kind)
            == if Raises(x.sort, RunningMax(out, maxorder, kind), kind) then x.sort else RunningMax(out, maxorder, kind)
  {
    assert (out + [x])[..|out|] == out;
  }

  /** The records sorted by name, each with its sort value assigned, and the new
      maximum sort value. */
  method AssignSorts(rs: seq<Rec>, maxorder: int, kind: Kind) returns (out: seq<Rec>, newMax: int)
    ensures out == Numbered(SortBy(rs, NameKey), kind)
    ensures newMax == RunningMax(out, maxorder, kind)
  {
    var sorted := SortBy(rs, NameKey);
    out := [];
    newMax := maxorder;
    for i := 0 to |sorted|
      invariant out == Numbered(sorted[..i], kind)
      invariant newMax == RunningMax(out, maxorder, kind)
    {
      var r := sorted[i];
      var s := SortOf(r, i, kind);
      NumberedSnoc(sorted, i, kind);
      RunningMaxSnoc(out, r.(sort := s), maxorder, kind);
      if Raises(s, newMax, kind) {
        newMax := s;
      }
      out := out + [r.(sort := s)];
    }
    assert sorted[..|sorted|] == sorted;
  }

  // ---------------------------------------------------------------------------
  // Group pruning

  datatype Tag = Page | Map | Group | Asset | Other

  /** A child of the module element, with its `id` and `parent` attributes. */
  datatype Element = Element(tag: Tag, id: Option<string>, parent: Option<string>)

  /** Some page, map, group or asset names the group as its parent. */
  predicate InUse(g: Element, cs: seq<Element>)
  {
    exists k :: 0 <= k < |cs| && cs[k].tag != Other && cs[k].parent == g.id
  }

  /** The children that are not groups, in their order. */
  function NonGroups(cs: seq<Element>): seq<Element>
  {
    if |cs| == 0 then []
    else NonGroups(cs[..|cs| - 1]) + (if cs[|cs| - 1].tag == Group then [] else [cs[|cs| - 1]])
  }

  function Without(cs: seq<Element>, i: nat): (r: seq<Element>)
    requires i < |cs|
    ensures |r| == |cs| - 1
  {
    cs[..i] + cs[i + 1..]
  }

  lemma NonGroupsSnoc(cs: seq<Element>)
    requires |cs| > 0
    ensures NonGroups(cs) == NonGroups(cs[..|cs| - 1]) + (if cs[|cs| - 1].tag == Group then [] else [cs[|cs| - 1]])
  {
  }

  /** Removing a group leaves the other children as they were. */
  lemma {:induction false} NonGroupsWithout(cs: seq<Element>, i: nat)
    requires i < |cs| && cs[i].tag == Group
    ensures NonGroups(Without(cs, i)) == NonGroups(cs)
  {
    var n := |cs|;
    var w := Without(cs, i);
    var init := cs[..n - 1];
    NonGroupsSnoc(cs);
    if i == n - 1 {
      assert w == init;
    } else {
      NonGroupsSnoc(w);
      assert w[..n - 2] == Without(init, i);
      assert w[n - 2] == cs[n - 1];
      NonGroupsWithout(init, i);
    }
  }

  /** One pass over the groups from position i of the current children. A group
      nobody names is removed; the element that slides into its place is then
      passed over, as the element iterator does when its current element goes. */
  function Pass(cs: seq<Element>, i: nat): (r: (seq<Element>, bool))
    ensures NonGroups(r.0) == NonGroups(cs)
    ensures r.1 ==> |r.0| < |cs|
    ensures !r.1 ==> r.0 == cs
    ensures !r.1 ==> forall k :: i <= k < |cs| && cs[k].tag == Group ==> InUse(cs[k], cs)
    decreases |cs| - i
  {
    if i >= |cs| then (cs, false)
    else if cs[i].tag == Group && !InUse(cs[i], cs) then
      NonGroupsWithout(cs, i);
      (Pass(Without(cs, i), i + 1).0, true)
    else Pass(cs, i + 1)
  }

  /** Passes until one removes nothing. */
  function Pruned(cs: seq<Element>): (r: seq<Element>)
    ensures NonGroups(r) == NonGroups(cs)
    ensures |r| <= |cs|
    ensures forall k :: 0 <= k < |r| && r[k].tag == Group ==> InUse(r[k], r)
    decreases |cs|
  {
    var (next, removed) := Pass(cs, 0);
    if removed then Pruned(next) else cs
  }

  /** One pass of the pruning loop, with the index the element iterator keeps. */
  method PrunePass(cs: seq<Element>) returns (r: seq<Element>, removed: bool)
    ensures (r, removed) == Pass(cs, 0)
  {
    r := cs;
    removed := false;
    var i := 0;
    while i < |r|
      invariant i <= |r| + 1
      invariant Pass(cs, 0).0 == Pass(r, i).0
      invariant Pass(cs, 0).1 == (removed || Pass(r, i).1)
      decreases |r| - i
    {
      if r[i].tag == Group && !InUse(r[i], r) {
        r := Without(r, i);
        removed := true;
      }
      i := i + 1;
    }
  }

  /** The pruning loop of the converter. */
  method PruneGroups(cs: seq<Element>) returns (r: seq<Element>)
    ensures r == Pruned(cs)
  {
    r := cs;
    var removed := true;
    while removed
      invariant removed ==> Pruned(r) == Pruned(cs)
      invariant !removed ==> r == Pruned(cs)
      decreases |r| + (if removed then 1 else 0)
    {
      var next, more := PrunePass(r);
      if more {
        r := next;
      }
      removed := more;
    }
  }

  /** The non-group children are exactly the children that are not groups. */
  lemma {:induction false} NonGroupsExactly(cs: seq<Element>, e: Element)
    ensures e in NonGroups(cs) <==> e in cs && e.tag != Group
  {
    if |cs| > 0 {
      var init := cs[..|cs| - 1];
      NonGroupsExactly(init, e);
      assert cs == init + [cs[|cs| - 1]];
    }
  }

  lemma {:induction false} PassKeepsReferenced(cs: seq<Element>, i: nat, g: Element, p: Element)
    requires g in cs && p in cs && p.tag != Group && p.tag != Other && p.parent == g.id
    ensures g in Pass(cs, i).0
    decreases |cs| - i
  {
    if i < |cs| {
      if cs[i].tag == Group && !InUse(cs[i], cs) {
        var k :| 0 <= k < |cs| && cs[k] == p;
        assert cs[i] != g;
        var w := Without(cs, i);
        assert g in w by {
          var j :| 0 <= j < |cs| && cs[j] == g;
          if j < i { assert w[j] == g; } else { assert w[j - 1] == g; }
        }
        NonGroupsExactly(cs, p);
        NonGroupsWithout(cs, i);
        NonGroupsExactly(w, p);
        PassKeepsReferenced(w, i + 1, g, p);
      } else {
        PassKeepsReferenced(cs, i + 1, g, p);
      }
    }
  }

  /** A group that a page, map or asset names as its parent is never pruned. */
  lemma {:induction false} ReferencedGroupSurvives(cs: seq<Element>, g: Element, p: Element)
    requires g in cs && p in cs && p.tag != Group && p.tag != Other && p.parent == g.id
    ensures g in Pruned(cs)
    decreases |cs|
  {
    var (next, removed) := Pass(cs, 0);
    if removed {
      PassKeepsReferenced(cs, 0, g, p);
      NonGroupsExactly(cs, p);
      NonGroupsExactly(next, p);
      ReferencedGroupSurvives(next, g, p);
    }
  }
}
