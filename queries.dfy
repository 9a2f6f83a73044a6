/** `DeX.getByTag`, `DeX.getAllByTag` and `DeX.ensure`. */
module Queries {
  import opened Wrappers
  import opened Values
  import opened Arrays
  import opened Tables
  import opened Iterables

  /** A table whose tag is the one asked for; a null tag (`None`) asks for any table. */
  predicate Matches(o: Obj, tag: Option<string>) {
    o.Tbl? && (tag.None? || o.t.tag == tag.value)
  }

  /** The matching tables among `xs`, in order. */
  function Matching(xs: seq<Obj>, tag: Option<string>): (ts: seq<Table>)
    ensures |ts| <= |xs|
    decreases |xs|
  {
    if xs == [] then []
    else
      var last := xs[|xs| - 1];
      Matching(xs[..|xs| - 1], tag) + (if Matches(last, tag) then [last.t] else [])
  }

  /** `getAllByTag(iterable, tag)`: walks the elements and collects every matching table. */
  method GetAllByTag(it: Iterable, tag: Option<string>) returns (ret: seq<Table>)
    ensures ret == Matching(Elements(it), tag)
  {
    var xs := Elements(it);
    ret := [];
    for i := 0 to |xs|
      invariant ret == Matching(xs[..i], tag)
    {
      assert xs[..i + 1][..i] == xs[..i];
      if Matches(xs[i], tag) {
        ret := ret + [xs[i].t];
      }
    }
    assert xs[..|xs|] == xs;
  }

  /** `getByTag(iterable, tag)`: the first matching table, or null. */
  method GetByTag(it: Iterable, tag: Option<string>) returns (r: Option<Table>)
    ensures r.None? <==> forall i :: 0 <= i < |Elements(it)| ==> !Matches(Elements(it)[i], tag)
    ensures r.Some? ==>
      exists i :: FirstMatchAt(Elements(it), tag, i) && Elements(it)[i].t == r.value
    ensures r == (if Matching(Elements(it), tag) == [] then None else Some(Matching(Elements(it), tag)[0]))
  {
    var xs := Elements(it);
    for i := 0 to |xs|
      invariant forall j :: 0 <= j < i ==> !Matches(xs[j], tag)
    {
      if Matches(xs[i], tag) {
        FirstMatch(xs, tag, i);
        assert FirstMatchAt(xs, tag, i);
        return Some(xs[i].t);
      }
    }
    NoneMatching(xs, tag);
    return None;
  }

  /** Element `i` matches and none before it does. */
  predicate FirstMatchAt(xs: seq<Obj>, tag: Option<string>, i: int) {
    0 <= i < |xs| && Matches(xs[i], tag) && forall j :: 0 <= j < i ==> !Matches(xs[j], tag)
  }

  /** A table is collected exactly when some element is that table and matches. */
  lemma {:induction false} MatchingMembers(xs: seq<Obj>, tag: Option<string>, t: Table)
    ensures t in Matching(xs, tag) <==> exists i :: 0 <= i < |xs| && Matches(xs[i], tag) && xs[i].t == t
    decreases |xs|
  {
    if xs != [] {
      var front := xs[..|xs| - 1];
      MatchingMembers(front, tag, t);
      if exists i :: 0 <= i < |front| && Matches(front[i], tag) && front[i].t == t {
        var i :| 0 <= i < |front| && Matches(front[i], tag) && front[i].t == t;
        assert xs[i] == front[i];
      }
      if exists i :: 0 <= i < |xs| && Matches(xs[i], tag) && xs[i].t == t {
        var i :| 0 <= i < |xs| && Matches(xs[i], tag) && xs[i].t == t;
        if i < |front| {
          assert front[i] == xs[i];
        }
      }
    }
  }

  /** The first table `getAllByTag` collects is the one `getByTag` finds. */
  lemma {:induction false} FirstMatch(xs: seq<Obj>, tag: Option<string>, i: nat)
    requires i < |xs| && Matches(xs[i], tag)
    requires forall j :: 0 <= j < i ==> !Matches(xs[j], tag)
    ensures |Matching(xs, tag)| > 0 && Matching(xs, tag)[0] == xs[i].t
    decreases |xs|
  {
    var front := xs[..|xs| - 1];
    if i < |front| {
      assert front[i] == xs[i];
      forall j | 0 <= j < i
        ensures !Matches(front[j], tag)
      {
        assert front[j] == xs[j];
      }
      FirstMatch(front, tag, i);
    } else {
      NoneMatching(front, tag);
    }
  }

  /** Nothing is collected from elements none of which matches. */
  lemma {:induction false} NoneMatching(xs: seq<Obj>, tag: Option<string>)
    requires forall j :: 0 <= j < |xs| ==> !Matches(xs[j], tag)
    ensures Matching(xs, tag) == []
    decreases |xs|
  {
    if xs != [] {
      var front := xs[..|xs| - 1];
      forall j | 0 <= j < |front|
        ensures !Matches(front[j], tag)
      {
        assert front[j] == xs[j];
      }
      NoneMatching(front, tag);
    }
  }

  /** `ensure(in)`: a table as it is, anything else wrapped as element 0 of a new untagged array. */
  function Ensure(o: Obj): (r: Result<Table>)
    ensures r.Ok? <==> Storable(o)
    ensures r.Err? ==> r.error == IllegalArgument
    ensures o.Tbl? ==> r == Ok(o.t)
    ensures IsPrimitive(o) ==> r == Ok(Table("", [Entry(Integer(0), o)], true))
  {
    if o.Tbl? then Ok(o.t)
    else
      var step := AddStep(EmptyTable(""), o);
      if step.Err? then Err(step.error)
      else
        assert IsIndexKey(Integer(0), |EmptyTable("").entries|);
        assert !Contains([], Entry(Integer(0), o));
        assert Insert([], Entry(Integer(0), o)) == [Entry(Integer(0), o)];
        Ok(step.value)
  }
}
