/** The graph of grounded proofs (lib/justification.c). */
module JustificationGraphs {
  import opened Collections
  import opened Datalog

  predicate Uses(j: Justification, f: Triple, negated: bool) {
    Support(f, negated) in j.supports
  }

  /** The items, in order, that do not use the support. */
  function Without(items: seq<Justification>, f: Triple, negated: bool): seq<Justification> {
    if items == [] then []
    else (if Uses(items[0], f, negated) then [] else [items[0]]) + Without(items[1..], f, negated)
  }

  lemma {:induction false} WithoutFacts(items: seq<Justification>, f: Triple, negated: bool)
    ensures forall x :: x in Without(items, f, negated) <==> x in items && !Uses(x, f, negated)
    ensures |Without(items, f, negated)| <= |items|
    ensures NoDup(items) ==> NoDup(Without(items, f, negated))
  {
    if items != [] {
      WithoutFacts(items[1..], f, negated);
      assert NoDup(items) ==> NoDup(items[1..]) && items[0] !in items[1..];
    }
  }

  lemma WithoutStep(items: seq<Justification>, i: nat, f: Triple, negated: bool)
    requires i < |items|
    ensures if Uses(items[i], f, negated)
            then items[..i] + Without(items[i..], f, negated) ==
                 (items[..i] + items[i + 1..])[..i] + Without((items[..i] + items[i + 1..])[i..], f, negated)
            else items[..i] + Without(items[i..], f, negated) ==
                 items[..i + 1] + Without(items[i + 1..], f, negated)
  {
    assert items[i..][1..] == items[i + 1..];
    if Uses(items[i], f, negated) {
      var after := items[..i] + items[i + 1..];
      assert after[..i] == items[..i] && after[i..] == items[i + 1..];
    } else {
      assert items[..i + 1] == items[..i] + [items[i]];
    }
  }

  lemma WithoutEmpty(f: Triple, negated: bool)
    ensures Without([], f, negated) == []
  {
  }

  lemma {:induction false} WithoutNothing(items: seq<Justification>, f: Triple, negated: bool)
    requires forall j | j in items :: !Uses(j, f, negated)
    ensures Without(items, f, negated) == items
  {
    if items != [] { WithoutNothing(items[1..], f, negated); }
  }

  lemma {:induction false} WithoutAll(items: seq<Justification>, f: Triple, negated: bool)
    ensures |Without(items, f, negated)| == |items| ==> Without(items, f, negated) == items
  {
    if items != [] {
      WithoutFacts(items[1..], f, negated);
      WithoutAll(items[1..], f, negated);
    }
  }

  function CountOf(items: seq<Justification>, head: Triple): nat {
    if items == [] then 0
    else CountOf(items[..|items| - 1], head) + (if items[|items| - 1].head == head then 1 else 0)
  }

  lemma {:induction false} CountPositive(items: seq<Justification>, head: Triple)
    ensures CountOf(items, head) > 0 <==> exists j :: j in items && j.head == head
  {
    if items != [] {
      CountPositive(items[..|items| - 1], head);
      assert items == items[..|items| - 1] + [items[|items| - 1]];
    }
  }

  class JustificationGraph {
    var items: seq<Justification>
    /** Evaluation records proofs only while a graph is staged (justifications_staging is not NULL). */
    const enabled: bool

    constructor (enabled: bool)
      ensures items == [] && this.enabled == enabled
    {
      items := [];
      this.enabled := enabled;
    }

    /** justification_graph_add: a proof is stored once. */
    method Add(j: Justification) returns (added: bool)
      modifies this`items
      ensures added == (j !in old(items))
      ensures items == if added then old(items) + [j] else old(items)
      ensures NoDup(old(items)) ==> NoDup(items)
      ensures Elems(items) == Elems(old(items)) + {j}
    {
      for i := 0 to |items|
        invariant items == old(items) && forall k | 0 <= k < i :: items[k] != j
      {
        if items[i] == j { return false; }
      }
      items := items + [j];
      added := true;
    }

    /** justification_graph_clone */
    method Clone() returns (copy: JustificationGraph)
      requires NoDup(items)
      ensures fresh(copy) && copy.items == items && copy.enabled
    {
      copy := new JustificationGraph(true);
      for k := 0 to |items|
        invariant copy.items == items[..k] && NoDup(copy.items)
      {
        assert items[..k + 1] == items[..k] + [items[k]];
        var added := copy.Add(items[k]);
      }
      assert items[..|items|] == items;
    }

    /** justification_graph_count */
    method Count(head: Triple) returns (count: nat)
      ensures count == CountOf(items, head)
      ensures count > 0 <==> exists j :: j in items && j.head == head
    {
      count := 0;
      for i := 0 to |items|
        invariant count == CountOf(items[..i], head)
      {
        assert items[..i + 1][..i] == items[..i];
        if items[i].head == head { count := count + 1; }
      }
      assert items[..|items|] == items;
      CountPositive(items, head);
    }

    /** The conclusions of the proofs that use the support, each once. */
    method Conclusions(f: Triple, negated: bool) returns (conclusions: seq<Triple>)
      ensures NoDup(conclusions)
      ensures forall c :: c in conclusions <==> exists j :: j in items && Uses(j, f, negated) && j.head == c
    {
      conclusions := [];
      for i := 0 to |items|
        invariant NoDup(conclusions)
        invariant forall c :: c in conclusions <==> exists k :: 0 <= k < i && Uses(items[k], f, negated) && items[k].head == c
      {
        if Uses(items[i], f, negated) && items[i].head !in conclusions {
          conclusions := conclusions + [items[i].head];
        }
      }
    }

    /** justification_graph_remove_support: drop every proof that uses the support, reporting each
        conclusion that lost one, once. */
    method RemoveSupport(f: Triple, negated: bool) returns (removed: nat, conclusions: seq<Triple>)
      modifies this`items
      ensures items == Without(old(items), f, negated)
      ensures removed == |old(items)| - |items|
      ensures NoDup(conclusions)
      ensures forall c :: c in conclusions <==> exists j :: j in old(items) && Uses(j, f, negated) && j.head == c
    {
      hide Without, Uses;
      conclusions := Conclusions(f, negated);
      removed := 0;
      var i := 0;
      while i < |items|
        invariant 0 <= i <= |items| && removed == |old(items)| - |items|
        invariant Without(old(items), f, negated) == items[..i] + Without(items[i..], f, negated)
        decreases |items| - i
      {
        WithoutStep(items, i, f, negated);
        if Uses(items[i], f, negated) {
          items := items[..i] + items[i + 1..];
          removed := removed + 1;
        } else {
          i := i + 1;
        }
      }
      WithoutEmpty(f, negated);
      assert items[..i] == items && items[i..] == [];
    }
  }
}
