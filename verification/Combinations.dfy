/**
 Exhaustive enumeration of fixed-size selections: every strictly increasing
 choice of indices is visited exactly once, in lexicographic order.
 */
module Combinations {
  ghost predicate Increasing(c: seq<nat>) {
    forall i, j :: 0 <= i < j < |c| ==> c[i] < c[j]
  }

  /** A strictly increasing choice of `k` indices in `[low, n)`. */
  ghost predicate Selection(c: seq<nat>, n: nat, k: nat, low: nat) {
    |c| == k && Increasing(c) && forall i :: 0 <= i < |c| ==> low <= c[i] < n
  }

  predicate LexLess(a: seq<nat>, b: seq<nat>) {
    a != [] && b != [] && (a[0] < b[0] || (a[0] == b[0] && LexLess(a[1..], b[1..])))
  }

  ghost predicate LexSorted(cs: seq<seq<nat>>) {
    forall i, j :: 0 <= i < j < |cs| ==> LexLess(cs[i], cs[j])
  }

  ghost function Prefixed(head: nat, cs: seq<seq<nat>>): (r: seq<seq<nat>>)
    ensures |r| == |cs| && forall j :: 0 <= j < |cs| ==> r[j] == [head] + cs[j]
  {
    seq(|cs|, j requires 0 <= j < |cs| => [head] + cs[j])
  }

  /** All selections, in the order they are visited. */
  ghost function Combos(n: nat, k: nat, low: nat): seq<seq<nat>>
    decreases if low <= n then n - low else 0
  {
    if k == 0 then [[]]
    else if low + k > n then []
    else Prefixed(low, Combos(n, k - 1, low + 1)) + Combos(n, k, low + 1)
  }

  lemma {:induction false} CombosSound(n: nat, k: nat, low: nat, j: nat)
    requires j < |Combos(n, k, low)|
    ensures Selection(Combos(n, k, low)[j], n, k, low)
    decreases if low <= n then n - low else 0
  {
    if k > 0 && low + k <= n {
      var here := Combos(n, k - 1, low + 1);
      if j < |here| {
        CombosSound(n, k - 1, low + 1, j);
        var c := Combos(n, k, low)[j];
        assert c == [low] + here[j];
        assert forall i :: 0 < i < |c| ==> c[i] == here[j][i - 1];
      } else {
        CombosSound(n, k, low + 1, j - |here|);
      }
    }
  }

  /** Every selection is visited. */
  lemma {:induction false} CombosComplete(n: nat, k: nat, low: nat, c: seq<nat>)
    requires Selection(c, n, k, low)
    ensures c in Combos(n, k, low)
    decreases if low <= n then n - low else 0
  {
    hide Increasing;
    if k > 0 {
      SelectionFits(c, n, k, low);
      var here := Combos(n, k - 1, low + 1);
      if c[0] == low {
        SelectionTail(c, n, k, low);
        CombosComplete(n, k - 1, low + 1, c[1..]);
        var j :| 0 <= j < |here| && here[j] == c[1..];
        assert Combos(n, k, low)[j] == [low] + here[j] == c;
      } else {
        SelectionRaise(c, n, k, low);
        CombosComplete(n, k, low + 1, c);
      }
    }
  }

  lemma SelectionTail(c: seq<nat>, n: nat, k: nat, low: nat)
    requires Selection(c, n, k, low) && k > 0
    ensures Selection(c[1..], n, k - 1, c[0] + 1)
  {
  }

  lemma SelectionRaise(c: seq<nat>, n: nat, k: nat, low: nat)
    requires Selection(c, n, k, low) && k > 0 && c[0] != low
    ensures Selection(c, n, k, low + 1)
  {
  }

  lemma {:induction false} SelectionFits(c: seq<nat>, n: nat, k: nat, low: nat)
    requires Selection(c, n, k, low) && k > 0
    ensures low + k <= n
    decreases k
  {
    assert low <= c[0] < n;
    if k > 1 {
      SelectionTail(c, n, k, low);
      SelectionFits(c[1..], n, k - 1, c[0] + 1);
    }
  }

  /** They are visited in strict lexicographic order, hence no selection twice. */
  lemma {:induction false} CombosSorted(n: nat, k: nat, low: nat)
    ensures LexSorted(Combos(n, k, low))
    decreases if low <= n then n - low else 0
  {
    if k > 0 && low + k <= n {
      var here, later, all := Combos(n, k - 1, low + 1), Combos(n, k, low + 1), Combos(n, k, low);
      CombosSorted(n, k - 1, low + 1);
      CombosSorted(n, k, low + 1);
      forall i, j | 0 <= i < j < |all|
        ensures LexLess(all[i], all[j])
      {
        if j < |here| {
          assert all[i][1..] == here[i] && all[j][1..] == here[j];
        } else if i < |here| {
          CombosSound(n, k, low + 1, j - |here|);
          assert all[j] == later[j - |here|];
        } else {
          assert all[i] == later[i - |here|] && all[j] == later[j - |here|];
        }
      }
    }
  }

  lemma {:induction false} LexIrreflexive(a: seq<nat>)
    ensures !LexLess(a, a)
  {
    if a != [] {
      LexIrreflexive(a[1..]);
    }
  }

  lemma SortedHasNoDuplicates(cs: seq<seq<nat>>, i: nat, j: nat)
    requires LexSorted(cs) && i < j < |cs|
    ensures cs[i] != cs[j]
  {
    LexIrreflexive(cs[i]);
  }

  // ----- the visitor -----

  /** The values at the chosen indices. */
  ghost function Pick<T>(values: seq<T>, c: seq<nat>): (r: seq<T>)
    requires forall i :: 0 <= i < |c| ==> c[i] < |values|
    ensures |r| == |c|
  {
    seq(|c|, i requires 0 <= i < |c| => values[c[i]])
  }

  /** Callback arguments for a list of selections made on top of `chosen`. */
  ghost function Visits<T>(values: seq<T>, chosen: seq<T>, n: nat, k: nat, low: nat): (r: seq<seq<T>>)
    requires n == |values|
    ensures |r| == |Combos(n, k, low)|
  {
    seq(|Combos(n, k, low)|, j requires 0 <= j < |Combos(n, k, low)| =>
      CombosSound(n, k, low, j); chosen + Pick(values, Combos(n, k, low)[j]))
  }

  lemma PickCons<T>(values: seq<T>, chosen: seq<T>, low: nat, c: seq<nat>)
    requires low < |values| && forall i :: 0 <= i < |c| ==> c[i] < |values|
    ensures forall i :: 0 <= i < |c| + 1 ==> ([low] + c)[i] < |values|
    ensures chosen + Pick(values, [low] + c) == (chosen + [values[low]]) + Pick(values, c)
  {
    assert Pick(values, [low] + c) == [values[low]] + Pick(values, c);
  }

  lemma VisitsStep<T>(values: seq<T>, chosen: seq<T>, k: nat, low: nat)
    requires k > 0 && low + k <= |values|
    ensures Visits(values, chosen, |values|, k, low) ==
      Visits(values, chosen + [values[low]], |values|, k - 1, low + 1) + Visits(values, chosen, |values|, k, low + 1)
  {
    var n := |values|;
    var here := Combos(n, k - 1, low + 1);
    var all, left := Visits(values, chosen, n, k, low), Visits(values, chosen + [values[low]], n, k - 1, low + 1);
    forall j | 0 <= j < |here|
      ensures all[j] == left[j]
    {
      CombosSound(n, k - 1, low + 1, j);
      PickCons(values, chosen, low, here[j]);
    }
  }

  /** The recursion's shared selection buffer and the callback's arguments so far. */
  class Visitor<T> {
    const values: seq<T>
    const count: nat
    var selected: seq<T>
    var calls: seq<seq<T>>

    constructor (values: seq<T>, count: nat)
      ensures this.values == values && this.count == count && selected == [] && calls == []
    {
      this.values, this.count := values, count;
      selected, calls := [], [];
    }

    /** Pushes, recurses and pops; the buffer is restored and exactly the remaining selections are visited. */
    method Visit(start: nat)
      requires |selected| <= count && start <= |values|
      requires values != [] || count == |selected|
      modifies this
      ensures selected == old(selected)
      ensures calls == old(calls) + Visits(values, selected, |values|, count - |selected|, start)
      decreases count - |selected|
    {
      var n := |values|;
      if |selected| == count {
        calls := calls + [selected];
        assert Visits(values, selected, n, 0, start) == [selected] by {
          assert selected + Pick(values, []) == selected;
        }
        return;
      }
      var required := count - |selected|;
      ghost var chosen, whole := selected, Visits(values, selected, n, required, start);
      var last := if n >= required then n - required else 0;
      var index := start;
      while index <= last
        invariant start <= index <= last + 1 || index == start
        invariant index <= n
        invariant selected == chosen
        invariant calls + Visits(values, chosen, n, required, index) == old(calls) + whole
      {
        ghost var before := calls;
        selected := selected + [values[index]];
        Visit(index + 1);
        ghost var inner := Visits(values, chosen + [values[index]], n, required - 1, index + 1);
        if index + required <= n {
          VisitsStep(values, chosen, required, index);
          assert (before + inner) + Visits(values, chosen, n, required, index + 1)
              == before + Visits(values, chosen, n, required, index);
        } else {
          assert inner == [] && before + inner == before;
        }
        selected := selected[..|selected| - 1];
        index := index + 1;
      }
    }
  }

  /**
   Calls back once per selection of `count` values. An empty list with a
   positive count is the one input the recursion cannot handle.
   */
  method ForEachCombination<T>(values: seq<T>, count: nat) returns (calls: seq<seq<T>>)
    requires values != [] || count == 0
    ensures calls == Visits(values, [], |values|, count, 0)
  {
    var visitor := new Visitor<T>(values, count);
    visitor.Visit(0);
    calls := visitor.calls;
  }
}
