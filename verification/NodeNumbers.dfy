/**
  The numbering of a cluster's nodes (`get_next_free_node` and the names built by `create_node`,
  src/cluster/cluster_hoprd.rs:312-353).
 */
module NodeNumbers {
  import opened Wrappers
  import opened Ordering
  import opened Text

  function NodeName(cluster: string, number: nat): string {
    cluster + "-" + Decimal(number)
  }

  /** The number the operator reads from a node's name; None stops the caller. */
  function NumberOf(cluster: string, name: string): Option<int> {
    ParseI32(Remove(name, cluster + "-"))
  }

  /** Reading the number of a name gives back the number it was built from, for every cluster name. */
  lemma NameRoundTrip(cluster: string, number: nat)
    requires number < I32_LIMIT
    ensures NumberOf(cluster, NodeName(cluster, number)) == Some(number)
  {
    var pat := cluster + "-";
    var digits := Decimal(number);
    var name := NodeName(cluster, number);
    assert name == pat + digits;
    assert name[..|pat|] == pat && name[|pat|..] == digits;
    DecimalHasNo(number, '-');
    RemoveAbsent(digits, pat, '-');
    ParseDecimal(number, I32_LIMIT);
    DecimalDigits(number);
  }

  /** The numbers of all names, lowered by one; None when some name has no number. */
  function Values(cluster: string, names: seq<string>): Option<seq<int>> {
    if names == [] then Some([])
    else
      match Values(cluster, names[..|names| - 1])
      case None => None
      case Some(values) =>
        match NumberOf(cluster, names[|names| - 1])
        case None => None
        case Some(number) => Some(values + [number - 1])
  }

  /** The first index that differs from its value, or one behind the last, as a number from 1 on. */
  function FirstHole(values: seq<int>, index: nat): int
    requires index <= |values|
    decreases |values| - index
  {
    if index == |values| then 1
    else if index != values[index] then index + 1
    else if index == |values| - 1 then index + 2
    else FirstHole(values, index + 1)
  }

  method GetNextFreeNode(cluster: string, names: seq<string>) returns (next: Option<int>)
    ensures next == (match Values(cluster, names) case None => None case Some(values) => Some(FirstHole(Sort(values), 0)))
  {
    var values: seq<int> := [];
    for i := 0 to |names|
      invariant Values(cluster, names[..i]) == Some(values)
    {
      assert names[..i + 1][..i] == names[..i];
      var number := NumberOf(cluster, names[i]);
      if number.None? {
        NoValues(cluster, names, i + 1);
        return None;
      }
      values := values + [number.value - 1];
    }
    assert names[..|names|] == names;
    values := Sort(values);
    return Some(FirstHole(values, 0));
  }

  lemma {:induction false} NoValues(cluster: string, names: seq<string>, i: nat)
    requires i <= |names| && Values(cluster, names[..i]) == None
    ensures Values(cluster, names) == None
    decreases |names| - i
  {
    if i == |names| {
      assert names[..i] == names;
    } else {
      assert names[..i + 1][..i] == names[..i];
      NoValues(cluster, names, i + 1);
    }
  }

  /** The least number from `k` on that is not in `used`. */
  function Mex(used: set<nat>, k: nat): nat
    decreases |used|
  {
    if k in used then Mex(used - {k}, k + 1) else k
  }

  lemma {:induction false} MexIsLeast(used: set<nat>, k: nat)
    ensures Mex(used, k) >= k && Mex(used, k) !in used
    ensures forall i: nat :: k <= i < Mex(used, k) ==> i in used
    decreases |used|
  {
    if k in used {
      MexIsLeast(used - {k}, k + 1);
      forall i: nat | k <= i < Mex(used, k) ensures i in used {
        assert i > k ==> i in used - {k};
      }
    }
  }

  /** The numbers an i32 cannot hold begin here. */
  const I32_LIMIT := 0x8000_0000

  /** What the operator takes as the next number: it stops on a number it cannot read, and a node 0 hides all others. */
  function NextFree(used: set<nat>): Option<nat> {
    if exists k :: k in used && k >= I32_LIMIT then None
    else if 0 in used then Some(1)
    else Some(Mex(used, 1))
  }

  /** The least positive number outside `used`. */
  ghost predicate IsLeastFree(next: int, used: set<nat>) {
    && next > 0 && next !in used
    && (forall k: nat :: 0 < k < next ==> k in used)
  }

  lemma {:induction false} HoleIsLeast(values: seq<int>, index: nat)
    requires StrictlySorted(values) && index < |values| && (forall i :: 0 <= i < |values| ==> values[i] >= 0)
    requires forall i :: 0 <= i < index ==> values[i] == i
    ensures
      var next := FirstHole(values, index);
      && 1 <= next <= |values| + 1
      && (next - 1) !in values
      && (forall k :: 0 <= k < next - 1 ==> k in values)
    decreases |values| - index
  {
    if index != values[index] {
      assert values[index] > index by {
        if index > 0 {
          assert values[index - 1] < values[index];
        }
      }
      forall k | 0 <= k < index ensures k in values {
        assert values[k] == k;
      }
      assert forall i :: 0 <= i < |values| ==> values[i] != index;
    } else if index == |values| - 1 {
      forall k | 0 <= k <= index ensures k in values {
        assert values[k] == k;
      }
    } else {
      HoleIsLeast(values, index + 1);
    }
  }

  /** `names` lists the names of the nodes with the given numbers, each once. */
  ghost predicate Lists(cluster: string, names: seq<string>, numbers: seq<nat>) {
    && |names| == |numbers|
    && (forall i :: 0 <= i < |names| ==> names[i] == NodeName(cluster, numbers[i]))
    && (forall i, j :: 0 <= i < j < |numbers| ==> numbers[i] != numbers[j])
  }

  ghost predicate Readable(numbers: seq<nat>) {
    forall i :: 0 <= i < |numbers| ==> numbers[i] < I32_LIMIT
  }

  /** A number that is too large for the source's type cannot be read. */
  lemma NameTooLarge(cluster: string, number: nat)
    requires number >= I32_LIMIT
    ensures NumberOf(cluster, NodeName(cluster, number)) == None
  {
    var pat := cluster + "-";
    var digits := Decimal(number);
    var name := NodeName(cluster, number);
    assert name == pat + digits;
    assert name[..|pat|] == pat && name[|pat|..] == digits;
    DecimalHasNo(number, '-');
    RemoveAbsent(digits, pat, '-');
    DecimalDigits(number);
  }

  lemma {:induction false} ValuesUnreadable(cluster: string, names: seq<string>, numbers: seq<nat>)
    requires Lists(cluster, names, numbers) && !Readable(numbers)
    ensures Values(cluster, names) == None
  {
    var last := |names| - 1;
    if numbers[last] >= I32_LIMIT {
      NameTooLarge(cluster, numbers[last]);
    } else {
      ValuesUnreadable(cluster, names[..last], numbers[..last]);
    }
  }

  lemma {:induction false} ValuesOfNodes(cluster: string, names: seq<string>, numbers: seq<nat>)
    requires Lists(cluster, names, numbers) && Readable(numbers)
    ensures Values(cluster, names).Some? && |Values(cluster, names).value| == |numbers|
    ensures forall i :: 0 <= i < |numbers| ==> Values(cluster, names).value[i] + 1 == numbers[i]
  {
    if names != [] {
      var last := |names| - 1;
      ValuesOfNodes(cluster, names[..last], numbers[..last]);
      NameRoundTrip(cluster, numbers[last]);
    }
  }

  function ToSet(s: seq<nat>): set<nat> {
    set x | x in s
  }

  /** The hole of the sorted values is one, also when there are none. */
  lemma {:induction false} SortedHole(values: seq<int>)
    requires forall i, j :: 0 <= i < j < |values| ==> values[i] != values[j]
    requires forall i :: 0 <= i < |values| ==> values[i] >= 0
    ensures
      var next := FirstHole(Sort(values), 0);
      && 1 <= next <= |values| + 1
      && (next - 1) !in values
      && (forall k :: 0 <= k < next - 1 ==> k in values)
  {
    var sorted := Sort(values);
    SortCorrect(values);
    assert |sorted| == |multiset(sorted)| == |values|;
    forall x ensures x in sorted <==> x in values {
      assert x in multiset(sorted) <==> x in multiset(values);
    }
    if values != [] {
      DistinctSorts(values);
      forall i | 0 <= i < |sorted| ensures sorted[i] >= 0 {
        assert sorted[i] in values;
      }
      HoleIsLeast(sorted, 0);
    }
  }

  /**
    For nodes with any distinct positive numbers, listed in any order, `get_next_free_node`
    returns the least positive number no node has; it is at most one more than their count.
   */
  lemma NextFreeIsLeast(cluster: string, names: seq<string>, numbers: seq<nat>)
    requires Lists(cluster, names, numbers) && Readable(numbers) && 0 !in numbers
    ensures Values(cluster, names).Some?
    ensures
      var next := FirstHole(Sort(Values(cluster, names).value), 0);
      IsLeastFree(next, ToSet(numbers)) && next <= |numbers| + 1
  {
    ValuesOfNodes(cluster, names, numbers);
    var values := Values(cluster, names).value;
    var next := FirstHole(Sort(values), 0);
    forall i | 0 <= i < |values| ensures values[i] >= 0 {
      assert numbers[i] in numbers;
    }
    SortedHole(values);
    forall i | 0 <= i < |numbers| ensures numbers[i] != next {
      assert values[i] in values;
    }
    forall k: nat | 0 < k < next ensures k in ToSet(numbers) {
      assert k - 1 in values;
      var i :| 0 <= i < |values| && values[i] == k - 1;
      assert numbers[i] == k;
    }
  }

  /** A value below zero sorts to the front, where it differs from its index. */
  lemma ZeroHides(values: seq<int>)
    requires -1 in values && forall i :: 0 <= i < |values| ==> values[i] >= -1
    ensures FirstHole(Sort(values), 0) == 1
  {
    var sorted := Sort(values);
    SortCorrect(values);
    assert |sorted| == |multiset(sorted)| == |values|;
    assert -1 in multiset(sorted);
    var i :| 0 <= i < |sorted| && sorted[i] == -1;
    assert sorted[0] <= sorted[i];
  }

  /** For any distinct numbers in any order the result is `NextFree`. */
  lemma NextFreeExact(cluster: string, names: seq<string>, numbers: seq<nat>)
    requires Lists(cluster, names, numbers)
    ensures NextFree(ToSet(numbers)) ==
            (match Values(cluster, names) case None => None case Some(values) => Some(FirstHole(Sort(values), 0)))
  {
    if !Readable(numbers) {
      ValuesUnreadable(cluster, names, numbers);
      var i :| 0 <= i < |numbers| && numbers[i] >= I32_LIMIT;
      assert numbers[i] in ToSet(numbers);
    } else if 0 in numbers {
      ValuesOfNodes(cluster, names, numbers);
      var values := Values(cluster, names).value;
      var i :| 0 <= i < |numbers| && numbers[i] == 0;
      assert values[i] == -1;
      ZeroHides(values);
    } else {
      NextFreeIsLeast(cluster, names, numbers);
      MexIsLeast(ToSet(numbers), 1);
    }
  }

  lemma DistinctSorts(values: seq<int>)
    requires forall i, j :: 0 <= i < j < |values| ==> values[i] != values[j]
    ensures StrictlySorted(Sort(values))
  {
    SortCorrect(values);
    forall x ensures multiset(values)[x] <= 1 {
      DistinctCount(values, x);
    }
    SortedWithoutRepeats(Sort(values));
  }

  lemma {:induction false} DistinctCount(values: seq<int>, x: int)
    requires forall i, j :: 0 <= i < j < |values| ==> values[i] != values[j]
    ensures multiset(values)[x] <= 1
  {
    if values != [] {
      var rest := values[1..];
      assert values == [values[0]] + rest;
      DistinctCount(rest, x);
      if x == values[0] {
        assert x !in rest;
        assert multiset(rest)[x] == 0;
      }
    }
  }
}
