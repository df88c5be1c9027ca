/** `ListExtensions.RemoveFastAt`: removing an element from a list by moving the
    last element into its place. */
module ListExtensions {
  import opened Wrappers

  function RemoveFastAt<T>(list: seq<T>, index: int): (r: Result<seq<T>>)
    ensures r.Failure? <==> index < 0 || index >= |list|
    ensures r.Failure? ==> r.error == ArgumentOutOfRange
    ensures r.Success? ==> |r.value| == |list| - 1
    ensures r.Success? && index < |list| - 1 ==> r.value[index] == list[|list| - 1]
    ensures r.Success? ==> forall i :: 0 <= i < |r.value| && i != index ==> r.value[i] == list[i]
  {
    if index < 0 || index >= |list| then
      Failure(ArgumentOutOfRange)
    else
      Success(list[index := list[|list| - 1]][..|list| - 1])
  }

  /** The removal takes out exactly one occurrence of the element at `index`. */
  lemma RemoveFastAtMultiset<T>(list: seq<T>, index: int)
    requires 0 <= index < |list|
    ensures RemoveFastAt(list, index).Success?
    ensures multiset(RemoveFastAt(list, index).value) == multiset(list) - multiset{list[index]}
  {
    var last := |list| - 1;
    var r := RemoveFastAt(list, index).value;
    if index == last {
      assert list == r + [list[last]];
    } else {
      RemovalPieces(list, index);
      MoveLast(list[..index], list[index + 1..last], list[index], list[last]);
    }
  }

  /** Before the removal the list is the prefix, the element at `index`, the
      middle and the last element; after it, the last element sits between the
      prefix and the middle. */
  lemma RemovalPieces<T>(list: seq<T>, index: int)
    requires 0 <= index < |list| - 1
    ensures list == list[..index] + [list[index]] + list[index + 1..|list| - 1] + [list[|list| - 1]]
    ensures RemoveFastAt(list, index).value == list[..index] + [list[|list| - 1]] + list[index + 1..|list| - 1]
  {
  }

  /** Moving the last element into the place of `x` drops one `x`. */
  lemma MoveLast<T>(a: seq<T>, b: seq<T>, x: T, y: T)
    ensures multiset(a + [y] + b) == multiset(a + [x] + b + [y]) - multiset{x}
  {
    assert multiset(a + [x] + b + [y]) == multiset(a) + multiset{x} + multiset(b) + multiset{y};
    assert multiset(a + [y] + b) == multiset(a) + multiset{y} + multiset(b);
  }
}
