/**
 * ObservableList<T>: a list whose mutators signal the Update event only when they
 * really change something (by the source's own test for each mutator).
 */
module ObservableLists {
  import opened Observable
  import opened Sequences

  class ObservableList<T(==)> {
    /** The BaseObservable part of the list. */
    const obs: BaseObservable
    /** The inner List<T>. */
    var items: seq<T>

    ghost predicate Valid()
      reads this, obs, obs.openTokens
    {
      obs.Valid()
    }

    /** Covers the three constructors: empty, from a collection, with a capacity (which is not observable). */
    constructor (initial: seq<T>)
      ensures Valid() && fresh(obs) && items == initial
      ensures obs.State() == Initial && obs.openTokens == {}
    {
      obs := new BaseObservable();
      items := initial;
    }

    // ---- read-only members: functions, so they change nothing and signal nothing ----

    function Count(): (n: nat)
      reads this
      ensures n == |items|
    {
      |items|
    }

    function Get(index: int): (x: T)
      requires 0 <= index < |items|
      reads this
      ensures x in items
    {
      items[index]
    }

    function Contains(x: T): (r: bool)
      reads this
      ensures r <==> exists i :: 0 <= i < |items| && items[i] == x
    {
      x in items
    }

    /** IndexOf(item): the first position holding item, or -1. */
    function IndexOf(x: T): (r: int)
      reads this
      ensures -1 <= r < |items|
      ensures r >= 0 ==> items[r] == x && forall i :: 0 <= i < r ==> items[i] != x
      ensures r == -1 ==> forall i :: 0 <= i < |items| ==> items[i] != x
    {
      Sequences.IndexOf(items, x)
    }

    /** FindIndex(pred): the first position whose element matches, or -1. */
    function FindIndex(pred: T -> bool): (r: int)
      reads this
      ensures -1 <= r < |items|
      ensures r >= 0 ==> pred(items[r]) && forall i :: 0 <= i < r ==> !pred(items[i])
      ensures r == -1 ==> forall i :: 0 <= i < |items| ==> !pred(items[i])
    {
      Sequences.FindIndex(items, pred)
    }

    /** GetRange(index, count): a copy of count elements starting at index. */
    function GetRange(index: int, count: int): (r: seq<T>)
      requires 0 <= index && 0 <= count && index + count <= |items|
      reads this
      ensures |r| == count && forall i :: 0 <= i < count ==> r[i] == items[index + i]
    {
      items[index..index + count]
    }

    function ToArray(): (r: seq<T>)
      reads this
      ensures |r| == |items| && forall i :: 0 <= i < |r| ==> r[i] == items[i]
    {
      items
    }

    // ---- mutators ----

    method Add(item: T)
      requires Valid()
      modifies this, obs
      ensures Valid() && obs.openTokens == old(obs.openTokens)
      ensures items == old(items) + [item]
      ensures obs.State() == Signal(old(obs.State()))
    {
      items := items + [item];
      obs.SignalUpdate();
    }

    method Insert(index: int, item: T)
      requires Valid()
      requires 0 <= index <= |items|
      modifies this, obs
      ensures Valid() && obs.openTokens == old(obs.openTokens)
      ensures items == old(items[..index]) + [item] + old(items[index..])
      ensures obs.State() == Signal(old(obs.State()))
    {
      items := items[..index] + [item] + items[index..];
      obs.SignalUpdate();
    }

    /** Remove(item): removes the first occurrence; signals iff something was removed. */
    method Remove(item: T) returns (removed: bool)
      requires Valid()
      modifies this, obs
      ensures Valid() && obs.openTokens == old(obs.openTokens)
      ensures removed <==> item in old(items)
      ensures items == RemoveFirst(old(items), item)
      ensures !removed ==> items == old(items)
      ensures obs.State() == SignalIf(old(obs.State()), removed)
    {
      removed := item in items;
      items := RemoveFirst(items, item);
      if removed {
        obs.SignalUpdate();
      }
    }

    /** RemoveAll(pred): returns how many elements were removed; signals iff that is not zero. */
    method RemoveAll(pred: T -> bool) returns (result: int)
      requires Valid()
      modifies this, obs
      ensures Valid() && obs.openTokens == old(obs.openTokens)
      ensures items == RemoveWhere(old(items), pred)
      ensures result == CountWhere(old(items), pred)
      ensures result == 0 ==> items == old(items)
      ensures obs.State() == SignalIf(old(obs.State()), result != 0)
    {
      var before := items;
      items := RemoveWhere(items, pred);
      result := |before| - |items|;
      RemoveWhereCount(before, pred);
      if result == 0 {
        RemoveWhereNoMatch(before, pred);
      }
      if result != 0 {
        obs.SignalUpdate();
      }
    }

    method RemoveAt(index: int)
      requires Valid()
      requires 0 <= index < |items|
      modifies this, obs
      ensures Valid() && obs.openTokens == old(obs.openTokens)
      ensures items == old(items[..index]) + old(items[index + 1..])
      ensures obs.State() == Signal(old(obs.State()))
    {
      items := items[..index] + items[index + 1..];
      obs.SignalUpdate();
    }

    /** RemoveRange(index, count): signals iff count > 0. */
    method RemoveRange(index: int, count: int)
      requires Valid()
      requires 0 <= index && 0 <= count && index + count <= |items|
      modifies this, obs
      ensures Valid() && obs.openTokens == old(obs.openTokens)
      ensures items == old(items[..index]) + old(items[index + count..])
      ensures count == 0 ==> items == old(items)
      ensures obs.State() == SignalIf(old(obs.State()), count > 0)
    {
      items := items[..index] + items[index + count..];
      assert count == 0 ==> items == old(items);
      if count > 0 {
        obs.SignalUpdate();
      }
    }

    /** AddRange(collection): signals iff the length changed, that is, iff the collection is not empty. */
    method AddRange(collection: seq<T>)
      requires Valid()
      modifies this, obs
      ensures Valid() && obs.openTokens == old(obs.openTokens)
      ensures items == old(items) + collection
      ensures obs.State() == SignalIf(old(obs.State()), |items| != |old(items)|)
    {
      var oldCount := |items|;
      items := items + collection;
      if oldCount != |items| {
        obs.SignalUpdate();
      }
    }

    /** InsertRange(index, collection): signals iff the length changed. */
    method InsertRange(index: int, collection: seq<T>)
      requires Valid()
      requires 0 <= index <= |items|
      modifies this, obs
      ensures Valid() && obs.openTokens == old(obs.openTokens)
      ensures items == old(items[..index]) + collection + old(items[index..])
      ensures obs.State() == SignalIf(old(obs.State()), |items| != |old(items)|)
    {
      var oldCount := |items|;
      items := items[..index] + collection + items[index..];
      if oldCount != |items| {
        obs.SignalUpdate();
      }
    }

    /** Clear: an empty list is left alone and nothing fires. */
    method Clear()
      requires Valid()
      modifies this, obs
      ensures Valid() && obs.openTokens == old(obs.openTokens)
      ensures items == []
      ensures obs.State() == SignalIf(old(obs.State()), old(items) != [])
    {
      if |items| == 0 {
        return;
      }
      items := [];
      obs.SignalUpdate();
    }

    /** Reverse(): fewer than two elements leave the list unchanged and nothing fires. */
    method Reverse()
      requires Valid()
      modifies this, obs
      ensures Valid() && obs.openTokens == old(obs.openTokens)
      ensures items == Reversed(old(items))
      ensures |old(items)| < 2 ==> items == old(items)
      ensures obs.State() == SignalIf(old(obs.State()), |old(items)| >= 2)
    {
      if |items| < 2 {
        ReversedShort(items);
        return;
      }
      items := Reversed(items);
      obs.SignalUpdate();
    }

    /**
     * Reverse(index, count): a count below two returns before the range is checked,
     * so only a count of two or more demands a valid range.
     */
    method ReverseRange(index: int, count: int)
      requires Valid()
      requires count >= 2 ==> 0 <= index && index + count <= |items|
      modifies this, obs
      ensures Valid() && obs.openTokens == old(obs.openTokens)
      ensures count < 2 ==> items == old(items)
      ensures count >= 2 ==> items == old(items[..index]) + Reversed(old(items[index..index + count])) + old(items[index + count..])
      ensures obs.State() == SignalIf(old(obs.State()), count >= 2)
    {
      if count < 2 {
        return;
      }
      items := items[..index] + Reversed(items[index..index + count]) + items[index + count..];
      obs.SignalUpdate();
    }

    /** Sort (with the default comparer, an IComparer or a Comparison): always signals. */
    method Sort(leq: (T, T) -> bool)
      requires Valid()
      requires TotalPreorderOn(items, leq)
      modifies this, obs
      ensures Valid() && obs.openTokens == old(obs.openTokens)
      ensures multiset(items) == multiset(old(items))
      ensures Sorted(items, leq)
      ensures obs.State() == Signal(old(obs.State()))
    {
      SortBySorted(items, leq);
      items := SortBy(items, leq);
      obs.SignalUpdate();
    }

    /** Sort(index, count, comparer): sorts one range in place; always signals. */
    method SortRange(index: int, count: int, leq: (T, T) -> bool)
      requires Valid()
      requires 0 <= index && 0 <= count && index + count <= |items|
      requires TotalPreorderOn(items[index..index + count], leq)
      modifies this, obs
      ensures Valid() && obs.openTokens == old(obs.openTokens)
      ensures |items| == |old(items)|
      ensures items[..index] == old(items[..index]) && items[index + count..] == old(items[index + count..])
      ensures multiset(items[index..index + count]) == multiset(old(items[index..index + count]))
      ensures Sorted(items[index..index + count], leq)
      ensures obs.State() == Signal(old(obs.State()))
    {
      var middle := items[index..index + count];
      SortBySorted(middle, leq);
      var sorted := SortBy(middle, leq);
      items := items[..index] + sorted + items[index + count..];
      assert items[index..index + count] == sorted;
      obs.SignalUpdate();
    }

    /** The indexer setter: always signals, even when the stored value is written again. */
    method SetAt(index: int, value: T)
      requires Valid()
      requires 0 <= index < |items|
      modifies this, obs
      ensures Valid() && obs.openTokens == old(obs.openTokens)
      ensures items == old(items)[index := value]
      ensures obs.State() == Signal(old(obs.State()))
    {
      items := items[index := value];
      obs.SignalUpdate();
    }
  }
}
