/** The sort helpers shared by the renderer: the (Y, X) object comparator and a
    generic in-place sort through Go's `sort.Interface` (Len, Less, Swap). */
module Utils {
  import opened TmxObject

  /** `SortObjectsLess`: compare by Y, and by X when the Y coordinates agree. */
  predicate SortObjectsLess(a: Obj, b: Obj)
  {
    if a.y != b.y then a.y < b.y else a.x < b.x
  }

  /** The comparator is the strict lexicographic order on (Y, X). */
  lemma SortObjectsLessIsLexicographic(a: Obj, b: Obj)
    ensures SortObjectsLess(a, b) <==> a.y < b.y || (a.y == b.y && a.x < b.x)
  {
  }

  /** A strict order: irreflexive, asymmetric and transitive. */
  lemma SortObjectsLessIsStrict(a: Obj, b: Obj, c: Obj)
    ensures !SortObjectsLess(a, a)
    ensures SortObjectsLess(a, b) ==> !SortObjectsLess(b, a)
    ensures SortObjectsLess(a, b) && SortObjectsLess(b, c) ==> SortObjectsLess(a, c)
  {
  }

  /** Two objects neither of which is less than the other stand at the same
      point; so the order is total on positions. */
  lemma SortObjectsLessIsTotal(a: Obj, b: Obj)
    ensures !SortObjectsLess(a, b) && !SortObjectsLess(b, a) <==> a.x == b.x && a.y == b.y
  {
  }

  /** No neighbour pair of `s` is out of order under `less`. */
  ghost predicate AdjacentSorted<T>(s: seq<T>, less: (T, T) -> bool)
  {
    forall k :: 0 < k < |s| ==> !less(s[k], s[k - 1])
  }

  /** For the object comparator, sorted neighbours mean a sorted sequence:
      every object stands at or after every earlier one in (Y, X) order. */
  lemma {:induction false} AdjacentSortedObjects(s: seq<Obj>, i: nat, j: nat)
    requires AdjacentSorted(s, SortObjectsLess)
    requires i <= j < |s|
    ensures !SortObjectsLess(s[j], s[i])
    decreases j - i
  {
    if i < j {
      AdjacentSortedObjects(s, i, j - 1);
      assert !SortObjectsLess(s[j], s[j - 1]);
    }
  }

  /** `Sortable[T]`: a slice and its comparator, seen through `sort.Interface`. */
  class Sortable<T(!new)> {
    const data: array<T>
    const lessMethod: (T, T) -> bool

    constructor (data: array<T>, lessMethod: (T, T) -> bool)
      ensures this.data == data && this.lessMethod == lessMethod
    {
      this.data := data;
      this.lessMethod := lessMethod;
    }

    /** `Swap`: exchange positions i and j; nothing else moves. */
    method Swap(i: int, j: int)
      requires 0 <= i < data.Length && 0 <= j < data.Length
      modifies data
      ensures data[..] == old(data[..])[i := old(data[j])][j := old(data[i])]
      ensures multiset(data[..]) == multiset(old(data[..]))
    {
      var tmp := data[i];
      data[i] := data[j];
      data[j] := tmp;
    }

    /** `Less`. */
    function Less(i: int, j: int): bool
      requires 0 <= i < data.Length && 0 <= j < data.Length
      reads data
    {
      lessMethod(data[i], data[j])
    }

    /** `Len`. */
    function Len(): int
    {
      data.Length
    }
  }

  /** `sort.Sort` on a `Sortable`, as an insertion sort through `Len`, `Less`
      and `Swap`. The comparator must be asymmetric, as `sort.Interface`
      demands. */
  method Sort<T(!new)>(s: Sortable<T>)
    requires forall a, b :: s.lessMethod(a, b) ==> !s.lessMethod(b, a)
    modifies s.data
    ensures AdjacentSorted(s.data[..], s.lessMethod)
    ensures multiset(s.data[..]) == multiset(old(s.data[..]))
  {
    var n := s.Len();
    if n < 2 {
      return;
    }
    var i := 1;
    while i < n
      invariant 1 <= i <= n
      invariant forall k :: 0 < k < i ==> !s.lessMethod(s.data[k], s.data[k - 1])
      invariant multiset(s.data[..]) == multiset(old(s.data[..]))
    {
      var j := i;
      while j > 0 && s.Less(j, j - 1)
        invariant 0 <= j <= i
        invariant forall k :: 0 < k <= i && k != j ==> !s.lessMethod(s.data[k], s.data[k - 1])
        invariant 0 < j < i ==> !s.lessMethod(s.data[j + 1], s.data[j - 1])
        invariant multiset(s.data[..]) == multiset(old(s.data[..]))
      {
        ghost var d := s.data[..];
        assert !s.lessMethod(d[j - 1], d[j]);
        s.Swap(j, j - 1);
        assert s.data[j] == d[j - 1] && s.data[j - 1] == d[j];
        assert forall k :: 0 <= k < s.data.Length && k != j && k != j - 1 ==> s.data[k] == d[k];
        j := j - 1;
      }
      i := i + 1;
    }
  }

  /** `SortAny`: sort `data` in place and return the same slice. */
  method SortAny<T(!new)>(data: array<T>, lessMethod: (T, T) -> bool) returns (r: array<T>)
    requires forall a, b :: lessMethod(a, b) ==> !lessMethod(b, a)
    modifies data
    ensures r == data
    ensures AdjacentSorted(data[..], lessMethod)
    ensures multiset(data[..]) == multiset(old(data[..]))
  {
    var s := new Sortable(data, lessMethod);
    Sort(s);
    return s.data;
  }

  /** `SortAny` with the object comparator leaves the objects in ascending
      (Y, X) order. */
  method SortObjects(objects: array<Obj>)
    modifies objects
    ensures forall i, j :: 0 <= i <= j < objects.Length ==> !SortObjectsLess(objects[j], objects[i])
    ensures multiset(objects[..]) == multiset(old(objects[..]))
  {
    forall a, b
      ensures SortObjectsLess(a, b) ==> !SortObjectsLess(b, a)
    {
      SortObjectsLessIsStrict(a, b, a);
    }
    var sorted := SortAny(objects, SortObjectsLess);
    forall i, j | 0 <= i <= j < objects.Length
      ensures !SortObjectsLess(objects[j], objects[i])
    {
      AdjacentSortedObjects(objects[..], i, j);
    }
  }
}
