/**
  Comparisons and their laws: texts in byte order, and sorting by a comparison.
 */
module Order {
  datatype Ordering = Less | Equal | Greater

  function Then(first: Ordering, second: Ordering): Ordering
  {
    if first == Equal then second else first
  }

  function Compare(left: int, right: int): Ordering
  {
    if left < right then Less else if left == right then Equal else Greater
  }

  // `str::cmp`: the bytes in order, a proper prefix first.
  function TextCmp(left: string, right: string): Ordering
  {
    if left == "" then (if right == "" then Equal else Less)
    else if right == "" then Greater
    else Then(Compare(left[0] as int, right[0] as int), TextCmp(left[1..], right[1..]))
  }

  function Flip(o: Ordering): Ordering
  {
    match o case Less => Greater case Equal => Equal case Greater => Less
  }

  // How the comparisons of a with b and b with c determine that of a with c.
  predicate Composes(ab: Ordering, bc: Ordering, ac: Ordering)
  {
    (ab == Equal ==> ac == bc) && (bc == Equal ==> ac == ab) && (ab == bc ==> ac == ab)
  }

  lemma {:induction false} TextOrder(a: string, b: string, c: string)
    ensures TextCmp(b, a) == Flip(TextCmp(a, b))
    ensures Composes(TextCmp(a, b), TextCmp(b, c), TextCmp(a, c))
  {
    if a != "" && b != "" && c != "" {
      TextOrder(a[1..], b[1..], c[1..]);
    } else if a != "" && b != "" {
      TextOrder(a[1..], b[1..], "");
    }
  }

  // Equal text comparison means equal text.
  lemma {:induction false} TextEqual(left: string, right: string)
    ensures TextCmp(left, right) == Equal <==> left == right
  {
    if left != "" && right != "" {
      TextEqual(left[1..], right[1..]);
      assert left == [left[0]] + left[1..] && right == [right[0]] + right[1..];
    }
  }

  // ---------- Sorting ----------

  function InsertBy<T>(cmp: (T, T) -> Ordering, item: T, sorted: seq<T>): (r: seq<T>)
    ensures multiset(r) == multiset{item} + multiset(sorted)
  {
    if sorted == [] then [item]
    else if cmp(item, sorted[0]) != Greater then
      [item] + sorted
    else
      assert sorted == [sorted[0]] + sorted[1..];
      [sorted[0]] + InsertBy(cmp, item, sorted[1..])
  }

  // `slice::sort`: a stable sort.
  function SortBy<T>(cmp: (T, T) -> Ordering, items: seq<T>): (r: seq<T>)
    ensures multiset(r) == multiset(items)
  {
    if items == [] then []
    else
      assert items == [items[0]] + items[1..];
      InsertBy(cmp, items[0], SortBy(cmp, items[1..]))
  }

  ghost predicate Ascending<T(!new)>(cmp: (T, T) -> Ordering, items: seq<T>)
  {
    forall i, j :: 0 <= i < j < |items| ==> cmp(items[i], items[j]) == Less
  }

  // No two items at different places compare equal.
  ghost predicate Distinct<T(!new)>(cmp: (T, T) -> Ordering, items: seq<T>)
  {
    forall i, j :: 0 <= i < j < |items| ==> cmp(items[i], items[j]) != Equal
  }

  ghost predicate IsOrder<T(!new)>(cmp: (T, T) -> Ordering)
  {
    && (forall a, b :: cmp(b, a) == Flip(cmp(a, b)))
    && (forall a, b, c :: Composes(cmp(a, b), cmp(b, c), cmp(a, c)))
  }

  lemma {:induction false} InsertAscends<T(!new)>(cmp: (T, T) -> Ordering, item: T, sorted: seq<T>)
    requires IsOrder(cmp) && Ascending(cmp, sorted)
    requires forall i :: 0 <= i < |sorted| ==> cmp(item, sorted[i]) != Equal
    ensures Ascending(cmp, InsertBy(cmp, item, sorted))
  {
    if sorted != [] {
      var r := InsertBy(cmp, item, sorted);
      if cmp(item, sorted[0]) == Less {
        forall i | 1 <= i < |r|
          ensures cmp(item, r[i]) == Less
        {
          assert Composes(cmp(item, sorted[0]), cmp(sorted[0], sorted[i - 1]), cmp(item, sorted[i - 1]));
        }
      } else {
        var rest := InsertBy(cmp, item, sorted[1..]);
        InsertAscends(cmp, item, sorted[1..]);
        forall i | 0 <= i < |rest|
          ensures cmp(sorted[0], rest[i]) == Less
        {
          InsertedIs(cmp, item, sorted[1..], i);
        }
      }
    }
  }

  lemma InsertedIs<T(!new)>(cmp: (T, T) -> Ordering, item: T, sorted: seq<T>, i: nat)
    requires i < |InsertBy(cmp, item, sorted)|
    ensures InsertBy(cmp, item, sorted)[i] == item || InsertBy(cmp, item, sorted)[i] in sorted
  {
    var r := InsertBy(cmp, item, sorted);
    assert r[i] in multiset(r);
  }

  /**
    Sorting items that compare distinct puts them in strictly ascending order.
   */
  lemma {:induction false} SortAscends<T(!new)>(cmp: (T, T) -> Ordering, items: seq<T>)
    requires IsOrder(cmp) && Distinct(cmp, items)
    ensures Ascending(cmp, SortBy(cmp, items))
  {
    if items != [] {
      var rest := SortBy(cmp, items[1..]);
      SortAscends(cmp, items[1..]);
      forall i | 0 <= i < |rest|
        ensures cmp(items[0], rest[i]) != Equal
      {
        SortedIs(cmp, items[1..], i);
      }
      InsertAscends(cmp, items[0], rest);
    }
  }

  lemma SortedIs<T(!new)>(cmp: (T, T) -> Ordering, items: seq<T>, i: nat)
    requires i < |SortBy(cmp, items)|
    ensures SortBy(cmp, items)[i] in items
  {
    assert SortBy(cmp, items)[i] in multiset(SortBy(cmp, items));
  }

  // Sorting what is already ascending changes nothing.
  lemma {:induction false} SortIsIdle<T(!new)>(cmp: (T, T) -> Ordering, items: seq<T>)
    requires Ascending(cmp, items)
    ensures SortBy(cmp, items) == items
  {
    if items != [] {
      SortIsIdle(cmp, items[1..]);
      assert items == [items[0]] + items[1..];
    }
  }
}
