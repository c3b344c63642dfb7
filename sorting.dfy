/**
 * Column sorting: the `{key, direction}` state, the next direction on a
 * header click, the three-way comparator over one property, the sort of a
 * copy of the filtered list, and the arrow shown beside a column title.
 */
module Sorting {
  import opened Wrappers
  import opened Records
  import opened Text

  datatype Direction = Asc | Desc

  /** The `sort` state: the last clicked key (`null` at first) and its direction. */
  datatype SortState = SortState(key: Option<Field>, direction: Direction)

  const InitialSort: SortState := SortState(None, Asc)

  /** The direction a click on `key` sorts by. */
  function NextDirection(sort: SortState, key: Field): (d: Direction)
    ensures d == Desc <==> sort.key == Some(key) && sort.direction == Asc
  {
    if sort.key == Some(key) && sort.direction == Asc then Desc else Asc
  }

  /** The `sort` state after a click on `key`. */
  function ClickSort(sort: SortState, key: Field): (s: SortState)
    ensures s.key == Some(key)
    ensures s.direction == NextDirection(sort, key)
  {
    SortState(Some(key), NextDirection(sort, key))
  }

  /** Clicking the same header again always flips the direction. */
  lemma RepeatedClickFlips(sort: SortState, key: Field)
    ensures ClickSort(ClickSort(sort, key), key).direction != ClickSort(sort, key).direction
  {
  }

  /** Two clicks on the same header come back to the direction of the first. */
  lemma TwoMoreClicksRestore(sort: SortState, key: Field)
    ensures ClickSort(ClickSort(ClickSort(sort, key), key), key) == ClickSort(sort, key)
  {
  }

  /** A header that is not the current sort key always starts ascending. */
  lemma OtherKeyStartsAscending(sort: SortState, key: Field)
    requires sort.key != Some(key)
    ensures ClickSort(sort, key).direction == Asc
  {
  }

  /** `a[key] < b[key]`: false as soon as either side is undefined. */
  predicate KeyLess(a: Record, b: Record, key: Field)
  {
    Get(a, key).Some? && Get(b, key).Some? && LessStr(Get(a, key).value, Get(b, key).value)
  }

  /**
   * `<` between two records' values is a strict order on the records that
   * carry the key, total among them, and never holds with an undefined side.
   */
  lemma KeyLessStrictOrder(a: Record, b: Record, c: Record, key: Field)
    ensures Get(a, key).None? || Get(b, key).None? ==> !KeyLess(a, b, key) && !KeyLess(b, a, key)
    ensures !KeyLess(a, a, key)
    ensures KeyLess(a, b, key) && KeyLess(b, c, key) ==> KeyLess(a, c, key)
    ensures Get(a, key).Some? && Get(b, key).Some? ==>
      KeyLess(a, b, key) || Get(a, key) == Get(b, key) || KeyLess(b, a, key)
  {
    if Get(a, key).Some? {
      LessStrIrreflexive(Get(a, key).value);
      if Get(b, key).Some? {
        LessStrTotal(Get(a, key).value, Get(b, key).value);
        if KeyLess(a, b, key) && KeyLess(b, c, key) {
          LessStrTransitive(Get(a, key).value, Get(b, key).value, Get(c, key).value);
        }
      }
    }
  }

  /**
   * The comparator given to `.sort`; `a[key] > b[key]` is `b[key] < a[key]`.
   * A negative result puts `a` first, a positive one puts `b` first.
   */
  function Compare(a: Record, b: Record, key: Field, direction: Direction): (c: int)
    ensures c == -1 <==> if direction == Asc then KeyLess(a, b, key) else KeyLess(b, a, key)
    ensures c == 1 <==> if direction == Asc then KeyLess(b, a, key) else KeyLess(a, b, key)
    ensures c == 0 <==> !KeyLess(a, b, key) && !KeyLess(b, a, key)
  {
    if KeyLess(a, b, key) then
      LessStrAsymmetric(Get(a, key).value, Get(b, key).value);
      if direction == Asc then -1 else 1
    else if KeyLess(b, a, key) then
      if direction == Asc then 1 else -1
    else
      0
  }

  /** A record is level with itself. */
  lemma CompareSelf(a: Record, key: Field, direction: Direction)
    ensures Compare(a, a, key, direction) == 0
  {
    if Get(a, key).Some? {
      LessStrIrreflexive(Get(a, key).value);
    }
  }

  /** Descending order is ascending order reversed. */
  lemma CompareDescReverses(a: Record, b: Record, key: Field)
    ensures Compare(a, b, key, Desc) == -Compare(a, b, key, Asc)
  {
  }

  /** Swapping the arguments negates the comparator. */
  lemma CompareAntisymmetric(a: Record, b: Record, key: Field, direction: Direction)
    ensures Compare(a, b, key, direction) == -Compare(b, a, key, direction)
  {
  }

  /** "Must come before" is transitive, so it is a strict partial order. */
  lemma CompareTransitive(a: Record, b: Record, c: Record, key: Field, direction: Direction)
    requires Compare(a, b, key, direction) < 0 && Compare(b, c, key, direction) < 0
    ensures Compare(a, c, key, direction) < 0
  {
    if direction == Asc {
      LessStrTransitive(Get(a, key).value, Get(b, key).value, Get(c, key).value);
    } else {
      LessStrTransitive(Get(c, key).value, Get(b, key).value, Get(a, key).value);
    }
  }

  /** Where every record carries `key`, two records differ under the comparator unless their values are equal. */
  lemma CompareTotalOnDefined(a: Record, b: Record, key: Field, direction: Direction)
    requires Get(a, key).Some? && Get(b, key).Some?
    ensures Compare(a, b, key, direction) == 0 <==> Get(a, key) == Get(b, key)
  {
    LessStrTotal(Get(a, key).value, Get(b, key).value);
    LessStrIrreflexive(Get(a, key).value);
  }

  /** No record is placed after one that the comparator puts behind it. */
  ghost predicate Ordered(s: seq<Record>, key: Field, direction: Direction)
  {
    forall i, j :: 0 <= i < j < |s| ==> Compare(s[i], s[j], key, direction) <= 0
  }

  /**
   * Ascending order means no later value is `<` an earlier one; descending
   * order means no earlier value is `<` a later one.
   */
  lemma OrderedMeaning(s: seq<Record>, key: Field)
    ensures Ordered(s, key, Asc) <==> forall i, j :: 0 <= i < j < |s| ==> !KeyLess(s[j], s[i], key)
    ensures Ordered(s, key, Desc) <==> forall i, j :: 0 <= i < j < |s| ==> !KeyLess(s[i], s[j], key)
  {
  }

  /** An index of `a[lo..]` whose record the comparator puts before or level with every record there. */
  method MinimalFrom(a: array<Record>, lo: nat, key: Field, direction: Direction) returns (m: nat)
    requires lo < a.Length
    ensures lo <= m < a.Length
    ensures forall k :: lo <= k < a.Length ==> Compare(a[m], a[k], key, direction) <= 0
  {
    m := lo;
    CompareSelf(a[lo], key, direction);
    var k := lo + 1;
    while k < a.Length
      invariant lo <= m < k <= a.Length
      invariant forall t :: lo <= t < k ==> Compare(a[m], a[t], key, direction) <= 0
    {
      CompareAntisymmetric(a[k], a[m], key, direction);
      if Compare(a[k], a[m], key, direction) < 0 {
        forall t | lo <= t < k
          ensures Compare(a[k], a[t], key, direction) <= 0
        {
          CompareAntisymmetric(a[k], a[t], key, direction);
          if Compare(a[t], a[k], key, direction) < 0 {
            CompareTransitive(a[t], a[k], a[m], key, direction);
            CompareAntisymmetric(a[t], a[m], key, direction);
          }
        }
        m := k;
      }
      k := k + 1;
    }
  }

  /** Exchanges two cells of `a`. */
  method Swap(a: array<Record>, i: nat, j: nat)
    requires i < a.Length && j < a.Length
    modifies a
    ensures a[i] == old(a[j]) && a[j] == old(a[i])
    ensures forall k :: 0 <= k < a.Length && k != i && k != j ==> a[k] == old(a[k])
    ensures multiset(a[..]) == old(multiset(a[..]))
  {
    a[i], a[j] := a[j], a[i];
  }

  /** `[...filterData].sort(comparator)`: a sorted copy; the input list is left as it is. */
  method SortedCopy(s: seq<Record>, key: Field, direction: Direction) returns (r: seq<Record>)
    ensures multiset(r) == multiset(s)
    ensures Ordered(r, key, direction)
  {
    var a := new Record[|s|](i requires 0 <= i < |s| => s[i]);
    assert a[..] == s;
    var i := 0;
    while i < a.Length
      invariant 0 <= i <= a.Length
      invariant multiset(a[..]) == multiset(s)
      invariant forall p, q :: 0 <= p < i && p < q < a.Length ==> Compare(a[p], a[q], key, direction) <= 0
    {
      var m := MinimalFrom(a, i, key, direction);
      ghost var b := a[..];
      assert forall p, q :: 0 <= p < i && p < q < |b| ==> Compare(b[p], b[q], key, direction) <= 0;
      assert forall k :: i <= k < |b| ==> Compare(b[m], b[k], key, direction) <= 0;
      Swap(a, i, m);
      forall p, q | 0 <= p < i + 1 && p < q < a.Length
        ensures Compare(a[p], a[q], key, direction) <= 0
      {
        var q0 := if q == i then m else if q == m then i else q;
        assert a[q] == b[q0];
        if p < i {
          assert a[p] == b[p];
        } else {
          assert a[p] == b[m];
        }
      }
      i := i + 1;
    }
    r := a[..];
  }

  const ArrowAsc: string := " \U{25B2}"
  const ArrowDesc: string := " \U{25BC}"
  const ArrowNone: string := " \U{21C5}"

  /** The glyph beside a column title. */
  function GetArrow(sort: SortState, column: Field): (r: string)
    ensures r == ArrowAsc <==> sort.key == Some(column) && sort.direction == Asc
    ensures r == ArrowDesc <==> sort.key == Some(column) && sort.direction == Desc
    ensures r == ArrowNone <==> sort.key != Some(column)
  {
    if sort.key == Some(column) then
      match sort.direction
      case Asc => ArrowAsc
      case Desc => ArrowDesc
    else ArrowNone
  }

  /** After a click on `key` that column shows the new direction and every other column the neutral glyph. */
  lemma ArrowAfterClick(sort: SortState, key: Field, column: Field)
    ensures GetArrow(ClickSort(sort, key), column) ==
      if column != key then ArrowNone
      else if NextDirection(sort, key) == Asc then ArrowAsc else ArrowDesc
  {
  }
}
