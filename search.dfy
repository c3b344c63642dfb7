/**
 * The search filter: a record is kept when one of four properties is
 * defined and, lowercased, includes the lowercased query.  The kept
 * records keep their order.
 */
module Search {
  import opened Wrappers
  import opened Records
  import opened Text

  /** The properties the search looks at, in the order `.some` tries them. */
  const SearchedFields: seq<Field> := [ApplicantName, StatusEn, StatusAr, StudentID]

  /**
   * `item[key]?.toLowerCase().includes(lq)`: an undefined property gives
   * `undefined`, which is falsy; a defined one is tested by substring.
   */
  function FieldIncludes(v: Option<string>, lq: string): (b: bool)
    ensures b <==> v.Some? && exists i: nat :: OccursAt(Lower(v.value), lq, i)
  {
    v.Some? && Includes(Lower(v.value), lq)
  }

  /** `keys.some(key => ...)`: holds exactly when one of the keys holds. */
  function SomeFieldIncludes(item: Record, keys: seq<Field>, lq: string): (b: bool)
    ensures b <==> exists k :: k in keys && FieldIncludes(Get(item, k), lq)
  {
    if |keys| == 0 then false
    else
      assert keys == [keys[0]] + keys[1..];
      FieldIncludes(Get(item, keys[0]), lq) || SomeFieldIncludes(item, keys[1..], lq)
  }

  /**
   * The filter callback, with the query lowercased once as the effect does:
   * one of the four searched properties is defined and includes the query,
   * ignoring case.
   */
  function Matches(item: Record, query: string): (b: bool)
    ensures b <==>
      exists k :: k in SearchedFields && Get(item, k).Some? && Includes(Lower(Get(item, k).value), Lower(query))
  {
    SomeFieldIncludes(item, SearchedFields, Lower(query))
  }

  /** `applicationData.filter(...)`. */
  function Filter(data: seq<Record>, query: string): (r: seq<Record>)
    ensures |r| <= |data|
    ensures forall x :: x in r <==> x in data && Matches(x, query)
  {
    if data == [] then []
    else (if Matches(data[0], query) then [data[0]] else []) + Filter(data[1..], query)
  }

  /**
   * The search ignores letter case: two queries that lowercase to the same
   * string, such as "ALI" and "aLi", select the same records.
   */
  lemma QueryCaseInsensitive(item: Record, q1: string, q2: string)
    requires |q1| == |q2|
    requires forall i :: 0 <= i < |q1| ==> LowerChar(q1[i]) == LowerChar(q2[i])
    ensures Matches(item, q1) == Matches(item, q2)
  {
    assert Lower(q1) == Lower(q2);
  }

  /**
   * With an empty query a record is kept exactly when one of the four
   * searched properties is defined: `includes("")` is only reached through `?.`.
   */
  lemma EmptyQueryMatches(item: Record)
    ensures Matches(item, "") <==> exists k :: k in SearchedFields && Get(item, k).Some?
  {
    forall k | k in SearchedFields && Get(item, k).Some?
      ensures Includes(Lower(Get(item, k).value), Lower(""))
    {
      IncludesEmpty(Lower(Get(item, k).value));
    }
  }

  /** Filtering a concatenation filters each part and keeps them in order. */
  lemma {:induction false} FilterAppend(a: seq<Record>, b: seq<Record>, query: string)
    ensures Filter(a + b, query) == Filter(a, query) + Filter(b, query)
  {
    if a == [] {
      assert a + b == b;
    } else {
      assert (a + b)[0] == a[0];
      assert (a + b)[1..] == a[1..] + b;
      FilterAppend(a[1..], b, query);
    }
  }

  /** Each record is kept as often as it occurs when it matches, and dropped otherwise. */
  lemma {:induction false} FilterCounts(data: seq<Record>, query: string, x: Record)
    ensures multiset(Filter(data, query))[x] == if Matches(x, query) then multiset(data)[x] else 0
  {
    if data != [] {
      FilterCounts(data[1..], query, x);
      assert data == [data[0]] + data[1..];
    }
  }

  /** With an empty query nothing is dropped from data whose records all carry a searched property. */
  lemma {:induction false} FilterEmptyQueryKeepsAll(data: seq<Record>)
    requires forall x :: x in data ==> exists k :: k in SearchedFields && Get(x, k).Some?
    ensures Filter(data, "") == data
  {
    if data != [] {
      assert data[0] in data;
      EmptyQueryMatches(data[0]);
      assert forall x :: x in data[1..] ==> x in data;
      FilterEmptyQueryKeepsAll(data[1..]);
      assert data == [data[0]] + data[1..];
    }
  }

  /** Query "ali" finds applicant "Ali Hassan" and not applicant "Omar". */
  lemma AliScenario(ali: Record, omar: Record)
    requires ali == Record(None, Some("Ali Hassan"), None, None, None, None, None, None)
    requires omar == Record(None, Some("Omar"), None, None, None, None, None, None)
    ensures Matches(ali, "ali")
    ensures !Matches(omar, "ali")
  {
    var q := Lower("ali");
    assert q == "ali" by {
      assert q[0] == 'a' && q[1] == 'l' && q[2] == 'i';
    }
    var la := Lower("Ali Hassan");
    assert la[..3] == "ali" by {
      assert la[0] == 'a' && la[1] == 'l' && la[2] == 'i';
    }
    assert OccursAt(la, q, 0);
    var lo := Lower("Omar");
    assert lo[0] == 'o' && lo[1] == 'm';
    assert forall i: nat :: !OccursAt(lo, q, i);
  }
}
