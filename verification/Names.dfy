/**
 Names compared as Go compares strings, element by element with a proper prefix less, and
 sorted lists of names with repetitions.

 A list is kept sorted by inserting a name where sort.Strings would leave it after an append,
 and by removing its first occurrence.  Since a sorted list is determined by its multiset,
 two lists that hold each name equally often are the same.
 */
module Names {

  datatype Name = Name(text: string)

  predicate Less(a: string, b: string) {
    if b == "" then false
    else if a == "" then true
    else if a[0] != b[0] then a[0] < b[0]
    else Less(a[1..], b[1..])
  }

  /** The order is total ... */
  lemma {:induction false} LessTotal(a: string, b: string)
    ensures Less(a, b) || Less(b, a) || a == b
    ensures !(Less(a, b) && Less(b, a)) && !Less(a, a)
  {
    if a != "" && b != "" {
      LessTotal(a[1..], b[1..]);
      if a[0] == b[0] && a[1..] == b[1..] { assert a == [a[0]] + a[1..] && b == [b[0]] + b[1..]; }
    }
    if a != "" { LessTotal(a[1..], a[1..]); }
  }

  /** Less is lexicographic: at the first difference the lesser character is in the lesser string, and
      a proper prefix is less. */
  lemma {:induction false} LessIff(a: string, b: string)
    ensures Less(a, b) <==> (a < b || exists k :: 0 <= k < |a| && k < |b| && a[..k] == b[..k] && a[k] < b[k])
  {
    if a != "" && b != "" {
      LessIff(a[1..], b[1..]);
      assert a == [a[0]] + a[1..] && b == [b[0]] + b[1..];
      if a[0] == b[0] && Less(a[1..], b[1..]) && !(a[1..] < b[1..]) {
        var k :| 0 <= k < |a[1..]| && k < |b[1..]| && a[1..][..k] == b[1..][..k] && a[1..][k] < b[1..][k];
        assert a[..k + 1] == [a[0]] + a[1..][..k] && b[..k + 1] == [b[0]] + b[1..][..k];
        assert a[k + 1] < b[k + 1];
      }
      if k :| 0 <= k < |a| && k < |b| && a[..k] == b[..k] && a[k] < b[k] {
        if k == 0 {
          assert a[0] < b[0];
        } else {
          assert a[..k][0] == b[..k][0] && a[1..][..k - 1] == a[..k][1..] && b[1..][..k - 1] == b[..k][1..];
          assert a[1..][k - 1] < b[1..][k - 1];
        }
      }
    }
  }

  /** ... and transitive. */
  lemma {:induction false} LessTransitive(a: string, b: string, c: string)
    requires Less(a, b) && Less(b, c)
    ensures Less(a, c)
  {
    if a != "" && a[0] == b[0] && b[0] == c[0] { LessTransitive(a[1..], b[1..], c[1..]); }
  }

  predicate AtMost(a: Name, b: Name) { a == b || Less(a.text, b.text) }

  ghost predicate Sorted(s: seq<Name>) {
    forall i, j :: 0 <= i < j < |s| ==> AtMost(s[i], s[j])
  }

  ghost predicate StrictlySorted(s: seq<Name>) {
    forall i, j :: 0 <= i < j < |s| ==> Less(s[i].text, s[j].text)
  }

  lemma AtMostTransitive(a: Name, b: Name, c: Name)
    requires AtMost(a, b) && AtMost(b, c)
    ensures AtMost(a, c)
  {
    if a != b && b != c { LessTransitive(a.text, b.text, c.text); }
  }

  lemma AtMostTotal(a: Name, b: Name)
    ensures AtMost(a, b) || AtMost(b, a)
    ensures AtMost(a, b) && AtMost(b, a) ==> a == b
  {
    LessTotal(a.text, b.text);
  }

  lemma HeadIsLeast(s: seq<Name>, x: Name)
    requires s == [] || (Sorted(s) && AtMost(x, s[0]))
    ensures forall y :: y in s ==> AtMost(x, y)
  {
    forall y | y in s ensures AtMost(x, y) {
      if y != s[0] { AtMostTransitive(x, s[0], y); }
    }
  }

  /** sort.Strings after an append to a sorted list. */
  function Insert(s: seq<Name>, x: Name): seq<Name> {
    if s == [] || AtMost(x, s[0]) then [x] + s else [s[0]] + Insert(s[1..], x)
  }

  lemma {:induction false} InsertSorts(s: seq<Name>, x: Name)
    requires Sorted(s)
    ensures Sorted(Insert(s, x)) && multiset(Insert(s, x)) == multiset(s) + multiset{x}
  {
    if s == [] || AtMost(x, s[0]) {
      HeadIsLeast(s, x);
    } else {
      InsertSorts(s[1..], x);
      AtMostTotal(x, s[0]);
      assert s == [s[0]] + s[1..];
      forall y | y in Insert(s[1..], x) ensures AtMost(s[0], y) {
        assert y in multiset(Insert(s[1..], x));
        assert y == x || y in s[1..];
      }
    }
  }

  lemma MultisetTail(s: seq<Name>)
    requires s != []
    ensures multiset(s[1..]) == multiset(s) - multiset{s[0]} && s[0] in multiset(s)
  {
    assert s == [s[0]] + s[1..];
  }

  /** A sorted list is determined by how often each name occurs in it. */
  lemma {:induction false} SortedIsUnique(a: seq<Name>, b: seq<Name>)
    requires Sorted(a) && Sorted(b) && multiset(a) == multiset(b)
    ensures a == b
  {
    assert |a| == |multiset(a)| == |multiset(b)| == |b|;
    if a != [] {
      MultisetTail(a);
      MultisetTail(b);
      AtMostTotal(a[0], b[0]);
      SortedIsUnique(a[1..], b[1..]);
      assert a == [a[0]] + a[1..] && b == [b[0]] + b[1..];
    }
  }

  /** slices.Index followed by slices.Delete of the one element found. */
  function Remove(s: seq<Name>, x: Name): seq<Name> {
    if s == [] then []
    else if s[0] == x then s[1..]
    else [s[0]] + Remove(s[1..], x)
  }

  lemma {:induction false} RemoveTakesOne(s: seq<Name>, x: Name)
    ensures multiset(Remove(s, x)) == multiset(s) - multiset{x}
  {
    if s != [] {
      assert s == [s[0]] + s[1..];
      if s[0] != x { RemoveTakesOne(s[1..], x); }
    }
  }

  lemma {:induction false} RemoveKeepsSorted(s: seq<Name>, x: Name)
    requires Sorted(s)
    ensures Sorted(Remove(s, x)) && multiset(Remove(s, x)) == multiset(s) - multiset{x}
  {
    RemoveTakesOne(s, x);
    if s != [] && s[0] != x {
      var rest := Remove(s[1..], x);
      RemoveKeepsSorted(s[1..], x);
      forall y | y in rest ensures AtMost(s[0], y) {
        assert y in multiset(rest);
        assert y in s[1..];
      }
    }
  }

  /** slices.Compact */
  function Compact(s: seq<Name>): seq<Name> {
    if |s| <= 1 then s
    else if s[0] == s[1] then Compact(s[1..])
    else [s[0]] + Compact(s[1..])
  }

  lemma {:induction false} CompactIsDistinct(s: seq<Name>)
    requires Sorted(s)
    ensures StrictlySorted(Compact(s)) && forall x :: x in Compact(s) <==> x in s
  {
    if |s| > 1 {
      CompactIsDistinct(s[1..]);
      assert s == [s[0]] + s[1..];
      if s[0] != s[1] {
        forall y | y in s[1..] ensures Less(s[0].text, y.text) {
          if y != s[1] {
            assert AtMost(s[1], y);
            LessTransitive(s[0].text, s[1].text, y.text);
          }
        }
      }
    }
  }
}
