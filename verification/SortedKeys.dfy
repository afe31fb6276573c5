/** sort.Strings over the keys of a map. Go visits a map in no fixed order; the listing below
    depends only on the key set, so whatever reads a sorted key list is deterministic. */
module SortedKeys {

  /** The order of sort.Strings. */
  predicate Less(a: string, b: string) {
    b != "" && (a == "" || a[0] < b[0] || (a[0] == b[0] && Less(a[1..], b[1..])))
  }

  lemma {:induction false} LessTransitive(a: string, b: string, c: string)
    requires Less(a, b) && Less(b, c)
    ensures Less(a, c)
  {
    if a != "" && a[0] == b[0] && b[0] == c[0] {
      LessTransitive(a[1..], b[1..], c[1..]);
    }
  }

  lemma {:induction false} LessTotal(a: string, b: string)
    ensures Less(a, b) || a == b || Less(b, a)
  {
    if a != "" && b != "" && a[0] == b[0] {
      LessTotal(a[1..], b[1..]);
      if a[1..] == b[1..] {
        assert a == [a[0]] + a[1..];
        assert b == [b[0]] + b[1..];
      }
    }
  }

  lemma {:induction false} LessIrreflexive(a: string)
    ensures !Less(a, a)
  {
    if a != "" { LessIrreflexive(a[1..]); }
  }

  predicate Ascending(ks: seq<string>) {
    |ks| < 2 || (Less(ks[0], ks[1]) && Ascending(ks[1..]))
  }

  /** In an ascending list every element is below every later one, so none occurs twice. */
  lemma {:induction false} AscendingPairs(ks: seq<string>)
    requires Ascending(ks)
    ensures forall i, j :: 0 <= i < j < |ks| ==> Less(ks[i], ks[j]) && ks[i] != ks[j]
  {
    if |ks| >= 2 {
      AscendingPairs(ks[1..]);
      forall i, j | 0 <= i < j < |ks| ensures Less(ks[i], ks[j]) && ks[i] != ks[j] {
        if i > 0 {
          assert ks[i] == ks[1..][i - 1] && ks[j] == ks[1..][j - 1];
        } else if j > 1 {
          assert ks[j] == ks[1..][j - 1] && ks[1] == ks[1..][0];
          LessTransitive(ks[0], ks[1], ks[j]);
        }
        LessIrreflexive(ks[j]);
      }
    }
  }

  function Elements(ks: seq<string>): set<string> {
    set k | k in ks
  }

  lemma ElementsSnoc(ks: seq<string>, i: nat)
    requires i < |ks|
    ensures Elements(ks[..i + 1]) == Elements(ks[..i]) + {ks[i]}
  {
    assert ks[..i + 1] == ks[..i] + [ks[i]];
  }

  /** Puts k in front of the first element above it. */
  function Insert(k: string, ks: seq<string>): (r: seq<string>)
    ensures Elements(r) == Elements(ks) + {k}
  {
    if ks == [] || Less(k, ks[0]) then
      assert Elements([k] + ks) == {k} + Elements(ks);
      [k] + ks
    else
      var rest := Insert(k, ks[1..]);
      assert ks == [ks[0]] + ks[1..] && Elements([ks[0]] + rest) == {ks[0]} + Elements(rest);
      [ks[0]] + rest
  }

  lemma {:induction false} InsertAscending(k: string, ks: seq<string>)
    requires Ascending(ks) && k !in ks
    ensures Ascending(Insert(k, ks))
    ensures var r := Insert(k, ks); r != [] && (r[0] == k || (ks != [] && r[0] == ks[0]))
  {
    if ks != [] && !Less(k, ks[0]) {
      LessTotal(k, ks[0]);
      InsertAscending(k, ks[1..]);
    }
  }

  lemma {:induction false} ListingExists(s: set<string>) returns (ks: seq<string>)
    ensures Ascending(ks) && Elements(ks) == s
  {
    if s == {} {
      ks := [];
    } else {
      var k :| k in s;
      var rest := ListingExists(s - {k});
      assert k !in Elements(rest);
      InsertAscending(k, rest);
      ks := Insert(k, rest);
    }
  }

  /** The sorted listing of a set of names; SortedUnique says there is only one. */
  ghost function Sorted(s: set<string>): (ks: seq<string>)
    ensures Ascending(ks) && Elements(ks) == s
  {
    assert exists ks :: Ascending(ks) && Elements(ks) == s by { var ks := ListingExists(s); }
    var ks :| Ascending(ks) && Elements(ks) == s;
    ks
  }

  /** A set has one sorted listing. */
  lemma {:induction false} SortedUnique(a: seq<string>, b: seq<string>)
    requires Ascending(a) && Ascending(b) && Elements(a) == Elements(b)
    ensures a == b
  {
    assert |a| > 0 <==> |b| > 0 by {
      assert forall k :: (k in a <==> k in Elements(a)) && (k in b <==> k in Elements(b));
      assert |a| > 0 ==> a[0] in a;
      assert |b| > 0 ==> b[0] in b;
    }
    if a != [] {
      AscendingPairs(a);
      AscendingPairs(b);
      assert a[0] in Elements(b) && b[0] in Elements(a);
      var j :| 0 <= j < |b| && b[j] == a[0];
      var i :| 0 <= i < |a| && a[i] == b[0];
      if i != 0 && j != 0 {
        LessTransitive(a[0], b[0], a[0]);
        LessIrreflexive(a[0]);
      }
      forall k | k in Elements(a[1..]) ensures k in Elements(b[1..]) { TailElement(a, b, k); }
      forall k | k in Elements(b[1..]) ensures k in Elements(a[1..]) { TailElement(b, a, k); }
      SortedUnique(a[1..], b[1..]);
      assert a == [a[0]] + a[1..] && b == [b[0]] + b[1..];
    }
  }

  lemma TailElement(a: seq<string>, b: seq<string>, k: string)
    requires Ascending(a) && Ascending(b) && Elements(a) == Elements(b)
    requires a != [] && b != [] && a[0] == b[0] && k in a[1..]
    ensures k in Elements(b[1..])
  {
    AscendingPairs(a);
    var i :| 1 <= i < |a| && a[i] == k;
    assert k in Elements(a);
    var j :| 0 <= j < |b| && b[j] == k;
    assert b[1..][j - 1] == k;
  }

  lemma SortedDistinct(s: set<string>)
    ensures forall i, j :: 0 <= i < j < |Sorted(s)| ==> Sorted(s)[i] != Sorted(s)[j]
    ensures |Sorted(s)| == |s|
  {
    var ks := Sorted(s);
    AscendingPairs(ks);
    DistinctCount(ks);
  }

  lemma {:induction false} DistinctCount(ks: seq<string>)
    requires forall i, j :: 0 <= i < j < |ks| ==> ks[i] != ks[j]
    ensures |Elements(ks)| == |ks|
  {
    if ks != [] {
      DistinctCount(ks[1..]);
      assert Elements(ks) == Elements(ks[1..]) + {ks[0]};
      assert ks[0] !in Elements(ks[1..]);
    }
  }

  /** Collects the keys in whatever order the map yields them, then sorts. */
  method CollectAndSort(names: set<string>) returns (ks: seq<string>)
    ensures ks == Sorted(names)
  {
    var left, collected := names, [];
    while left != {}
      invariant left <= names && Elements(collected) == names - left
      invariant forall i, j :: 0 <= i < j < |collected| ==> collected[i] != collected[j]
      decreases left
    {
      var k :| k in left;
      assert k !in Elements(collected);
      assert Elements(collected + [k]) == Elements(collected) + {k};
      collected := collected + [k];
      left := left - {k};
    }
    ks := SortStrings(collected);
    SortedUnique(ks, Sorted(names));
  }

  /** sort.Strings, on distinct names. */
  method SortStrings(names: seq<string>) returns (ks: seq<string>)
    requires forall i, j :: 0 <= i < j < |names| ==> names[i] != names[j]
    ensures Ascending(ks) && Elements(ks) == Elements(names)
  {
    ks := [];
    for n := 0 to |names|
      invariant Ascending(ks) && Elements(ks) == Elements(names[..n])
    {
      assert names[n] !in Elements(names[..n]) && names[n] !in Elements(ks);
      InsertAscending(names[n], ks);
      ks := Insert(names[n], ks);
      assert names[..n + 1] == names[..n] + [names[n]];
    }
    assert names[..|names|] == names;
  }
}
