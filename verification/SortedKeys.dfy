/** Sorting and compacting the keys that a cleanup collects. */
module SortedKeys {
  import opened Common

  /** Byte-wise order of strings. */
  predicate LexLe(a: string, b: string) {
    a == [] || (b != [] && (a[0] < b[0] || (a[0] == b[0] && LexLe(a[1..], b[1..]))))
  }

  lemma {:induction false} LexTotal(a: string, b: string)
    ensures LexLe(a, b) || LexLe(b, a)
    ensures LexLe(a, b) && LexLe(b, a) ==> a == b
  {
    if a != [] && b != [] && a[0] == b[0] {
      LexTotal(a[1..], b[1..]);
      assert a == [a[0]] + a[1..] && b == [b[0]] + b[1..];
    }
  }

  lemma {:induction false} LexTransitive(a: string, b: string, c: string)
    requires LexLe(a, b) && LexLe(b, c)
    ensures LexLe(a, c)
  {
    if a != [] && a[0] == b[0] == c[0] {
      LexTransitive(a[1..], b[1..], c[1..]);
    }
  }

  ghost predicate Sorted(s: seq<string>) {
    forall i, j :: 0 <= i < j < |s| ==> LexLe(s[i], s[j])
  }

  function Insert(x: string, s: seq<string>): seq<string> {
    if s == [] || LexLe(x, s[0]) then [x] + s else [s[0]] + Insert(x, s[1..])
  }

  function Sort(s: seq<string>): seq<string> {
    if s == [] then [] else Insert(s[0], Sort(s[1..]))
  }

  /** Drops every element that equals its predecessor. */
  function Compact(s: seq<string>): seq<string> {
    if |s| <= 1 then s
    else if s[0] == s[1] then Compact(s[1..])
    else [s[0]] + Compact(s[1..])
  }

  lemma {:induction false} InsertKeeps(x: string, s: seq<string>)
    requires Sorted(s)
    ensures Sorted(Insert(x, s))
    ensures Elems(Insert(x, s)) == Elems(s) + {x}
    ensures |Insert(x, s)| == |s| + 1
  {
    if s == [] {
    } else if LexLe(x, s[0]) {
      forall j | 0 <= j < |s| ensures LexLe(x, s[j]) {
        if j > 0 {
          LexTransitive(x, s[0], s[j]);
        }
      }
      ElemsConcat([x], s);
    } else {
      LexTotal(x, s[0]);
      var rest := Insert(x, s[1..]);
      InsertKeeps(x, s[1..]);
      assert s == [s[0]] + s[1..];
      ElemsConcat([s[0]], s[1..]);
      ElemsConcat([s[0]], rest);
      forall j | 0 <= j < |rest| ensures LexLe(s[0], rest[j]) {
        assert rest[j] in Elems(rest);
        if rest[j] != x {
          var i :| 0 <= i < |s[1..]| && s[1..][i] == rest[j];
        }
      }
    }
  }

  lemma {:induction false} SortSorts(s: seq<string>)
    ensures Sorted(Sort(s))
    ensures Elems(Sort(s)) == Elems(s)
    ensures |Sort(s)| == |s|
  {
    if s != [] {
      SortSorts(s[1..]);
      InsertKeeps(s[0], Sort(s[1..]));
      assert s == [s[0]] + s[1..];
      ElemsConcat([s[0]], s[1..]);
    }
  }

  lemma {:induction false} CompactSorted(s: seq<string>)
    requires Sorted(s)
    ensures NoDuplicates(Compact(s))
    ensures Elems(Compact(s)) == Elems(s)
  {
    if |s| > 1 {
      var rest := s[1..];
      CompactSorted(rest);
      assert s == [s[0]] + rest;
      ElemsConcat([s[0]], rest);
      if s[0] != s[1] {
        ElemsConcat([s[0]], Compact(rest));
        forall k | 0 <= k < |rest| ensures rest[k] != s[0] {
          LexTotal(s[0], s[1]);
        }
        assert s[0] !in Elems(Compact(rest));
      }
    }
  }

  /** Sorting and then compacting any list visits each of its members exactly once. */
  lemma SortCompactEnumerates(s: seq<string>)
    ensures NoDuplicates(Compact(Sort(s)))
    ensures Elems(Compact(Sort(s))) == Elems(s)
  {
    SortSorts(s);
    CompactSorted(Sort(s));
  }
}
