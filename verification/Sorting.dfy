/** Lexicographic order on strings and sorting by a string key. */
module Sorting {

  predicate Less(a: string, b: string) {
    b != "" && (a == "" || a[0] < b[0] || (a[0] == b[0] && Less(a[1..], b[1..])))
  }

  lemma {:induction false} Trichotomy(a: string, b: string)
    ensures Less(a, b) || a == b || Less(b, a)
    ensures !(Less(a, b) && Less(b, a)) && !Less(a, a)
  {
    if a != "" {
      Trichotomy(a[1..], a[1..]);
    }
    if a != "" && b != "" && a[0] == b[0] {
      Trichotomy(a[1..], b[1..]);
      assert a == [a[0]] + a[1..] && b == [b[0]] + b[1..];
    }
  }

  lemma {:induction false} Transitive(a: string, b: string, c: string)
    requires Less(a, b) && Less(b, c)
    ensures Less(a, c)
  {
    if a != "" && a[0] == b[0] && b[0] == c[0] {
      Transitive(a[1..], b[1..], c[1..]);
    }
  }

  /** A proper prefix comes first, and otherwise the first difference decides. */
  lemma {:induction false} LessExact(a: string, b: string)
    ensures Less(a, b) <==> a < b || exists i :: 0 <= i < |a| && i < |b| && a[..i] == b[..i] && a[i] < b[i]
  {
    if a != "" && b != "" {
      if a[0] == b[0] {
        LessExact(a[1..], b[1..]);
        assert a == [a[0]] + a[1..] && b == [b[0]] + b[1..];
        if i :| 0 <= i < |a[1..]| && i < |b[1..]| && a[1..][..i] == b[1..][..i] && a[1..][i] < b[1..][i] {
          assert a[..i + 1] == [a[0]] + a[1..][..i] && b[..i + 1] == [b[0]] + b[1..][..i];
          assert a[i + 1] < b[i + 1];
        }
        if i :| 0 <= i < |a| && i < |b| && a[..i] == b[..i] && a[i] < b[i] {
          assert i > 0;
          assert a[1..][..i - 1] == a[..i][1..] && b[1..][..i - 1] == b[..i][1..];
          assert a[1..][i - 1] < b[1..][i - 1];
        }
      } else {
        assert a[..0] == b[..0];
        forall i | 0 < i < |a| && i < |b| ensures a[..i] != b[..i] {
          assert a[..i][0] != b[..i][0];
        }
      }
    }
  }

  /** Strictly ascending, so also without repetition. */
  ghost predicate Ascending<T(!new)>(s: seq<T>, key: T -> string) {
    forall i, j :: 0 <= i < j < |s| ==> Less(key(s[i]), key(s[j]))
  }

  function Insert<T>(x: T, s: seq<T>, key: T -> string): seq<T> {
    if s == [] then [x]
    else if Less(key(x), key(s[0])) then [x] + s
    else [s[0]] + Insert(x, s[1..], key)
  }

  lemma {:induction false} InsertAscending<T(!new)>(x: T, s: seq<T>, key: T -> string)
    requires Ascending(s, key) && forall y :: y in s ==> key(y) != key(x)
    ensures Ascending(Insert(x, s, key), key)
    ensures forall y :: y in Insert(x, s, key) <==> y in s || y == x
    ensures |Insert(x, s, key)| == |s| + 1
  {
    if s != [] {
      var head, rest := s[0], s[1..];
      assert s == [head] + rest && head in s;
      Trichotomy(key(x), key(head));
      if Less(key(x), key(head)) {
        forall j | 0 <= j < |s| ensures Less(key(x), key(s[j])) {
          if j > 0 {
            Transitive(key(x), key(head), key(s[j]));
          }
        }
      } else {
        InsertAscending(x, rest, key);
        var tail := Insert(x, rest, key);
        forall j | 0 <= j < |tail| ensures Less(key(head), key(tail[j])) {
          assert tail[j] in tail;
          if tail[j] != x {
            var i :| 0 <= i < |rest| && rest[i] == tail[j];
            assert s[i + 1] == tail[j];
          }
        }
      }
    }
  }

  /** Sorting a sequence whose keys are distinct. */
  method SortBy<T(!new)>(s: seq<T>, key: T -> string) returns (t: seq<T>)
    requires forall i, j :: 0 <= i < j < |s| ==> key(s[i]) != key(s[j])
    ensures Ascending(t, key) && |t| == |s|
    ensures forall x :: x in t <==> x in s
  {
    t := [];
    for n := 0 to |s|
      invariant Ascending(t, key) && |t| == n
      invariant forall x :: x in t <==> x in s[..n]
    {
      forall y | y in t ensures key(y) != key(s[n]) {
        var i :| 0 <= i < n && s[..n][i] == y;
        assert s[i] == y;
      }
      InsertAscending(s[n], t, key);
      t := Insert(s[n], t, key);
      assert s[..n + 1] == s[..n] + [s[n]];
    }
    assert s[..|s|] == s;
  }
}
