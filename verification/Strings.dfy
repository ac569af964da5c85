/** String operations of the Go library that the models share. */
module Strings {
  function IndexOfSlash(s: string): (i: nat)
    ensures i <= |s| && (i < |s| ==> s[i] == '/') && forall j :: 0 <= j < i ==> s[j] != '/'
  {
    if s == "" || s[0] == '/' then 0 else 1 + IndexOfSlash(s[1..])
  }

  predicate EndsWith(s: string, suffix: string) {
    |suffix| <= |s| && s[|s| - |suffix|..] == suffix
  }

  function TrimSuffix(s: string, suffix: string): string {
    if EndsWith(s, suffix) then s[..|s| - |suffix|] else s
  }

  /** The first occurrence of the old text, if there is one, replaced by the new one. */
  function ReplaceFirst(s: string, was: string, becomes: string): string {
    if was <= s then becomes + s[|was|..]
    else if s == "" then ""
    else [s[0]] + ReplaceFirst(s[1..], was, becomes)
  }

  /** Text that occurs first behind the front is replaced there and nowhere else. */
  lemma {:induction false} ReplacedExactly(front: string, was: string, becomes: string, rest: string)
    requires forall i :: 0 <= i < |front| ==> !(was <= (front + (was + rest))[i..])
    ensures ReplaceFirst(front + (was + rest), was, becomes) == front + (becomes + rest)
  {
    var s := front + (was + rest);
    if front == "" {
      assert s == was + rest && s[|was|..] == rest;
      assert front + (becomes + rest) == becomes + rest;
    } else {
      var tail := front[1..] + (was + rest);
      assert s[0..] == s && s[0] == front[0] && s[1..] == tail;
      forall i | 0 <= i < |front[1..]| ensures !(was <= tail[i..]) {
        assert tail[i..] == s[i + 1..];
      }
      ReplacedExactly(front[1..], was, becomes, rest);
      assert [front[0]] + (front[1..] + (becomes + rest)) == front + (becomes + rest);
    }
  }

  /** Text that does not occur is not replaced. */
  lemma {:induction false} NothingReplaced(s: string, was: string, becomes: string)
    requires forall i :: 0 <= i <= |s| ==> !(was <= s[i..])
    ensures ReplaceFirst(s, was, becomes) == s
  {
    assert s[0..] == s;
    if s != "" {
      forall i | 0 <= i <= |s[1..]| ensures !(was <= s[1..][i..]) {
        assert s[1..][i..] == s[i + 1..];
      }
      NothingReplaced(s[1..], was, becomes);
    }
  }

  // ----- sorted strings -----

  /** The order of sort.Strings. */
  predicate Less(a: string, b: string) {
    if b == "" then false
    else if a == "" then true
    else if a[0] != b[0] then a[0] < b[0]
    else Less(a[1..], b[1..])
  }

  /** The order is lexicographic: at the first difference the smaller character comes first, and a proper prefix
      before its continuations. */
  lemma {:induction false} LessExactly(a: string, b: string)
    ensures Less(a, b) <==>
            exists k :: 0 <= k <= |a| && k < |b| && a[..k] == b[..k] && (k == |a| || a[k] < b[k])
  {
    if a != "" && b != "" && a[0] == b[0] {
      LessExactly(a[1..], b[1..]);
      if k :| 0 <= k <= |a[1..]| && k < |b[1..]| && a[1..][..k] == b[1..][..k] && (k == |a[1..]| || a[1..][k] < b[1..][k]) {
        assert a[..k + 1] == [a[0]] + a[1..][..k] && b[..k + 1] == [b[0]] + b[1..][..k];
      }
      if k :| 0 <= k <= |a| && k < |b| && a[..k] == b[..k] && (k == |a| || a[k] < b[k]) {
        assert k > 0;
        assert a[1..][..k - 1] == a[..k][1..] && b[1..][..k - 1] == b[..k][1..];
      }
    } else if a == "" && b != "" {
      assert a[..0] == b[..0];
    } else if b != "" && a[0] != b[0] {
      assert a[..0] == b[..0];
      forall k | 0 < k <= |a| && k < |b| ensures a[..k] != b[..k] {
        assert a[..k][0] != b[..k][0];
      }
    }
  }

  lemma {:induction false} LessIsTotal(a: string, b: string)
    ensures Less(a, b) || a == b || Less(b, a)
    ensures !(Less(a, b) && Less(b, a)) && !Less(a, a)
  {
    if a != "" {
      LessIsTotal(a[1..], a[1..]);
    }
    if a != "" && b != "" && a[0] == b[0] {
      LessIsTotal(a[1..], b[1..]);
      assert a == [a[0]] + a[1..] && b == [b[0]] + b[1..];
    }
  }

  lemma {:induction false} LessIsTransitive(a: string, b: string, c: string)
    requires Less(a, b) && Less(b, c)
    ensures Less(a, c)
  {
    if a != "" && a[0] == b[0] == c[0] {
      LessIsTransitive(a[1..], b[1..], c[1..]);
    }
  }

  ghost predicate Increasing(s: seq<string>) {
    forall i, j :: 0 <= i < j < |s| ==> Less(s[i], s[j])
  }

  /** The sorted list of a set of strings. */
  ghost predicate IsSorted(s: seq<string>, keys: set<string>) {
    Increasing(s) && forall k :: k in keys <==> k in s
  }

  function Insert(s: seq<string>, k: string): seq<string> {
    if s == [] then [k]
    else if Less(k, s[0]) then [k] + s
    else [s[0]] + Insert(s[1..], k)
  }

  lemma {:induction false} InsertSorts(s: seq<string>, k: string)
    requires Increasing(s) && k !in s
    ensures Increasing(Insert(s, k)) && forall x :: x in Insert(s, k) <==> x == k || x in s
  {
    if s != [] {
      LessIsTotal(k, s[0]);
      if Less(k, s[0]) {
        forall j | 0 <= j < |s| ensures Less(k, s[j]) {
          if j > 0 {
            LessIsTransitive(k, s[0], s[j]);
          }
        }
      } else {
        InsertSorts(s[1..], k);
        assert s == [s[0]] + s[1..];
        forall x | x in Insert(s[1..], k) ensures Less(s[0], x) {
          if x != k {
            var j :| 0 <= j < |s[1..]| && s[1..][j] == x;
            assert x == s[j + 1];
          }
        }
      }
    }
  }

  /** A set has one sorted list, so the order in which its elements are met does not matter. */
  lemma {:induction false} SortedIsUnique(a: seq<string>, b: seq<string>, keys: set<string>)
    requires IsSorted(a, keys) && IsSorted(b, keys)
    ensures a == b
    decreases |a|
  {
    EmptySorted(a, keys);
    EmptySorted(b, keys);
    if a != [] {
      SameFirst(a, b, keys);
      SortedTail(a, keys);
      SortedTail(b, keys);
      SortedIsUnique(a[1..], b[1..], keys - {a[0]});
      assert a == [a[0]] + a[1..] && b == [b[0]] + b[1..];
    }
  }

  lemma EmptySorted(s: seq<string>, keys: set<string>)
    requires IsSorted(s, keys)
    ensures s == [] <==> keys == {}
  {
    if s != [] {
      assert s[0] in s;
    }
    if keys != {} {
      var k :| k in keys;
      assert k in s;
    }
  }

  lemma SameFirst(a: seq<string>, b: seq<string>, keys: set<string>)
    requires IsSorted(a, keys) && IsSorted(b, keys) && a != [] && b != []
    ensures a[0] == b[0]
  {
    assert a[0] in keys && b[0] in keys;
    var i :| 0 <= i < |b| && b[i] == a[0];
    var j :| 0 <= j < |a| && a[j] == b[0];
    LessIsTotal(a[0], b[0]);
  }

  lemma SortedTail(s: seq<string>, keys: set<string>)
    requires IsSorted(s, keys) && s != []
    ensures IsSorted(s[1..], keys - {s[0]})
  {
    LessIsTotal(s[0], s[0]);
    forall k ensures k in keys - {s[0]} <==> k in s[1..] {
      if k in s[1..] {
        var i :| 0 <= i < |s[1..]| && s[1..][i] == k;
        assert Less(s[0], s[i + 1]);
        assert k in s;
      }
      if k in keys - {s[0]} {
        var i :| 0 <= i < |s| && s[i] == k;
        assert s[1..][i - 1] == k;
      }
    }
  }

  ghost function Sorted(keys: set<string>): (s: seq<string>)
    ensures IsSorted(s, keys)
  {
    if keys == {} then []
    else
      var k :| k in keys;
      InsertSorts(Sorted(keys - {k}), k);
      Insert(Sorted(keys - {k}), k)
  }

  /** The sorted list has as many elements as the set. */
  lemma {:induction false} SortedSize(s: seq<string>, keys: set<string>)
    requires IsSorted(s, keys)
    ensures |s| == |keys|
    decreases |s|
  {
    EmptySorted(s, keys);
    if s != [] {
      SortedTail(s, keys);
      SortedSize(s[1..], keys - {s[0]});
      assert s[0] in s;
    }
  }

  /** Collecting the keys of a map in whatever order it yields them, then sorting them. */
  method SortedKeys(keys: set<string>) returns (s: seq<string>)
    ensures s == Sorted(keys)
  {
    s := [];
    var left := keys;
    while left != {}
      invariant left <= keys && IsSorted(s, keys - left)
      decreases left
    {
      var k :| k in left;
      InsertSorts(s, k);
      s := Insert(s, k);
      left := left - {k};
    }
    SortedIsUnique(s, Sorted(keys), keys);
  }
}
