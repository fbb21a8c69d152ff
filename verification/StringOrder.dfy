/** The order by which strings are sorted. */
module StringOrder {

  predicate Less(a: string, b: string) {
    b != [] && (a == [] || a[0] < b[0] || (a[0] == b[0] && Less(a[1..], b[1..])))
  }

  lemma {:induction false} LessIsTransitive(a: string, b: string, c: string)
    requires Less(a, b) && Less(b, c)
    ensures Less(a, c)
  {
    if a != [] && a[0] == b[0] == c[0] {
      LessIsTransitive(a[1..], b[1..], c[1..]);
    }
  }

  lemma {:induction false} LessIsTotal(a: string, b: string)
    ensures Less(a, b) || Less(b, a) || a == b
    ensures !(Less(a, b) && Less(b, a)) && !Less(a, a)
  {
    if a != [] && b != [] {
      LessIsTotal(a[1..], b[1..]);
      if a[0] == b[0] && a[1..] == b[1..] {
        assert a == [a[0]] + a[1..] == b;
      }
    }
    if a != [] {
      LessIsTotal(a[1..], a[1..]);
    }
  }

  ghost predicate Ascending(keys: seq<string>) {
    forall i, j | 0 <= i < j < |keys| :: Less(keys[i], keys[j])
  }

  lemma AscendingIsUnique(keys: seq<string>)
    requires Ascending(keys)
    ensures forall i, j | 0 <= i < j < |keys| :: keys[i] != keys[j]
  {
    forall i, j | 0 <= i < j < |keys| ensures keys[i] != keys[j] {
      LessIsTotal(keys[i], keys[i]);
    }
  }

  method Insert(keys: seq<string>, key: string) returns (r: seq<string>)
    requires Ascending(keys) && key !in keys
    ensures Ascending(r) && |r| == |keys| + 1 && forall k :: k in r <==> k in keys || k == key
  {
    var n := 0;
    while n < |keys| && Less(keys[n], key)
      invariant 0 <= n <= |keys| && forall i | 0 <= i < n :: Less(keys[i], key)
    {
      n := n + 1;
    }
    forall i | n <= i < |keys| ensures Less(key, keys[i]) {
      LessIsTotal(keys[n], key);
      if i > n { LessIsTransitive(key, keys[n], keys[i]); }
    }
    r := keys[..n] + [key] + keys[n..];
    assert keys == keys[..n] + keys[n..];
  }

  lemma {:induction false} SameKeysSameOrder(a: seq<string>, b: seq<string>)
    requires Ascending(a) && Ascending(b) && forall k :: k in a <==> k in b
    ensures a == b
    decreases |a|
  {
    assert b != [] ==> b[0] in b;
    if a != [] {
      assert a[0] in b && b[0] in a;
      LeastIsFirst(a, b);
      forall k ensures k in a[1..] <==> k in b[1..] {
        AscendingIsUnique(a);
        AscendingIsUnique(b);
        InRest(a, k);
        InRest(b, k);
      }
      SameKeysSameOrder(a[1..], b[1..]);
      assert a == [a[0]] + a[1..] && b == [b[0]] + b[1..];
    }
  }

  lemma LeastIsFirst(a: seq<string>, b: seq<string>)
    requires Ascending(a) && Ascending(b) && a != [] && b != [] && a[0] in b && b[0] in a
    ensures a[0] == b[0]
  {
    LessIsTotal(a[0], b[0]);
    var i :| 0 <= i < |a| && a[i] == b[0];
    var j :| 0 <= j < |b| && b[j] == a[0];
  }

  lemma InRest(keys: seq<string>, k: string)
    requires keys != [] && forall i, j | 0 <= i < j < |keys| :: keys[i] != keys[j]
    ensures k in keys[1..] <==> k in keys && k != keys[0]
  {
    if k in keys && k != keys[0] {
      var i :| 0 <= i < |keys| && keys[i] == k;
      assert keys[1..][i - 1] == k;
    }
  }

  /** Stands for the library's sort of a map's keys. */
  method SortKeys(keys: set<string>) returns (r: seq<string>)
    ensures Ascending(r) && |r| == |keys| && forall k :: k in r <==> k in keys
  {
    r := [];
    var rest := keys;
    while rest != {}
      invariant Ascending(r) && rest <= keys && |r| + |rest| == |keys| && forall k :: k in r <==> k in keys && k !in rest
    {
      var k :| k in rest;
      r := Insert(r, k);
      rest := rest - {k};
    }
  }
}
