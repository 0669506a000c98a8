/** Byte-wise key order, as redb iterates and `list_nodes` sorts. */
module Ordering {

  predicate Less(a: string, b: string) {
    if b == [] then false
    else if a == [] then true
    else a[0] < b[0] || (a[0] == b[0] && Less(a[1..], b[1..]))
  }

  /** The strings agree up to `i`, where the first ends or has the smaller character. */
  predicate SmallerAt(a: string, b: string, i: nat) {
    i <= |a| && i < |b| && a[..i] == b[..i] && (i == |a| || a[i] < b[i])
  }

  /** The order of strings: by the first character that differs, a proper prefix first. */
  lemma {:induction false} LessExactly(a: string, b: string)
    ensures Less(a, b) <==> exists i: nat :: i < |b| && SmallerAt(a, b, i)
  {
    if b != [] {
      if a == [] || a[0] < b[0] {
        assert SmallerAt(a, b, 0);
      } else {
        LessExactly(a[1..], b[1..]);
        if Less(a, b) {
          var i: nat :| i < |b[1..]| && SmallerAt(a[1..], b[1..], i);
          PrefixGrows(a, b, i);
          assert SmallerAt(a, b, i + 1);
        }
        if i: nat :| i < |b| && SmallerAt(a, b, i) {
          assert i > 0 && a[0] == a[..i][0] == b[..i][0] == b[0];
          PrefixGrows(a, b, i - 1);
          assert SmallerAt(a[1..], b[1..], i - 1);
        }
      }
    }
  }

  lemma PrefixGrows(a: string, b: string, i: nat)
    requires i < |a| && i < |b| && a[0] == b[0]
    ensures a[1..][..i] == b[1..][..i] <==> a[..i + 1] == b[..i + 1]
  {
    assert a[..i + 1] == [a[0]] + a[1..][..i] && b[..i + 1] == [b[0]] + b[1..][..i];
  }

  lemma {:induction false} LessTotal(a: string, b: string)
    ensures a == b || Less(a, b) || Less(b, a)
  {
    if a != [] && b != [] && a[0] == b[0] {
      LessTotal(a[1..], b[1..]);
      assert a == [a[0]] + a[1..] && b == [b[0]] + b[1..];
    }
  }

  lemma {:induction false} LessAsymmetric(a: string, b: string)
    requires Less(a, b)
    ensures a != b && !Less(b, a)
  {
    if a != [] && a[0] == b[0] {
      LessAsymmetric(a[1..], b[1..]);
    }
  }

  lemma {:induction false} LessTransitive(a: string, b: string, c: string)
    requires Less(a, b) && Less(b, c)
    ensures Less(a, c)
  {
    if a != [] && a[0] == b[0] == c[0] {
      LessTransitive(a[1..], b[1..], c[1..]);
    }
  }

  lemma LessAntisymmetric(a: string, b: string)
    requires a == b || Less(a, b)
    requires a == b || Less(b, a)
    ensures a == b
  {
    if Less(a, b) {
      LessAsymmetric(a, b);
    }
  }

  predicate Ascending(keys: seq<string>) {
    forall i, j :: 0 <= i < j < |keys| ==> Less(keys[i], keys[j])
  }

  /** A set of keys has one ascending listing, so sorted output never depends on hash order. */
  lemma {:induction false} AscendingIsUnique(a: seq<string>, b: seq<string>)
    requires Ascending(a) && Ascending(b)
    requires forall k :: k in a <==> k in b
    ensures a == b
  {
    assert (a == [] || a[0] in a) && (b == [] || b[0] in b);
    if a != [] {
      HeadIsLeast(a, b[0]);
      HeadIsLeast(b, a[0]);
      LessAntisymmetric(a[0], b[0]);
      forall k ensures k in a[1..] <==> k in b[1..] {
        TailDropsHead(a, k);
        TailDropsHead(b, k);
      }
      AscendingIsUnique(a[1..], b[1..]);
      assert a == [a[0]] + a[1..] && b == [b[0]] + b[1..];
    }
  }

  lemma HeadIsLeast(a: seq<string>, k: string)
    requires Ascending(a) && k in a
    ensures a[0] == k || Less(a[0], k)
  {
  }

  lemma TailDropsHead(a: seq<string>, k: string)
    requires a != [] && Ascending(a)
    ensures k in a[1..] <==> k in a && k != a[0]
  {
    if k in a[1..] {
      LessAsymmetric(a[0], k);
    }
  }

  /** Collects keys in whatever order the table yields them and keeps them sorted. */
  method SortedKeys(keys: set<string>) returns (out: seq<string>)
    ensures Ascending(out)
    ensures forall k :: k in out <==> k in keys
  {
    out := [];
    var rest := keys;
    while rest != {}
      invariant Ascending(out)
      invariant rest <= keys
      invariant forall k :: k in out <==> k in keys - rest
      decreases rest
    {
      var k :| k in rest;
      rest := rest - {k};
      out := InsertKey(out, k);
    }
  }

  method InsertKey(keys: seq<string>, k: string) returns (out: seq<string>)
    requires Ascending(keys) && k !in keys
    ensures Ascending(out)
    ensures forall x :: x in out <==> x in keys || x == k
  {
    var i := |keys|;
    while i > 0 && Less(k, keys[i - 1])
      invariant 0 <= i <= |keys|
      invariant forall j :: i <= j < |keys| ==> Less(k, keys[j])
    {
      i := i - 1;
    }
    if i > 0 {
      LessTotal(k, keys[i - 1]);
      forall j | 0 <= j < i ensures Less(keys[j], k) {
        if j < i - 1 { LessTransitive(keys[j], keys[i - 1], k); }
      }
    }
    out := keys[..i] + [k] + keys[i..];
    assert keys == keys[..i] + keys[i..];
  }
}
