/** The folded-name order in which the PATCH engine visits the members of a pathless value
    (sortedKeys and compareFolded in patch/apply_add.go). */
module Ordering {
  import opened Text

  /** strings.Compare(a, b) <= 0. */
  predicate LessEq(a: string, b: string) {
    a == "" || (b != "" && (a[0] < b[0] || (a[0] == b[0] && LessEq(a[1..], b[1..]))))
  }

  lemma {:induction false} LessEqTotal(a: string, b: string)
    ensures LessEq(a, b) || LessEq(b, a)
  {
    if a != "" && b != "" { LessEqTotal(a[1..], b[1..]); }
  }

  lemma {:induction false} LessEqAntisym(a: string, b: string)
    requires LessEq(a, b) && LessEq(b, a)
    ensures a == b
  {
    if a != "" && b != "" {
      LessEqAntisym(a[1..], b[1..]);
      assert a == [a[0]] + a[1..] && b == [b[0]] + b[1..];
    }
  }

  lemma {:induction false} LessEqTrans(a: string, b: string, c: string)
    requires LessEq(a, b) && LessEq(b, c)
    ensures LessEq(a, c)
  {
    if a != "" && b != "" && c != "" && a[0] == b[0] && b[0] == c[0] {
      LessEqTrans(a[1..], b[1..], c[1..]);
    }
  }

  /** The texts differ first at position i, where a has the smaller character. */
  predicate DiffersBelow(a: string, b: string, i: nat) {
    i < |a| && i < |b| && a[..i] == b[..i] && a[i] < b[i]
  }

  /** A text comes no later than another exactly when it is a prefix of it, or has the smaller
      character where the two first differ. */
  lemma {:induction false} LessEqIff(a: string, b: string)
    ensures LessEq(a, b) <==> a <= b || exists i: nat :: DiffersBelow(a, b, i)
  {
    if a == "" || b == "" {
    } else if a[0] != b[0] {
      if LessEq(a, b) { assert DiffersBelow(a, b, 0); }
      if exists i: nat :: DiffersBelow(a, b, i) {
        var i: nat :| DiffersBelow(a, b, i);
        assert i > 0 ==> a[..i][0] == b[..i][0];
      }
    } else {
      LessEqIff(a[1..], b[1..]);
      PrefixTail(a, b);
      if exists i: nat :: DiffersBelow(a[1..], b[1..], i) {
        var i: nat :| DiffersBelow(a[1..], b[1..], i);
        assert a[..i + 1] == [a[0]] + a[1..][..i] && b[..i + 1] == [b[0]] + b[1..][..i];
        assert DiffersBelow(a, b, i + 1);
      }
      if exists i: nat :: DiffersBelow(a, b, i) {
        var i: nat :| DiffersBelow(a, b, i);
        assert i > 0;
        assert a[1..][..i - 1] == a[..i][1..] && b[1..][..i - 1] == b[..i][1..];
        assert DiffersBelow(a[1..], b[1..], i - 1);
      }
    }
  }

  lemma {:induction false} PrefixTail(a: string, b: string)
    requires a != "" && b != "" && a[0] == b[0]
    ensures a <= b <==> a[1..] <= b[1..]
  {
    if a[1..] <= b[1..] {
      assert a == [a[0]] + a[1..];
      assert b[..|a|] == [b[0]] + b[1..][..|a| - 1];
    }
    if a <= b { assert b[1..][..|a| - 1] == b[..|a|][1..]; }
  }

  predicate Least(k: string, keys: set<string>) {
    k in keys && forall j <- keys :: LessEq(k, j)
  }

  lemma {:induction false} LeastExists(keys: set<string>)
    requires keys != {}
    ensures exists k <- keys :: Least(k, keys)
  {
    hide LessEq;
    var x :| x in keys;
    var rest := keys - {x};
    if rest == {} {
      LessEqTotal(x, x);
      forall j <- keys ensures LessEq(x, j) {
        assert j == x || j in rest;
      }
      assert Least(x, keys);
    } else {
      LeastExists(rest);
      var y :| y in rest && Least(y, rest);
      LessEqTotal(x, y);
      LessEqTotal(x, x);
      if LessEq(x, y) {
        forall j <- keys ensures LessEq(x, j) {
          if j != x { LessEqTrans(x, y, j); }
        }
        assert Least(x, keys);
      } else {
        assert Least(y, keys);
      }
    }
  }

  lemma {:induction false} LeastUnique(keys: set<string>)
    ensures forall a, b :: Least(a, keys) && Least(b, keys) ==> a == b
  {
    forall a, b | Least(a, keys) && Least(b, keys) ensures a == b {
      LessEqAntisym(a, b);
    }
  }

  function LeastKey(keys: set<string>): (k: string)
    requires keys != {}
    ensures Least(k, keys)
  {
    LeastExists(keys);
    LeastUnique(keys);
    var k :| k in keys && Least(k, keys);
    k
  }

  /** The keys in order. */
  function SortedKeys(keys: set<string>): (s: seq<string>)
    ensures |s| == |keys|
    ensures forall k :: k in s <==> k in keys
  {
    if keys == {} then []
    else
      var k := LeastKey(keys);
      [k] + SortedKeys(keys - {k})
  }

  predicate InOrder(s: seq<string>) {
    forall i, j :: 0 <= i < j < |s| ==> s[i] != s[j] && LessEq(s[i], s[j])
  }

  lemma {:induction false} InOrderCons(k: string, rest: seq<string>)
    requires InOrder(rest) && forall j <- rest :: k != j && LessEq(k, j)
    ensures InOrder([k] + rest)
  {
    hide LessEq;
    var s := [k] + rest;
    forall i, j | 0 <= i < j < |s| ensures s[i] != s[j] && LessEq(s[i], s[j]) {
      assert s[j] == rest[j - 1] && rest[j - 1] in rest;
      assert i > 0 ==> s[i] == rest[i - 1];
    }
  }

  /** Each key is visited once, and never after a greater one. */
  lemma {:induction false} SortedKeysInOrder(keys: set<string>)
    ensures InOrder(SortedKeys(keys))
  {
    hide LessEq, InOrder;
    if keys == {} {
      InOrderNil();
    } else {
      var k := LeastKey(keys);
      SortedKeysInOrder(keys - {k});
      InOrderCons(k, SortedKeys(keys - {k}));
    }
  }

  lemma InOrderNil()
    ensures InOrder([])
  {
  }
}
