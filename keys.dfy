/** Facts about finite sets of integer keys: the greatest key, a key that is
    not yet used, and the keys listed in ascending order. The stores below
    use them to choose fresh identifiers and to list a table. */
module Keys {

  /** Extensionality, read the other way: a set that is not empty has an element. */
  lemma HasElement(s: set<int>)
    ensures s != {} ==> exists x :: x in s
  {
    if forall x :: x !in s {
      assert s == {};
    }
  }

  lemma {:induction false} HasGreatest(s: set<int>)
    requires s != {}
    ensures exists g :: g in s && forall k :: k in s ==> k <= g
  {
    HasElement(s);
    var x :| x in s;
    var rest := s - {x};
    if rest == {} {
      forall k | k in s ensures k <= x {
        assert k == x || k in rest;
      }
    } else {
      HasGreatest(rest);
      var g :| g in rest && forall k :: k in rest ==> k <= g;
      if g < x {
        forall k | k in s ensures k <= x {
          assert k == x || k in rest;
        }
      } else {
        forall k | k in s ensures k <= g {
          assert k == x || k in rest;
        }
        assert g in s;
      }
    }
  }

  /** The greatest element of a non-empty set of keys. */
  function Greatest(s: set<int>): (g: int)
    requires s != {}
    ensures g in s
    ensures forall k :: k in s ==> k <= g
  {
    HasGreatest(s);
    var g :| g in s && forall k :: k in s ==> k <= g;
    g
  }

  /** A key above every key in use, as an identity column hands out. */
  function NextKey(s: set<int>): (k: int)
    ensures k !in s
    ensures forall x :: x in s ==> x < k
  {
    if s == {} then 1 else Greatest(s) + 1
  }

  /** The keys of s, each once, in strictly ascending order. */
  function Ascending(s: set<int>): (r: seq<int>)
    ensures |r| == |s|
    ensures forall i :: 0 <= i < |r| ==> r[i] in s
    ensures forall k :: k in s ==> k in r
    decreases |s|
  {
    if s == {} then []
    else
      var g := Greatest(s);
      var rest := Ascending(s - {g});
      assert forall i :: 0 <= i < |rest| ==> rest[i] < g;
      rest + [g]
  }

  /** The listing is strictly ascending. */
  lemma {:induction false} AscendingIsSorted(s: set<int>)
    ensures forall i, j :: 0 <= i < j < |Ascending(s)| ==> Ascending(s)[i] < Ascending(s)[j]
    decreases |s|
  {
    if s != {} {
      var g := Greatest(s);
      AscendingIsSorted(s - {g});
      assert Ascending(s) == Ascending(s - {g}) + [g];
    }
  }

  /** The values of a table listed by ascending key: position i holds the
      value stored under the i-th smallest key. */
  function InKeyOrder<V>(m: map<int, V>): (r: seq<V>)
    ensures |r| == |m|
    ensures forall i :: 0 <= i < |r| ==> Ascending(m.Keys)[i] in m && r[i] == m[Ascending(m.Keys)[i]]
  {
    var ks := Ascending(m.Keys);
    seq(|ks|, i requires 0 <= i < |ks| => m[ks[i]])
  }

  /** Every stored value has a position in the listing. */
  lemma InKeyOrderListsEvery<V>(m: map<int, V>, k: int)
    requires k in m
    ensures exists i :: 0 <= i < |InKeyOrder(m)| && Ascending(m.Keys)[i] == k && InKeyOrder(m)[i] == m[k]
  {
    var ks := Ascending(m.Keys);
    var i :| 0 <= i < |ks| && ks[i] == k;
    assert InKeyOrder(m)[i] == m[k];
  }
}
