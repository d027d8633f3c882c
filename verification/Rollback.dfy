/** What undoing removals does to a priority list: the removed prefix is added again, last removal
    first, and every order goes to the back of its level. */
module Rollback {
  import opened Domain
  import opened PriorityList
  import opened DepthViews

  /** Re-adding a removed prefix, its last order first. */
  function Reinsert(side: Side, s: seq<Order>, removed: seq<Order>): seq<Order> {
    if removed == [] then s else Insert(side, Reinsert(side, s, removed[1..]), removed[0])
  }

  function Reverse<T>(s: seq<T>): seq<T> {
    if s == [] then [] else Reverse(s[1..]) + [s[0]]
  }

  lemma {:induction false} ReverseAt<T>(s: seq<T>)
    ensures |Reverse(s)| == |s|
    ensures forall i :: 0 <= i < |s| ==> Reverse(s)[i] == s[|s| - 1 - i]
  {
    if s != [] {
      ReverseAt(s[1..]);
    }
  }

  lemma {:induction false} ReverseSum(s: seq<Order>)
    ensures Sum(Reverse(s)) == Sum(s)
  {
    if s != [] {
      ReverseSum(s[1..]);
      SumConcat(Reverse(s[1..]), [s[0]]);
    }
  }

  /** Each level ends as its untouched suffix followed by the removed orders in reverse. */
  lemma {:induction false} ReinsertAtPrice(side: Side, s: seq<Order>, removed: seq<Order>, p: int)
    requires Sorted(side, s)
    ensures Sorted(side, Reinsert(side, s, removed))
    ensures AtPrice(Reinsert(side, s, removed), p) == AtPrice(s, p) + Reverse(AtPrice(removed, p))
  {
    if removed != [] {
      ReinsertAtPrice(side, s, removed[1..], p);
      InsertAtPrice(side, Reinsert(side, s, removed[1..]), removed[0], p);
      if removed[0].price == p {
        assert AtPrice(removed, p) == [removed[0]] + AtPrice(removed[1..], p);
      } else {
        assert AtPrice(removed, p) == AtPrice(removed[1..], p);
      }
    }
  }

  lemma {:induction false} ReinsertMembers(side: Side, s: seq<Order>, removed: seq<Order>)
    ensures |Reinsert(side, s, removed)| == |s| + |removed|
    ensures forall o :: o in Reinsert(side, s, removed) <==> o in s || o in removed
  {
    if removed != [] {
      ReinsertMembers(side, s, removed[1..]);
      InsertMembers(side, Reinsert(side, s, removed[1..]), removed[0]);
      assert removed == [removed[0]] + removed[1..];
    }
  }

  /** Undoing the removal of the first k orders restores the orders, the prices and the total and
      count of every level. */
  lemma RollbackRestores(side: Side, s: seq<Order>, k: nat)
    requires Sorted(side, s) && k <= |s|
    ensures var r := Reinsert(side, s[k..], s[..k]);
      && Sorted(side, r)
      && (forall o :: o in r <==> o in s)
      && Prices(r) == Prices(s)
      && DepthOf(r) == DepthOf(s)
  {
    var r := Reinsert(side, s[k..], s[..k]);
    ReinsertAtPrice(side, s[k..], s[..k], 0);
    ReinsertMembers(side, s[k..], s[..k]);
    assert s == s[..k] + s[k..];
    forall p ensures LevelDepth(r, p) == LevelDepth(s, p) {
      LevelRestored(side, s, k, p);
    }
    PricesSorted(side, r);
    PricesSorted(side, s);
    forall p ensures p in Prices(r) <==> p in Prices(s) {
      assert LevelDepth(r, p) == LevelDepth(s, p);
    }
    StrictlySortedUnique(side, Prices(r), Prices(s));
  }

  lemma LevelRestored(side: Side, s: seq<Order>, k: nat, p: int)
    requires Sorted(side, s) && k <= |s|
    ensures LevelDepth(Reinsert(side, s[k..], s[..k]), p) == LevelDepth(s, p)
  {
    var front, back := AtPrice(s[..k], p), AtPrice(s[k..], p);
    assert s == s[..k] + s[k..];
    AtPriceConcat(s[..k], s[k..], p);
    ReinsertAtPrice(side, s[k..], s[..k], p);
    ReverseAt(front);
    ReverseSum(front);
    SumConcat(front, back);
    SumConcat(back, Reverse(front));
  }

  /** The book is back in its previous state exactly when every level from which an order was
      removed held that one order only. */
  lemma RollbackExact(side: Side, s: seq<Order>, k: nat)
    requires Sorted(side, s) && DistinctIds(s) && k <= |s|
    ensures Reinsert(side, s[k..], s[..k]) == s <==> forall i :: 0 <= i < k ==> |AtPrice(s, s[i].price)| == 1
  {
    var r := Reinsert(side, s[k..], s[..k]);
    ReinsertAtPrice(side, s[k..], s[..k], 0);
    assert s == s[..k] + s[k..];
    if forall i :: 0 <= i < k ==> |AtPrice(s, s[i].price)| == 1 {
      forall p ensures AtPrice(r, p) == AtPrice(s, p) {
        LevelKept(side, s, k, p);
      }
      Canonical(side, r, s);
    }
    if r == s {
      forall i | 0 <= i < k ensures |AtPrice(s, s[i].price)| == 1 {
        LevelTurned(side, s, k, i);
      }
    }
  }

  /** With two orders at one price the first one loses its place. */
  lemma PriorityLost(first: Order, second: Order)
    requires first.id != second.id && first.price == second.price
    ensures Reinsert(first.side, [first, second][1..], [first, second][..1]) == [second, first] != [first, second]
  {
    assert [first, second][1..] == [second] && [first, second][..1] == [first];
    assert [first][1..] == [];
    assert Insert(first.side, [second], first) == [second] + Insert(first.side, [second][1..], first);
  }

  lemma LevelKept(side: Side, s: seq<Order>, k: nat, p: int)
    requires Sorted(side, s) && k <= |s|
    requires forall i :: 0 <= i < k ==> |AtPrice(s, s[i].price)| == 1
    ensures AtPrice(Reinsert(side, s[k..], s[..k]), p) == AtPrice(s, p)
  {
    var front, back := AtPrice(s[..k], p), AtPrice(s[k..], p);
    assert s == s[..k] + s[k..];
    AtPriceConcat(s[..k], s[k..], p);
    ReinsertAtPrice(side, s[k..], s[..k], p);
    AtPriceMembers(s[..k], p);
    if front != [] {
      assert front[0] in s[..k];
      var i :| 0 <= i < k && s[i] == front[0];
      assert |front| + |back| == 1;
      assert Reverse(front) == front;
    }
  }

  lemma LevelTurned(side: Side, s: seq<Order>, k: nat, i: nat)
    requires Sorted(side, s) && DistinctIds(s) && i < k <= |s|
    requires Reinsert(side, s[k..], s[..k]) == s
    ensures |AtPrice(s, s[i].price)| == 1
  {
    var p := s[i].price;
    var front, back := AtPrice(s[..k], p), AtPrice(s[k..], p);
    assert front + back == back + Reverse(front) by {
      assert s == s[..k] + s[k..];
      AtPriceConcat(s[..k], s[k..], p);
      ReinsertAtPrice(side, s[k..], s[..k], p);
    }
    AtPriceMembers(s[..k], p);
    AtPriceMembers(s[k..], p);
    assert s[..k][i] in front;
    ReverseAt(front);
    assert DistinctIds(s[..k]);
    LevelOnce(s[..k], p);
    assert front[0] in s[..k];
    if back != [] {
      SameFirst(front, back, back, Reverse(front));
      assert back[0] in s[k..];
    }
    Apart(s, k, front[0]);
    assert back == [];
    hide AtPrice, Reverse, Sorted;
    assert front + back == front && back + Reverse(front) == Reverse(front);
    assert front[0] == front[|front| - 1];
    assert AtPrice(s, p) == front by {
      assert s == s[..k] + s[k..];
      AtPriceConcat(s[..k], s[k..], p);
    }
  }

  lemma SameFirst<T>(a: seq<T>, b: seq<T>, c: seq<T>, d: seq<T>)
    requires a + b == c + d && a != [] && c != []
    ensures a[0] == c[0]
  {
    assert (a + b)[0] == a[0] && (c + d)[0] == c[0];
  }

  lemma Apart(s: seq<Order>, k: nat, o: Order)
    requires DistinctIds(s) && k <= |s|
    ensures o !in s[..k] || o !in s[k..]
  {
    forall a, b | 0 <= a < k <= b < |s| ensures s[a] != s[b] {
    }
  }

  lemma {:induction false} LevelOnce(s: seq<Order>, p: int)
    requires DistinctIds(s)
    ensures forall a, b :: 0 <= a < b < |AtPrice(s, p)| ==> AtPrice(s, p)[a] != AtPrice(s, p)[b]
  {
    if s != [] {
      LevelOnce(s[1..], p);
      AtPriceMembers(s[1..], p);
      forall o | o in s[1..] ensures o != s[0] {
        var j :| 0 <= j < |s[1..]| && s[1..][j] == o;
        assert s[j + 1] == o;
      }
    }
  }
}
