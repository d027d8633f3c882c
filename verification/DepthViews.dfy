/** The depth of one side of a book: its price levels in priority order, each with the total
    quantity and the number of its orders. */
module DepthViews {
  import opened Domain
  import opened PriorityList

  datatype DepthLevel = DepthLevel(price: int, quantity: int, orderCount: nat)

  ghost predicate StrictlySorted(side: Side, prices: seq<int>) {
    forall i, j :: 0 <= i < j < |prices| ==> Better(side, prices[i], prices[j])
  }

  /** The prices of a priority list, best first, each once. */
  function Prices(s: seq<Order>): seq<int> {
    if s == [] then []
    else
      var rest := Prices(s[1..]);
      if rest != [] && rest[0] == s[0].price then rest else [s[0].price] + rest
  }

  function LevelDepth(s: seq<Order>, p: int): DepthLevel {
    DepthLevel(p, Sum(AtPrice(s, p)), |AtPrice(s, p)|)
  }

  function DepthAt(s: seq<Order>, prices: seq<int>): (d: seq<DepthLevel>)
    ensures |d| == |prices|
    ensures forall i :: 0 <= i < |d| ==> d[i] == LevelDepth(s, prices[i])
  {
    seq(|prices|, i requires 0 <= i < |prices| => LevelDepth(s, prices[i]))
  }

  function DepthOf(s: seq<Order>): seq<DepthLevel> {
    DepthAt(s, Prices(s))
  }

  function TotalQuantity(d: seq<DepthLevel>): int {
    if d == [] then 0 else d[0].quantity + TotalQuantity(d[1..])
  }

  function TotalCount(d: seq<DepthLevel>): nat {
    if d == [] then 0 else d[0].orderCount + TotalCount(d[1..])
  }

  lemma {:induction false} PricesSorted(side: Side, s: seq<Order>)
    requires Sorted(side, s)
    ensures StrictlySorted(side, Prices(s))
    ensures forall p :: p in Prices(s) <==> AtPrice(s, p) != []
    ensures s != [] ==> Prices(s) != [] && Prices(s)[0] == s[0].price
  {
    if s != [] {
      PricesSorted(side, s[1..]);
      var rest := Prices(s[1..]);
      forall i | 0 <= i < |rest| ensures !Better(side, rest[i], s[0].price) {
        AtPriceMembers(s[1..], rest[i]);
        assert AtPrice(s[1..], rest[i])[0] in s[1..];
        var j :| 0 <= j < |s[1..]| && s[1..][j].price == rest[i];
        assert s[1..][j] == s[j + 1] && !Better(side, s[j + 1].price, s[0].price);
      }
    }
  }

  lemma HeadOnce(side: Side, a: seq<int>)
    requires StrictlySorted(side, a) && a != []
    ensures a[0] !in a[1..]
  {
    assert forall k :: 0 <= k < |a[1..]| ==> a[1..][k] == a[k + 1];
  }

  /** A strictly sorted list of prices is determined by its elements. */
  lemma {:induction false} StrictlySortedUnique(side: Side, a: seq<int>, b: seq<int>)
    requires StrictlySorted(side, a) && StrictlySorted(side, b)
    requires forall p :: p in a <==> p in b
    ensures a == b
  {
    if a == [] {
      var p := if b != [] then b[0] else 0;
      assert b != [] ==> p in b;
    } else {
      assert a[0] in a && b != [];
      assert b[0] in b;
      assert a[0] == b[0];
      assert a == [a[0]] + a[1..] && b == [b[0]] + b[1..];
      HeadOnce(side, a);
      HeadOnce(side, b);
      forall p ensures p in a[1..] <==> p in b[1..] {
        assert p in a <==> p == a[0] || p in a[1..];
        assert p in b <==> p == b[0] || p in b[1..];
      }
      StrictlySortedUnique(side, a[1..], b[1..]);
    }
  }

  lemma {:induction false} TotalQuantityPush(d: seq<DepthLevel>, l: DepthLevel)
    ensures TotalQuantity(d + [l]) == TotalQuantity(d) + l.quantity
  {
    if d == [] {
      assert d + [l] == [l];
    } else {
      assert (d + [l])[1..] == d[1..] + [l];
      TotalQuantityPush(d[1..], l);
    }
  }

  lemma LevelDepthTail(s: seq<Order>, p: int)
    requires s != []
    ensures p != s[0].price ==> LevelDepth(s, p) == LevelDepth(s[1..], p)
    ensures p == s[0].price ==>
      LevelDepth(s, p) == DepthLevel(p, s[0].quantity + LevelDepth(s[1..], p).quantity,
                                       1 + LevelDepth(s[1..], p).orderCount)
  {
    var level := AtPrice(s, p);
    if p == s[0].price {
      assert level == [s[0]] + AtPrice(s[1..], p);
      assert level[1..] == AtPrice(s[1..], p);
    } else {
      assert level == AtPrice(s[1..], p);
    }
  }

  lemma DepthStep(side: Side, s: seq<Order>)
    requires s != [] && Sorted(side, s)
    ensures var d, e := DepthOf(s), DepthOf(s[1..]);
      if Prices(s) == Prices(s[1..]) then
        && d != [] && e != [] && d[1..] == e[1..]
        && d[0].quantity == e[0].quantity + s[0].quantity && d[0].orderCount == e[0].orderCount + 1
      else
        d != [] && d[1..] == e && d[0].quantity == s[0].quantity && d[0].orderCount == 1
  {
    var t, p := s[1..], s[0].price;
    PricesSorted(side, s);
    PricesSorted(side, t);
    LevelDepthTail(s, p);
    hide Sorted, Sum;
    HeadOnce(side, Prices(s));
    var d, e, k := DepthOf(s), DepthOf(t), if Prices(s) == Prices(t) then 0 else 1;
    assert k == 1 ==> Prices(s) == [p] + Prices(t);
    hide Prices, StrictlySorted;
    forall i | 1 <= i < |d| ensures d[i] == e[i - k] {
      assert Prices(s)[i] == Prices(s)[1..][i - 1];
      LevelDepthTail(s, Prices(s)[i]);
    }
    assert d[1..] == e[1 - k..];
    if k == 1 {
      assert p !in Prices(t) by {
        assert Prices(s)[1..] == Prices(t);
      }
      assert AtPrice(t, p) == [];
    }
  }

  /** The depth levels account for every share and every order of the side. */
  lemma {:induction false} DepthTotals(side: Side, s: seq<Order>)
    requires Sorted(side, s)
    ensures TotalQuantity(DepthOf(s)) == Sum(s)
    ensures TotalCount(DepthOf(s)) == |s|
  {
    if s != [] {
      DepthTotals(side, s[1..]);
      DepthStep(side, s);
      hide DepthOf;
    }
  }
}
