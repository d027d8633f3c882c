/** One side of an order book as the list of its orders in price-time priority, with the
    three updates a book makes on it. A list that is sorted by price is determined by its
    price levels (Canonical), so an update is characterised by what it does to each level. */
module PriorityList {
  import opened Domain

  /** p is matched before q on this side: bids high to low, asks low to high. */
  predicate Better(side: Side, p: int, q: int) {
    if side == Bid then p > q else p < q
  }

  ghost predicate Sorted(side: Side, s: seq<Order>) {
    forall i, j :: 0 <= i < j < |s| ==> !Better(side, s[j].price, s[i].price)
  }

  ghost predicate DistinctIds(s: seq<Order>) {
    forall i, j :: 0 <= i < j < |s| ==> s[i].id != s[j].id
  }

  ghost predicate AllPositive(s: seq<Order>) {
    forall i :: 0 <= i < |s| ==> s[i].quantity > 0
  }

  ghost predicate HasId(s: seq<Order>, id: string) {
    exists o :: o in s && o.id == id
  }

  function Sum(s: seq<Order>): int {
    if s == [] then 0 else s[0].quantity + Sum(s[1..])
  }

  /** The orders of one price level, first in first out. */
  function AtPrice(s: seq<Order>, p: int): seq<Order> {
    if s == [] then [] else (if s[0].price == p then [s[0]] else []) + AtPrice(s[1..], p)
  }

  /** A new order goes behind every order whose price is at least as good. */
  function Insert(side: Side, s: seq<Order>, o: Order): seq<Order> {
    if s == [] then [o]
    else if Better(side, o.price, s[0].price) then [o] + s
    else [s[0]] + Insert(side, s[1..], o)
  }

  function Remove(s: seq<Order>, id: string): seq<Order> {
    if s == [] then [] else (if s[0].id == id then [] else [s[0]]) + Remove(s[1..], id)
  }

  function Requantify(s: seq<Order>, id: string, quantity: int): seq<Order> {
    if s == [] then []
    else [if s[0].id == id then s[0].(quantity := quantity) else s[0]] + Requantify(s[1..], id, quantity)
  }

  lemma {:induction false} AtPriceMembers(s: seq<Order>, p: int)
    ensures forall o :: o in AtPrice(s, p) <==> o in s && o.price == p
  {
    if s != [] {
      AtPriceMembers(s[1..], p);
      assert s == [s[0]] + s[1..];
    }
  }

  lemma {:induction false} NoneAtPrice(s: seq<Order>, p: int)
    requires forall o :: o in s ==> o.price != p
    ensures AtPrice(s, p) == []
  {
    if s != [] {
      NoneAtPrice(s[1..], p);
    }
  }

  lemma {:induction false} AtPriceConcat(a: seq<Order>, b: seq<Order>, p: int)
    ensures AtPrice(a + b, p) == AtPrice(a, p) + AtPrice(b, p)
  {
    if a == [] {
      assert a + b == b;
    } else {
      var head := if a[0].price == p then [a[0]] else [];
      assert (a + b)[0] == a[0] && (a + b)[1..] == a[1..] + b;
      calc {
        AtPrice(a + b, p);
        head + AtPrice(a[1..] + b, p);
        { AtPriceConcat(a[1..], b, p); }
        head + (AtPrice(a[1..], p) + AtPrice(b, p));
        (head + AtPrice(a[1..], p)) + AtPrice(b, p);
      }
    }
  }

  lemma {:induction false} SumConcat(a: seq<Order>, b: seq<Order>)
    ensures Sum(a + b) == Sum(a) + Sum(b)
  {
    if a == [] {
      assert a + b == b;
    } else {
      assert (a + b)[1..] == a[1..] + b;
      SumConcat(a[1..], b);
    }
  }

  lemma SumIndex(s: seq<Order>, k: nat)
    requires k < |s|
    ensures Sum(s) == Sum(s[..k] + s[k + 1..]) + s[k].quantity
  {
    var a, b, m := s[..k], s[k + 1..], [s[k]];
    assert s == a + (m + b);
    SumConcat(a, m + b);
    SumConcat(m, b);
    SumConcat(a, b);
    assert Sum(m) == s[k].quantity;
  }

  lemma {:induction false} SumNonNegative(s: seq<Order>)
    requires AllPositive(s)
    ensures Sum(s) >= |s|
  {
    if s != [] {
      SumNonNegative(s[1..]);
    }
  }

  lemma HeadLevel(s: seq<Order>)
    ensures s != [] ==> AtPrice(s, s[0].price) != [] && AtPrice(s, s[0].price)[0] == s[0]
  {
  }

  /** A list in price order is determined by its price levels. */
  lemma {:induction false} Canonical(side: Side, s: seq<Order>, t: seq<Order>)
    requires Sorted(side, s) && Sorted(side, t)
    requires forall p :: AtPrice(s, p) == AtPrice(t, p)
    ensures s == t
  {
    HeadLevel(s);
    HeadLevel(t);
    if s != [] && t != [] {
      HeadPrice(side, s, t);
      HeadPrice(side, t, s);
      forall q ensures AtPrice(s[1..], q) == AtPrice(t[1..], q) {
        var head := if s[0].price == q then [s[0]] else [];
        assert AtPrice(s, q) == head + AtPrice(s[1..], q);
        assert AtPrice(t, q) == head + AtPrice(t[1..], q);
        assert AtPrice(s[1..], q) == AtPrice(s, q)[|head|..];
        assert AtPrice(t[1..], q) == AtPrice(t, q)[|head|..];
      }
      Canonical(side, s[1..], t[1..]);
      assert s == [s[0]] + s[1..] && t == [t[0]] + t[1..];
    }
  }

  lemma HeadPrice(side: Side, s: seq<Order>, t: seq<Order>)
    requires s != [] && t != [] && Sorted(side, t)
    requires AtPrice(s, s[0].price) == AtPrice(t, s[0].price)
    ensures !Better(side, s[0].price, t[0].price)
  {
    HeadLevel(s);
    AtPriceMembers(t, s[0].price);
    assert s[0] in AtPrice(t, s[0].price);
    var i :| 0 <= i < |t| && t[i] == s[0];
    assert i == 0 || !Better(side, t[i].price, t[0].price);
  }

  // ---------------------------------------------------------------- insertion

  lemma {:induction false} InsertMembers(side: Side, s: seq<Order>, o: Order)
    ensures |Insert(side, s, o)| == |s| + 1
    ensures forall x :: x in Insert(side, s, o) <==> x == o || x in s
  {
    if s != [] && !Better(side, o.price, s[0].price) {
      InsertMembers(side, s[1..], o);
      assert s == [s[0]] + s[1..];
    }
  }

  lemma {:induction false} InsertSorted(side: Side, s: seq<Order>, o: Order)
    requires Sorted(side, s)
    ensures Sorted(side, Insert(side, s, o))
  {
    if s != [] && !Better(side, o.price, s[0].price) {
      InsertSorted(side, s[1..], o);
      InsertMembers(side, s[1..], o);
      PrependSorted(side, s[0], s[1..], Insert(side, s[1..], o), o);
    }
  }

  lemma PrependSorted(side: Side, head: Order, tail: seq<Order>, r: seq<Order>, o: Order)
    requires Sorted(side, [head] + tail) && Sorted(side, r) && !Better(side, o.price, head.price)
    requires forall x :: x in r ==> x == o || x in tail
    ensures Sorted(side, [head] + r)
  {
    forall x | x in r ensures !Better(side, x.price, head.price) {
      if x in tail {
        var k :| 0 <= k < |tail| && tail[k] == x;
        var all := [head] + tail;
        assert all[0] == head && all[k + 1] == x;
      }
    }
  }

  /** Insertion keeps price order and appends to exactly one level: first in, first out. */
  lemma {:induction false} InsertAtPrice(side: Side, s: seq<Order>, o: Order, p: int)
    requires Sorted(side, s)
    ensures Sorted(side, Insert(side, s, o))
    ensures AtPrice(Insert(side, s, o), p) == AtPrice(s, p) + (if o.price == p then [o] else [])
    ensures Sum(Insert(side, s, o)) == Sum(s) + o.quantity
  {
    InsertSorted(side, s, o);
    var r := Insert(side, s, o);
    if s == [] {
    } else if Better(side, o.price, s[0].price) {
      assert r[1..] == s;
      WorseThanHead(side, s, o.price);
      hide Sorted;
      assert AtPrice(r, p) == (if o.price == p then [o] else []) + AtPrice(s, p);
    } else {
      InsertAtPrice(side, s[1..], o, p);
      assert r[1..] == Insert(side, s[1..], o);
      hide Sorted, Insert;
    }
  }

  lemma WorseThanHead(side: Side, s: seq<Order>, p: int)
    requires s != [] && Sorted(side, s) && Better(side, p, s[0].price)
    ensures AtPrice(s, p) == []
  {
    forall o | o in s ensures o.price != p {
      var i :| 0 <= i < |s| && s[i] == o;
      assert i == 0 || !Better(side, s[i].price, s[0].price);
    }
    NoneAtPrice(s, p);
  }

  lemma InsertDistinct(side: Side, s: seq<Order>, o: Order)
    requires DistinctIds(s) && !HasId(s, o.id)
    ensures DistinctIds(Insert(side, s, o))
    decreases |s|
  {
    var r := Insert(side, s, o);
    if s != [] && !Better(side, o.price, s[0].price) {
      InsertMembers(side, s[1..], o);
      InsertDistinct(side, s[1..], o);
      assert r[1..] == Insert(side, s[1..], o);
      forall i, j | 0 <= i < j < |r| ensures r[i].id != r[j].id {
        assert r[j] in r[1..] && r[j] == r[1..][j - 1];
        if i == 0 {
          if r[j] != o {
            var k :| 0 <= k < |s[1..]| && s[1..][k] == r[j];
            assert s[k + 1] == r[j];
          }
        } else {
          assert r[i] == r[1..][i - 1];
        }
      }
    }
  }

  // ------------------------------------------------------------------ removal

  lemma {:induction false} RemoveMembers(s: seq<Order>, id: string)
    ensures forall x :: x in Remove(s, id) <==> x in s && x.id != id
  {
    if s != [] {
      RemoveMembers(s[1..], id);
      assert s == [s[0]] + s[1..];
    }
  }

  lemma {:induction false} RemoveAbsent(s: seq<Order>, id: string)
    requires !HasId(s, id)
    ensures Remove(s, id) == s
  {
    if s != [] {
      assert s[0].id != id;
      RemoveAbsent(s[1..], id);
      assert s == [s[0]] + s[1..];
    }
  }

  lemma {:induction false} RemoveConcat(a: seq<Order>, b: seq<Order>, id: string)
    ensures Remove(a + b, id) == Remove(a, id) + Remove(b, id)
  {
    if a == [] {
      assert a + b == b;
    } else {
      var head := if a[0].id == id then [] else [a[0]];
      assert (a + b)[0] == a[0] && (a + b)[1..] == a[1..] + b;
      calc {
        Remove(a + b, id);
        head + Remove(a[1..] + b, id);
        { RemoveConcat(a[1..], b, id); }
        head + (Remove(a[1..], id) + Remove(b, id));
        (head + Remove(a[1..], id)) + Remove(b, id);
      }
    }
  }

  /** Removal keeps the order of everything else, level by level. */
  lemma {:induction false} RemoveAtPrice(s: seq<Order>, id: string, p: int)
    ensures AtPrice(Remove(s, id), p) == Remove(AtPrice(s, p), id)
  {
    if s != [] {
      RemoveAtPrice(s[1..], id, p);
      AtPriceConcat(if s[0].id == id then [] else [s[0]], Remove(s[1..], id), p);
      RemoveConcat(if s[0].price == p then [s[0]] else [], AtPrice(s[1..], p), id);
    }
  }

  lemma RemoveMiddle(a: seq<Order>, o: Order, b: seq<Order>)
    requires !HasId(a, o.id) && !HasId(b, o.id)
    ensures Remove(a + ([o] + b), o.id) == a + b
  {
    RemoveConcat(a, [o] + b, o.id);
    RemoveConcat([o], b, o.id);
    RemoveAbsent(a, o.id);
    RemoveAbsent(b, o.id);
    assert Remove([o], o.id) == [];
    hide Remove;
    assert [] + b == b;
  }

  lemma DistinctSplit(s: seq<Order>, k: nat)
    requires k < |s| && DistinctIds(s)
    ensures !HasId(s[..k], s[k].id) && !HasId(s[k + 1..], s[k].id)
  {
    forall o | o in s[..k] ensures o.id != s[k].id {
      var i :| 0 <= i < k && s[i] == o;
    }
    forall o | o in s[k + 1..] ensures o.id != s[k].id {
      var i :| k < i < |s| && s[i] == o;
    }
  }

  /** With distinct ids a removal takes out exactly one position. */
  lemma RemoveIndex(s: seq<Order>, k: nat)
    requires k < |s| && DistinctIds(s)
    ensures Remove(s, s[k].id) == s[..k] + s[k + 1..]
  {
    hide DistinctIds, HasId, Remove;
    DistinctSplit(s, k);
    RemoveMiddle(s[..k], s[k], s[k + 1..]);
    assert s == s[..k] + ([s[k]] + s[k + 1..]);
  }

  lemma RemoveSum(s: seq<Order>, k: nat)
    requires k < |s| && DistinctIds(s)
    ensures Sum(Remove(s, s[k].id)) == Sum(s) - s[k].quantity
  {
    RemoveIndex(s, k);
    SumIndex(s, k);
  }

  lemma RemoveSorted(side: Side, s: seq<Order>, id: string)
    requires Sorted(side, s)
    ensures Sorted(side, Remove(s, id))
    decreases |s|
  {
    if s != [] {
      RemoveSorted(side, s[1..], id);
      RemoveMembers(s[1..], id);
      var r := Remove(s, id);
      if s[0].id != id {
        assert r[1..] == Remove(s[1..], id);
        forall i, j | 0 <= i < j < |r| ensures !Better(side, r[j].price, r[i].price) {
          assert r[j] in r[1..] && r[j] == r[1..][j - 1];
          if i == 0 {
            var k :| 0 <= k < |s[1..]| && s[1..][k] == r[j];
            assert s[k + 1] == r[j];
          } else {
            assert r[i] == r[1..][i - 1];
          }
        }
      }
    }
  }

  lemma RemoveDistinct(s: seq<Order>, id: string)
    requires DistinctIds(s)
    ensures DistinctIds(Remove(s, id))
  {
    if HasId(s, id) {
      var o :| o in s && o.id == id;
      var k :| 0 <= k < |s| && s[k] == o;
      RemoveIndex(s, k);
    } else {
      RemoveAbsent(s, id);
    }
  }

  // -------------------------------------------------------------- requantify

  lemma {:induction false} RequantifyShape(s: seq<Order>, id: string, q: int)
    ensures |Requantify(s, id, q)| == |s|
    ensures forall i :: 0 <= i < |s| ==>
      Requantify(s, id, q)[i] == (if s[i].id == id then s[i].(quantity := q) else s[i])
  {
    if s != [] {
      RequantifyShape(s[1..], id, q);
      assert forall i :: 1 <= i < |s| ==> s[i] == s[1..][i - 1];
    }
  }

  lemma {:induction false} RequantifyConcat(a: seq<Order>, b: seq<Order>, id: string, q: int)
    ensures Requantify(a + b, id, q) == Requantify(a, id, q) + Requantify(b, id, q)
  {
    if a == [] {
      assert a + b == b;
    } else {
      var head := [if a[0].id == id then a[0].(quantity := q) else a[0]];
      assert (a + b)[0] == a[0] && (a + b)[1..] == a[1..] + b;
      calc {
        Requantify(a + b, id, q);
        head + Requantify(a[1..] + b, id, q);
        { RequantifyConcat(a[1..], b, id, q); }
        head + (Requantify(a[1..], id, q) + Requantify(b, id, q));
        (head + Requantify(a[1..], id, q)) + Requantify(b, id, q);
      }
    }
  }

  lemma {:induction false} RequantifyAtPrice(s: seq<Order>, id: string, q: int, p: int)
    ensures AtPrice(Requantify(s, id, q), p) == Requantify(AtPrice(s, p), id, q)
  {
    if s != [] {
      RequantifyAtPrice(s[1..], id, q, p);
      RequantifyConcat(if s[0].price == p then [s[0]] else [], AtPrice(s[1..], p), id, q);
    }
  }

  lemma RequantifyAbsent(s: seq<Order>, id: string, q: int)
    requires !HasId(s, id)
    ensures Requantify(s, id, q) == s
  {
    RequantifyShape(s, id, q);
  }

  lemma RequantifySum(s: seq<Order>, k: nat, q: int)
    requires k < |s| && DistinctIds(s)
    ensures Sum(Requantify(s, s[k].id, q)) == Sum(s) - s[k].quantity + q
  {
    var r := Requantify(s, s[k].id, q);
    RequantifyShape(s, s[k].id, q);
    assert r[..k] == s[..k];
    assert r[k + 1..] == s[k + 1..];
    SumIndex(s, k);
    SumIndex(r, k);
  }
}
