/** The idempotency key of a chain event: its contract and the three numbers of its id. */
module EventIds {
  import opened Domain
  import opened Decimal

  datatype Components = Components(ledger: nat, txIndex: nat, eventIndex: nat)

  function Split(s: string, separator: char): (r: seq<string>)
    ensures r != []
  {
    if s == "" then [""]
    else if s[0] == separator then [""] + Split(s[1..], separator)
    else
      var rest := Split(s[1..], separator);
      [[s[0]] + rest[0]] + rest[1..]
  }

  /** Three runs of digits. */
  function ParseEventId(eventId: string): Option<Components> {
    var parts := Split(eventId, '-');
    if |parts| == 3 && (forall i :: 0 <= i < 3 ==> parts[i] != "" && AllDigits(parts[i]))
    then Some(Components(ParseNat(parts[0]), ParseNat(parts[1]), ParseNat(parts[2])))
    else None
  }

  function Canonical(contractId: string, c: Components): string {
    contractId + ":" + PrintNat(c.ledger) + ":" + PrintNat(c.txIndex) + ":" + PrintNat(c.eventIndex)
  }

  /** The key, under this hash; an id of another form is an error. */
  function GenerateIdempotencyKey(hash: string -> string, contractId: string, eventId: string): Option<string> {
    var c := ParseEventId(eventId);
    if c.Some? then Some(hash(Canonical(contractId, c.value))) else None
  }

  lemma {:induction false} SplitDigits(a: string, b: string)
    requires AllDigits(a)
    ensures Split(a + "-" + b, '-') == [a] + Split(b, '-')
  {
    if a == "" {
      assert a + "-" + b == "-" + b;
    } else {
      assert (a + "-" + b)[1..] == a[1..] + "-" + b;
      SplitDigits(a[1..], b);
      assert [a[0]] + a[1..] == a;
    }
  }

  lemma {:induction false} SplitLast(a: string)
    requires AllDigits(a)
    ensures Split(a, '-') == [a]
  {
    if a != "" {
      SplitLast(a[1..]);
      assert [a[0]] + a[1..] == a;
    }
  }

  lemma ThreeParts(l: string, t: string, e: string)
    requires AllDigits(l) && AllDigits(t) && AllDigits(e)
    ensures Split(l + "-" + (t + "-" + e), '-') == [l, t, e]
  {
    hide Split, AllDigits;
    SplitDigits(l, t + "-" + e);
    SplitDigits(t, e);
    SplitLast(e);
    assert [l] + ([t] + [e]) == [l, t, e];
  }

  /** An id written with any padding reads as its numbers. */
  lemma ReadEventId(l: string, t: string, e: string)
    requires l != "" && t != "" && e != "" && AllDigits(l) && AllDigits(t) && AllDigits(e)
    ensures ParseEventId(l + "-" + (t + "-" + e)) == Some(Components(ParseNat(l), ParseNat(t), ParseNat(e)))
  {
    ThreeParts(l, t, e);
    hide ParseNat, Split, AllDigits;
  }

  ghost predicate NoColon(s: string) {
    ':' !in s
  }

  lemma {:induction false} LastPart(a: string, x: string, b: string, y: string)
    requires NoColon(x) && NoColon(y) && a + ":" + x == b + ":" + y
    ensures a == b && x == y
  {
    var s, t := a + ":" + x, b + ":" + y;
    var last := |s| - 1;
    assert s[last] == (if x == "" then ':' else x[|x| - 1]) && t[last] == (if y == "" then ':' else y[|y| - 1]);
    assert x != "" ==> x[|x| - 1] != ':';
    assert y != "" ==> y[|y| - 1] != ':';
    if x == "" {
      assert s[..last] == a && t[..last] == b;
    } else {
      assert s[..last] == a + ":" + x[..|x| - 1] && t[..last] == b + ":" + y[..|y| - 1];
      LastPart(a, x[..|x| - 1], b, y[..|y| - 1]);
      assert x == x[..|x| - 1] + [x[|x| - 1]] && y == y[..|y| - 1] + [y[|y| - 1]];
    }
  }

  lemma PrintInjective(m: nat, n: nat)
    requires PrintNat(m) == PrintNat(n)
    ensures m == n
  {
    ParsePrint(m);
    ParsePrint(n);
  }

  lemma DigitsHaveNoColon(n: nat)
    ensures NoColon(PrintNat(n))
  {
    PrintDigits(n);
  }

  /** Different contracts or different positions have different canonical texts. */
  lemma CanonicalInjective(contractId: string, c: Components, contractId': string, c': Components)
    requires Canonical(contractId, c) == Canonical(contractId', c')
    ensures contractId == contractId' && c == c'
  {
    DigitsHaveNoColon(c.eventIndex);
    DigitsHaveNoColon(c'.eventIndex);
    DigitsHaveNoColon(c.txIndex);
    DigitsHaveNoColon(c'.txIndex);
    DigitsHaveNoColon(c.ledger);
    DigitsHaveNoColon(c'.ledger);
    var l, t, e := PrintNat(c.ledger), PrintNat(c.txIndex), PrintNat(c.eventIndex);
    var l', t', e' := PrintNat(c'.ledger), PrintNat(c'.txIndex), PrintNat(c'.eventIndex);
    LastPart(contractId + ":" + l + ":" + t, e, contractId' + ":" + l' + ":" + t', e');
    LastPart(contractId + ":" + l, t, contractId' + ":" + l', t');
    LastPart(contractId, l, contractId', l');
    PrintInjective(c.ledger, c'.ledger);
    PrintInjective(c.txIndex, c'.txIndex);
    PrintInjective(c.eventIndex, c'.eventIndex);
  }

  /** With a collision-free hash a key names one contract and one position, however the id is padded. */
  lemma KeyInjective(hash: string -> string, contractId: string, eventId: string, contractId': string, eventId': string)
    requires forall x, y :: hash(x) == hash(y) ==> x == y
    requires ParseEventId(eventId).Some? && ParseEventId(eventId').Some?
    ensures var key, key' :=
        GenerateIdempotencyKey(hash, contractId, eventId), GenerateIdempotencyKey(hash, contractId', eventId');
      key == key' <==> contractId == contractId' && ParseEventId(eventId) == ParseEventId(eventId')
  {
    hide ParseEventId, Canonical;
    var c, c' := ParseEventId(eventId).value, ParseEventId(eventId').value;
    if Canonical(contractId, c) == Canonical(contractId', c') {
      CanonicalInjective(contractId, c, contractId', c');
    }
  }
}
