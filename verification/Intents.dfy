/**
 An order before it is quoted, sums over a list of orders, and the even parts a move is split into.
 */
module Intents {
  import Aggregate
  import Settle

  type Address = Aggregate.Address
  type Row = Aggregate.Row

  /** `raw` is what the order sells in raw units (cash for a buy, the stock for a sell); `usd` is that at its mark. */
  datatype Intent = Intent(address: Address, side: Settle.Side, raw: int, usd: real)

  /** What one raw unit is worth in USD, at its mark. */
  type Unit = u: real | u > 0.0 witness 1.0

  /** An amount of raw units, each worth `unit` dollars: exact, and linear in the amount. */
  function Worth(raw: int, unit: real): real { raw as real * unit }

  lemma WorthAdds(a: int, b: int, unit: real)
    ensures Worth(a + b, unit) == Worth(a, unit) + Worth(b, unit) && Worth(0, unit) == 0.0
  {
  }

  lemma WorthGrows(a: int, b: int, unit: real)
    requires unit > 0.0
    ensures a <= b <==> Worth(a, unit) <= Worth(b, unit)
    ensures a < b <==> Worth(a, unit) < Worth(b, unit)
  {
  }

  // ----- sums over orders ----------------------------------------------------------------------

  function Total(f: Intent -> real, s: seq<Intent>): real {
    if s == [] then 0.0 else Total(f, s[..|s| - 1]) + f(s[|s| - 1])
  }

  lemma TotalOne(f: Intent -> real, s: seq<Intent>, i: Intent)
    ensures Total(f, s + [i]) == Total(f, s) + f(i)
  {
    assert (s + [i])[..|s + [i]| - 1] == s;
  }

  lemma {:induction false} TotalAdds(f: Intent -> real, a: seq<Intent>, b: seq<Intent>)
    ensures Total(f, a + b) == Total(f, a) + Total(f, b)
  {
    if b == [] {
      assert a + b == a;
    } else {
      var n := |b| - 1;
      TotalAdds(f, a, b[..n]);
      assert a + b == (a + b[..n]) + [b[n]];
      TotalOne(f, a + b[..n], b[n]);
    }
  }

  /** What an order changes the position in `address` by, in dollars. */
  function MovesBy(address: Address): Intent -> real {
    (i: Intent) => if i.address != address then 0.0 else if i.side == Settle.Buy then i.usd else -i.usd
  }

  /** How many raw units of `address` an order sells. */
  function SoldBy(address: Address): Intent -> real {
    (i: Intent) => if i.address == address && i.side == Settle.Sell then i.raw as real else 0.0
  }

  /** What an order adds to cash: a sell its worth, a buy the loss of it. */
  function AddsToCash(): Intent -> real {
    (i: Intent) => if i.side == Settle.Sell then i.usd else -i.usd
  }

  function IsWorth(): Intent -> real {
    (i: Intent) => i.usd
  }

  // ----- even parts ----------------------------------------------------------------------------

  /** Part k of `total` shared out as evenly as whole units allow, what is over going to the first parts. */
  function EvenPart(total: int, parts: int, k: nat): int
    requires parts > 0
  {
    total / parts + if k < total % parts then 1 else 0
  }

  function EvenSum(total: int, parts: int, n: nat): int
    requires parts > 0
  {
    if n == 0 then 0 else EvenSum(total, parts, n - 1) + EvenPart(total, parts, n - 1)
  }

  /** The parts add up to the total, differ by at most one, and the larger come first. */
  lemma EvenPartsAreEven(total: int, parts: int)
    requires parts > 0
    ensures EvenSum(total, parts, parts) == total
    ensures forall j: nat, k: nat :: j <= k < parts ==>
              EvenPart(total, parts, k) <= EvenPart(total, parts, j) <= EvenPart(total, parts, k) + 1
  {
    EvenSumTo(total, parts, parts);
    assert total == total / parts * parts + total % parts;
  }

  lemma {:induction false} EvenSumTo(total: int, parts: int, n: nat)
    requires parts > 0 && n <= parts
    ensures EvenSum(total, parts, n) == n * (total / parts) + if n <= total % parts then n else total % parts
  {
    if n > 0 {
      EvenSumTo(total, parts, n - 1);
      assert n * (total / parts) == (n - 1) * (total / parts) + total / parts;
    }
  }

  /** The largest part fits a bound that the parts together would fill exactly or more. */
  lemma LargestPartFits(total: int, parts: int, most: int)
    requires parts > 0 && total <= parts * most
    ensures EvenPart(total, parts, 0) <= most
  {
    var base, extra := total / parts, total % parts;
    assert total == parts * base + extra;
    if base > most {
      MoreTimes(parts, most, base - most - 1);
    }
  }

  lemma MoreTimes(n: int, a: int, d: int)
    requires n > 0 && d >= 0
    ensures n * (a + d + 1) >= n * a + n
  {
    assert n * (a + d + 1) == n * a + n * d + n;
  }

  /** The first n orders of a move in even parts, each made from its part. */
  function Block(total: int, parts: int, of: int -> Intent, n: nat): seq<Intent>
    requires parts > 0
  {
    if n == 0 then [] else Block(total, parts, of, n - 1) + [of(EvenPart(total, parts, n - 1))]
  }

  /** A move in `count` orders; none when the move is dust. */
  function Orders(total: int, count: int, of: int -> Intent): seq<Intent> {
    if count <= 0 then [] else Block(total, count, of, count)
  }

  lemma {:induction false} BlockTotal(f: Intent -> real, total: int, parts: int, of: int -> Intent, n: nat, unit: real)
    requires parts > 0 && forall c :: f(of(c)) == Worth(c, unit)
    ensures Total(f, Block(total, parts, of, n)) == Worth(EvenSum(total, parts, n), unit)
  {
    if n > 0 {
      var part := EvenPart(total, parts, n - 1);
      BlockTotal(f, total, parts, of, n - 1, unit);
      TotalOne(f, Block(total, parts, of, n - 1), of(part));
      WorthAdds(EvenSum(total, parts, n - 1), part, unit);
    }
  }

  lemma PartNotNegative(total: int, parts: int, k: nat)
    requires parts > 0 && total >= 0
    ensures EvenPart(total, parts, k) >= 0
  {
  }

  lemma {:induction false} BlockBound(f: Intent -> real, total: int, parts: int, of: int -> Intent, n: nat, unit: real)
    requires parts > 0 && total >= 0 && forall c: nat :: 0.0 <= f(of(c)) <= Worth(c, unit)
    ensures 0.0 <= Total(f, Block(total, parts, of, n)) <= Worth(EvenSum(total, parts, n), unit)
  {
    if n > 0 {
      var part := EvenPart(total, parts, n - 1);
      assert 0 <= part by { PartNotNegative(total, parts, n - 1); }
      assert 0.0 <= f(of(part)) <= Worth(part, unit);
      BlockBound(f, total, parts, of, n - 1, unit);
      TotalOne(f, Block(total, parts, of, n - 1), of(part));
      WorthAdds(EvenSum(total, parts, n - 1), part, unit);
    }
  }

  /** What every order of a move adds to a sum that is proportional to its part. */
  lemma OrdersTotal(f: Intent -> real, total: int, count: int, of: int -> Intent, unit: real)
    requires forall c :: f(of(c)) == Worth(c, unit)
    ensures Total(f, Orders(total, count, of)) == if count <= 0 then 0.0 else Worth(total, unit)
  {
    if count > 0 {
      BlockTotal(f, total, count, of, count, unit);
      EvenPartsAreEven(total, count);
    }
  }

  lemma OrdersBound(f: Intent -> real, total: int, count: int, of: int -> Intent, unit: real)
    requires total >= 0 && unit >= 0.0 && forall c: nat :: 0.0 <= f(of(c)) <= Worth(c, unit)
    ensures 0.0 <= Total(f, Orders(total, count, of)) <= Worth(total, unit)
  {
    if count > 0 {
      BlockBound(f, total, count, of, count, unit);
      EvenPartsAreEven(total, count);
    } else {
      assert Worth(total, unit) >= 0.0;
    }
  }

  lemma {:induction false} BlockAt(total: int, parts: int, of: int -> Intent, n: nat)
    requires parts > 0
    ensures |Block(total, parts, of, n)| == n
    ensures forall k: nat :: k < n ==> Block(total, parts, of, n)[k] == of(EvenPart(total, parts, k))
  {
    if n > 0 {
      BlockAt(total, parts, of, n - 1);
    }
  }

  /** Adds a move's orders to those already there, one by one. */
  method AddOrders(sofar: seq<Intent>, total: int, count: int, of: int -> Intent) returns (all: seq<Intent>)
    ensures all == sofar + Orders(total, count, of)
  {
    all := sofar;
    if count > 0 {
      for k := 0 to count
        invariant all == sofar + Block(total, count, of, k)
      {
        all := all + [of(EvenPart(total, count, k))];
      }
    }
  }

  // ----- one block of orders a row -------------------------------------------------------------

  function Blocks(ordersOf: Row -> seq<Intent>, rows: seq<Row>): seq<Intent> {
    if rows == [] then []
    else Blocks(ordersOf, rows[..|rows| - 1]) + ordersOf(rows[|rows| - 1])
  }

  lemma BlocksOne(ordersOf: Row -> seq<Intent>, rows: seq<Row>, i: nat)
    requires i < |rows|
    ensures Blocks(ordersOf, rows[..i + 1]) == Blocks(ordersOf, rows[..i]) + ordersOf(rows[i])
  {
    assert rows[..i + 1][..i] == rows[..i];
  }

  ghost predicate Distinct(rows: seq<Row>) {
    forall i, j :: 0 <= i < j < |rows| ==> rows[i].address != rows[j].address
  }

  /** Rows that add nothing, add nothing together. */
  lemma {:induction false} TotalOfNone(f: Intent -> real, ordersOf: Row -> seq<Intent>, rows: seq<Row>)
    requires forall r :: r in rows ==> Total(f, ordersOf(r)) == 0.0
    ensures Total(f, Blocks(ordersOf, rows)) == 0.0
  {
    if rows != [] {
      var n := |rows| - 1;
      assert rows[n] in rows;
      TotalOfNone(f, ordersOf, rows[..n]);
      TotalAdds(f, Blocks(ordersOf, rows[..n]), ordersOf(rows[n]));
    }
  }

  /** Only the row at k adds to a sum that every other row adds nothing to. */
  lemma {:induction false} TotalOfRow(f: Intent -> real, ordersOf: Row -> seq<Intent>, rows: seq<Row>, k: nat)
    requires k < |rows| && forall i :: 0 <= i < |rows| && i != k ==> Total(f, ordersOf(rows[i])) == 0.0
    ensures Total(f, Blocks(ordersOf, rows)) == Total(f, ordersOf(rows[k]))
    decreases |rows|
  {
    var n := |rows| - 1;
    TotalAdds(f, Blocks(ordersOf, rows[..n]), ordersOf(rows[n]));
    if k < n {
      TotalOfRow(f, ordersOf, rows[..n], k);
    } else {
      TotalOfNone(f, ordersOf, rows[..n]);
    }
  }

  /** A sum over every row's orders, when each row's is bounded. */
  function Sum(g: Row -> real, rows: seq<Row>): real {
    if rows == [] then 0.0 else Sum(g, rows[..|rows| - 1]) + g(rows[|rows| - 1])
  }

  lemma {:induction false} TotalBetween(f: Intent -> real, ordersOf: Row -> seq<Intent>, g: Row -> real, rows: seq<Row>)
    requires forall r :: r in rows ==> 0.0 <= Total(f, ordersOf(r)) <= g(r)
    ensures 0.0 <= Total(f, Blocks(ordersOf, rows)) <= Sum(g, rows)
  {
    if rows != [] {
      var n := |rows| - 1;
      assert rows[n] in rows;
      TotalBetween(f, ordersOf, g, rows[..n]);
      TotalAdds(f, Blocks(ordersOf, rows[..n]), ordersOf(rows[n]));
    }
  }

  lemma {:induction false} InBlocks(ordersOf: Row -> seq<Intent>, rows: seq<Row>, i: Intent) returns (row: Row)
    requires i in Blocks(ordersOf, rows)
    ensures row in rows && i in ordersOf(row)
  {
    var n := |rows| - 1;
    if i in ordersOf(rows[n]) {
      row := rows[n];
    } else {
      row := InBlocks(ordersOf, rows[..n], i);
    }
  }
}
