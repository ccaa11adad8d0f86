/** The rows of one query as the engine visits them: a version test that fails ends them, and whether anybody notices
    depends on the driver. */
module RowScan {
  import opened Order

  datatype Truth = Yes | No | Fails

  /** An operation and a row of vuln. The engine may test a row of vuln before it has joined it to anything, whether
      or not it is associated with an operation; then the first component means nothing. */
  type Row = (nat, nat)

  /** The rows the engine hands out when it visits rows in this order: those that pass, up to the first whose version
      test fails. */
  function Delivered(test: Row -> Truth, order: seq<Row>): seq<Row> {
    if order == [] then []
    else
      match test(order[0])
      case Fails => []
      case Yes => [order[0]] + Delivered(test, order[1..])
      case No => Delivered(test, order[1..])
  }

  predicate CutShort(test: Row -> Truth, order: seq<Row>) { exists a :: a in order && test(a) == Fails }

  /** A driver that steps once when the query is run returns the error of a test that fails before the first row; any
      later one only ends the rows. */
  predicate Reported(steps: bool, test: Row -> Truth, order: seq<Row>) {
    steps && CutShort(test, order) && Delivered(test, order) == []
  }

  /** An order in which the engine may visit rows: every joined row, and any other rows of vuln. */
  ghost predicate IsVisit(order: seq<Row>, must: set<Row>, may: Row -> bool) {
    Distinct(order) && (forall a :: a in order ==> may(a)) && forall a :: a in must ==> a in order
  }

  lemma {:induction false} SomeVisit(must: set<Row>, may: Row -> bool) returns (order: seq<Row>)
    requires forall a :: a in must ==> may(a)
    ensures IsVisit(order, must, may) && forall a :: a in order ==> a in must
    decreases must
  {
    order := [];
    if must != {} {
      var a :| a in must;
      var rest := SomeVisit(must - {a}, may);
      order := [a] + rest;
    }
  }

  /** One row first, then the joined rows. */
  lemma VisitFirst(must: set<Row>, may: Row -> bool, a: Row) returns (order: seq<Row>)
    requires may(a) && forall b :: b in must ==> may(b)
    ensures IsVisit(order, must, may) && order != [] && order[0] == a
  {
    var rest := SomeVisit(must - {a}, may);
    order := [a] + rest;
  }

  /** Two rows first, then the joined rows. */
  lemma VisitBoth(must: set<Row>, may: Row -> bool, a: Row, b: Row) returns (order: seq<Row>)
    requires may(a) && may(b) && a != b && forall c :: c in must ==> may(c)
    ensures IsVisit(order, must, may) && |order| >= 2 && order[0] == a && order[1] == b
  {
    var rest := SomeVisit(must - {a, b}, may);
    order := [a, b] + rest;
  }

  lemma {:induction false} DeliveredPass(test: Row -> Truth, order: seq<Row>)
    ensures forall a :: a in Delivered(test, order) ==> a in order && test(a) == Yes
    ensures (forall a :: a in order ==> test(a) != Fails) ==>
              forall a :: a in order && test(a) == Yes ==> a in Delivered(test, order)
  {
    if order != [] {
      assert order == [order[0]] + order[1..];
      DeliveredPass(test, order[1..]);
    }
  }

  lemma {:induction false} DeliveredSame(test: Row -> Truth, test': Row -> Truth, order: seq<Row>)
    requires forall a :: test(a) == test'(a)
    ensures Delivered(test, order) == Delivered(test', order)
  {
    if order != [] {
      DeliveredSame(test, test', order[1..]);
    }
  }

  lemma FailFirst(test: Row -> Truth, order: seq<Row>)
    requires order != [] && test(order[0]) == Fails
    ensures Delivered(test, order) == []
  {
  }

  lemma PassFirst(test: Row -> Truth, order: seq<Row>)
    requires order != [] && test(order[0]) == Yes
    ensures order[0] in Delivered(test, order)
  {
  }

  lemma PassThenFail(test: Row -> Truth, order: seq<Row>)
    requires |order| >= 2 && test(order[0]) == Yes && test(order[1]) == Fails
    ensures Delivered(test, order) == [order[0]]
  {
    assert order[1..][0] == order[1];
  }

  /** Only the joined rows are handed out, and they are among those the engine may visit. */
  ghost predicate Scannable(test: Row -> Truth, must: set<Row>, may: Row -> bool) {
    (forall a :: a in must ==> may(a)) && forall a :: test(a) == Yes ==> a in must
  }

  /** A scan that is not reported misses this row of vuln. */
  ghost predicate Misses(steps: bool, test: Row -> Truth, order: seq<Row>, i: nat) {
    !Reported(steps, test, order) && forall a :: a in Delivered(test, order) ==> a.1 != i
  }

  /** A scan can silently miss a row that passes if and only if some row it may visit fails and, when the driver steps
      once, another row passes. */
  lemma MissesIff(steps: bool, test: Row -> Truth, must: set<Row>, may: Row -> bool, y: Row)
    requires Scannable(test, must, may) && test(y) == Yes
    ensures (exists order :: IsVisit(order, must, may) && Misses(steps, test, order, y.1)) <==>
            && (exists f :: may(f) && test(f) == Fails)
            && (steps ==> exists z :: test(z) == Yes && z.1 != y.1)
  {
    if order :| IsVisit(order, must, may) && Misses(steps, test, order, y.1) {
      MissesWhy(steps, test, order, y);
    }
    if f :| may(f) && test(f) == Fails {
      if z :| test(z) == Yes && z.1 != y.1 {
        var order := VisitBoth(must, may, z, f);
        PassThenFail(test, order);
        assert Misses(steps, test, order, y.1);
      } else if !steps {
        var order := VisitFirst(must, may, f);
        FailFirst(test, order);
        assert Misses(steps, test, order, y.1);
      }
    }
  }

  lemma MissesWhy(steps: bool, test: Row -> Truth, order: seq<Row>, y: Row)
    requires test(y) == Yes && y in order && Misses(steps, test, order, y.1)
    ensures CutShort(test, order) && (steps ==> exists z :: test(z) == Yes && z.1 != y.1)
  {
    DeliveredPass(test, order);
    if steps {
      var z := Delivered(test, order)[0];
      assert z in Delivered(test, order);
    }
  }

  ghost predicate CompleteScan(steps: bool, test: Row -> Truth, order: seq<Row>) {
    Reported(steps, test, order) || forall a :: test(a) == Yes ==> a in Delivered(test, order)
  }

  /** Every scan is complete or reported if and only if no row the engine may visit fails, or no two rows pass (no row
      at all, when the driver does not step). */
  lemma ScanCompleteIff(steps: bool, test: Row -> Truth, must: set<Row>, may: Row -> bool)
    requires Scannable(test, must, may)
    ensures (forall order :: IsVisit(order, must, may) ==> CompleteScan(steps, test, order)) <==>
            || (forall a :: may(a) ==> test(a) != Fails)
            || (if steps then forall a, b :: test(a) == Yes && test(b) == Yes ==> a == b
                else forall a :: test(a) != Yes)
  {
    if forall a :: may(a) ==> test(a) != Fails {
      forall order | IsVisit(order, must, may) ensures CompleteScan(steps, test, order) {
        DeliveredPass(test, order);
      }
    } else {
      var f :| may(f) && test(f) == Fails;
      if steps {
        FewPass(test, must, may);
        if a, b :| test(a) == Yes && test(b) == Yes && a != b {
          var order := VisitBoth(must, may, a, f);
          PassThenFail(test, order);
          assert !CompleteScan(steps, test, order);
        }
      } else if a :| test(a) == Yes {
        var order := VisitFirst(must, may, f);
        FailFirst(test, order);
        assert !CompleteScan(steps, test, order);
      }
    }
  }

  lemma FewPass(test: Row -> Truth, must: set<Row>, may: Row -> bool)
    requires Scannable(test, must, may)
    ensures (forall a, b :: test(a) == Yes && test(b) == Yes ==> a == b) ==>
              forall order :: IsVisit(order, must, may) ==> CompleteScan(true, test, order)
  {
    if forall a, b :: test(a) == Yes && test(b) == Yes ==> a == b {
      forall order | IsVisit(order, must, may) ensures CompleteScan(true, test, order) {
        DeliveredPass(test, order);
        if Delivered(test, order) != [] {
          assert Delivered(test, order)[0] in Delivered(test, order);
        }
      }
    }
  }

  /** A scan can come to its end, or end silently, unless the driver steps, a joined row fails and none passes. */
  lemma UnreportedIff(steps: bool, test: Row -> Truth, must: set<Row>, may: Row -> bool)
    requires Scannable(test, must, may)
    ensures (exists order :: IsVisit(order, must, may) && !Reported(steps, test, order)) <==>
            !(steps && (exists f :: f in must && test(f) == Fails) && forall a :: test(a) != Yes)
  {
    if order :| IsVisit(order, must, may) && !Reported(steps, test, order) {
      DeliveredPass(test, order);
      if Delivered(test, order) != [] {
        assert Delivered(test, order)[0] in Delivered(test, order);
      }
    }
    if y :| test(y) == Yes {
      var order := VisitFirst(must, may, y);
      PassFirst(test, order);
    } else {
      var order := SomeVisit(must, may);
      assert IsVisit(order, must, may);
    }
  }

  // ---- One more condition ----

  /** `more` is `test` with some rows ruled out beforehand. */
  ghost predicate Narrows(more: Row -> Truth, test: Row -> Truth) { forall a :: more(a) == test(a) || more(a) == No }

  ghost predicate Shrinks(more: Row -> Truth, test: Row -> Truth, order: seq<Row>) {
    forall a :: a in Delivered(more, order) ==> a in Delivered(test, order)
  }

  /** Rows visited in the same order: a further condition never delivers a row more if and only if it rules out no
      row whose version test failed, or nothing passes with it. */
  lemma ShrinksIff(more: Row -> Truth, test: Row -> Truth, must: set<Row>, may: Row -> bool)
    requires Narrows(more, test) && Scannable(test, must, may)
    ensures (forall order :: IsVisit(order, must, may) ==> Shrinks(more, test, order)) <==>
            (forall a :: may(a) && test(a) == Fails ==> more(a) == Fails) || (forall a :: more(a) != Yes)
  {
    if forall a :: may(a) && test(a) == Fails ==> more(a) == Fails {
      forall order | IsVisit(order, must, may) ensures Shrinks(more, test, order) {
        ShrinksInOrder(more, test, order);
      }
    } else if y :| more(y) == Yes {
      var f :| may(f) && test(f) == Fails && more(f) != Fails;
      assert test(y) == Yes;
      var order := VisitBoth(must, may, f, y);
      FailFirst(test, order);
      NextDelivered(more, order);
      assert !Shrinks(more, test, order);
    } else {
      forall order | IsVisit(order, must, may) ensures Shrinks(more, test, order) {
        DeliveredPass(more, order);
      }
    }
  }

  lemma {:induction false} ShrinksInOrder(more: Row -> Truth, test: Row -> Truth, order: seq<Row>)
    requires Narrows(more, test) && forall a :: a in order && test(a) == Fails ==> more(a) == Fails
    ensures Shrinks(more, test, order)
  {
    if order != [] {
      ShrinksInOrder(more, test, order[1..]);
    }
  }

  lemma NextDelivered(more: Row -> Truth, order: seq<Row>)
    requires |order| >= 2 && more(order[0]) == No && more(order[1]) == Yes
    ensures order[1] in Delivered(more, order)
  {
    assert order[1..][0] == order[1];
    PassFirst(more, order[1..]);
  }
}
