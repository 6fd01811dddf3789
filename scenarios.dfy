/** The service tests' scenarios, stated over the model. */
module Scenarios {
  import opened Domain
  import opened Repository
  import opened Ledger
  import opened Service

  /** The seeded card, id 1, 10000.00 of credit, with `available` cents available. */
  function SeedCard(available: int): (card: CreditCard)
  {
    CreditCard(1, "4532015112830366", 1000000, available)
  }

  /** Authorize 100.00 on a fresh 10000.00 card, then 15000.00, then capture
      the first transaction twice. */
  lemma AuthorizeCaptureScenario()
    ensures var s0 := State(map[1 := SeedCard(1000000)], []);
      var a := Authorize(s0, 1, 10000);
      var b := Authorize(a.state, 1, 1500000);
      var c := Capture(b.state, 1);
      var d := Capture(c.state, 1);
      && a.outcome == Ok(CardTransaction(1, 1, 10000, Authorized))
      && a.state.cards[1].availableLimit == 990000
      && b.outcome == Err(InsufficientFunds) && b.state == a.state
      && c.outcome == Ok(CardTransaction(1, 1, 10000, Captured))
      && c.state.cards[1].availableLimit == 990000
      && SumByCardIdAndType(c.state.txs, 1, Captured) == 10000
      && d.outcome == Err(InvalidState) && d.state == c.state
  {
    var s0 := State(map[1 := SeedCard(1000000)], []);
    var c := Capture(Authorize(Authorize(s0, 1, 10000).state, 1, 1500000).state, 1);
    assert c.state.txs == [CardTransaction(1, 1, 10000, Captured)];
  }

  /** Two serialized requests of 80.00 on a card with 100.00 available:
      one succeeds, the other is refused for insufficient funds, 20.00 remain. */
  lemma TwoRequestsOfEighty()
    ensures var s := State(map[1 := SeedCard(10000)], []);
      var r := AuthorizeAll(s, 1, Repeat(8000, 2));
      && CountOk(r.1) == 1
      && (forall k :: 0 <= k < |r.1| && r.1[k].Err? ==> r.1[k].error == InsufficientFunds)
      && r.0.cards[1].availableLimit == 2000
  {
    var s := State(map[1 := SeedCard(10000)], []);
    EqualAmounts(s, 1, 8000, 2);
    SerializedNeverOverbooks(s, 1, Repeat(8000, 2));
  }

  /** Six serialized requests of 100.00 on a card with 500.00 available:
      five succeed, 0.00 remain, and five transactions exist. */
  lemma SixRequestsOfHundred()
    ensures var s := State(map[1 := SeedCard(50000)], []);
      var r := AuthorizeAll(s, 1, Repeat(10000, 6));
      && CountOk(r.1) == 5
      && (forall k :: 0 <= k < |r.1| && r.1[k].Err? ==> r.1[k].error == InsufficientFunds)
      && r.0.cards[1].availableLimit == 0
      && |r.0.txs| == 5
  {
    var s := State(map[1 := SeedCard(50000)], []);
    EqualAmounts(s, 1, 10000, 6);
    SerializedNeverOverbooks(s, 1, Repeat(10000, 6));
  }

  /** The same walk-through driven through the service objects, using only
      their contracts: the card ends with 9900.00 available and 100.00 captured. */
  method ServiceWalkthrough() returns (available: int, captured: int)
    ensures available == 990000 && captured == 10000
  {
    var cards := new CardService(map[1 := SeedCard(1000000)]);
    var service := new TransactionService(cards);

    var a := service.AuthorizeTransaction(1, 10000);
    assert a == Ok(CardTransaction(1, 1, 10000, Authorized));
    assert cards.GetCardById(1) == Ok(SeedCard(990000));

    var b := service.AuthorizeTransaction(1, 1500000);
    assert b == Err(InsufficientFunds);
    assert cards.GetCardById(1) == Ok(SeedCard(990000));

    var c := service.CaptureTransaction(1);
    assert c == Ok(CardTransaction(1, 1, 10000, Captured));
    var total := service.GetTotalCapturedAmount(1);
    assert service.transactions == [CardTransaction(1, 1, 10000, Captured)];
    assert total == 10000;

    var d := service.CaptureTransaction(1);
    assert d == Err(InvalidState);

    var card := cards.GetCardById(1);
    available, captured := card.value.availableLimit, service.GetTotalCapturedAmount(1);
  }
}
