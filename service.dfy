/** The two services. Each public method is modelled as one atomic call.
    For authorizeTransaction this is what the row lock taken by
    getCardByIdForUpdate provides for calls on the same card. The capture
    path reads the transaction with a plain findById and takes no lock, so
    its atomicity here is an assumption of the model: two concurrent captures
    of one transaction are not covered. */
module Service {
  import opened Domain
  import opened Repository
  import Ledger

  /** The card ledger: cards keyed by id, read by lookup, written by save. */
  class CardService {
    var cards: map<int, CreditCard>

    ghost predicate Valid()
      reads this
    {
      Ledger.CardsKeyed(cards)
    }

    constructor (initial: map<int, CreditCard>)
      requires Ledger.CardsKeyed(initial)
      ensures Valid() && cards == initial
    {
      cards := initial;
    }

    /** getCardById: the stored card, or NotFound. */
    function GetCardById(cardId: int): (r: Result<CreditCard, Error>)
      reads this
      ensures r.Ok? <==> cardId in cards
      ensures r.Ok? ==> r.value == cards[cardId]
      ensures r.Err? ==> r.error == NotFound
      ensures Valid() && r.Ok? ==> r.value.id == cardId
    {
      if cardId in cards then Ok(cards[cardId]) else Err(NotFound)
    }

    /** getCardByIdForUpdate: the same lookup taken under the row lock, so it
        finds and misses exactly what getCardById does. */
    function GetCardByIdForUpdate(cardId: int): (r: Result<CreditCard, Error>)
      reads this
      ensures r == GetCardById(cardId)
    {
      if cardId in cards then Ok(cards[cardId]) else Err(NotFound)
    }

    /** saveCard: store the card under its own id, replacing what was there;
        a lookup of that id then returns it and no other card changes. */
    method SaveCard(card: CreditCard) returns (saved: CreditCard)
      requires Valid()
      modifies this
      ensures Valid()
      ensures saved == card
      ensures cards == old(cards)[card.id := card]
      ensures GetCardById(card.id) == Ok(card)
      ensures forall id :: id != card.id ==> GetCardById(id) == old(GetCardById(id))
    {
      cards := cards[card.id := card];
      saved := card;
    }
  }

  /** The authorization engine over the card ledger and the transaction table. */
  class TransactionService {
    const cardService: CardService
    var transactions: seq<CardTransaction>

    ghost predicate Valid()
      reads this, cardService
    {
      cardService.Valid() && IdsDense(transactions)
    }

    /** The snapshot of both stores that the step functions of Ledger act on. */
    ghost function State(): Ledger.State
      reads this, cardService
    {
      Ledger.State(cardService.cards, transactions)
    }

    constructor (cardService: CardService)
      requires cardService.Valid()
      ensures Valid() && this.cardService == cardService && transactions == []
    {
      this.cardService := cardService;
      transactions := [];
    }

    /** authorizeTransaction: one Ledger.Authorize step. With a validated
        (positive) amount it keeps 0 <= availableLimit <= creditLimit. */
    method AuthorizeTransaction(cardId: int, amount: int) returns (r: Result<CardTransaction, Error>)
      requires Valid()
      modifies this, cardService
      ensures Valid()
      ensures Ledger.Step(State(), r) == Ledger.Authorize(old(State()), cardId, amount)
      ensures r.Err? ==> State() == old(State())
      ensures amount > 0 && Ledger.Inv(old(State())) ==> Ledger.Inv(State())
    {
      ghost var before := State();
      var lookup := cardService.GetCardByIdForUpdate(cardId);
      if lookup.Err? {
        return Err(lookup.error);
      }
      var card := lookup.value;
      if card.availableLimit < amount {
        return Err(InsufficientFunds);
      }
      card := card.(availableLimit := card.availableLimit - amount);
      card := cardService.SaveCard(card);
      var tx := CardTransaction(|transactions| + 1, card.id, amount, Authorized);
      transactions := transactions + [tx];
      r := Ok(tx);
      if amount > 0 && Ledger.Inv(before) {
        Ledger.AuthorizePreservesInv(before, cardId, amount);
      }
    }

    /** captureTransaction: one Ledger.Capture step. It never writes a card. */
    method CaptureTransaction(txId: int) returns (r: Result<CardTransaction, Error>)
      requires Valid()
      modifies this
      ensures Valid()
      ensures Ledger.Step(State(), r) == Ledger.Capture(old(State()), txId)
      ensures cardService.cards == old(cardService.cards)
      ensures Ledger.Inv(old(State())) ==> Ledger.Inv(State())
    {
      ghost var before := State();
      var found := FindById(transactions, txId);
      if found.None? {
        return Err(NotFound);
      }
      var tx := found.value;
      if tx.txType != Authorized {
        return Err(InvalidState);
      }
      tx := tx.(txType := Captured);
      transactions := transactions[tx.id - 1 := tx];
      r := Ok(tx);
      if Ledger.Inv(before) {
        Ledger.CapturePreservesInv(before, txId);
      }
    }

    /** getTotalCapturedAmount: the repository's captured sum for the card,
        which is 0 when the card has no captured transaction. */
    function GetTotalCapturedAmount(cardId: int): (total: int)
      reads this
      ensures total == SumByCardIdAndType(transactions, cardId, Captured)
      ensures (forall i :: 0 <= i < |transactions| ==> !Matches(transactions[i], cardId, Captured)) ==> total == 0
    {
      SumByCardIdAndType(transactions, cardId, Captured)
    }
  }
}
