/** Entities of the credit-card service and the outcomes its operations return.
    Money is counted in integer cents; identifiers are the stores' numeric keys. */
module Domain {

  /** Status of a card transaction: AUTHORIZED -> CAPTURED, terminal at CAPTURED. */
  datatype TransactionType = Authorized | Captured

  /** A card record: its key, its number, the fixed credit limit and the
      part of it that is still available. */
  datatype CreditCard = CreditCard(id: int, cardNumber: string, creditLimit: int, availableLimit: int)

  /** A transaction record: its key, the key of the card it belongs to, the
      amount reserved and its status. The creation timestamp is not modelled. */
  datatype CardTransaction = CardTransaction(id: int, cardId: int, amount: int, txType: TransactionType)

  /** The exceptions the services throw:
      NotFound is NoSuchElementException, InsufficientFunds and InvalidState are
      the two uses of IllegalArgumentException. */
  datatype Error = NotFound | InsufficientFunds | InvalidState

  datatype Option<T> = None | Some(value: T)

  datatype Result<T, E> = Ok(value: T) | Err(error: E)
}
