/** The queries the transaction table answers: lookup by key and the
    filtered sum `COALESCE(SUM(amount), 0) WHERE card.id = ? AND type = ?`.
    The table is a sequence in insertion order; the row with key k sits at
    index k - 1, because the store hands out keys 1, 2, 3, ... and never deletes. */
module Repository {
  import opened Domain

  /** Every row's key is its position plus one. */
  predicate IdsDense(txs: seq<CardTransaction>)
  {
    forall i :: 0 <= i < |txs| ==> txs[i].id == i + 1
  }

  /** findById: the row whose key is `id`, if there is one. */
  function FindById(txs: seq<CardTransaction>, id: int): (r: Option<CardTransaction>)
    ensures r.Some? ==> 1 <= id <= |txs| && r.value == txs[id - 1]
    ensures IdsDense(txs) ==> (r.Some? <==> exists i :: 0 <= i < |txs| && txs[i].id == id)
    ensures IdsDense(txs) && r.Some? ==> r.value.id == id
  {
    if 1 <= id <= |txs| then Some(txs[id - 1]) else None
  }

  /** The WHERE clause of sumByCardIdAndType. */
  predicate Matches(t: CardTransaction, cardId: int, txType: TransactionType)
  {
    t.cardId == cardId && t.txType == txType
  }

  /** What one row adds to the filtered sum. */
  function Contribution(t: CardTransaction, cardId: int, txType: TransactionType): (amount: int)
  {
    if Matches(t, cardId, txType) then t.amount else 0
  }

  /** sumByCardIdAndType: the amounts of the rows of card `cardId` whose status
      is `txType`, added up; 0 when no row matches (the COALESCE default). */
  function SumByCardIdAndType(txs: seq<CardTransaction>, cardId: int, txType: TransactionType): (r: int)
    ensures (forall i :: 0 <= i < |txs| ==> !Matches(txs[i], cardId, txType)) ==> r == 0
    ensures (forall i :: 0 <= i < |txs| ==> txs[i].amount >= 0) ==> r >= 0
  {
    if txs == [] then 0
    else Contribution(txs[0], cardId, txType) + SumByCardIdAndType(txs[1..], cardId, txType)
  }

  /** The matching rows alone, in table order: an independent reading of the WHERE clause. */
  function MatchingRows(txs: seq<CardTransaction>, cardId: int, txType: TransactionType): (m: seq<CardTransaction>)
    ensures forall t :: t in m ==> t in txs && Matches(t, cardId, txType)
    ensures forall t :: t in txs && Matches(t, cardId, txType) ==> t in m
  {
    if txs == [] then []
    else if Matches(txs[0], cardId, txType) then [txs[0]] + MatchingRows(txs[1..], cardId, txType)
    else MatchingRows(txs[1..], cardId, txType)
  }

  /** Plain total of the amounts of a list of rows. */
  function TotalAmount(txs: seq<CardTransaction>): (total: int)
  {
    if txs == [] then 0 else txs[0].amount + TotalAmount(txs[1..])
  }

  /** The sum is the total of exactly the matching rows: no other row contributes. */
  lemma {:induction false} SumIsTotalOfMatchingRows(txs: seq<CardTransaction>, cardId: int, txType: TransactionType)
    ensures SumByCardIdAndType(txs, cardId, txType) == TotalAmount(MatchingRows(txs, cardId, txType))
  {
    if txs != [] {
      SumIsTotalOfMatchingRows(txs[1..], cardId, txType);
    }
  }

  /** Two tables whose matching rows agree have the same sum, whatever their
      other rows (other cards, other statuses) hold. */
  lemma OnlyMatchingRowsCount(a: seq<CardTransaction>, b: seq<CardTransaction>, cardId: int, txType: TransactionType)
    requires MatchingRows(a, cardId, txType) == MatchingRows(b, cardId, txType)
    ensures SumByCardIdAndType(a, cardId, txType) == SumByCardIdAndType(b, cardId, txType)
  {
    SumIsTotalOfMatchingRows(a, cardId, txType);
    SumIsTotalOfMatchingRows(b, cardId, txType);
  }

  /** The sum over two tables laid end to end is the sum of the two sums. */
  lemma {:induction false} SumConcat(a: seq<CardTransaction>, b: seq<CardTransaction>, cardId: int, txType: TransactionType)
    ensures SumByCardIdAndType(a + b, cardId, txType)
         == SumByCardIdAndType(a, cardId, txType) + SumByCardIdAndType(b, cardId, txType)
  {
    if a == [] {
      assert a + b == b;
    } else {
      assert (a + b)[1..] == a[1..] + b;
      SumConcat(a[1..], b, cardId, txType);
    }
  }

  /** Saving a new row adds its amount to the sum when it matches, and nothing otherwise. */
  lemma SumAppend(txs: seq<CardTransaction>, t: CardTransaction, cardId: int, txType: TransactionType)
    ensures SumByCardIdAndType(txs + [t], cardId, txType)
         == SumByCardIdAndType(txs, cardId, txType) + Contribution(t, cardId, txType)
  {
    SumConcat(txs, [t], cardId, txType);
    assert [t][1..] == [];
  }

  /** Overwriting row i replaces its contribution by the new row's. */
  lemma SumUpdate(txs: seq<CardTransaction>, i: int, t: CardTransaction, cardId: int, txType: TransactionType)
    requires 0 <= i < |txs|
    ensures SumByCardIdAndType(txs[i := t], cardId, txType)
         == SumByCardIdAndType(txs, cardId, txType) - Contribution(txs[i], cardId, txType) + Contribution(t, cardId, txType)
  {
    assert txs == txs[..i] + [txs[i]] + txs[i + 1..];
    assert txs[i := t] == txs[..i] + [t] + txs[i + 1..];
    SumConcat(txs[..i] + [txs[i]], txs[i + 1..], cardId, txType);
    SumConcat(txs[..i] + [t], txs[i + 1..], cardId, txType);
    SumAppend(txs[..i], txs[i], cardId, txType);
    SumAppend(txs[..i], t, cardId, txType);
  }
}
