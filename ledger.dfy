/** The authorize/capture state machine over the two stores, as pure step
    functions on a snapshot of both. Each step is one atomic call. For
    authorize, the pessimistic lock on the card row serializes calls on the
    same card, so concurrent callers behave like some sequence of these steps;
    capture takes no lock, and its steps describe serialized calls only. */
module Ledger {
  import opened Domain
  import opened Repository

  /** The card store (keyed by card id) and the transaction table. */
  datatype State = State(cards: map<int, CreditCard>, txs: seq<CardTransaction>)

  /** The new snapshot after one call, and what the call returned or threw. */
  datatype Step = Step(state: State, outcome: Result<CardTransaction, Error>)

  /** Each card is stored under its own id. */
  predicate CardsKeyed(cards: map<int, CreditCard>)
  {
    forall id :: id in cards ==> cards[id].id == id
  }

  predicate WithinLimit(card: CreditCard)
  {
    0 <= card.availableLimit <= card.creditLimit
  }

  /** The invariant of every state reachable through validated requests:
      keys are consistent, every card satisfies 0 <= availableLimit <= creditLimit,
      and every transaction belongs to a stored card and has a positive amount. */
  predicate Inv(s: State)
    ensures Inv(s) ==> forall i :: 0 <= i < |s.txs| ==> FindById(s.txs, s.txs[i].id) == Some(s.txs[i])
  {
    && CardsKeyed(s.cards)
    && IdsDense(s.txs)
    && (forall id :: id in s.cards ==> WithinLimit(s.cards[id]))
    && (forall i :: 0 <= i < |s.txs| ==> s.txs[i].cardId in s.cards && s.txs[i].amount > 0)
  }

  /** authorizeTransaction: look the card up (NotFound), refuse when
      availableLimit < amount (InsufficientFunds), else lower the available
      limit by `amount` and append an AUTHORIZED transaction. */
  function Authorize(s: State, cardId: int, amount: int): (st: Step)
    ensures st.state.cards.Keys == s.cards.Keys
    ensures |st.state.txs| == |s.txs| + (if st.outcome.Ok? then 1 else 0)
    ensures st.outcome.Err? ==> st.state == s
  {
    if cardId !in s.cards then Step(s, Err(NotFound))
    else
      var card := s.cards[cardId];
      if card.availableLimit < amount then Step(s, Err(InsufficientFunds))
      else
        var tx := CardTransaction(|s.txs| + 1, cardId, amount, Authorized);
        Step(State(s.cards[cardId := card.(availableLimit := card.availableLimit - amount)], s.txs + [tx]), Ok(tx))
  }

  /** captureTransaction: look the transaction up (NotFound), refuse anything
      not AUTHORIZED (InvalidState), else mark it CAPTURED. Cards are not read. */
  function Capture(s: State, txId: int): (st: Step)
    ensures st.state.cards == s.cards && |st.state.txs| == |s.txs|
    ensures st.outcome.Ok? ==> st.outcome.value.txType == Captured
    ensures st.outcome.Err? ==> st.state == s
  {
    match FindById(s.txs, txId)
    case None => Step(s, Err(NotFound))
    case Some(tx) =>
      if tx.txType != Authorized then Step(s, Err(InvalidState))
      else
        var captured := tx.(txType := Captured);
        Step(s.(txs := s.txs[txId - 1 := captured]), Ok(captured))
  }

  /** What a card still has available plus everything its transactions hold,
      whatever their status: the quantity authorize and capture both conserve. */
  function Accounted(s: State, cardId: int): (total: int)
    requires cardId in s.cards
  {
    s.cards[cardId].availableLimit
      + SumByCardIdAndType(s.txs, cardId, Authorized)
      + SumByCardIdAndType(s.txs, cardId, Captured)
  }

  // ---------------------------------------------------------------- authorize

  /** An unknown card is NotFound, and nothing changes. */
  lemma AuthorizeUnknownCard(s: State, cardId: int, amount: int)
    requires cardId !in s.cards
    ensures Authorize(s, cardId, amount) == Step(s, Err(NotFound))
  {
  }

  /** Asking for more than is available is InsufficientFunds: the card keeps
      its limit and no transaction is added. */
  lemma AuthorizeInsufficient(s: State, cardId: int, amount: int)
    requires cardId in s.cards && s.cards[cardId].availableLimit < amount
    ensures Authorize(s, cardId, amount) == Step(s, Err(InsufficientFunds))
  {
  }

  /** Authorize succeeds exactly when the card exists and covers the amount;
      then the card's available limit drops by exactly `amount`, exactly one
      AUTHORIZED transaction for that card and amount is appended with the next
      key, and every other card and transaction stays as it was. */
  lemma AuthorizeSucceeds(s: State, cardId: int, amount: int)
    ensures var st := Authorize(s, cardId, amount);
      st.outcome.Ok? <==> cardId in s.cards && amount <= s.cards[cardId].availableLimit
    ensures var st := Authorize(s, cardId, amount);
      st.outcome.Ok? ==>
        && st.outcome.value == CardTransaction(|s.txs| + 1, cardId, amount, Authorized)
        && st.state.txs == s.txs + [st.outcome.value]
        && st.state.cards.Keys == s.cards.Keys
        && st.state.cards[cardId] == s.cards[cardId].(availableLimit := s.cards[cardId].availableLimit - amount)
        && (forall id :: id in s.cards && id != cardId ==> st.state.cards[id] == s.cards[id])
    ensures var st := Authorize(s, cardId, amount);
      st.outcome.Err? ==> st.state == s && st.outcome.error != InvalidState
  {
  }

  /** With a positive amount, authorize keeps every card within
      0 <= availableLimit <= creditLimit and keeps the stores consistent. */
  lemma AuthorizePreservesInv(s: State, cardId: int, amount: int)
    requires Inv(s) && amount > 0
    ensures Inv(Authorize(s, cardId, amount).state)
  {
    var st := Authorize(s, cardId, amount);
    if st.outcome.Ok? {
      forall i | 0 <= i < |st.state.txs|
        ensures st.state.txs[i].cardId in st.state.cards && st.state.txs[i].amount > 0
      {
        if i < |s.txs| { assert st.state.txs[i] == s.txs[i]; }
      }
    }
  }

  /** The service relies on the request layer for `amount > 0`: a negative
      amount passes the sufficiency check and lifts the available limit above
      the credit limit. */
  lemma NegativeAmountBreaksInv()
    ensures var s := State(map[1 := CreditCard(1, "4532015112830366", 1000000, 1000000)], []);
      Inv(s) && !Inv(Authorize(s, 1, -100).state)
  {
    var s := State(map[1 := CreditCard(1, "4532015112830366", 1000000, 1000000)], []);
    var st := Authorize(s, 1, -100);
    assert st.state.cards[1].availableLimit == 1000100;
  }

  /** Authorize moves money from the available limit into the card's
      transactions: availableLimit plus the card's transaction amounts is
      the same before and after, for every card. */
  lemma AuthorizeConserves(s: State, cardId: int, amount: int, c: int)
    requires c in s.cards
    ensures var st := Authorize(s, cardId, amount);
      c in st.state.cards && Accounted(st.state, c) == Accounted(s, c)
  {
    var st := Authorize(s, cardId, amount);
    if st.outcome.Ok? {
      var tx := st.outcome.value;
      SumAppend(s.txs, tx, c, Authorized);
      SumAppend(s.txs, tx, c, Captured);
    }
  }

  // ------------------------------------------------------------------ capture

  /** An unknown transaction key is NotFound, and nothing changes. */
  lemma CaptureUnknown(s: State, txId: int)
    requires IdsDense(s.txs) && forall i :: 0 <= i < |s.txs| ==> s.txs[i].id != txId
    ensures Capture(s, txId) == Step(s, Err(NotFound))
  {
  }

  /** Capture succeeds exactly when the transaction exists and is AUTHORIZED.
      On success only that transaction's status changes, to CAPTURED; its key,
      card and amount, every other transaction and every card stay as they were.
      On failure nothing is saved. */
  lemma CaptureSucceeds(s: State, txId: int)
    requires IdsDense(s.txs)
    ensures var st := Capture(s, txId);
      st.outcome.Ok? <==> exists i :: 0 <= i < |s.txs| && s.txs[i].id == txId && s.txs[i].txType == Authorized
    ensures var st := Capture(s, txId);
      st.outcome.Ok? ==>
        && st.state.cards == s.cards
        && |st.state.txs| == |s.txs|
        && st.state.txs[txId - 1] == s.txs[txId - 1].(txType := Captured)
        && st.outcome.value == st.state.txs[txId - 1]
        && (forall i :: 0 <= i < |s.txs| && i != txId - 1 ==> st.state.txs[i] == s.txs[i])
    ensures var st := Capture(s, txId);
      st.outcome.Err? ==> st.state == s && st.outcome.error != InsufficientFunds
  {
    var st := Capture(s, txId);
    if exists i :: 0 <= i < |s.txs| && s.txs[i].id == txId && s.txs[i].txType == Authorized {
      var i :| 0 <= i < |s.txs| && s.txs[i].id == txId && s.txs[i].txType == Authorized;
      assert i == txId - 1;
    }
  }

  /** A transaction that is not AUTHORIZED (already CAPTURED) cannot be captured. */
  lemma CaptureNotAuthorized(s: State, txId: int)
    requires 1 <= txId <= |s.txs| && s.txs[txId - 1].txType != Authorized
    ensures Capture(s, txId) == Step(s, Err(InvalidState))
  {
  }

  /** Capturing the same transaction twice: the second attempt always fails
      with InvalidState and changes nothing. */
  lemma CaptureTwiceFails(s: State, txId: int)
    requires Capture(s, txId).outcome.Ok?
    ensures var s1 := Capture(s, txId).state;
      Capture(s1, txId) == Step(s1, Err(InvalidState))
  {
  }

  /** Capture keeps the invariant. */
  lemma CapturePreservesInv(s: State, txId: int)
    requires Inv(s)
    ensures Inv(Capture(s, txId).state)
  {
  }

  /** Capture moves a transaction's amount from the card's AUTHORIZED total to
      its CAPTURED total; the totals of every other card are untouched. */
  lemma CaptureMovesAmount(s: State, txId: int, c: int)
    requires Capture(s, txId).outcome.Ok?
    ensures var st := Capture(s, txId);
      var tx := st.outcome.value;
      && SumByCardIdAndType(st.state.txs, c, Captured)
         == SumByCardIdAndType(s.txs, c, Captured) + (if tx.cardId == c then tx.amount else 0)
      && SumByCardIdAndType(st.state.txs, c, Authorized)
         == SumByCardIdAndType(s.txs, c, Authorized) - (if tx.cardId == c then tx.amount else 0)
  {
    var st := Capture(s, txId);
    SumUpdate(s.txs, txId - 1, st.outcome.value, c, Captured);
    SumUpdate(s.txs, txId - 1, st.outcome.value, c, Authorized);
  }

  /** Capture never touches a card, so availableLimit plus the card's
      transaction amounts is unchanged for every card. */
  lemma CaptureConserves(s: State, txId: int, c: int)
    requires c in s.cards
    ensures var st := Capture(s, txId);
      c in st.state.cards && Accounted(st.state, c) == Accounted(s, c)
  {
    if Capture(s, txId).outcome.Ok? {
      CaptureMovesAmount(s, txId, c);
    }
  }

  // ----------------------------------------------- serialized authorizations

  /** Authorizations on one card run one after another, in the order the row
      lock admitted them; returns the final snapshot and every call's outcome. */
  function AuthorizeAll(s: State, cardId: int, amounts: seq<int>): (r: (State, seq<Result<CardTransaction, Error>>))
    ensures |r.1| == |amounts|
    decreases |amounts|
  {
    if amounts == [] then (s, [])
    else
      var st := Authorize(s, cardId, amounts[0]);
      var rest := AuthorizeAll(st.state, cardId, amounts[1..]);
      (rest.0, [st.outcome] + rest.1)
  }

  /** How many calls succeeded. */
  function CountOk(os: seq<Result<CardTransaction, Error>>): (n: nat)
  {
    if os == [] then 0 else (if os[0].Ok? then 1 else 0) + CountOk(os[1..])
  }

  /** The amounts the successful calls reserved, added up. */
  function ReservedOk(os: seq<Result<CardTransaction, Error>>): (total: int)
  {
    if os == [] then 0 else (if os[0].Ok? then os[0].value.amount else 0) + ReservedOk(os[1..])
  }

  /** No overbooking, in any serialization order: the successful calls reserve
      together exactly what the card lost and never more than it had; every
      failure is InsufficientFunds; one transaction per success; the invariant
      holds at the end and no other card changes. */
  lemma {:induction false} SerializedNeverOverbooks(s: State, cardId: int, amounts: seq<int>)
    requires Inv(s) && cardId in s.cards
    requires forall k :: 0 <= k < |amounts| ==> amounts[k] > 0
    ensures var (s', os) := AuthorizeAll(s, cardId, amounts);
      && Inv(s')
      && s'.cards.Keys == s.cards.Keys
      && s'.cards[cardId].availableLimit == s.cards[cardId].availableLimit - ReservedOk(os)
      && 0 <= ReservedOk(os) <= s.cards[cardId].availableLimit
      && |s'.txs| == |s.txs| + CountOk(os)
      && (forall k :: 0 <= k < |os| && os[k].Err? ==> os[k].error == InsufficientFunds)
      && (forall id :: id in s.cards && id != cardId ==> s'.cards[id] == s.cards[id])
    decreases |amounts|
  {
    if amounts != [] {
      var st := Authorize(s, cardId, amounts[0]);
      AuthorizePreservesInv(s, cardId, amounts[0]);
      AuthorizeSucceeds(s, cardId, amounts[0]);
      SerializedNeverOverbooks(st.state, cardId, amounts[1..]);
      var rest := AuthorizeAll(st.state, cardId, amounts[1..]);
      var os := [st.outcome] + rest.1;
      assert os[1..] == rest.1;
      forall k | 0 <= k < |os| && os[k].Err?
        ensures os[k].error == InsufficientFunds
      {
        if k > 0 { assert os[k] == rest.1[k - 1]; }
      }
    }
  }

  /** A positive multiple of a positive `a` is at least `a`. */
  lemma {:induction false} MultipleAtLeast(d: int, a: int)
    requires a > 0
    ensures d >= 1 ==> d * a >= a
    decreases if d >= 1 then d else 0
  {
    if d > 1 {
      MultipleAtLeast(d - 1, a);
      assert d * a == (d - 1) * a + a;
    }
  }

  /** A multiple of a positive `a` strictly between -a and a is zero. */
  lemma SmallMultipleIsZero(d: int, a: int)
    requires a > 0 && -a < d * a < a
    ensures d == 0
  {
    MultipleAtLeast(d, a);
    MultipleAtLeast(-d, a);
    assert (-d) * a == -(d * a);
  }

  /** (L - a) / a == L / a - 1 for a card that covers one more call. */
  lemma DivStep(l: int, a: int)
    requires a > 0 && l >= a
    ensures (l - a) / a == l / a - 1
  {
    var q, r := l / a, l % a;
    var q', r' := (l - a) / a, (l - a) % a;
    assert l == q * a + r;
    assert l - a == q' * a + r';
    var d := q - 1 - q';
    assert d * a == q * a - a - q' * a;
    assert d * a == r' - r;
    SmallMultipleIsZero(d, a);
  }

  /** `n` requests for the same amount. */
  function Repeat(a: int, n: nat): (r: seq<int>)
    ensures |r| == n && forall k :: 0 <= k < n ==> r[k] == a
  {
    if n == 0 then [] else [a] + Repeat(a, n - 1)
  }

  /** A card that cannot cover `a` refuses every one of the calls and does not change. */
  lemma {:induction false} AllRefused(s: State, cardId: int, a: int, n: nat)
    requires cardId in s.cards && s.cards[cardId].availableLimit < a
    ensures AuthorizeAll(s, cardId, Repeat(a, n)).0 == s
    ensures CountOk(AuthorizeAll(s, cardId, Repeat(a, n)).1) == 0
    decreases n
  {
    if n > 0 {
      AllRefused(s, cardId, a, n - 1);
      assert Repeat(a, n)[1..] == Repeat(a, n - 1);
    }
  }

  /** EqualAmounts when the card cannot cover even one call: L div a is 0. */
  lemma EqualAmountsRefused(s: State, cardId: int, a: int, n: nat)
    requires cardId in s.cards && 0 <= s.cards[cardId].availableLimit < a
    ensures var r := AuthorizeAll(s, cardId, Repeat(a, n));
      var l := s.cards[cardId].availableLimit;
      && CountOk(r.1) == (if n < l / a then n else l / a)
      && cardId in r.0.cards
      && r.0.cards[cardId].availableLimit == l - CountOk(r.1) * a
      && |r.0.txs| == |s.txs| + CountOk(r.1)
  {
    AllRefused(s, cardId, a, n);
    assert s.cards[cardId].availableLimit / a == 0;
  }

  /** The count and the remaining limit after one more covered request: if the
      remaining n - 1 calls on L - a left `lim` after `k` successes, the n calls
      on L leave the same `lim` after 1 + k = min(n, L div a) successes. */
  lemma CountStep(l: int, a: int, n: nat, k: nat, lim: int)
    requires a > 0 && l >= a && n > 0
    requires k == (if n - 1 < (l - a) / a then n - 1 else (l - a) / a)
    requires lim == (l - a) - k * a
    ensures 1 + k == (if n < l / a then n else l / a)
    ensures lim == l - (1 + k) * a
  {
    DivStep(l, a);
  }

  /** One request, then the rest: the final snapshot is the rest's, and the
      count adds up. */
  lemma AuthorizeAllStep(s: State, cardId: int, amounts: seq<int>)
    requires amounts != []
    ensures var st := Authorize(s, cardId, amounts[0]);
      var rest := AuthorizeAll(st.state, cardId, amounts[1..]);
      && AuthorizeAll(s, cardId, amounts).0 == rest.0
      && CountOk(AuthorizeAll(s, cardId, amounts).1) == (if st.outcome.Ok? then 1 else 0) + CountOk(rest.1)
  {
    var st := Authorize(s, cardId, amounts[0]);
    var rest := AuthorizeAll(st.state, cardId, amounts[1..]);
    assert ([st.outcome] + rest.1)[1..] == rest.1;
  }

  /** The induction step of EqualAmounts: when the first of n calls is
      covered and the other n - 1 behave as stated on what it leaves, the n
      calls behave as stated on L. */
  lemma EqualAmountsCovered(s: State, cardId: int, a: int, n: nat)
    requires cardId in s.cards && a > 0 && n > 0 && s.cards[cardId].availableLimit >= a
    requires var st := Authorize(s, cardId, a);
      var rest := AuthorizeAll(st.state, cardId, Repeat(a, n - 1));
      var l := st.state.cards[cardId].availableLimit;
      && CountOk(rest.1) == (if n - 1 < l / a then n - 1 else l / a)
      && cardId in rest.0.cards
      && rest.0.cards[cardId].availableLimit == l - CountOk(rest.1) * a
      && |rest.0.txs| == |st.state.txs| + CountOk(rest.1)
    ensures var r := AuthorizeAll(s, cardId, Repeat(a, n));
      var l := s.cards[cardId].availableLimit;
      && CountOk(r.1) == (if n < l / a then n else l / a)
      && cardId in r.0.cards
      && r.0.cards[cardId].availableLimit == l - CountOk(r.1) * a
      && |r.0.txs| == |s.txs| + CountOk(r.1)
  {
    var l := s.cards[cardId].availableLimit;
    var st := Authorize(s, cardId, a);
    assert st.outcome.Ok? && st.state.cards[cardId].availableLimit == l - a;
    var rest := AuthorizeAll(st.state, cardId, Repeat(a, n - 1));
    assert Repeat(a, n)[0] == a && Repeat(a, n)[1..] == Repeat(a, n - 1);
    AuthorizeAllStep(s, cardId, Repeat(a, n));
    CountStep(l, a, n, CountOk(rest.1), rest.0.cards[cardId].availableLimit);
  }

  /** N serialized calls of the same amount `a` on a card with available
      limit L: exactly min(N, L div a) succeed, the card ends at
      L - successes * a, and one transaction is created per success. */
  lemma {:induction false} EqualAmounts(s: State, cardId: int, a: int, n: nat)
    requires cardId in s.cards && 0 <= s.cards[cardId].availableLimit && a > 0
    ensures var r := AuthorizeAll(s, cardId, Repeat(a, n));
      var l := s.cards[cardId].availableLimit;
      && CountOk(r.1) == (if n < l / a then n else l / a)
      && cardId in r.0.cards
      && r.0.cards[cardId].availableLimit == l - CountOk(r.1) * a
      && |r.0.txs| == |s.txs| + CountOk(r.1)
    decreases n
  {
    if s.cards[cardId].availableLimit < a {
      EqualAmountsRefused(s, cardId, a, n);
    } else if n > 0 {
      EqualAmounts(Authorize(s, cardId, a).state, cardId, a, n - 1);
      EqualAmountsCovered(s, cardId, a, n);
    }
  }
}
