# Credit-card authorize/capture ledger in Dafny

This project models the core of a small credit-card service. A card has a
fixed credit limit and an available limit. `authorizeTransaction` reserves an
amount against the available limit and records an AUTHORIZED transaction.
`captureTransaction` moves such a transaction to CAPTURED without touching the
card. `getTotalCapturedAmount` adds up a card's captured amounts. The model
also covers the card-number masking of the card controller.

Layout, following the Java packages:

- `domain.dfy` (`Domain`): cards, transactions, the status enum, the exceptions as an `Error` datatype, `Option` and `Result`.
- `repository.dfy` (`Repository`): the transaction table's `findById` and `sumByCardIdAndType`, with the laws of the filtered sum.
- `ledger.dfy` (`Ledger`): the authorize/capture state machine as pure step functions on a snapshot of both stores, with its invariants and the lemmas about serialized authorizations.
- `service.dfy` (`Service`): the classes `CardService` (a map of cards) and `TransactionService` (the transaction table plus a reference to the card service). Each method's postcondition ties the new state and the result to one `Ledger` step.
- `controller.dfy` (`Controller`): `maskCardNumber` over Java's `substring` rules, as written and as documented.
- `scenarios.dfy` (`Scenarios`): the service tests' scenarios, and a walk-through that drives the two classes through their contracts.

Modelling choices:

- Money is integer cents: 100.00 is `10000`.
- Ids are unbounded integers.
- The transaction table is a sequence: the store hands out keys 1, 2, 3, … and never deletes, so the row with key k sits at index k − 1.
- The pessimistic row lock taken by `getCardByIdForUpdate` is modelled by its effect. Each authorize call is one atomic step. Concurrent callers on one card then behave like some sequence of steps. `Ledger.AuthorizeAll` runs such a sequence in any order the lock admits, and the lemmas about it hold for every order.
- Capture is also modelled as one atomic step, but here the code takes no lock: it reads the transaction with a plain `findById`. The capture lemmas therefore describe serialized calls only (see "Left out").
- The service does not check that `amount > 0`. That check lives in the request layer (`@DecimalMin("0.01")`). A defensive service would reject non-positive amounts itself; the model follows the code. So the invariant lemmas take `amount > 0` as a hypothesis. `Ledger.NegativeAmountBreaksInv` shows what happens without it.
- `TransactionServiceTest` stubs `getCardById`, but `authorizeTransaction` calls `getCardByIdForUpdate`. The model follows the code. `Service.CardService.GetCardByIdForUpdate` is proved to agree with `GetCardById` on every id.

## Model

| member | source | states |
|---|---|---|
| `Repository.FindById` | src/main/java/com/example/creditcard/service/TransactionService.java:77-78 | finds a row exactly when some row has that key, and the row found carries that key |
| `Repository.SumByCardIdAndType` | src/main/java/com/example/creditcard/repository/TransactionRepository.java:14-15 | the sum is 0 when no row matches both card and type (COALESCE default), and non-negative when all amounts are |
| `Repository.MatchingRows` | src/main/java/com/example/creditcard/repository/TransactionRepository.java:14 | the rows it keeps are exactly the rows of the table that match both the card id and the type |
| `Repository.SumIsTotalOfMatchingRows` | src/main/java/com/example/creditcard/repository/TransactionRepository.java:14 | the sum equals the plain total of the matching rows alone |
| `Repository.OnlyMatchingRowsCount` | src/main/java/com/example/creditcard/repository/TransactionRepository.java:14 | two tables with the same matching rows have the same sum, whatever their rows for other cards or other types |
| `Repository.SumConcat` | src/main/java/com/example/creditcard/repository/TransactionRepository.java:14 | the sum over two tables laid end to end is the sum of their sums |
| `Repository.SumAppend` | src/main/java/com/example/creditcard/repository/TransactionRepository.java:14 | adding a matching row of amount x raises the sum by exactly x; a non-matching row leaves it unchanged |
| `Repository.SumUpdate` | src/main/java/com/example/creditcard/repository/TransactionRepository.java:14 | overwriting one row replaces its contribution to the sum by the new row's |
| `Ledger.Inv` | src/main/java/com/example/creditcard/service/TransactionService.java:41-58 | the invariant the validated operations keep: every card is stored under its id with 0 <= availableLimit <= creditLimit, keys are 1, 2, 3, …, and every transaction has a positive amount and a stored card; in such a state every transaction is found by findById under its own key |
| `Ledger.Authorize` | src/main/java/com/example/creditcard/service/TransactionService.java:37-63 | the step never adds or removes a card, appends exactly one transaction on success and none on failure, and a failure leaves the state unchanged; its full behaviour is stated by the `Ledger.Authorize…` lemmas below |
| `Ledger.AuthorizeUnknownCard` | src/main/java/com/example/creditcard/service/TransactionService.java:39 | authorize on an unknown card fails with NotFound and changes nothing |
| `Ledger.AuthorizeInsufficient` | src/main/java/com/example/creditcard/service/TransactionService.java:41-44 | an amount above the available limit fails with InsufficientFunds; the limit is unchanged and no transaction is added |
| `Ledger.AuthorizeSucceeds` | src/main/java/com/example/creditcard/service/TransactionService.java:37-63 | success iff the card exists and covers the amount; then its available limit is the old one minus the amount, exactly one AUTHORIZED transaction with that card, amount and the next key is appended, and all other cards and transactions are unchanged; failure changes nothing |
| `Ledger.AuthorizePreservesInv` | src/main/java/com/example/creditcard/service/TransactionService.java:41-48 | with a positive amount, 0 <= availableLimit <= creditLimit and store consistency are preserved |
| `Ledger.NegativeAmountBreaksInv` | src/main/java/com/example/creditcard/service/TransactionService.java:41-47 | without the request layer's check, a negative amount lifts availableLimit above creditLimit |
| `Ledger.AuthorizeConserves` | src/main/java/com/example/creditcard/service/TransactionService.java:47-58 | availableLimit plus the card's transaction amounts is the same before and after authorize, for every card |
| `Ledger.Capture` | src/main/java/com/example/creditcard/service/TransactionService.java:76-91 | the step never writes a card and never changes the number of transactions, a success returns a CAPTURED transaction, and a failure leaves the state unchanged; its full behaviour is stated by the `Ledger.Capture…` lemmas below |
| `Ledger.CaptureUnknown` | src/main/java/com/example/creditcard/service/TransactionService.java:77-78 | capture of a key no transaction has fails with NotFound and changes nothing |
| `Ledger.CaptureSucceeds` | src/main/java/com/example/creditcard/service/TransactionService.java:76-91 | success iff the transaction exists and is AUTHORIZED; then only its status changes, to CAPTURED, and no card changes; failure saves nothing |
| `Ledger.CaptureNotAuthorized` | src/main/java/com/example/creditcard/service/TransactionService.java:80-83 | a transaction that is not AUTHORIZED fails with InvalidState and nothing is saved |
| `Ledger.CaptureTwiceFails` | src/main/java/com/example/creditcard/service/TransactionService.java:80-86 | after a successful capture, a later serialized capture of the same id always fails with InvalidState (concurrent captures are not covered) |
| `Ledger.CapturePreservesInv` | src/main/java/com/example/creditcard/service/TransactionService.java:85-86 | capture preserves the limit invariant and store consistency |
| `Ledger.CaptureMovesAmount` | src/main/java/com/example/creditcard/service/TransactionService.java:85-86 | capture moves the amount from the card's AUTHORIZED sum to its CAPTURED sum; other cards' sums are unchanged |
| `Ledger.CaptureConserves` | src/main/java/com/example/creditcard/service/TransactionService.java:66-69 | availableLimit plus the card's transaction amounts is the same before and after capture, for every card |
| `Ledger.AuthorizeAll` | src/main/java/com/example/creditcard/repository/CardRepository.java:23-25 | serialized authorizations under the row lock yield one outcome per request |
| `Ledger.SerializedNeverOverbooks` | src/test/java/com/example/creditcard/service/TransactionServiceConcurrencyTest.java:56-144 | in any order of positive requests, the successes reserve exactly what the card lost and never more than it had, every failure is InsufficientFunds, one transaction is created per success, and no other card changes |
| `Ledger.AllRefused` | src/main/java/com/example/creditcard/service/TransactionService.java:41-44 | a card that cannot cover the amount refuses every repeated request and stays unchanged |
| `Ledger.EqualAmounts` | src/test/java/com/example/creditcard/service/TransactionServiceConcurrencyTest.java:56-144 | N serialized requests of amount a on available limit L: exactly min(N, L div a) succeed, the limit ends at L − successes·a, and the transaction count grows by the number of successes |
| `Service.CardService.constructor` | src/main/java/com/example/creditcard/service/CardService.java:16-18 | the card store starts with the given cards, each under its own id |
| `Service.CardService.GetCardById` | src/main/java/com/example/creditcard/service/CardService.java:27-30 | returns the stored card, with that id, when the id is present, and NotFound when it is absent |
| `Service.CardService.GetCardByIdForUpdate` | src/main/java/com/example/creditcard/service/CardService.java:42-45 | same found/NotFound result as getCardById for every id |
| `Service.CardService.SaveCard` | src/main/java/com/example/creditcard/service/CardService.java:53-55 | after saving, a lookup of the card's id returns it, and no other card's record changes |
| `Service.TransactionService.constructor` | src/main/java/com/example/creditcard/service/TransactionService.java:21-22 | the service starts with an empty transaction table over the given card service |
| `Service.TransactionService.AuthorizeTransaction` | src/main/java/com/example/creditcard/service/TransactionService.java:37-63 | the new state and the result are one `Ledger.Authorize` step; failure changes nothing; a positive amount preserves the limit invariant |
| `Service.TransactionService.CaptureTransaction` | src/main/java/com/example/creditcard/service/TransactionService.java:76-91 | the new state and the result are one `Ledger.Capture` step; no card is written; the invariant is preserved |
| `Service.TransactionService.GetTotalCapturedAmount` | src/main/java/com/example/creditcard/service/TransactionService.java:99-102 | equals sumByCardIdAndType(cardId, CAPTURED), and is 0 when the card has no captured transaction |
| `Controller.Substring` | src/main/java/com/example/creditcard/controller/CardController.java:63 | substring(begin, end) succeeds iff 0 <= begin <= end <= length, and then returns the end − begin characters starting at begin, in order |
| `Controller.SubstringFrom` | src/main/java/com/example/creditcard/controller/CardController.java:63 | substring(begin) succeeds iff 0 <= begin <= length, and then returns the characters from begin to the end, in order |
| `Controller.MaskCardNumber` | src/main/java/com/example/creditcard/controller/CardController.java:57-64 | the call throws exactly for numbers of 8 to 11 characters; otherwise the result has 4 characters for a null or short number and 4 fewer than the number for longer ones; its contents are stated by the `Controller.Mask…` lemmas below |
| `Controller.MaskNullOrShort` | src/main/java/com/example/creditcard/controller/CardController.java:58-60 | a null number or one shorter than 8 becomes exactly "****" |
| `Controller.MaskLong` | src/main/java/com/example/creditcard/controller/CardController.java:63 | from length 12 on: the first 4 characters, "****", then everything from index 12; the result is 4 shorter |
| `Controller.MaskSixteenDigits` | src/main/java/com/example/creditcard/controller/CardController.java:51-63 | a 16-digit number becomes 12 characters keeping the first 4 and the last 4 |
| `Controller.MaskExample` | src/main/java/com/example/creditcard/controller/CardController.java:52 | 4532015112830366 becomes 4532****0366 |
| `Controller.MaskMidLengthFails` | src/main/java/com/example/creditcard/controller/CardController.java:58-63 | lengths 8 to 11 throw StringIndexOutOfBounds at substring(12) |
| `Controller.MaskEightDigitsThrows` | src/main/java/com/example/creditcard/controller/CardController.java:58-63 | the 8-digit number 12345678 passes the guard and throws |
| `Controller.MaskNineteenDigitsShowsSeven` | src/main/java/com/example/creditcard/controller/CardController.java:63 | a 19-digit number keeps 7 trailing digits |
| `Controller.MaskTwelveDigitsShowsNone` | src/main/java/com/example/creditcard/controller/CardController.java:63 | a 12-digit number shows no trailing digit: 123456789012 becomes 1234**** |
| `Controller.MaskFirstAndLastFour` | src/main/java/com/example/creditcard/controller/CardController.java:49-52 | the documented masking has 4 characters for a null or short number and 12 otherwise; its contents are stated by `Controller.MaskKeepsFirstAndLastFour` |
| `Controller.MaskKeepsFirstAndLastFour` | src/main/java/com/example/creditcard/controller/CardController.java:49-52 | the documented masking never throws, shows only the first 4 and last 4 of any number of 8 or more, and agrees with the code on 16 digits |
| `Scenarios.AuthorizeCaptureScenario` | src/test/java/com/example/creditcard/service/TransactionServiceTest.java:59-163 | 10000.00 card: authorize 100.00 leaves 9900.00; 15000.00 is refused and changes nothing; capture gives CAPTURED and a captured total of 100.00; a second capture is InvalidState |
| `Scenarios.TwoRequestsOfEighty` | src/test/java/com/example/creditcard/service/TransactionServiceConcurrencyTest.java:56-97 | two requests of 80.00 on 100.00 available: one success, one InsufficientFunds, 20.00 left |
| `Scenarios.SixRequestsOfHundred` | src/test/java/com/example/creditcard/service/TransactionServiceConcurrencyTest.java:99-144 | six requests of 100.00 on 500.00 available: five successes, 0.00 left, five transactions |
| `Scenarios.ServiceWalkthrough` | src/test/java/com/example/creditcard/service/TransactionServiceTest.java:59-163 | driven through the two service classes' contracts alone, the authorize/refuse/capture/capture-again walk-through leaves the card with 9900.00 available and 100.00 captured |

## Findings

| source | as written | input that shows it | evidently intended | confidence | as-written member | corrected member |
|---|---|---|---|---|---|---|
| src/main/java/com/example/creditcard/controller/CardController.java:58-63 | the guard only rejects lengths below 8, so lengths 8 to 11 reach `substring(12)`, which throws | `"12345678"` | such numbers are masked instead of throwing; taking the method's comment literally (first 4 and last 4), `"12345678"` becomes `"1234****5678"`, which still shows every digit | high; not executed | `Controller.MaskEightDigitsThrows` | `Controller.MaskKeepsFirstAndLastFour` |
| src/main/java/com/example/creditcard/controller/CardController.java:51-63 | everything from index 12 is kept, so the number of trailing digits shown is length − 12: 12 to 15 digits show 0 to 3 (`Controller.MaskTwelveDigitsShowsNone`: `"123456789012"` gives `"1234****"`), longer than 16 show more than 4 | `"4532015112830366123"` gives `"4532****0366123"` | only the first 4 and the last 4 digits are shown, as the method's comment says | medium; not executed | `Controller.MaskNineteenDigitsShowsSeven` | `Controller.MaskKeepsFirstAndLastFour` |

## Left out

- HTTP layer: routing, response maps and status codes of `TransactionController` and `CardController.getCardSummary`. It is glue around the services.
- Request validation (`@Positive cardId`, `@DecimalMin("0.01") amount`): used only as the `amount > 0` hypothesis of the invariant lemmas.
- Locks, threads, executors and latches: modelled by their effect, atomic calls in some serial order. Deadlock, lock timeouts and interleavings on different cards are not modelled.
- `Ledger.CaptureTwiceFails`: holds for serialized calls only. `captureTransaction` takes no lock (plain `findById`), so two concurrent captures of one transaction can both read AUTHORIZED and both succeed under the database's default isolation; the model treats every capture as atomic and cannot show this.
- Null arguments: the controller declares `@NotNull` on the card id and the amount. A null amount that reached the service would throw `NullPointerException` at the comparison with the available limit; the model's arguments are plain integers and cannot be null.
- `Controller.MaskCardNumber`: Java's `length` and `substring` count UTF-16 code units, while a Dafny string is indexed by Unicode scalar values. The two agree on card numbers made of ASCII digits; for a string with characters outside the Basic Multilingual Plane the offsets differ.
- JPA/Spring persistence, `@Transactional` commit and rollback, Lombok builders and logging: the stores are a map and a sequence. The two writes of authorize form one atomic step. The partial-failure case (card saved, transaction save fails) cannot arise in the model.
- `createdAt` timestamps and the clock: not behaviourally relevant; omitted.
- `BigDecimal`: amounts are integer cents. Sub-cent amounts and scale differences are not modelled, nor is overflow of `Long` ids.
- Key generation: the model hands out transaction keys 1, 2, 3, … without gaps. A real identity column may skip values.
- `CardService.SaveCard`: saving a card that has no id yet (an insert with a generated key) is not modelled; every card carries its id.
- `Service.TransactionService.GetTotalCapturedAmount`: the service's `null` check is not modelled as a branch. The repository query's COALESCE already returns 0, so the sum is never null.
- `DataInitializer`: appears only as the seed card (10000.00 of 10000.00) of the scenarios.
