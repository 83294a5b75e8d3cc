/**
 * The money side of a card: the ledger invariant that every entry records
 * the balance it left behind, the expiry test, the ordered checks a
 * purchase must pass, and the two ways a balance changes (a purchase, and
 * a credit or debit posted by the wallet).
 */
module Ledger {
  import opened Wrappers
  import opened Text
  import opened Calendar
  import opened CardRecords

  // ---------------------------------------------------------------------
  // Ledger invariant

  /** What an entry does to the balance: credits add, debits subtract, other labels nothing. */
  function Delta(t: Transaction): int {
    if t.kind == "credit" then t.amount
    else if t.kind == "debit" then -t.amount
    else 0
  }

  /** Net effect of a transaction list on a balance that started at zero. */
  function NetFlow(ts: seq<Transaction>): int {
    if ts == [] then 0 else NetFlow(ts[..|ts| - 1]) + Delta(ts[|ts| - 1])
  }

  /**
   * The log replays the balance: the balance is the net flow of the whole
   * log, and each entry records the net flow up to and including itself.
   */
  predicate LedgerConsistent(c: CardRecord) {
    && c.balance == NetFlow(c.transactions)
    && forall i :: 0 <= i < |c.transactions| ==>
         c.transactions[i].balance == NetFlow(c.transactions[..i + 1])
  }

  /** Appending an entry that records the balance it produces keeps the log a replay. */
  lemma AppendKeepsLedgerConsistent(c: CardRecord, t: Transaction)
    requires t.balance == c.balance + Delta(t)
    ensures LedgerConsistent(c) ==> LedgerConsistent(c.(balance := t.balance, transactions := c.transactions + [t]))
  {
    if !LedgerConsistent(c) { return; }
    var ts := c.transactions + [t];
    assert ts[..|ts| - 1] == c.transactions;
    forall i | 0 <= i < |ts|
      ensures ts[i].balance == NetFlow(ts[..i + 1])
    {
      if i < |c.transactions| {
        assert ts[..i + 1] == c.transactions[..i + 1];
      } else {
        assert ts[..i + 1] == ts;
      }
    }
  }

  /** In a consistent log the last entry shows the current balance. */
  lemma LastEntryShowsBalance(c: CardRecord)
    requires LedgerConsistent(c) && |c.transactions| > 0
    ensures c.transactions[|c.transactions| - 1].balance == c.balance
  {
    var ts := c.transactions;
    assert ts[..|ts| - 1 + 1] == ts;
  }

  // ---------------------------------------------------------------------
  // Expiry

  /**
   * `expiry_date.split('/')` read as month and two-digit year; `None`
   * where the split has fewer than two parts or `int()` rejects a part.
   */
  function ParseExpiryDate(s: string): (r: Option<(nat, nat)>)
    ensures r.Some? <==> var parts := Split(s, '/');
                         |parts| >= 2 && IsDigits(parts[0]) && IsDigits(parts[1])
  {
    var parts := Split(s, '/');
    if |parts| < 2 then None
    else
      match (ParseNat(parts[0]), ParseNat(parts[1]))
      case (Some(m), Some(y)) => Some((m, y))
      case _ => None
  }

  /**
   * `is_card_expired`: past the stored instant when there is one;
   * otherwise past midnight of the last day of the "MM/YY" month, with
   * every parse or calendar failure read as "not expired".
   */
  function IsCardExpired(c: CardRecord, now: DateTime): (expired: bool)
    ensures c.expiryDatetime.Some? ==> (expired <==> After(now, c.expiryDatetime.value))
    ensures c.expiryDatetime.None? && ParseExpiryDate(c.expiryDate).None? ==> !expired
    ensures (&& c.expiryDatetime.None? && ParseExpiryDate(c.expiryDate).Some?
             && !(1 <= ParseExpiryDate(c.expiryDate).value.0 <= 12)) ==> !expired
  {
    match c.expiryDatetime
    case Some(e) => After(now, e)
    case None =>
      match ParseExpiryDate(c.expiryDate)
      case None => false
      case Some(my) =>
        match LastDayOfMonth(2000 + my.1, my.0)
        case None => false
        case Some(last) => After(now, last)
  }

  lemma {:induction false} SplitAround(a: string, b: string, sep: char)
    requires sep !in a && sep !in b
    ensures Split(a + [sep] + b, sep) == [a, b]
  {
    if a == [] {
      assert a + [sep] + b == [sep] + b;
      assert ([sep] + b)[1..] == b;
    } else {
      assert (a + [sep] + b)[1..] == a[1..] + [sep] + b;
      SplitAround(a[1..], b, sep);
      assert [a[0]] + a[1..] == a;
    }
  }

  lemma ZeroPadHasNoSlash(n: nat, w: nat)
    ensures '/' !in ZeroPad(n, w)
  {
  }

  /** The "MM/YY" text a new card stores parses back to its month and two-digit year. */
  lemma ExpiryDateRoundTrip(e: DateTime)
    requires Valid(e)
    ensures ParseExpiryDate(FormatExpiry(e)) == Some((e.month, e.year % 100))
  {
    var mm, yy := ZeroPad(e.month, 2), ZeroPad(e.year % 100, 2);
    ZeroPadHasNoSlash(e.month, 2);
    ZeroPadHasNoSlash(e.year % 100, 2);
    SplitAround(mm, yy, '/');
    assert FormatExpiry(e) == mm + ['/'] + yy;
    ZeroPadRoundTrip(e.month, 2);
    ZeroPadRoundTrip(e.year % 100, 2);
  }

  /**
   * For a card issued with an expiry in 2000..2099, the "MM/YY" fallback
   * alone decides expiry as midnight of the last day of the expiry month.
   */
  lemma FallbackExpiryIsMonthEnd(c: CardRecord, e: DateTime, now: DateTime)
    requires Valid(e) && 2000 <= e.year <= 2099
    requires c.expiryDatetime.None? && c.expiryDate == FormatExpiry(e)
    ensures IsCardExpired(c, now) == After(now, Midnight(e.year, e.month, DaysInMonth(e.year, e.month)))
  {
    ExpiryDateRoundTrip(e);
    TwoDigitYear(e.year);
    LastDayOfMonthIsMonthEnd(e.year, e.month);
  }

  /** `2000 + YY` recovers a year of this century from its last two digits. */
  lemma TwoDigitYear(y: int)
    requires 2000 <= y <= 2099
    ensures 2000 + y % 100 == y
  {
    assert y == 100 * 20 + (y - 2000);
  }

  /** The fallback already reports a card expired during the last day of its month. */
  lemma FallbackExpiresDuringLastDay(c: CardRecord, e: DateTime)
    requires Valid(e) && 2000 <= e.year <= 2099
    requires c.expiryDatetime.None? && c.expiryDate == FormatExpiry(e)
    ensures IsCardExpired(c, DateTime(e.year, e.month, DaysInMonth(e.year, e.month), 12, 0, 0, 0))
  {
    FallbackExpiryIsMonthEnd(c, e, DateTime(e.year, e.month, DaysInMonth(e.year, e.month), 12, 0, 0, 0));
  }

  /** A card is never expired at the moment it is issued. */
  lemma NewCardNotExpired(number: string, name: string, now: DateTime, cvvDraw: nat, code: string)
    requires Valid(now)
    requires InitialRecord(number, name, now, cvvDraw, code).Some?
    ensures !IsCardExpired(InitialRecord(number, name, now, cvvDraw, code).value, now)
  {
    var c := InitialRecord(number, name, now, cvvDraw, code).value;
    var e := c.expiryDatetime.value;
    assert After(e, now);
    AfterIsAsymmetric(e, now);
  }

  /** A new card is expired at `t` exactly when `t` is past the instant ten years after issue. */
  lemma NewCardExpiresAfterValidity(number: string, name: string, now: DateTime, cvvDraw: nat, code: string,
                                    t: DateTime)
    requires Valid(now)
    requires InitialRecord(number, name, now, cvvDraw, code).Some?
    ensures IsCardExpired(InitialRecord(number, name, now, cvvDraw, code).value, t)
            <==> After(t, AddYears(now, ValidityYears).value)
  {
  }

  lemma AfterIsAsymmetric(a: DateTime, b: DateTime)
    ensures After(a, b) ==> !After(b, a)
  {
  }

  // ---------------------------------------------------------------------
  // Purchase validation

  /** The outcome of `validate_card_transaction`, with the figure each rejection reports. */
  datatype Verdict =
    | Approved
    | CardNotFound
    | NotActive
    | CardExpired
    | InsufficientBalance(available: int)
    | OverDailyLimit(limit: int)
    | OverMonthlyLimit(limit: int)

  /**
   * `validate_card_transaction`: not found, not active, expired,
   * balance below the amount, amount above the daily limit, amount above
   * the monthly limit, in that order; otherwise approved.
   */
  function ValidateCardTransaction(cards: map<string, CardRecord>, cardId: string,
                                   amount: int, now: DateTime): (v: Verdict)
    ensures v == Approved <==>
              && cardId in cards
              && cards[cardId].status == Active
              && !IsCardExpired(cards[cardId], now)
              && amount <= cards[cardId].balance
              && amount <= cards[cardId].dailyLimit
              && amount <= cards[cardId].monthlyLimit
  {
    if cardId !in cards then CardNotFound
    else
      var c := cards[cardId];
      if c.status != Active then NotActive
      else if IsCardExpired(c, now) then CardExpired
      else if c.balance < amount then InsufficientBalance(c.balance)
      else if amount > c.dailyLimit then OverDailyLimit(c.dailyLimit)
      else if amount > c.monthlyLimit then OverMonthlyLimit(c.monthlyLimit)
      else Approved
  }

  /** One check of the list: whether the card passes it, and the verdict if it does not. */
  datatype Check = Check(passes: bool, failure: Verdict)

  /** The verdict of the first check that fails, or approval when none does. */
  function FirstFailure(checks: seq<Check>): Verdict {
    if checks == [] then Approved
    else if !checks[0].passes then checks[0].failure
    else FirstFailure(checks[1..])
  }

  /** The checks on a card that exists, in the order the wallet applies them. */
  function PurchaseChecks(c: CardRecord, amount: int, now: DateTime): seq<Check> {
    [ Check(c.status == Active, NotActive),
      Check(!IsCardExpired(c, now), CardExpired),
      Check(c.balance >= amount, InsufficientBalance(c.balance)),
      Check(amount <= c.dailyLimit, OverDailyLimit(c.dailyLimit)),
      Check(amount <= c.monthlyLimit, OverMonthlyLimit(c.monthlyLimit)) ]
  }

  /** Validation reports the first failing check of the ordered list. */
  lemma ValidationFollowsCheckOrder(cards: map<string, CardRecord>, cardId: string,
                                    amount: int, now: DateTime)
    ensures cardId !in cards ==> ValidateCardTransaction(cards, cardId, amount, now) == CardNotFound
    ensures cardId in cards ==>
              ValidateCardTransaction(cards, cardId, amount, now)
                == FirstFailure(PurchaseChecks(cards[cardId], amount, now))
  {
    if cardId in cards {
      var c := cards[cardId];
      var cs := PurchaseChecks(c, amount, now);
      assert cs[1..] == PurchaseChecks(c, amount, now)[1..];
      var t1 := cs[1..];
      var t2 := t1[1..];
      var t3 := t2[1..];
      var t4 := t3[1..];
      assert t4[1..] == [];
      assert t1[0] == Check(!IsCardExpired(c, now), CardExpired);
      assert t2[0] == Check(c.balance >= amount, InsufficientBalance(c.balance));
      assert t3[0] == Check(amount <= c.dailyLimit, OverDailyLimit(c.dailyLimit));
      assert t4[0] == Check(amount <= c.monthlyLimit, OverMonthlyLimit(c.monthlyLimit));
      assert FirstFailure(t4) == if t4[0].passes then Approved else t4[0].failure;
      assert FirstFailure(t3) == if t3[0].passes then FirstFailure(t4) else t3[0].failure;
      assert FirstFailure(t2) == if t2[0].passes then FirstFailure(t3) else t2[0].failure;
      assert FirstFailure(t1) == if t1[0].passes then FirstFailure(t2) else t1[0].failure;
    }
  }

  // ---------------------------------------------------------------------
  // Balance changes

  /**
   * `process_card_transaction` after approval: the amount leaves the
   * balance and one approved "debit" entry at the merchant is appended.
   */
  function Debited(c: CardRecord, amount: int, merchant: string, description: string,
                   txnId: string, date: string): (d: CardRecord)
    ensures d.balance == c.balance - amount
    ensures |d.transactions| == |c.transactions| + 1 && d.transactions[..|c.transactions|] == c.transactions
    ensures d.transactions[|c.transactions|].balance == d.balance
    ensures d.transactions[|c.transactions|].kind == "debit" && d.transactions[|c.transactions|].amount == amount
    ensures LedgerConsistent(c) ==> LedgerConsistent(d)
    ensures d.(balance := c.balance, transactions := c.transactions) == c
  {
    var t := Transaction(txnId, date, "debit", amount, c.balance - amount, Some(merchant),
                         if description == "" then "Purchase at " + merchant else description,
                         Some("Visa"), Some("approved"));
    AppendKeepsLedgerConsistent(c, t);
    assert (c.transactions + [t])[..|c.transactions|] == c.transactions;
    c.(balance := t.balance, transactions := c.transactions + [t])
  }

  /** An approved purchase leaves a balance that is not negative. */
  lemma ApprovedPurchaseKeepsBalanceNonNegative(cards: map<string, CardRecord>, cardId: string,
                                                amount: int, now: DateTime, merchant: string,
                                                description: string, txnId: string, date: string)
    requires ValidateCardTransaction(cards, cardId, amount, now) == Approved
    ensures Debited(cards[cardId], amount, merchant, description, txnId, date).balance >= 0
  {
  }

  /**
   * `update_card_balance` on an existing card: a credit adds, a debit
   * subtracts when covered, any other label leaves the balance; one entry
   * with the resulting balance is appended. `None` for an uncovered debit.
   */
  function BalanceUpdate(c: CardRecord, amount: int, kind: string, txnId: string,
                         date: string): (r: Option<CardRecord>)
    ensures r.None? <==> kind == "debit" && c.balance < amount
    ensures r.Some? ==> r.value.balance == c.balance + (if kind == "credit" then amount else if kind == "debit" then -amount else 0)
    ensures r.Some? ==> |r.value.transactions| == |c.transactions| + 1
    ensures r.Some? ==> r.value.transactions[..|c.transactions|] == c.transactions
    ensures r.Some? ==> r.value.transactions[|c.transactions|].balance == r.value.balance
    ensures r.Some? ==> r.value.(balance := c.balance, transactions := c.transactions) == c
    ensures r.Some? && LedgerConsistent(c) ==> LedgerConsistent(r.value)
  {
    if kind == "debit" && c.balance < amount then None
    else
      var newBalance := if kind == "credit" then c.balance + amount
                        else if kind == "debit" then c.balance - amount
                        else c.balance;
      var t := Transaction(txnId, date, kind, amount, newBalance, None,
                           Title(kind) + " via TorCOIN", None, None);
      AppendKeepsLedgerConsistent(c, t);
      assert (c.transactions + [t])[..|c.transactions|] == c.transactions;
      Some(c.(balance := newBalance, transactions := c.transactions + [t]))
  }

  /**
   * Over a log built only by these two operations, the balance is the
   * credits minus the debits, whatever happened in between.
   */
  lemma {:induction false} NetFlowIsCreditsMinusDebits(ts: seq<Transaction>)
    ensures NetFlow(ts) == SumOfKind(ts, "credit") - SumOfKind(ts, "debit")
  {
    if ts != [] {
      NetFlowIsCreditsMinusDebits(ts[..|ts| - 1]);
    }
  }

  /** Total amount of the entries with a given label. */
  function SumOfKind(ts: seq<Transaction>, kind: string): int {
    if ts == [] then 0
    else SumOfKind(ts[..|ts| - 1], kind) + (if ts[|ts| - 1].kind == kind then ts[|ts| - 1].amount else 0)
  }
}
