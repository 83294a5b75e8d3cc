/**
 * `VirtualCardManager`: the cards stored in the wallet, keyed by card id,
 * and the log of replacements. It issues cards through its
 * `VirtualCardAI`, runs activation, purchases and balance updates on the
 * stored records, and enforces the monthly replacement quota.
 *
 * Clock readings, random tokens, codes and CVVs are inputs; saving the
 * wallet and the message boxes are not modelled.
 */
module CardManager {
  import opened Wrappers
  import opened Text
  import opened Calendar
  import opened CardFormat
  import opened CardRecords
  import opened Ledger
  import opened Lifecycle
  import opened Replacements
  import opened CardPool

  /** `vc_` followed by the random hex token. */
  function CardId(token: string): string {
    "vc_" + token
  }

  /**
   * `generate_verification_code`: the decimal form of a draw from
   * 100000..999999, hence six digits that parse back to the draw.
   */
  function GenerateVerificationCode(draw: nat): (code: string)
    requires 100000 <= draw <= 999999
    ensures |code| == 6 && IsDigits(code)
    ensures ParseNat(code) == Some(draw)
  {
    NatToStringLength(draw, 6);
    NatToStringLengthAtLeast(draw, 5);
    DecimalValueOfNatToString(draw);
    NatToString(draw)
  }

  /** The card numbers of the stored cards. */
  function NumbersOf(cards: map<string, CardRecord>): set<string> {
    set id | id in cards :: cards[id].cardNumber
  }

  /** No two stored cards share a number. */
  predicate UniqueNumbers(cards: map<string, CardRecord>) {
    forall a, b :: a in cards && b in cards && a != b ==> cards[a].cardNumber != cards[b].cardNumber
  }

  /**
   * Every stored number is recorded as issued (so the pool never hands it
   * out again), no two cards share a number, and every record is well formed.
   */
  predicate CardsConsistent(cards: map<string, CardRecord>, issued: set<string>) {
    && NumbersOf(cards) <= issued
    && UniqueNumbers(cards)
    && forall id :: id in cards ==> WellFormedCard(cards[id])
  }

  /** `if not user_name`: the holder of the old card when no name, or an empty one, is given. */
  function HolderFor(userName: Option<string>, previous: CardRecord): (holder: string)
    ensures holder == previous.cardHolder || Some(holder) == userName
    ensures holder != "" || previous.cardHolder == ""
  {
    if userName.None? || userName.value == "" then previous.cardHolder else userName.value
  }

  /** What `replace_virtual_card` ends with. */
  datatype ReplaceResult =
    | Issued(newId: string, details: CardRecord)
      /** The quota is used up; the notice gives the days until the next month. */
    | LimitReached(daysLeft: int)
    | OldCardMissing
      /** Creating the new card raised: its ten-year expiry does not exist. */
    | NoExpiryDate

  /** Adding a card whose number was never issued keeps the numbers unique and recorded. */
  lemma AddingFreshCardKeepsNumbersUnique(cards: map<string, CardRecord>, issued: set<string>,
                                          id: string, c: CardRecord)
    requires UniqueNumbers(cards) && NumbersOf(cards) <= issued
    requires c.cardNumber !in issued
    ensures UniqueNumbers(cards[id := c])
    ensures NumbersOf(cards[id := c]) <= issued + {c.cardNumber}
  {
    var m := cards[id := c];
    forall a, b | a in m && b in m && a != b
      ensures m[a].cardNumber != m[b].cardNumber
    {
      if a != id && b != id {
      } else if a == id {
        assert cards[b].cardNumber in NumbersOf(cards);
      } else {
        assert cards[a].cardNumber in NumbersOf(cards);
      }
    }
  }

  /** Changing a card without changing its number keeps the numbers unique and recorded. */
  lemma SameNumberKeepsNumbersUnique(cards: map<string, CardRecord>, id: string, c: CardRecord)
    requires id in cards && c.cardNumber == cards[id].cardNumber
    ensures UniqueNumbers(cards) ==> UniqueNumbers(cards[id := c])
    ensures NumbersOf(cards[id := c]) == NumbersOf(cards)
  {
    var updated := cards[id := c];
    forall n | n in NumbersOf(updated) ensures n in NumbersOf(cards) {
      var k :| k in updated && updated[k].cardNumber == n;
      assert cards[k].cardNumber == n;
    }
    forall n | n in NumbersOf(cards) ensures n in NumbersOf(updated) {
      var k :| k in cards && cards[k].cardNumber == n;
      assert updated[k].cardNumber == n;
    }
  }

  /** A new record starts pending with its code and an empty, consistent log. */
  lemma InitialRecordIsWellFormed(number: string, userName: string, now: DateTime,
                                  cvvDraw: nat, code: string)
    requires Calendar.Valid(now)
    requires InitialRecord(number, userName, now, cvvDraw, code).Some?
    ensures WellFormedCard(InitialRecord(number, userName, now, cvvDraw, code).value)
  {
  }

  class VirtualCardManager {
    /** `wallet_data['virtual_cards']`. */
    var cards: map<string, CardRecord>
    /** `wallet_data['card_replacements']`. */
    var replacements: seq<ReplacementRecord>
    /** The number generator; it never changes once built. */
    const cardAI: VirtualCardAI

    /** The pool invariant holds and the stored cards agree with the issued numbers. */
    ghost predicate Valid()
      reads this`cards, cardAI
    {
      cardAI.Valid() && CardsConsistent(cards, cardAI.existingCards)
    }

    /**
     * `__init__`, over a wallet whose stored cards were produced by these
     * operations: the generator loads their numbers as issued and sets up
     * its pool from the pool file.
     */
    constructor (stored: map<string, CardRecord>, log: seq<ReplacementRecord>,
                 snapshot: Option<PoolSnapshot>, today: string, draws: seq<Infix>)
      requires UniqueNumbers(stored) && forall id :: id in stored ==> WellFormedCard(stored[id])
      requires VirtualCardAI.InitDrawsSuffice(snapshot, today, NumbersOf(stored), draws)
      ensures Valid() && fresh(cardAI)
      ensures cards == stored && replacements == log
      ensures cardAI.existingCards == NumbersOf(stored)
      ensures VirtualCardAI.PoolInitialized(snapshot, today, NumbersOf(stored), draws, cardAI.cardPool)
    {
      var generator := NewGenerator(stored, snapshot, today, draws);
      assert CardsConsistent(stored, generator.existingCards);
      cards := stored;
      replacements := log;
      cardAI := generator;
    }

    /** The generator over the stored cards' numbers, as `__init__` builds it. */
    static method NewGenerator(stored: map<string, CardRecord>, snapshot: Option<PoolSnapshot>,
                               today: string, draws: seq<Infix>) returns (generator: VirtualCardAI)
      requires VirtualCardAI.InitDrawsSuffice(snapshot, today, NumbersOf(stored), draws)
      ensures fresh(generator) && generator.Valid()
      ensures generator.existingCards == NumbersOf(stored)
      ensures VirtualCardAI.PoolInitialized(snapshot, today, NumbersOf(stored), draws, generator.cardPool)
    {
      generator := new VirtualCardAI(NumbersOf(stored), snapshot, today, draws);
    }

    /**
     * `create_virtual_card`: issue a number, build the record and store it
     * under `vc_<token>`, replacing a card that already had that id.
     * `None` stands for the ValueError raised when the expiry does not
     * exist; nothing is stored then, but the number stays consumed.
     */
    method CreateVirtualCard(userName: string, token: string, now: DateTime, cvvDraw: nat,
                             code: string, draws: seq<Infix>) returns (created: Option<(string, CardRecord)>)
      requires Valid() && Calendar.Valid(now)
      requires cardAI.DrawsSuffice(draws)
      modifies this, cardAI
      ensures Valid()
      ensures replacements == old(replacements)
      ensures |cardAI.existingCards| == |old(cardAI.existingCards)| + 1
      ensures created.Some? <==> AddYears(now, ValidityYears).Some?
      ensures created.None? ==> cards == old(cards) && old(cardAI.existingCards) < cardAI.existingCards
      ensures created.Some? ==>
                && cardAI.existingCards == old(cardAI.existingCards) + {created.value.1.cardNumber}
                && ValidateCardFormat(created.value.1.cardNumber)
                && created.value.1.cardNumber in old(cardAI.cardPool) + Candidates(draws)
      ensures VirtualCardAI.PoolAfterIssue(old(cardAI.cardPool), cardAI.existingCards, draws, cardAI.cardPool)
      ensures created.Some? ==>
                && created.value.0 == CardId(token)
                && cards == old(cards)[created.value.0 := created.value.1]
                && created.value.1.cardNumber !in old(cardAI.existingCards)
                && created.value.1.cardNumber in cardAI.existingCards
                && Some(created.value.1) == InitialRecord(created.value.1.cardNumber, userName, now, cvvDraw, code)
    {
      var cardId := CardId(token);
      var details := cardAI.GenerateCardDetails(userName, now, cvvDraw, code, draws);
      if details.None? {
        return None;
      }
      var card := details.value;
      InitialRecordIsWellFormed(card.cardNumber, userName, now, cvvDraw, code);
      AddingFreshCardKeepsNumbersUnique(cards, old(cardAI.existingCards), cardId, card);
      cards := cards[cardId := card];
      created := Some((cardId, card));
    }

    /** Store a changed record under its id, keeping the card's number. */
    method StoreRecord(id: string, c: CardRecord)
      requires Valid() && id in cards
      requires c.cardNumber == cards[id].cardNumber && WellFormedCard(c)
      modifies this`cards
      ensures Valid()
      ensures cards == old(cards)[id := c]
    {
      SameNumberKeepsNumbersUnique(cards, id, c);
      cards := cards[id := c];
    }

    /**
     * `update_card_balance`: on a stored card, credit or debit the amount
     * (refusing a debit the balance does not cover) or, for any other
     * label, keep the balance; then log one entry stamped `now`.
     */
    method UpdateCardBalance(cardId: string, amount: int, kind: string, txnId: string, now: DateTime)
      returns (ok: bool)
      requires Valid() && Calendar.Valid(now)
      modifies this
      ensures Valid()
      ensures replacements == old(replacements)
      ensures ok <==> cardId in old(cards)
                      && BalanceUpdate(old(cards)[cardId], amount, kind, txnId, Stamp(now)).Some?
      ensures ok ==> cards == old(cards)[cardId := BalanceUpdate(old(cards)[cardId], amount, kind, txnId, Stamp(now)).value]
      ensures !ok ==> cards == old(cards)
    {
      if cardId !in cards {
        return false;
      }
      var updated := BalanceUpdate(cards[cardId], amount, kind, txnId, Stamp(now));
      if updated.None? {
        return false;
      }
      StoreRecord(cardId, updated.value);
      ok := true;
    }

    /**
     * `activate_virtual_card`: unknown card, already active, no stored code
     * (the wallet's KeyError), wrong code, in that order; otherwise the card
     * becomes active, is stamped, and its code is deleted.
     */
    method ActivateVirtualCard(cardId: string, code: string, verificationMethod: string, now: DateTime)
      returns (outcome: Outcome)
      requires Valid()
      modifies this
      ensures Valid()
      ensures replacements == old(replacements)
      ensures outcome == CheckActivation(old(cards), cardId, code)
      ensures outcome == Success ==> cards == old(cards)[cardId := Activated(old(cards)[cardId], now, verificationMethod)]
      ensures outcome != Success ==> cards == old(cards)
    {
      if cardId !in cards {
        return UnknownCard;
      }
      var card := cards[cardId];
      if card.status == Active {
        return AlreadyActive;
      }
      if card.activationCode.None? {
        return MissingCode;
      }
      if card.activationCode.value != code {
        return InvalidCode;
      }
      StoreRecord(cardId, Activated(card, now, verificationMethod));
      outcome := Success;
    }

    /**
     * `resend_activation_code`: on a stored card that is not active, a new
     * six-digit code replaces the stored one. Showing the code is not modelled.
     */
    method ResendActivationCode(cardId: string, deliveryMethod: string, codeDraw: nat)
      returns (outcome: Outcome, message: string)
      requires Valid()
      requires 100000 <= codeDraw <= 999999
      modifies this
      ensures Valid()
      ensures replacements == old(replacements)
      ensures outcome == CheckResend(old(cards), cardId)
      ensures message == ResendMessage(outcome, deliveryMethod)
      ensures outcome == Success ==>
                cards == old(cards)[cardId := WithNewCode(old(cards)[cardId], GenerateVerificationCode(codeDraw))]
      ensures outcome != Success ==> cards == old(cards)
    {
      if cardId !in cards {
        return UnknownCard, ActivationMessage(UnknownCard);
      }
      var card := cards[cardId];
      if card.status == Active {
        return AlreadyActive, ActivationMessage(AlreadyActive);
      }
      var newCode := GenerateVerificationCode(codeDraw);
      StoreRecord(cardId, WithNewCode(card, newCode));
      outcome := Success;
      message := "New code sent via " + deliveryMethod;
    }

    /**
     * `process_card_transaction`: validate, and on approval debit the
     * amount and log an approved purchase at the merchant stamped `now`.
     */
    method ProcessCardTransaction(cardId: string, amount: int, merchant: string, description: string,
                                  txnId: string, now: DateTime) returns (verdict: Verdict)
      requires Valid() && Calendar.Valid(now)
      modifies this
      ensures Valid()
      ensures replacements == old(replacements)
      ensures verdict == ValidateCardTransaction(old(cards), cardId, amount, now)
      ensures verdict == Approved ==>
                cards == old(cards)[cardId := Debited(old(cards)[cardId], amount, merchant, description, txnId, Stamp(now))]
      ensures verdict != Approved ==> cards == old(cards)
    {
      verdict := ValidateCardTransaction(cards, cardId, amount, now);
      if verdict != Approved {
        return;
      }
      var debited := Debited(cards[cardId], amount, merchant, description, txnId, Stamp(now));
      StoreRecord(cardId, debited);
    }

    /** `get_monthly_replacements`: the records whose `date[:7]` is the month of `now`. */
    method GetMonthlyReplacements(now: DateTime) returns (count: nat)
      requires Calendar.Valid(now)
      ensures count == CountInMonth(replacements, MonthStamp(now))
      ensures count == |IndicesInMonth(replacements, MonthStamp(now))|
    {
      var currentMonth := MonthStamp(now);
      count := 0;
      var i := 0;
      while i < |replacements|
        invariant 0 <= i <= |replacements|
        invariant count == CountInMonth(replacements[..i], currentMonth)
      {
        assert replacements[..i + 1][..i] == replacements[..i];
        if MonthOf(replacements[i].date) == currentMonth {
          count := count + 1;
        }
        i := i + 1;
      }
      assert replacements[..i] == replacements;
      CountIsNumberOfMatches(replacements, currentMonth);
    }

    /** `can_replace_card`: fewer than two replacements dated this month. */
    method CanReplaceCard(now: DateTime) returns (allowed: bool)
      requires Calendar.Valid(now)
      ensures allowed <==> CountInMonth(replacements, MonthStamp(now)) < MaxReplacementsPerMonth
    {
      var count := GetMonthlyReplacements(now);
      allowed := count < MaxReplacementsPerMonth;
    }

    /** `record_card_replacement`: append one record stamped `now`. */
    method RecordCardReplacement(oldCardId: string, newCardId: string, now: DateTime)
      requires Calendar.Valid(now)
      modifies this`replacements
      ensures replacements == old(replacements) + [ReplacementRecord(Stamp(now), oldCardId, newCardId, MonthStamp(now))]
      ensures CountInMonth(replacements, MonthStamp(now)) == old(CountInMonth(replacements, MonthStamp(now))) + 1
    {
      var month := MonthStamp(now);
      var r := ReplacementRecord(Stamp(now), oldCardId, newCardId, month);
      CountAppend(replacements, r, month);
      StampedRecordCountsInItsMonth(now, oldCardId, newCardId, month);
      replacements := replacements + [r];
    }

    /**
     * `replace_virtual_card`: refuse when the quota is used up, then when
     * the old card is unknown; otherwise complete the replacement.
     *
     * The refusal reports the corrected waiting time; the wallet's own
     * computation raises in December (see `DaysLeftAsWritten`).
     */
    method ReplaceVirtualCard(oldCardId: string, userName: Option<string>, token: string,
                              now: DateTime, cvvDraw: nat, code: string, draws: seq<Infix>)
      returns (result: ReplaceResult)
      requires Valid() && Calendar.Valid(now)
      requires cardAI.DrawsSuffice(draws)
      modifies this, cardAI
      ensures Valid()
      ensures !QuotaAvailable(old(replacements), MonthStamp(now)) ==>
                && result == LimitReached(DaysUntilNextMonth(now))
                && cards == old(cards) && replacements == old(replacements)
                && unchanged(cardAI)
      ensures QuotaAvailable(old(replacements), MonthStamp(now)) && oldCardId !in old(cards) ==>
                && result == OldCardMissing
                && cards == old(cards) && replacements == old(replacements)
                && unchanged(cardAI)
      ensures QuotaAvailable(old(replacements), MonthStamp(now)) && oldCardId in old(cards) ==>
                ReplacementCompleted(old(cards), old(replacements), old(cardAI.existingCards),
                                     oldCardId, userName, token, now, cvvDraw, code, result,
                                     cards, replacements, cardAI.existingCards,
                                     old(cardAI.cardPool), draws, cardAI.cardPool)
    {
      var allowed := CanReplaceCard(now);
      if !allowed {
        return LimitReached(DaysUntilNextMonth(now));
      }
      if oldCardId !in cards {
        return OldCardMissing;
      }
      result := CompleteReplacement(oldCardId, userName, token, now, cvvDraw, code, draws);
    }

    /**
     * What completing a replacement of a stored card leaves. In both cases
     * one number is issued and the pool changes as an issue changes it.
     * Either the expiry of the new card does not exist and nothing is
     * stored, or a new card for the given name (the old holder when none is
     * given) is stored under `vc_<token>` with the issued number, the
     * replacement is logged, and the old record is marked replaced with its
     * balance and log left alone. When the new id equals the old one the
     * new card has overwritten the old record, and the marking lands on a
     * copy that is no longer stored.
     */
    static ghost predicate ReplacementCompleted(cards0: map<string, CardRecord>, log0: seq<ReplacementRecord>,
                                                issued0: set<string>, oldCardId: string, userName: Option<string>,
                                                token: string, now: DateTime, cvvDraw: nat, code: string,
                                                result: ReplaceResult,
                                                cards: map<string, CardRecord>, replacements: seq<ReplacementRecord>,
                                                issued: set<string>, pool0: set<string>, draws: seq<Infix>,
                                                pool: set<string>)
      requires oldCardId in cards0 && Calendar.Valid(now)
    {
      && VirtualCardAI.PoolAfterIssue(pool0, issued, draws, pool)
      && (result.Issued? <==> AddYears(now, ValidityYears).Some?)
      && (result.NoExpiryDate? <==> AddYears(now, ValidityYears).None?)
      && (result.NoExpiryDate? ==> cards == cards0 && replacements == log0 && issued0 < issued && |issued| == |issued0| + 1)
      && (result.Issued? ==>
            && result.newId == CardId(token)
            && Some(result.details)
                 == InitialRecord(result.details.cardNumber, HolderFor(userName, cards0[oldCardId]),
                                  now, cvvDraw, code)
            && result.details.cardNumber !in issued0
            && issued == issued0 + {result.details.cardNumber}
            && ValidateCardFormat(result.details.cardNumber)
            && result.details.cardNumber in pool0 + Candidates(draws)
            && replacements == log0 + [ReplacementRecord(Stamp(now), oldCardId, result.newId, MonthStamp(now))]
            && cards == if result.newId == oldCardId then cards0[oldCardId := result.details]
                        else cards0[result.newId := result.details]
                                   [oldCardId := MarkedReplaced(cards0[oldCardId], result.newId, now)])
    }

    /** Lines 658-679 of `replace_virtual_card`, once both refusals are passed. */
    method CompleteReplacement(oldCardId: string, userName: Option<string>, token: string,
                               now: DateTime, cvvDraw: nat, code: string, draws: seq<Infix>)
      returns (result: ReplaceResult)
      requires Valid() && Calendar.Valid(now)
      requires cardAI.DrawsSuffice(draws)
      requires oldCardId in cards
      modifies this, cardAI
      ensures Valid()
      ensures ReplacementCompleted(old(cards), old(replacements), old(cardAI.existingCards),
                                   oldCardId, userName, token, now, cvvDraw, code, result,
                                   cards, replacements, cardAI.existingCards,
                                   old(cardAI.cardPool), draws, cardAI.cardPool)
    {
      ghost var cards0, log0, issued0, pool0 := cards, replacements, cardAI.existingCards, cardAI.cardPool;
      var oldCard := cards[oldCardId];
      var name := HolderFor(userName, oldCard);
      var created := CreateVirtualCard(name, token, now, cvvDraw, code, draws);
      if created.None? {
        return NoExpiryDate;
      }
      var (newId, card) := created.value;
      ghost var withNew, issued, pool := cards, cardAI.existingCards, cardAI.cardPool;
      FinishReplacement(oldCardId, newId, now);
      result := Issued(newId, card);
      IssuedReplacementCompleted(cards0, log0, issued0, oldCardId, userName, token, now, cvvDraw, code,
                                 newId, card, withNew, cards, replacements, issued, pool0, draws, pool);
    }

    /** The created card and the finished bookkeeping make up a completed replacement. */
    static lemma IssuedReplacementCompleted(cards0: map<string, CardRecord>, log0: seq<ReplacementRecord>,
                                            issued0: set<string>, oldCardId: string, userName: Option<string>,
                                            token: string, now: DateTime, cvvDraw: nat, code: string,
                                            newId: string, card: CardRecord, withNew: map<string, CardRecord>,
                                            cards: map<string, CardRecord>, replacements: seq<ReplacementRecord>,
                                            issued: set<string>, pool0: set<string>, draws: seq<Infix>,
                                            pool: set<string>)
      requires oldCardId in cards0 && Calendar.Valid(now)
      requires AddYears(now, ValidityYears).Some?
      requires newId == CardId(token) && withNew == cards0[newId := card]
      requires Some(card) == InitialRecord(card.cardNumber, HolderFor(userName, cards0[oldCardId]), now, cvvDraw, code)
      requires card.cardNumber !in issued0 && issued == issued0 + {card.cardNumber}
      requires ValidateCardFormat(card.cardNumber) && card.cardNumber in pool0 + Candidates(draws)
      requires VirtualCardAI.PoolAfterIssue(pool0, issued, draws, pool)
      requires replacements == log0 + [ReplacementRecord(Stamp(now), oldCardId, newId, MonthStamp(now))]
      requires cards == if newId == oldCardId then withNew
                        else withNew[oldCardId := MarkedReplaced(withNew[oldCardId], newId, now)]
      ensures ReplacementCompleted(cards0, log0, issued0, oldCardId, userName, token, now, cvvDraw, code,
                                   Issued(newId, card), cards, replacements, issued, pool0, draws, pool)
    {
    }

    /**
     * Lines 667-672: log the replacement, then mark the stored old card
     * replaced. When the new card took the old id, the marking changes
     * only a copy and the stored cards stay as they are.
     */
    method FinishReplacement(oldCardId: string, newId: string, now: DateTime)
      requires Valid() && Calendar.Valid(now)
      requires oldCardId in cards
      modifies this`cards, this`replacements
      ensures Valid()
      ensures replacements == old(replacements) + [ReplacementRecord(Stamp(now), oldCardId, newId, MonthStamp(now))]
      ensures cards == if newId == oldCardId then old(cards)
                       else old(cards)[oldCardId := MarkedReplaced(old(cards)[oldCardId], newId, now)]
    {
      RecordCardReplacement(oldCardId, newId, now);
      if newId != oldCardId {
        StoreRecord(oldCardId, MarkedReplaced(cards[oldCardId], newId, now));
      }
    }
  }
}
