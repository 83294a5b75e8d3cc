/**
 * The activation state machine of a card record: the ordered checks of
 * `activate_virtual_card` and `resend_activation_code`, what a successful
 * call does to the record, and the invariant tying status to the presence
 * of an activation code.
 */
module Lifecycle {
  import opened Wrappers
  import opened Calendar
  import opened CardRecords
  import opened Ledger

  /** The outcome of an activation or a resend request. */
  datatype Outcome = Success | UnknownCard | AlreadyActive | InvalidCode | MissingCode

  /**
   * The message the wallet returns beside the flag. `MissingCode` stands
   * for the `KeyError` that line 515 raises on a card without a code.
   */
  function ActivationMessage(o: Outcome): string {
    match o
    case Success => "Card activated successfully"
    case UnknownCard => "Card not found"
    case AlreadyActive => "Card is already active"
    case InvalidCode => "Invalid verification code"
    case MissingCode => "KeyError: 'activation_code'"
  }

  /** A record is well formed when its log is a replay and its code matches its status. */
  predicate WellFormedCard(c: CardRecord) {
    && LedgerConsistent(c)
    && (c.status == Active ==> c.activationCode.None?)
    && (c.status == PendingActivation ==> c.activationCode.Some?)
  }

  /** The checks of `activate_virtual_card`, in order: missing, active, no code, wrong code. */
  function CheckActivation(cards: map<string, CardRecord>, cardId: string, code: string): (o: Outcome)
    ensures o == UnknownCard <==> cardId !in cards
    ensures o == AlreadyActive <==> cardId in cards && cards[cardId].status == Active
    ensures o == MissingCode <==>
              cardId in cards && cards[cardId].status != Active && cards[cardId].activationCode.None?
  {
    if cardId !in cards then UnknownCard
    else if cards[cardId].status == Active then AlreadyActive
    else match cards[cardId].activationCode
      case None => MissingCode
      case Some(stored) => if stored != code then InvalidCode else Success
  }

  /** The record after a successful activation: active, stamped, and without its code. */
  function Activated(c: CardRecord, now: DateTime, verificationMethod: string): (a: CardRecord)
    ensures a.status == Active && a.activationCode.None?
    ensures a.balance == c.balance && a.transactions == c.transactions
    ensures WellFormedCard(c) ==> WellFormedCard(a)
  {
    c.(status := Active, activatedAt := Some(now), verificationMethod := Some(verificationMethod),
       activationCode := None)
  }

  /** The checks of `resend_activation_code`, in order: missing, active. */
  function CheckResend(cards: map<string, CardRecord>, cardId: string): (o: Outcome)
    ensures o in {UnknownCard, AlreadyActive, Success}
    ensures o == Success <==> cardId in cards && cards[cardId].status != Active
  {
    if cardId !in cards then UnknownCard
    else if cards[cardId].status == Active then AlreadyActive
    else Success
  }

  /** `New code sent via <method>`, or the failure message. */
  function ResendMessage(o: Outcome, deliveryMethod: string): string {
    if o == Success then "New code sent via " + deliveryMethod else ActivationMessage(o)
  }

  /** The record after a resend: the new code replaces whatever was stored. */
  function WithNewCode(c: CardRecord, code: string): (r: CardRecord)
    requires c.status != Active
    ensures r.activationCode == Some(code) && r.status == c.status
    ensures WellFormedCard(c) ==> WellFormedCard(r)
  {
    c.(activationCode := Some(code))
  }

  /**
   * The old record after a replacement: marked replaced, pointing at its
   * successor and dated, with its number, balance and log untouched.
   */
  function MarkedReplaced(c: CardRecord, newId: string, now: DateTime): (r: CardRecord)
    ensures r.status == Replaced && r.replacedBy == Some(newId) && r.replacedDate == Some(now)
    ensures r.cardNumber == c.cardNumber && r.balance == c.balance && r.transactions == c.transactions
    ensures r.activationCode == c.activationCode
    ensures WellFormedCard(c) ==> WellFormedCard(r)
  {
    c.(status := Replaced, replacedBy := Some(newId), replacedDate := Some(now))
  }

  /** A successful activation can never be repeated, with any code. */
  lemma ActivationSucceedsOnce(cards: map<string, CardRecord>, cardId: string, code: string,
                               now: DateTime, verificationMethod: string, nextCode: string)
    requires CheckActivation(cards, cardId, code) == Success
    ensures CheckActivation(cards[cardId := Activated(cards[cardId], now, verificationMethod)],
                            cardId, nextCode) == AlreadyActive
  {
  }

  /** Activation succeeds exactly when the card is not active and the code is the stored one. */
  lemma ActivationSucceedsIffCodeMatches(cards: map<string, CardRecord>, cardId: string, code: string)
    ensures CheckActivation(cards, cardId, code) == Success <==>
              cardId in cards && cards[cardId].status != Active
              && cards[cardId].activationCode == Some(code)
  {
  }

  /** After a resend, exactly the new code activates the card; any other, the old one included, is rejected. */
  lemma ResendInvalidatesOtherCodes(cards: map<string, CardRecord>, cardId: string,
                                    newCode: string, attempt: string)
    requires CheckResend(cards, cardId) == Success
    ensures CheckActivation(cards[cardId := WithNewCode(cards[cardId], newCode)], cardId, attempt)
              == (if attempt == newCode then Success else InvalidCode)
  {
  }

  /** On a well-formed record the missing-code failure arises only for a replaced card. */
  lemma MissingCodeOnlyWhenReplaced(cards: map<string, CardRecord>, cardId: string, code: string)
    requires cardId in cards && WellFormedCard(cards[cardId])
    ensures CheckActivation(cards, cardId, code) == MissingCode ==> cards[cardId].status == Replaced
  {
  }

  /** Activation looks only at `active`, so a replaced card that kept its code can still be activated. */
  lemma ReplacedCardCanBeActivated(cards: map<string, CardRecord>, cardId: string, code: string)
    requires cardId in cards && cards[cardId].status == Replaced
    requires cards[cardId].activationCode == Some(code)
    ensures CheckActivation(cards, cardId, code) == Success
  {
  }
}
