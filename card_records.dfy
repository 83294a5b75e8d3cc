/**
 * The card record and transaction entries as the wallet stores them, and
 * the initial record `generate_card_details` builds for a newly issued
 * number. Money is held in integer cents.
 */
module CardRecords {
  import opened Wrappers
  import opened Text
  import opened Calendar

  datatype Status = PendingActivation | Active | Replaced

  /**
   * One entry of a card's transaction list. `kind` is the stored `type`
   * string ("credit", "debit" or any other label a caller passed);
   * `merchant`, `network` and `approval` are present only on purchases.
   */
  datatype Transaction = Transaction(
    id: string, date: string, kind: string, amount: int, balance: int,
    merchant: Option<string>, description: string,
    network: Option<string>, approval: Option<string>)

  datatype CardRecord = CardRecord(
    cardNumber: string,
    cardHolder: string,
    expiryDate: string,                 // "MM/YY"
    expiryDatetime: Option<DateTime>,   // absent on cards from older wallets
    cvv: string,
    cardType: string,
    network: string,
    issuer: string,
    status: Status,
    activationCode: Option<string>,     // the key is deleted on activation
    balance: int,
    dailyLimit: int,
    monthlyLimit: int,
    createdAt: DateTime,
    activatedAt: Option<DateTime>,
    verificationMethod: Option<string>,
    transactions: seq<Transaction>,
    verificationMethods: seq<string>,
    replacedBy: Option<string>,
    replacedDate: Option<DateTime>)

  const InitialDailyLimit := 100000     // $1,000.00
  const InitialMonthlyLimit := 500000   // $5,000.00
  const ValidityYears := 10

  /** `f"{month:02d}/{year % 100:02d}"`. */
  function FormatExpiry(t: DateTime): (s: string)
    requires Valid(t)
    ensures |s| == 5 && s[2] == '/'
  {
    ZeroPadLength(t.month, 2);
    ZeroPadLength(t.year % 100, 2);
    ZeroPad(t.month, 2) + "/" + ZeroPad(t.year % 100, 2)
  }

  /**
   * The record `generate_card_details` returns for an issued number, the
   * CVV draw and the activation code. `None` where `replace(year=+10)`
   * raises (29 February into a common year, or past year 9999).
   */
  function InitialRecord(number: string, userName: string, now: DateTime,
                         cvvDraw: nat, code: string): (r: Option<CardRecord>)
    requires Valid(now)
    ensures r.Some? <==> AddYears(now, ValidityYears).Some?
    ensures r.Some? ==> r.value.cardNumber == number && r.value.cardHolder == Upper(userName)
    ensures r.Some? ==> r.value.status == PendingActivation && r.value.activationCode == Some(code)
    ensures r.Some? ==> r.value.balance == 0 && r.value.transactions == []
    ensures r.Some? ==> r.value.dailyLimit == InitialDailyLimit && r.value.monthlyLimit == InitialMonthlyLimit
    ensures r.Some? ==> r.value.expiryDatetime.Some? && After(r.value.expiryDatetime.value, now)
    ensures r.Some? ==> && r.value.expiryDatetime == AddYears(now, ValidityYears)
                        && r.value.expiryDate == FormatExpiry(AddYears(now, ValidityYears).value)
  {
    AddYearsIsLater(now, ValidityYears);
    match AddYears(now, ValidityYears)
    case None => None
    case Some(expiry) =>
      Some(CardRecord(
        cardNumber := number,
        cardHolder := Upper(userName),
        expiryDate := FormatExpiry(expiry),
        expiryDatetime := Some(expiry),
        cvv := NatToString(cvvDraw),
        cardType := "Visa Virtual Card",
        network := "Visa",
        issuer := "TorCOIN Bank (Visa Partner)",
        status := PendingActivation,
        activationCode := Some(code),
        balance := 0,
        dailyLimit := InitialDailyLimit,
        monthlyLimit := InitialMonthlyLimit,
        createdAt := now,
        activatedAt := None,
        verificationMethod := None,
        transactions := [],
        verificationMethods := ["sms", "email", "app"],
        replacedBy := None,
        replacedDate := None))
  }
}
