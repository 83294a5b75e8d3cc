/**
 * `VirtualCardAI`: the reservoir of unissued card numbers. It keeps the
 * numbers already issued and the pool of pre-generated ones, fills the pool
 * by rejection sampling, and hands out one number per new card.
 *
 * Random draws are inputs: a sequence of eight-digit infixes stands for
 * the stream `random.randint` produces. The sampling loops in the wallet
 * only stop once enough fresh numbers were drawn, so each filling method
 * requires that its draws propose enough numbers outside the excluded ones.
 */
module CardPool {
  import opened Wrappers
  import opened Text
  import opened Calendar
  import opened CardFormat
  import opened CardRecords

  const DailyPoolSize := 1000000
  const ExpansionSize := 100000
  const MinimumPoolSize := 100000
  const EmergencyThreshold := 1000
  const LowWatermark := 50000

  /** The numbers a sequence of draws proposes. */
  function Candidates(draws: seq<Infix>): set<string> {
    if draws == [] then {}
    else {GenerateCardNumberRaw(draws[0])} + Candidates(draws[1..])
  }

  /** Every proposed number passes the format check. */
  lemma {:induction false} CandidatesAreWellFormed(draws: seq<Infix>)
    ensures forall n :: n in Candidates(draws) ==> ValidateCardFormat(n)
  {
    if draws != [] {
      GeneratedNumbersAreWellFormed(draws[0]);
      CandidatesAreWellFormed(draws[1..]);
    }
  }

  /** The draws propose at least `n` numbers outside `excluded`. */
  ghost predicate EnoughFresh(draws: seq<Infix>, excluded: set<string>, n: nat) {
    |Candidates(draws) - excluded| >= n
  }

  /** `card_pool.json` as read back: the pool and the date of its last generation. */
  datatype PoolSnapshot = PoolSnapshot(cards: set<string>, lastGeneration: string)

  lemma {:induction false} SubsetCardinality<T>(a: set<T>, b: set<T>)
    requires a <= b
    ensures |a| <= |b|
  {
    if a != {} {
      var x :| x in a;
      SubsetCardinality(a - {x}, b - {x});
    }
  }

  lemma CandidatesSplit(draws: seq<Infix>, i: nat)
    requires i < |draws|
    ensures Candidates(draws[i..]) == {GenerateCardNumberRaw(draws[i])} + Candidates(draws[i + 1..])
  {
    assert draws[i..][1..] == draws[i + 1..];
  }

  lemma {:induction false} CandidatesOfSuffix(draws: seq<Infix>, i: nat)
    requires i <= |draws|
    ensures Candidates(draws[i..]) <= Candidates(draws)
    decreases i
  {
    if i > 0 {
      CandidatesOfSuffix(draws, i - 1);
      CandidatesSplit(draws, i - 1);
    } else {
      assert draws[0..] == draws;
    }
  }

  /** Past the last draw no candidate remains. */
  lemma NothingLeftToDraw(draws: seq<Infix>, i: nat)
    requires i <= |draws|
    ensures i == |draws| ==> Candidates(draws[i..]) == {}
  {
    if i == |draws| {
      assert draws[i..] == [];
    }
  }

  /** The number a draw proposes is among the draws. */
  lemma DrawIsCandidate(draws: seq<Infix>, i: nat)
    requires i < |draws|
    ensures GenerateCardNumberRaw(draws[i]) in Candidates(draws)
  {
    CandidatesSplit(draws, i);
    CandidatesOfSuffix(draws, i);
  }

  /** A draw that is kept uses up one of the fresh candidates ahead. */
  lemma DrawTaken(draws: seq<Infix>, i: nat, issued: set<string>, pool: set<string>)
    requires i < |draws|
    ensures |Candidates(draws[i + 1..]) - issued - (pool + {GenerateCardNumberRaw(draws[i])})|
            >= |Candidates(draws[i..]) - issued - pool| - 1
  {
    var c := GenerateCardNumberRaw(draws[i]);
    CandidatesSplit(draws, i);
    SubsetCardinality((Candidates(draws[i..]) - issued - pool) - {c},
                      Candidates(draws[i + 1..]) - issued - (pool + {c}));
  }

  /** A draw that is rejected leaves every fresh candidate ahead. */
  lemma DrawRejected(draws: seq<Infix>, i: nat, issued: set<string>, pool: set<string>)
    requires i < |draws|
    requires GenerateCardNumberRaw(draws[i]) in issued + pool
    ensures |Candidates(draws[i + 1..]) - issued - pool| >= |Candidates(draws[i..]) - issued - pool|
  {
    CandidatesSplit(draws, i);
    SubsetCardinality(Candidates(draws[i..]) - issued - pool, Candidates(draws[i + 1..]) - issued - pool);
  }

  /**
   * The part of a stored pool that may be handed out: the well-formed
   * numbers that were not issued yet. This is the corrected reading of the
   * load at line 206, which keeps the stored pool as it is.
   */
  function UsablePool(cards: set<string>, issued: set<string>): (kept: set<string>)
    ensures kept <= cards && kept !! issued
    ensures forall n :: n in kept ==> ValidateCardFormat(n)
    ensures forall n :: n in cards && n !in issued && ValidateCardFormat(n) ==> n in kept
  {
    set n | n in cards && n !in issued && ValidateCardFormat(n)
  }

  /** A clean pool file, disjoint from the issued numbers and well formed, is kept whole. */
  lemma CleanPoolIsKeptWhole(cards: set<string>, issued: set<string>)
    requires cards !! issued
    requires forall n :: n in cards ==> ValidateCardFormat(n)
    ensures UsablePool(cards, issued) == cards
  {
  }

  /**
   * Lines 313-316 on a pool loaded as written: the popped number joins the
   * issued numbers. The issued set grows by one only when that number was
   * not issued before.
   */
  function IssueAsWritten(issued: set<string>, pool: set<string>, n: string): (after: (set<string>, set<string>))
    requires n in pool
    ensures n in after.0 && issued <= after.0 && after.1 == pool - {n}
    ensures |after.0| == |issued| + (if n in issued then 0 else 1)
  {
    assert n in issued ==> issued + {n} == issued;
    (issued + {n}, pool - {n})
  }

  /**
   * The numbers of a readable pool file that lines 206-215, as written,
   * leave in the pool: all of them when the file is from `today` (the
   * expansion of a file below 100,000 numbers only adds to them), none
   * when it is from another day and the pool is regenerated.
   */
  function KeptFromFileAsWritten(snapshot: PoolSnapshot, today: string): (kept: set<string>)
    ensures snapshot.lastGeneration == today ==> kept == snapshot.cards
    ensures snapshot.lastGeneration != today ==> kept == {}
  {
    if snapshot.lastGeneration == today then snapshot.cards else {}
  }

  /**
   * A pool file from today that still lists an issued number (a save at
   * line 319 that failed silently, or the background expansion of line
   * 325 writing a copy taken before a later pop, leaves one) stays in the
   * pool as written, so `pop()` may hand that number out a second time and
   * recording it as issued changes nothing. The usable part of the same
   * file leaves it out.
   */
  lemma StalePoolFileReissuesNumber()
    ensures var x := GenerateCardNumberRaw([1, 2, 3, 4, 5, 6, 7, 8]);
            var today := "2025-01-01";
            var kept := KeptFromFileAsWritten(PoolSnapshot({x}, today), today);
            && x in kept
            && IssueAsWritten({x}, kept, x).0 == {x}
            && x !in UsablePool({x}, {x})
  {
  }

  class VirtualCardAI {
    /** Numbers already issued to a card; never handed out again. */
    var existingCards: set<string>
    /** Pre-generated numbers waiting to be issued. */
    var cardPool: set<string>

    /** Every pooled number is well formed and none has been issued. */
    ghost predicate Valid()
      reads this
    {
      && cardPool !! existingCards
      && forall n :: n in cardPool ==> ValidateCardFormat(n)
    }

    /** The draws are enough for the expansion an issue may trigger. */
    ghost predicate DrawsSuffice(draws: seq<Infix>)
      reads this
    {
      |cardPool| <= LowWatermark ==> EnoughFresh(draws, existingCards + cardPool, ExpansionSize)
    }

    /**
     * `__init__`: load the issued numbers, then `initialize_card_pool`.
     * `snapshot` is the pool file, `None` when it is missing or unreadable.
     */
    constructor (issued: set<string>, snapshot: Option<PoolSnapshot>, today: string, draws: seq<Infix>)
      requires InitDrawsSuffice(snapshot, today, issued, draws)
      ensures Valid() && existingCards == issued
      ensures PoolInitialized(snapshot, today, issued, draws, cardPool)
    {
      existingCards := issued;
      cardPool := {};
      new;
      InitializeCardPool(snapshot, today, draws);
    }

    /** Enough fresh draws for whichever filling `initialize_card_pool` performs. */
    static ghost predicate InitDrawsSuffice(snapshot: Option<PoolSnapshot>, today: string,
                                            issued: set<string>, draws: seq<Infix>) {
      if snapshot.None? || snapshot.value.lastGeneration != today then
        EnoughFresh(draws, issued, DailyPoolSize)
      else if |UsablePool(snapshot.value.cards, issued)| < MinimumPoolSize then
        EnoughFresh(draws, issued + UsablePool(snapshot.value.cards, issued), ExpansionSize)
      else true
    }

    /**
     * The pool `initialize_card_pool` leaves: a full regeneration when there
     * is no usable file or it is from another day, the usable part of the
     * stored pool topped up by one expansion when it is below the minimum,
     * that usable part otherwise.
     */
    static ghost predicate PoolInitialized(snapshot: Option<PoolSnapshot>, today: string, issued: set<string>,
                                           draws: seq<Infix>, pool: set<string>) {
      if snapshot.None? || snapshot.value.lastGeneration != today then
        |pool| == DailyPoolSize && pool <= Candidates(draws)
      else
        var kept := UsablePool(snapshot.value.cards, issued);
        if |kept| < MinimumPoolSize then
          && kept <= pool
          && |pool| == |kept| + ExpansionSize
          && pool - kept <= Candidates(draws)
        else pool == kept
    }

    /**
     * `initialize_card_pool`, with the stored pool reduced to its usable
     * part (see `UsablePool`). Saving the pool file is not modelled.
     */
    method InitializeCardPool(snapshot: Option<PoolSnapshot>, today: string, draws: seq<Infix>)
      requires InitDrawsSuffice(snapshot, today, existingCards, draws)
      modifies this`cardPool
      ensures Valid()
      ensures PoolInitialized(snapshot, today, existingCards, draws, cardPool)
    {
      if snapshot.None? {
        RegenerateDailyPool(draws);
      } else {
        cardPool := UsablePool(snapshot.value.cards, existingCards);
        if snapshot.value.lastGeneration != today {
          RegenerateDailyPool(draws);
        } else if |cardPool| < MinimumPoolSize {
          ExpandCardPool(draws);
        }
      }
    }

    /**
     * The sampling loop of `regenerate_daily_pool` and `expand_card_pool`:
     * draw candidates in turn and keep each one that is neither issued nor
     * already pooled, until `target` numbers were added to `pool`.
     */
    static method DrawFreshNumbers(issued: set<string>, pool: set<string>, target: nat, draws: seq<Infix>)
      returns (filled: set<string>)
      requires pool !! issued
      requires EnoughFresh(draws, issued + pool, target)
      ensures filled !! issued
      ensures pool <= filled
      ensures |filled| == |pool| + target
      ensures filled - pool <= Candidates(draws)
    {
      filled := pool;
      var added := 0;
      var i := 0;
      assert draws[0..] == draws;
      assert Candidates(draws) - (issued + filled) == Candidates(draws) - issued - filled;
      while added < target
        invariant 0 <= i <= |draws| && added <= target
        invariant filled !! issued
        invariant pool <= filled
        invariant |filled| == |pool| + added
        invariant filled - pool <= Candidates(draws)
        invariant |Candidates(draws[i..]) - issued - filled| >= target - added
        decreases |draws| - i
      {
        NothingLeftToDraw(draws, i);
        var candidate := GenerateCardNumberRaw(draws[i]);
        DrawIsCandidate(draws, i);
        if candidate !in issued && candidate !in filled {
          DrawTaken(draws, i, issued, filled);
          filled := filled + {candidate};
          added := added + 1;
        } else {
          DrawRejected(draws, i, issued, filled);
        }
        i := i + 1;
      }
    }

    /**
     * `regenerate_daily_pool`: discard the pool and draw exactly 1,000,000
     * fresh numbers. Saving the pool file is not modelled.
     */
    method RegenerateDailyPool(draws: seq<Infix>)
      requires EnoughFresh(draws, existingCards, DailyPoolSize)
      modifies this`cardPool
      ensures Valid()
      ensures |cardPool| == DailyPoolSize
      ensures cardPool <= Candidates(draws) - existingCards
    {
      assert existingCards + {} == existingCards;
      cardPool := DrawFreshNumbers(existingCards, {}, DailyPoolSize, draws);
      CandidatesAreWellFormed(draws);
    }

    /** `expand_card_pool`: keep every pooled number and add exactly 100,000 fresh ones. */
    method ExpandCardPool(draws: seq<Infix>)
      requires Valid()
      requires EnoughFresh(draws, existingCards + cardPool, ExpansionSize)
      modifies this`cardPool
      ensures Valid()
      ensures old(cardPool) <= cardPool
      ensures |cardPool| == |old(cardPool)| + ExpansionSize
      ensures cardPool - old(cardPool) <= Candidates(draws) - existingCards
    {
      cardPool := DrawFreshNumbers(existingCards, cardPool, ExpansionSize, draws);
      CandidatesAreWellFormed(draws);
    }

    /**
     * `generate_unique_card_number`: expand the pool first when it holds
     * fewer than 1,000 numbers, take one number out of it and record it as
     * issued, then top the pool up when fewer than 50,000 remain. The top-up
     * the wallet starts on a background thread runs here before returning.
     * The emergency expansion always adds 100,000 numbers, so the wallet's
     * `None` for an empty pool is never reached.
     */
    method GenerateUniqueCardNumber(draws: seq<Infix>) returns (number: string)
      requires Valid()
      requires DrawsSuffice(draws)
      modifies this
      ensures Valid()
      ensures ValidateCardFormat(number)
      ensures number !in old(existingCards) && existingCards == old(existingCards) + {number}
      ensures number in old(cardPool) || number in Candidates(draws)
      ensures number !in cardPool
      ensures old(cardPool) - {number} <= cardPool
      ensures cardPool - old(cardPool) <= Candidates(draws)
      ensures |cardPool| == |old(cardPool)| - 1 + (if |old(cardPool)| <= LowWatermark then ExpansionSize else 0)
    {
      ghost var original := cardPool;
      if |cardPool| < EmergencyThreshold {
        ExpandCardPool(draws);
      }
      assert cardPool - original <= Candidates(draws);
      number := TakeFromPool();
      ghost var popped := cardPool;
      if |cardPool| < LowWatermark {
        ExpandCardPool(draws);
      }
      assert cardPool - original <= (cardPool - popped) + (popped - original);
    }

    /**
     * The pool after one number was issued: every unissued number stays,
     * the additions were drawn, and it shrank by the number taken and grew
     * by one expansion when it held at most 50,000 numbers.
     */
    static ghost predicate PoolAfterIssue(pool0: set<string>, issued: set<string>, draws: seq<Infix>,
                                          pool: set<string>) {
      && pool0 - issued <= pool
      && pool - pool0 <= Candidates(draws)
      && |pool| == |pool0| - 1 + (if |pool0| <= LowWatermark then ExpansionSize else 0)
    }

    /** `card_pool.pop()` followed by recording the number as issued. */
    method TakeFromPool() returns (number: string)
      requires Valid() && cardPool != {}
      modifies this
      ensures Valid()
      ensures number in old(cardPool) && number !in old(existingCards)
      ensures cardPool == old(cardPool) - {number}
      ensures existingCards == old(existingCards) + {number}
      ensures existingCards + cardPool == old(existingCards) + old(cardPool)
    {
      number :| number in cardPool;
      cardPool := cardPool - {number};
      existingCards := existingCards + {number};
    }

    /**
     * `generate_card_details`: issue a number, then build the initial
     * record. The number is consumed even when the ten-year expiry does not
     * exist and no record results. The activation code is an input: the
     * wallet calls a `generate_verification_code` that this class lacks.
     */
    method GenerateCardDetails(userName: string, now: DateTime, cvvDraw: nat, code: string,
                               draws: seq<Infix>) returns (details: Option<CardRecord>)
      requires Valid() && Calendar.Valid(now)
      requires DrawsSuffice(draws)
      modifies this
      ensures Valid()
      ensures old(existingCards) < existingCards && |existingCards| == |old(existingCards)| + 1
      ensures details.Some? <==> AddYears(now, ValidityYears).Some?
      ensures details.Some? ==>
                && existingCards == old(existingCards) + {details.value.cardNumber}
                && details == InitialRecord(details.value.cardNumber, userName, now, cvvDraw, code)
                && ValidateCardFormat(details.value.cardNumber)
                && details.value.cardNumber in old(cardPool) + Candidates(draws)
      ensures PoolAfterIssue(old(cardPool), existingCards, draws, cardPool)
    {
      var number := GenerateUniqueCardNumber(draws);
      details := InitialRecord(number, userName, now, cvvDraw, code);
    }
  }
}
