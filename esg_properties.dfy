/**
 * What each input class of `hook()` (esg.c:31-123) leads to, stated about
 * the decision function `Hook` and about the stage-by-stage execution
 * (`Run`, `Reaches`) that models its early exits.
 */
module EsgProperties {
  import opened IntTypes
  import opened Esg

  /** The transaction is an incoming native-XRP payment from another account (esg.c:48-67). */
  predicate PassesClassification(v: HostView) {
    v.accountFieldLen >= 20 && !SelfOriginated(v) && v.amountLen == 8
  }

  /** The hook account's `sfBalance` was read as an 8-byte amount (esg.c:70-86). */
  predicate BalanceRead(v: HostView) {
    v.keyletLen == KEYLET_LEN && v.slotNo >= 0 && v.balanceField >= 0 && v.balanceLen == 8
  }

  /** Execution gets as far as the threshold test of esg.c:95. */
  predicate ReachesThreshold(v: HostView) {
    PassesClassification(v) && BalanceRead(v)
  }

  /** The CarbonLand offers lookup of esg.c:102-115 succeeds at each call. */
  predicate OffersFound(v: HostView) {
    v.offersKeyletLen == KEYLET_LEN && v.offersSlotNo >= 0 && v.offersField >= 0
  }

  /**
   * With the balance read, the execution runs every test before esg.c:95
   * and then goes on from the threshold test.
   */
  lemma ThroughToThreshold(v: HostView)
    requires ReachesThreshold(v)
    ensures Run(AtFieldLength, v) == Run(AtThreshold, v)
    ensures Reaches(v, AtThreshold)
    ensures Reaches(v, AtOffersKeylet) <==> Visits(AtThreshold, AtOffersKeylet, v)
  {
    assert Step(AtFieldLength, v) == AtSelfCheck;
    assert Step(AtSelfCheck, v) == AtCurrency;
    assert Step(AtCurrency, v) == AtAccountKeylet;
    assert Step(AtAccountKeylet, v) == AtAccountSlot;
    assert Step(AtAccountSlot, v) == AtBalanceField;
    assert Step(AtBalanceField, v) == AtBalanceRead;
    assert Step(AtBalanceRead, v) == AtThreshold;
  }

  /**
   * Without the balance read, the execution halts at one of the tests
   * before esg.c:95 with the outcome `Hook` decides, and never reaches the
   * threshold test or anything after it.
   */
  lemma StopsBeforeThreshold(v: HostView)
    requires !ReachesThreshold(v)
    ensures Run(AtFieldLength, v) == Halted(Hook(v))
    ensures !Reaches(v, AtThreshold) && !Reaches(v, AtOffersKeylet)
  {
    assert Step(AtFieldLength, v) ==
      if v.accountFieldLen < 20 then Halted(Rollback(AccountFieldMissing, 1)) else AtSelfCheck;
    if v.accountFieldLen >= 20 {
      assert Step(AtSelfCheck, v) ==
        if SelfOriginated(v) then Halted(Accept(OutgoingTransaction, 2)) else AtCurrency;
      if !SelfOriginated(v) {
        assert Step(AtCurrency, v) ==
          if v.amountLen != 8 then Halted(Accept(NonXrpAccepting, 2)) else AtAccountKeylet;
        if v.amountLen == 8 {
          assert Step(AtAccountKeylet, v) ==
            if v.keyletLen != KEYLET_LEN then Halted(Rollback(AccountKeyletError, 10)) else AtAccountSlot;
          if v.keyletLen == KEYLET_LEN {
            assert Step(AtAccountSlot, v) ==
              if v.slotNo < 0 then Halted(Rollback(AccountSlotError, 10)) else AtBalanceField;
            if v.slotNo >= 0 {
              assert Step(AtBalanceField, v) ==
                if v.balanceField < 0 then Halted(Rollback(BalanceMissing, 20)) else AtBalanceRead;
            }
          }
        }
      }
    }
  }

  /** From the threshold test on, the execution halts with the outcome `Hook` decides. */
  lemma FromThreshold(v: HostView)
    requires ReachesThreshold(v)
    ensures Run(AtThreshold, v) == Halted(Hook(v))
  {
    if TRIGGER_AMOUNT == AccumulatedDrops(v) {
      assert Step(AtThreshold, v) == AtOffersKeylet;
      assert Step(AtOffersKeylet, v) ==
        if v.offersKeyletLen != KEYLET_LEN then Halted(Rollback(OffersKeyletError, 10)) else AtOffersSlot;
      assert Step(AtOffersSlot, v) ==
        if v.offersSlotNo < 0 then Halted(Rollback(OffersSlotError, 10)) else AtOffersField;
    }
  }

  /** The stage-by-stage execution halts with exactly the outcome `Hook` decides. */
  lemma ExecutionMatchesHook(v: HostView)
    ensures Final(v) == Hook(v)
  {
    if ReachesThreshold(v) {
      ThroughToThreshold(v);
      FromThreshold(v);
    } else {
      StopsBeforeThreshold(v);
    }
  }

  /** Every execution ends in one of the twelve terminal calls of `hook()`. */
  lemma HookEndsAtATerminalCall(v: HostView)
    ensures Hook(v) in TERMINALS
  {
  }

  /**
   * A missing or short `sfAccount` field (any length below 20, the negative
   * error codes included) is rolled back with code 1 before anything else is
   * looked at; and that rollback happens for no other input (esg.c:46-49).
   */
  lemma ShortAccountFieldRollsBack(v: HostView)
    ensures v.accountFieldLen < 20 <==> Hook(v) == Rollback(AccountFieldMissing, 1)
    ensures v.accountFieldLen < 20 <==> Hook(v).code == 1
    ensures v.accountFieldLen < 20 ==> !Reaches(v, AtSelfCheck) && !Reaches(v, AtCurrency)
  {
  }

  /**
   * A well-formed transaction sent from the hook account itself is accepted
   * with code 2, and neither the amount nor the balance is read
   * (esg.c:53-59).
   */
  lemma SelfOriginAccepts(v: HostView)
    ensures v.accountFieldLen >= 20 && SelfOriginated(v) <==> Hook(v) == Accept(OutgoingTransaction, 2)
    ensures v.accountFieldLen >= 20 && SelfOriginated(v) ==>
      !Reaches(v, AtCurrency) && !Reaches(v, AtBalanceRead) && !Reaches(v, AtThreshold)
  {
  }

  /**
   * A transaction from any other account (the CarbonLand counterparty
   * included) does not stop at the self-origination test: execution goes on
   * to classify the amount (esg.c:53-64).
   */
  lemma ForeignSenderIsClassified(v: HostView)
    requires v.accountFieldLen >= 20 && !SelfOriginated(v)
    ensures Reaches(v, AtCurrency)
    ensures Hook(v) != Accept(OutgoingTransaction, 2)
  {
  }

  /**
   * A payment whose amount is not an 8-byte native amount is accepted with
   * code 2 once it has passed the two account checks; so it is never rolled
   * back except for a missing `sfAccount` field, and the balance is never
   * read for it (esg.c:62-67).
   */
  lemma NonXrpAccepts(v: HostView)
    ensures v.accountFieldLen >= 20 && !SelfOriginated(v) && v.amountLen != 8 <==>
      Hook(v) == Accept(NonXrpAccepting, 2)
    ensures v.amountLen != 8 ==> Hook(v).Accept? || Hook(v) == Rollback(AccountFieldMissing, 1)
    ensures v.amountLen != 8 ==> !Reaches(v, AtAccountKeylet)
  {
  }

  /**
   * Failing to read the hook account's balance is a rollback, with code 10
   * for the keylet or the slot, 20 for a missing `sfBalance` and 80 for a
   * balance that is not 8 bytes; each message is reached by exactly that
   * failure (esg.c:70-86).
   */
  lemma BalanceReadFailuresRollBack(v: HostView)
    ensures PassesClassification(v) && v.keyletLen != KEYLET_LEN <==>
      Hook(v) == Rollback(AccountKeyletError, 10)
    ensures PassesClassification(v) && v.keyletLen == KEYLET_LEN && v.slotNo < 0 <==>
      Hook(v) == Rollback(AccountSlotError, 10)
    ensures PassesClassification(v) && v.keyletLen == KEYLET_LEN && v.slotNo >= 0 && v.balanceField < 0 <==>
      Hook(v) == Rollback(BalanceMissing, 20)
    ensures PassesClassification(v) && v.keyletLen == KEYLET_LEN && v.slotNo >= 0 && v.balanceField >= 0
            && v.balanceLen != 8 <==>
      Hook(v) == Rollback(BalanceFetchError, 80)
    ensures PassesClassification(v) && !BalanceRead(v) ==> Hook(v).Rollback? && Hook(v).code in {10, 20, 80}
  {
  }

  /**
   * The threshold test is reached exactly when the balance was read, and
   * the trigger branch (esg.c:95-118) is entered exactly when, in addition,
   * the 64-bit sum of balance and payment equals `TRIGGER_AMOUNT`.
   */
  lemma TriggerIffExactSum(v: HostView)
    ensures Reaches(v, AtThreshold) <==> ReachesThreshold(v)
    ensures Reaches(v, AtOffersKeylet) <==> ReachesThreshold(v) && AccumulatedDrops(v) == TRIGGER_AMOUNT
  {
    if ReachesThreshold(v) {
      ThroughToThreshold(v);
      assert Visits(AtThreshold, AtOffersKeylet, v) <==> AccumulatedDrops(v) == TRIGGER_AMOUNT;
    } else {
      StopsBeforeThreshold(v);
    }
  }

  /**
   * For drop amounts of a native XRP amount (non-negative, below 2^62) the
   * 64-bit sum cannot wrap, so the trigger condition is the plain equation
   * `balance + payment == TRIGGER_AMOUNT`.
   */
  lemma TriggerIffExactNativeSum(v: HostView)
    requires 0 <= v.balanceDrops < 0x4000_0000_0000_0000 && 0 <= v.otxnDrops < 0x4000_0000_0000_0000
    ensures Reaches(v, AtOffersKeylet) <==>
      ReachesThreshold(v) && v.balanceDrops + v.otxnDrops == TRIGGER_AMOUNT
  {
    TriggerIffExactSum(v);
    NativeSumDoesNotWrap(v.balanceDrops, v.otxnDrops);
  }

  /**
   * Any other sum lets the payment through with code 0, and that outcome
   * is reached in no other way (esg.c:95, 121).
   */
  lemma ThresholdMissAccepts(v: HostView)
    ensures ReachesThreshold(v) && AccumulatedDrops(v) != TRIGGER_AMOUNT <==>
      Hook(v) == Accept(Accepting, 0)
    ensures Hook(v).code == 0 <==> Hook(v) == Accept(Accepting, 0)
  {
  }

  /** Only the exact amount triggers: one drop short or one drop over is accepted with code 0. */
  lemma ThresholdIsExact(v: HostView)
    requires ReachesThreshold(v)
    requires v.balanceDrops + v.otxnDrops == TRIGGER_AMOUNT - 1
          || v.balanceDrops + v.otxnDrops == TRIGGER_AMOUNT + 1
    ensures Hook(v) == Accept(Accepting, 0)
    ensures !Reaches(v, AtOffersKeylet)
  {
    TriggerIffExactSum(v);
  }

  /** A balance of 10000000000 drops plus a payment of 500000000 drops triggers. */
  lemma TriggerExample(v: HostView)
    requires ReachesThreshold(v) && OffersFound(v)
    requires v.balanceDrops == 10000000000 && v.otxnDrops == 500000000
    ensures Hook(v) == Accept(Triggered, 2)
    ensures Reaches(v, AtOffersKeylet)
  {
    TriggerIffExactSum(v);
  }

  /**
   * Inside the trigger branch a failed keylet or slot for the CarbonLand
   * offers is a rollback with code 10, a missing `sfNFTokenOffers` one with
   * code 20, and otherwise the payment is accepted with code 2 and nothing
   * is emitted (esg.c:102-117). These four outcomes occur only there.
   */
  lemma TriggerBranchOutcomes(v: HostView)
    ensures ReachesThreshold(v) && AccumulatedDrops(v) == TRIGGER_AMOUNT ==>
      Hook(v) == (if v.offersKeyletLen != KEYLET_LEN then Rollback(OffersKeyletError, 10)
                  else if v.offersSlotNo < 0 then Rollback(OffersSlotError, 10)
                  else if v.offersField < 0 then Rollback(OffersMissing, 20)
                  else Accept(Triggered, 2))
    ensures Hook(v) == Accept(Triggered, 2) <==>
      ReachesThreshold(v) && AccumulatedDrops(v) == TRIGGER_AMOUNT && OffersFound(v)
    ensures Hook(v) in {Rollback(OffersKeyletError, 10), Rollback(OffersSlotError, 10),
                        Rollback(OffersMissing, 20), Accept(Triggered, 2)} <==>
      Reaches(v, AtOffersKeylet)
  {
    TriggerIffExactSum(v);
  }
}
