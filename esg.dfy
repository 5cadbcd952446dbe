/**
 * The ESG hook of esg.c: an XRPL Hook installed on an account, run by the
 * ledger once per transaction that touches the account. `hook()` is one
 * linear chain of checks; each failing check ends the execution at once with
 * `accept(msg, code)` (the transaction goes through) or `rollback(msg, code)`
 * (it is rejected). The hook keeps no state of its own: everything it looks
 * at comes from host API calls, whose results are the fields of `HostView`.
 *
 * Defects of esg.c as written (it does not compile), and the intent modelled:
 *  - line 95 lacks the `)` closing the `if` condition; modelled as the
 *    comparison `TRIGGER_AMOUNT == (balance_drops + otxn_drops)`;
 *  - line 102 uses `carbonland_accid`, which is never declared; modelled as
 *    a keylet lookup for the CarbonLand account whose result length is an input;
 *  - the `}` at line 118 closes the `if` opened at line 95 (only the
 *    indentation of lines 117-118 is off), so `accept("ESG: triggered", 2)`
 *    is the trigger branch's last statement.
 */
module Esg {
  import opened IntTypes

  /** `TRIGGER_AMOUNT`, in drops (esg.c:23). */
  const TRIGGER_AMOUNT: int64 := 10500000000

  /** The keylet length `util_keylet` reports on success. */
  const KEYLET_LEN: int64 := 34

  /** A 20-byte XRPL account id. */
  type AccountId = s: seq<byte> | |s| == 20 witness seq(20, _ => 0)

  /**
   * What the host API calls of one execution of `hook()` return, in the
   * order the code makes them. A lookup result is the call's return value
   * (a length, a slot number, or a negative error code); the two drop
   * amounts are what `AMOUNT_TO_DROPS` makes of the 8-byte buffers.
   */
  datatype HostView = HostView(
    hookAccount: AccountId,     // hook_account into hook_accid (esg.c:41-42)
    accountFieldLen: int32,     // otxn_field(sfAccount) (esg.c:46)
    accountField: AccountId,    // the bytes it wrote into account_field (esg.c:45-46)
    amountLen: int64,           // otxn_field(sfAmount) (esg.c:62)
    keyletLen: int64,           // util_keylet(KEYLET_ACCOUNT, hook_accid) (esg.c:71)
    slotNo: int64,              // slot_set of that keylet (esg.c:75)
    balanceField: int64,        // slot_subfield(slot_no, sfBalance) (esg.c:79)
    balanceLen: int64,          // slot(seq_buf, ...) (esg.c:84)
    balanceDrops: int64,        // AMOUNT_TO_DROPS(seq_buf) (esg.c:89)
    otxnDrops: int64,           // AMOUNT_TO_DROPS(amount_buffer) (esg.c:92)
    offersKeyletLen: int64,     // util_keylet(KEYLET_SIGNERS, CarbonLand) (esg.c:102)
    offersSlotNo: int64,        // slot_set of that keylet (esg.c:106)
    offersField: int64          // slot_subfield(slot_no, sfNFTokenOffers) (esg.c:113)
  )

  /**
   * The message strings passed to `accept` and `rollback`, one per call
   * site; `Text` gives each string as the source writes it (without the C
   * string terminator that `SBUF` also counts).
   */
  datatype Message =
    | AccountFieldMissing   // esg.c:49
    | OutgoingTransaction   // esg.c:58
    | NonXrpAccepting       // esg.c:66
    | AccountKeyletError    // esg.c:72
    | AccountSlotError      // esg.c:77
    | BalanceMissing        // esg.c:81
    | BalanceFetchError     // esg.c:86
    | OffersKeyletError     // esg.c:103
    | OffersSlotError       // esg.c:109
    | OffersMissing         // esg.c:115
    | Triggered             // esg.c:117
    | Accepting             // esg.c:121

  function Text(m: Message): string {
    match m
    case AccountFieldMissing => "ESG: sfAccount field missing!!!"
    case OutgoingTransaction => "ESG: Outgoing transaction"
    case NonXrpAccepting => "ESG: Non-XRP accepting"
    case AccountKeyletError => "MintedTokens: Internal error, could not generate keylet"
    case AccountSlotError => "MintedTokens: Could not set keylet in slot"
    case BalanceMissing => "ESG: Could not find sfBalance on hook account"
    case BalanceFetchError => "ESG: Could not fetch sequence from sfBalance."
    case OffersKeyletError => "ESG: Internal error, could not generate keylet"
    case OffersSlotError => "ESG: Could not set keylet in slot"
    case OffersMissing => "ESG: Could not find sfNFTokenOffers on hook account"
    case Triggered => "ESG: triggered"
    case Accepting => "ESG: accepting"
  }

  /** The terminal host call that ends an execution, with its message and code. */
  datatype Outcome =
    | Accept(msg: Message, code: int64)
    | Rollback(msg: Message, code: int64)

  /** The twelve terminal calls of `hook()`, one per call site. */
  const TERMINALS: set<Outcome> := {
    Rollback(AccountFieldMissing, 1),
    Accept(OutgoingTransaction, 2),
    Accept(NonXrpAccepting, 2),
    Rollback(AccountKeyletError, 10),
    Rollback(AccountSlotError, 10),
    Rollback(BalanceMissing, 20),
    Rollback(BalanceFetchError, 80),
    Rollback(OffersKeyletError, 10),
    Rollback(OffersSlotError, 10),
    Rollback(OffersMissing, 20),
    Accept(Triggered, 2),
    Accept(Accepting, 0)
  }

  /** `BUFFER_EQUAL` over the 20 bytes of the two account ids. */
  predicate SelfOriginated(v: HostView) {
    v.accountField == v.hookAccount
  }

  /** `balance_drops + otxn_drops` as the compiled 64-bit addition computes it. */
  function AccumulatedDrops(v: HostView): int64 {
    Add64(v.balanceDrops, v.otxnDrops)
  }

  /**
   * `hook()` (esg.c:31-123): the decision chain. Each `accept`/`rollback`
   * ends the execution, so every later test sits in the else branch of the
   * one before. Its `return 0` (esg.c:122) is never reached.
   */
  function Hook(v: HostView): (r: Outcome)
    ensures r.Rollback? ==> r.code in {1, 10, 20, 80}
    ensures r.Accept? ==> r.code in {0, 2}
  {
    if v.accountFieldLen < 20 then Rollback(AccountFieldMissing, 1)
    else if SelfOriginated(v) then Accept(OutgoingTransaction, 2)
    else if v.amountLen != 8 then Accept(NonXrpAccepting, 2)
    else if v.keyletLen != KEYLET_LEN then Rollback(AccountKeyletError, 10)
    else if v.slotNo < 0 then Rollback(AccountSlotError, 10)
    else if v.balanceField < 0 then Rollback(BalanceMissing, 20)
    else if v.balanceLen != 8 then Rollback(BalanceFetchError, 80)
    else if TRIGGER_AMOUNT == AccumulatedDrops(v) then
      if v.offersKeyletLen != KEYLET_LEN then Rollback(OffersKeyletError, 10)
      else if v.offersSlotNo < 0 then Rollback(OffersSlotError, 10)
      else if v.offersField < 0 then Rollback(OffersMissing, 20)
      else Accept(Triggered, 2)
    else Accept(Accepting, 0)
  }

  /** `cbak()` (esg.c:25-29): the callback after an emitted transaction; it always returns 0. */
  function Cbak(reserved: uint32): (r: int64)
    ensures r == 0
  {
    0
  }

  // ---------------------------------------------------------------------
  // The same code as an execution: one stage per test in `hook()`, each
  // named after the source line whose test it runs next. `accept` and
  // `rollback` move to `Halted`, which nothing leaves.
  // ---------------------------------------------------------------------

  datatype Stage =
    | AtFieldLength     // esg.c:48
    | AtSelfCheck       // esg.c:53-54
    | AtCurrency        // esg.c:64
    | AtAccountKeylet   // esg.c:71
    | AtAccountSlot     // esg.c:76
    | AtBalanceField    // esg.c:80
    | AtBalanceRead     // esg.c:85
    | AtThreshold       // esg.c:95
    | AtOffersKeylet    // esg.c:102
    | AtOffersSlot      // esg.c:108
    | AtOffersField     // esg.c:114
    | Halted(outcome: Outcome)

  /** How many tests at most remain from a stage. */
  function Rank(s: Stage): nat {
    match s
    case AtFieldLength => 11
    case AtSelfCheck => 10
    case AtCurrency => 9
    case AtAccountKeylet => 8
    case AtAccountSlot => 7
    case AtBalanceField => 6
    case AtBalanceRead => 5
    case AtThreshold => 4
    case AtOffersKeylet => 3
    case AtOffersSlot => 2
    case AtOffersField => 1
    case Halted(_) => 0
  }

  /**
   * Runs the one test of stage `s`: either halts with that line's terminal
   * call or moves on to a later stage; a halted execution stays halted.
   */
  function Step(s: Stage, v: HostView): (r: Stage)
    ensures s.Halted? ==> r == s
    ensures !s.Halted? ==> Rank(r) < Rank(s)
  {
    match s
    case AtFieldLength =>
      if v.accountFieldLen < 20 then Halted(Rollback(AccountFieldMissing, 1)) else AtSelfCheck
    case AtSelfCheck =>
      if SelfOriginated(v) then Halted(Accept(OutgoingTransaction, 2)) else AtCurrency
    case AtCurrency =>
      if v.amountLen != 8 then Halted(Accept(NonXrpAccepting, 2)) else AtAccountKeylet
    case AtAccountKeylet =>
      if v.keyletLen != KEYLET_LEN then Halted(Rollback(AccountKeyletError, 10)) else AtAccountSlot
    case AtAccountSlot =>
      if v.slotNo < 0 then Halted(Rollback(AccountSlotError, 10)) else AtBalanceField
    case AtBalanceField =>
      if v.balanceField < 0 then Halted(Rollback(BalanceMissing, 20)) else AtBalanceRead
    case AtBalanceRead =>
      if v.balanceLen != 8 then Halted(Rollback(BalanceFetchError, 80)) else AtThreshold
    case AtThreshold =>
      if TRIGGER_AMOUNT == AccumulatedDrops(v) then AtOffersKeylet else Halted(Accept(Accepting, 0))
    case AtOffersKeylet =>
      if v.offersKeyletLen != KEYLET_LEN then Halted(Rollback(OffersKeyletError, 10)) else AtOffersSlot
    case AtOffersSlot =>
      if v.offersSlotNo < 0 then Halted(Rollback(OffersSlotError, 10)) else AtOffersField
    case AtOffersField =>
      if v.offersField < 0 then Halted(Rollback(OffersMissing, 20)) else Halted(Accept(Triggered, 2))
    case Halted(_) => s
  }

  /** Where an execution from `s` halts: the one terminal call it makes. */
  function Run(s: Stage, v: HostView): (r: Stage)
    ensures r.Halted?
    ensures s.Halted? ==> r == s
    decreases Rank(s)
  {
    if s.Halted? then s else Run(Step(s, v), v)
  }

  /**
   * Whether an execution from `s` passes through stage `x`. Only later
   * stages are reached (no back-edges), and the only halted stage reached is
   * the one the execution ends in.
   */
  function Visits(s: Stage, x: Stage, v: HostView): (b: bool)
    ensures b ==> Rank(x) <= Rank(s)
    ensures x.Halted? ==> (b <==> x == Run(s, v))
    decreases Rank(s)
  {
    s == x || (!s.Halted? && Visits(Step(s, v), x, v))
  }

  /** The terminal call one whole execution of `hook()` ends with. */
  function Final(v: HostView): Outcome {
    Run(AtFieldLength, v).outcome
  }

  /** Whether one whole execution of `hook()` reaches stage `x`. */
  predicate Reaches(v: HostView, x: Stage) {
    Visits(AtFieldLength, x, v)
  }
}
