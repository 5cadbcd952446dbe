# ESG XRPL Hook — a Dafny model of its decision chain

The ESG hook is an XRPL Hook written in C (`esg.c`). It is installed on an
account, and the ledger runs it once for every transaction that touches that
account. It is meant to collect XRP until the account holds an exact amount
(`TRIGGER_AMOUNT`, 10500000000 drops) and then act on the CarbonLand
account's NFT token offers. Each run of `hook()` checks a fixed list of
conditions in order. The first one that fails ends the run with
`accept(msg, code)`, which lets the transaction through, or with
`rollback(msg, code)`, which rejects it. The hook keeps no state of its own.

The checks, in the order the code makes them:

1. the transaction's `sfAccount` field must be at least 20 bytes long;
2. a transaction sent from the hook account itself is accepted;
3. an amount that is not native XRP (not 8 bytes) is accepted;
4. the hook account's `sfBalance` is read through a keylet, a slot, a
   subfield and an 8-byte fetch;
5. the 64-bit sum of that balance and the payment is compared with
   `TRIGGER_AMOUNT`;
6. only when they are equal, the `sfNFTokenOffers` field on the CarbonLand
   account is looked up.

Files:

- `int_types.dfy` (module `IntTypes`): the C integer widths, and `Add64`,
  the wrapping `int64_t` addition of the compiled hook.
- `esg.dfy` (module `Esg`):
  - `HostView`, with one field per host API result the hook looks at;
  - `Outcome` and `Message`, the terminal calls and their exact strings;
  - `Hook`, the decision function;
  - `Cbak`, the callback;
  - the same code as a stage machine: `Step` runs one test, `Run` runs a
    whole execution, and `Visits`/`Reaches` say which tests an execution
    reaches.
- `esg_properties.dfy` (module `EsgProperties`): the stage machine agrees
  with `Hook`; also what each class of input leads to, and which lookups it
  never reaches.

The hook is pure: `Hook` is a Dafny function of a `HostView` and nothing
else. So equal host results always give the same outcome, and nothing
carries over from one run to the next. The model has no state that could
carry over.

Ways the code and its design description disagree, and what the model
follows (it follows the code each time):

- The code checks the length of `sfAccount` (esg.c:48) before the
  self-origination test (esg.c:53). The design description puts the
  self-origination test first.
- The design describes an "accept with emitted transaction" outcome. The
  code emits nothing: `etxn_reserve` is commented out (esg.c:37), and the
  trigger branch ends with `accept("ESG: triggered", 2)` (esg.c:117).
- The design says an offers lookup that fails is a reject. The code agrees,
  and the model gives these rollbacks their codes (10, 10, 20).

`esg.c` does not compile as written. The model follows the evident intent,
and `esg.dfy` records each defect in a comment:

- line 95 is missing the `)` that closes the `if` condition;
- `carbonland_accid` at line 102 is never declared;
- the `}` at line 118 closes the `if` of line 95, although it is indented
  as if it did not.

## Model

| member | source | states |
|---|---|---|
| `IntTypes.Add64` | esg.c:95 | the `int64_t` sum `balance_drops + otxn_drops` agrees with the true sum modulo 2^64; it equals the true sum exactly when that fits in 64 bits, and differs from it otherwise |
| `IntTypes.NativeSumDoesNotWrap` | esg.c:89-95 | two drop amounts that are non-negative and below 2^62 add without wrap-around |
| `Esg.Hook` | esg.c:31-123 | every run ends in `rollback` with code 1, 10, 20 or 80, or in `accept` with code 0 or 2 |
| `Esg.Cbak` | esg.c:25-29 | the callback returns 0 for every `reserved` argument |
| `Esg.Step` | esg.c:46-121 | each test either ends the run, or passes control to a test strictly later in the code, so there are no back-edges; a run that has ended stays ended |
| `Esg.Run` | esg.c:31-123 | from any test, a run always reaches a terminal `accept`/`rollback` |
| `Esg.Visits` | esg.c:31-123 | a run reaches only later tests; the only terminal call it reaches is the one it ends with, so every run makes exactly one terminal call |
| `EsgProperties.ThroughToThreshold` | esg.c:46-95 | once the payment is classified and the balance read, the run reaches the threshold test, and it enters the trigger branch only from there |
| `EsgProperties.StopsBeforeThreshold` | esg.c:46-86 | when any check before line 95 fails, the run ends with `Hook`'s outcome, and neither the threshold test nor the offers lookup is reached |
| `EsgProperties.FromThreshold` | esg.c:95-121 | from the threshold test on, the run ends with `Hook`'s outcome |
| `EsgProperties.ExecutionMatchesHook` | esg.c:31-123 | the stage-by-stage run, with its early exits, ends in exactly the outcome `Hook` decides |
| `EsgProperties.HookEndsAtATerminalCall` | esg.c:49-121 | the outcome is always one of the twelve `accept`/`rollback` calls in the code, with that call's message and code |
| `EsgProperties.ShortAccountFieldRollsBack` | esg.c:46-49 | an `sfAccount` length below 20, negative error values included, gives `rollback` with code 1; no other input gives it (and no other input gives code 1); neither the self-origination test nor the amount check is reached |
| `EsgProperties.SelfOriginAccepts` | esg.c:53-59 | a well-formed sender id equal to the hook account's id, byte for byte, gives `accept("ESG: Outgoing transaction", 2)`, and nothing else does; the amount, the balance and the threshold are never reached |
| `EsgProperties.ForeignSenderIsClassified` | esg.c:53-67 | a transaction from any other account, the CarbonLand counterparty included, goes past the self-origination test to the amount check |
| `EsgProperties.NonXrpAccepts` | esg.c:62-67 | an amount field whose length is not 8 gives `accept("ESG: Non-XRP accepting", 2)` once the account checks pass, and nothing else does; such a payment is never rolled back except for a short `sfAccount` field, and the balance is never read |
| `EsgProperties.BalanceReadFailuresRollBack` | esg.c:70-86 | a bad keylet gives rollback 10, a failed `slot_set` rollback 10, a missing `sfBalance` rollback 20, a balance that is not 8 bytes rollback 80; each holds in both directions (its own message) |
| `EsgProperties.TriggerIffExactSum` | esg.c:95 | the threshold test is reached exactly when the balance was read; the trigger branch is entered exactly when, in addition, the 64-bit sum equals `TRIGGER_AMOUNT` |
| `EsgProperties.TriggerIffExactNativeSum` | esg.c:89-95 | for native drop amounts, the trigger branch is entered exactly when `balance_drops + otxn_drops == 10500000000` |
| `EsgProperties.ThresholdMissAccepts` | esg.c:95-121 | with the balance read, any sum other than `TRIGGER_AMOUNT` gives `accept("ESG: accepting", 0)`, and nothing else does; code 0 comes only from there |
| `EsgProperties.ThresholdIsExact` | esg.c:95-121 | sums of `TRIGGER_AMOUNT - 1` and `TRIGGER_AMOUNT + 1` are both accepted with code 0 without entering the trigger branch: only exact equality triggers |
| `EsgProperties.TriggerExample` | esg.c:95-117 | a balance of 10000000000 drops plus a payment of 500000000 drops, with the offers found, enters the trigger branch and gives `accept("ESG: triggered", 2)` |
| `EsgProperties.TriggerBranchOutcomes` | esg.c:100-117 | inside the trigger branch: a bad keylet or `slot_set` gives rollback 10, a missing `sfNFTokenOffers` rollback 20, and otherwise `accept("ESG: triggered", 2)` with nothing emitted; these four outcomes occur exactly when the branch is entered |

## Left out

- Host API internals are not modelled. Keylet construction, slot
  allocation and field serialisation live in `hookapi.h`, which is not part
  of this model. The result of each call (`hook_account`, `otxn_field`,
  `util_keylet`, `slot_set`, `slot_subfield`, `slot`) is a field of
  `HostView`. The fields are independent of each other, so the model does
  not capture that a host gives related answers to related calls.
- `AMOUNT_TO_DROPS` (esg.c:89, 92) is a macro in `hookapi.h`. The two drop
  amounts are `int64` inputs rather than a decoding of the 8-byte buffers.
- `TRACESTR`/`TRACEVAR` logging is left out: diagnostics with no effect on
  the outcome.
- The unused constants are left out: `SCOPE_ONE`, `SCOPE_TWO` and
  `SCOPE_THREE` are floating point, and `ACCT_LN`, `ACCT_ADDRESS`,
  `CARBONLAND_ADDRESS` are strings. So is `sell_drops_raw` (esg.c:63), which
  is assigned and never read.
- Transaction emission, offer matching and offer sizing are not modelled;
  the code implements none of them.
- The signer-list meaning suggested by the comments at esg.c:98-112 is not
  modelled; the code only checks that the lookups succeed.
- The `reserved` argument of `hook()` is unused and is not modelled; nor is
  its unreachable `return 0`.
- The length that `SBUF` passes along with each message, which counts the
  C string terminator, is not modelled. `Esg.Text` gives each message
  without the terminator.
- `otxn_field` returns 64 bits, and esg.c:46 stores the result in an
  `int32_t`. The model takes the stored `int32` value as its input. The
  host's real results (at most 20, or a small negative error code) are
  unchanged by that narrowing.
