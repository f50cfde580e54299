# Branch predictor model

A Dafny model of the branch predictor in `src/predictor.c`. The program
offers one interface, `init_predictor`, `make_prediction(pc)` and
`train_predictor(pc, outcome)`, behind four strategies:

- **Static** always predicts taken.
- **Gshare** keeps one table of 2-bit saturating counters indexed by
  `(pc ^ ghr)`, masked to `ghistoryBits` bits.
- **Tournament** keeps a per-address local history table, a local counter
  table indexed by that history, a global counter table indexed by the
  global history register, and a choice table that picks the global or the
  local prediction.
- **Custom** has the Tournament shape with fixed sizes: 13 bits of global
  history in `global_history`, 8 bits of local history, and 1024 local
  history slots.

The program's global variables become the class `BranchPredictor.Predictor`.
Its array fields are `gshareBht`, `localHistoryTable`, `localBht`,
`globalBht` and `choiceTable`. The registers `ghr` and `globalHistory` are
variable fields. The configuration (`ghistoryBits`, `lhistoryBits`,
`pcIndexBits`, `bpType`) is made of constant fields: the program only reads
it, and it is taken to be set by the caller before `init_predictor`.

The counter is modelled in `counter.dfy` (module `SaturatingCounter`). The
history registers and the bitwise operations are in `history.dfy` (module
`History`). The predictor itself is in `predictor.dfy` (module
`BranchPredictor`).

- `init_predictor` is a method. It allocates fresh arrays and fills them
  with `for` loops.
- `make_prediction` is a function that reads the state and changes nothing.
- `train_predictor` is a method that updates table entries in place. Its
  contract gives each table's new contents as the old contents with one
  entry replaced. It also keeps the invariant `Valid()`:
  - every counter stays in [SN, ST];
  - every local history indexes the local counter table;
  - each history register stays below `2^bits`.

The constants `SN, WN, WT, ST`, `NOTTAKEN, TAKEN` and
`STATIC, GSHARE, TOURNAMENT, CUSTOM` are defined in `predictor.h`, which is
not part of this model. They are taken to be 0..3, 0/1 and 0..3:
- The counter states must be ordered.
- The outcome is OR'd straight into the history registers
  (src/predictor.c:179), so it must be a single bit.
- The kinds follow the order of `bpName`.

Bitwise operations are modelled on unbounded integers:
- `x & ((1 << k) - 1)` is `x % Pow2(k)`.
- `(h << 1) | outcome` is `h * 2 + outcome` for a one-bit outcome.
- `^` is a recursive `Xor` on naturals.
- The 32-bit wrap-around of `ghr << 1` cannot change the masked register.
  `History.ShiftInIgnoresWordOverflow` proves this for any word width at
  least the history width.

The code implements the four strategies above and nothing else. Custom
writes its choice step as two guarded steps (src/predictor.c:224-229);
`BranchPredictor.CustomChoiceUpdate` proves it equals the Tournament rule
for counters in range and one-bit predictions and outcome.

## Model

| member | source | states |
|---|---|---|
| SaturatingCounter.GetPrediction | src/predictor.c:60-62 | the prediction is a single bit; it is TAKEN exactly when the counter is at least WT and NOTTAKEN exactly when it is below WT |
| SaturatingCounter.UpdateCounter | src/predictor.c:64-67 | on TAKEN the counter rises by one capped at ST, otherwise it falls by one floored at SN; a counter in [SN, ST] stays in [SN, ST] |
| SaturatingCounter.UpdateKeepsCorrectPrediction | src/predictor.c:60-67 | training on the outcome a counter already predicts never changes its prediction |
| SaturatingCounter.StrongStateHysteresis | src/predictor.c:60-67 | from SN or ST a single contrary outcome does not flip the prediction |
| SaturatingCounter.UpdateAllInRange | src/predictor.c:64-67 | a counter in [SN, ST] stays in range across any sequence of training steps |
| SaturatingCounter.TwoInARowLearned | src/predictor.c:60-67 | whatever its history, a counter in range predicts an outcome once it has been trained on it twice in a row |
| History.ShiftIn | src/predictor.c:179 | the register shifted left by one with the outcome in bit 0, then masked, stays below `2^bits`, its bit 0 is the new outcome and its upper bits are the old register's low `bits - 1` bits |
| History.ShiftInIgnoresWordOverflow | src/predictor.c:179 | shifting in a fixed-width word, which drops the top bit, gives the same masked register as shifting without overflow |
| History.ShiftAllValue | src/predictor.c:208-209 | after any sequence of outcomes a register of width `bits` holds the low `bits` bits of the old value followed by the outcomes read as binary (`Unmasked`), i.e. shifting and masking step by step equals shifting everything and masking once |
| History.HistoryIsLastOutcomes | src/predictor.c:208-209 | once at least `bits` outcomes have been shifted in, the register holds exactly the last `bits` outcomes, newest in bit 0, whatever it held before |
| History.XorLowBits | src/predictor.c:133 | the low `k` bits of `a ^ b` depend only on the low `k` bits of `a` and `b` |
| History.XorCancel | src/predictor.c:133 | xor-ing twice with the same address gives back the history |
| History.XorInjective | src/predictor.c:133 | for a fixed address, the xor is one-to-one in the history |
| BranchPredictor.CustomSizes | src/predictor.c:52-56 | the Custom table sizes are `1 << LOCAL_HIST_BITS` = 256 and `1 << GLOBAL_HIST_BITS` = 8192 |
| BranchPredictor.GshareIndex | src/predictor.c:133 | the Gshare index is within the `1 << ghistoryBits` table |
| BranchPredictor.GshareAliasing | src/predictor.c:133 | two addresses that agree in the low `ghistoryBits` bits share a Gshare counter under every history |
| BranchPredictor.GshareSeparatesHistories | src/predictor.c:133 | for one address, two different in-range histories select two different Gshare counters |
| BranchPredictor.ChoiceUpdate | src/predictor.c:202-207 | when the predictions agree the choice counter stays put; when they disagree it takes one saturating step toward ST if the global prediction was right and toward SN otherwise; it stays in [SN, ST] |
| BranchPredictor.CustomChoiceUpdate | src/predictor.c:224-229 | Custom's guarded choice step equals the Tournament rule for a counter in [SN, ST] and one-bit predictions and outcome |
| BranchPredictor.Predictor.constructor | src/predictor.c:26-58 | the state before `init_predictor`: the given configuration, both history registers zero, and fresh empty arrays standing for the NULL table pointers |
| BranchPredictor.Predictor.GlobalIndex | src/predictor.c:137-148 | the masked global history indexes both the global and the choice table, and equals the register itself (`ghr` for Tournament, `global_history` for Custom) |
| BranchPredictor.Predictor.LocalSlot | src/predictor.c:138-149 | the local history slot of an address is its low `pcIndexBits` bits (Tournament) or its value mod 1024 (Custom), within the local history table |
| BranchPredictor.Predictor.LocalPatternIndex | src/predictor.c:139-150 | the masked (Tournament) or `uint8_t`-truncated (Custom) local history is the stored history itself and indexes the local counter table |
| BranchPredictor.Predictor.LocalPrediction | src/predictor.c:142-152 | the local component predicts taken exactly when its counter is at least WT |
| BranchPredictor.Predictor.GlobalPrediction | src/predictor.c:143-153 | the global component predicts taken exactly when its counter is at least WT |
| BranchPredictor.Predictor.InitPredictor | src/predictor.c:75-114 | allocates fresh tables of the configured kind and sizes, sets every counter to WN, every choice counter to WT, every local history to 0, and `ghr` to 0 for Gshare and Tournament (Custom keeps `ghr` and `global_history`), and establishes `Valid()`; other kinds allocate nothing |
| BranchPredictor.Predictor.InitGshare | src/predictor.c:78-83 | a fresh table of `1 << ghistoryBits` counters, all WN, and `ghr` = 0 |
| BranchPredictor.Predictor.InitTournament | src/predictor.c:85-98 | fresh tables of `1 << pcIndexBits` histories, `1 << lhistoryBits` local counters and `1 << ghistoryBits` global and choice counters, with the initial contents |
| BranchPredictor.Predictor.InitCustom | src/predictor.c:100-112 | fresh tables of 8192 global and choice counters, 256 local counters and 1024 local histories, with the initial contents |
| BranchPredictor.Predictor.FillGshare | src/predictor.c:81-82 | every Gshare counter becomes WN, so all are in range |
| BranchPredictor.Predictor.FillTables | src/predictor.c:92-111 | every local history becomes 0, every local and global counter WN and every choice counter WT |
| BranchPredictor.Predictor.MakePrediction | src/predictor.c:121-163 | one bit; Static predicts TAKEN, an unknown kind NOTTAKEN; Gshare predicts taken exactly when its indexed counter is at least WT; Tournament and Custom return the global prediction when the choice counter is at least WT and the local one otherwise |
| BranchPredictor.Predictor.TrainPredictor | src/predictor.c:169-233 | keeps `Valid()`; Gshare steps only the indexed counter toward the outcome and shifts the outcome into `ghr`; Tournament and Custom step the local and global counters, apply the choice rule to the choice entry and rewrite only the address's local history slot; Tournament shifts `ghr`, Custom `global_history`; Static and unknown kinds change nothing |
| BranchPredictor.Predictor.StepCounter | src/predictor.c:174-201 | the in-place `if (c < ST) c++` / `if (c > SN) c--` step is `update_counter` applied to that one entry; no other entry changes |
| BranchPredictor.Predictor.StepChoice | src/predictor.c:202-207 | the in-place choice step replaces one entry by the choice rule and keeps the table in range |
| BranchPredictor.Predictor.TrainGshare | src/predictor.c:172-181 | the counter at `(pc ^ ghr) & mask` takes one step toward the outcome and nothing else in the table changes; `ghr` becomes the shifted-in register and stays below `2^ghistoryBits` |
| BranchPredictor.Predictor.TournamentCounters | src/predictor.c:189-207 | the local and global counters step toward the outcome, and the choice entry follows the choice rule using the predictions read before the update |
| BranchPredictor.Predictor.TrainTournament | src/predictor.c:183-211 | the three counter updates, plus `local_history_table[pc & mask]` and `ghr` replaced by their shifted-in, masked values; every other slot is unchanged and `Valid()` holds |
| BranchPredictor.Predictor.CustomCounters | src/predictor.c:219-229 | `update_counter` on the local and global counters and the guarded choice step, which together equal the Tournament counter updates |
| BranchPredictor.Predictor.TrainCustom | src/predictor.c:213-233 | the counter updates, plus the local history slot and `global_history` shifted with 8 and 13 bits; local histories stay below 256 and `global_history` below 8192 |
| BranchPredictor.FirstPredictionNotTaken | src/predictor.c:75-114 | right after `init_predictor`, Gshare, Tournament and Custom predict NOTTAKEN for every address |

## Left out

- Allocation: `malloc` is modelled as fresh arrays of the requested sizes. Its failure is not modelled, and neither is the missing `free` when `init_predictor` runs twice.
- The tables' contents before `init_predictor` are not modelled: the NULL pointers become empty arrays.
- Output-only globals are left out: `studentName`, `studentID`, `email`, `bpName` and `verbose` only feed reporting.
- The driver is not part of this model: trace parsing, command-line handling of the configuration and the misprediction statistics live in other files.
- C integer widths become preconditions, assumed of the caller (nothing in `src/predictor.c` checks them):
  - the history and index widths are below 31, so `1 << bits` is defined;
  - `outcome` is 0 or 1;
  - `pc` is a 32-bit value.
- The `uint8_t` truncation of the Custom local history (src/predictor.c:150, 216) is modelled as `% 256`; the invariant makes it a no-op.
- BranchPredictor.Predictor.StepCounter: requires the entry to be in [SN, ST]. For an out-of-range entry the C step (`if (c < ST) c++`) and `update_counter` differ, and `Valid()` rules such entries out.
- BranchPredictor.CustomChoiceUpdate: the agreement with the Tournament rule is stated only for counters in range and one-bit predictions and outcome, the only values `Valid()` and the interface allow.
