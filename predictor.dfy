/**
  The branch predictor of src/predictor.c: four strategies behind one
  `init_predictor` / `make_prediction` / `train_predictor` interface.

  - Static always predicts taken.
  - Gshare keeps one table of counters indexed by `pc ^ ghr`.
  - Tournament keeps a per-address local history table, a local counter
    table indexed by that history, a global counter table indexed by the
    global history, and a choice table that picks between the two.
  - Custom has the Tournament shape with fixed sizes: 13 bits of global
    history, 8 bits of local history and 1024 local history slots.
*/
module BranchPredictor {
  import opened Ints
  import opened SaturatingCounter
  import opened History

  // Predictor kinds, numbered as in predictor.h (the order of `bpName`).
  const STATIC: int := 0
  const GSHARE: int := 1
  const TOURNAMENT: int := 2
  const CUSTOM: int := 3

  // Fixed sizes of the Custom predictor.
  const GLOBAL_HIST_BITS: nat := 13
  const LOCAL_HIST_BITS: nat := 8
  const LOCAL_PHT_SIZE: nat := 0x100
  const GLOBAL_PHT_SIZE: nat := 0x2000
  const LOCAL_HISTORY_TABLE_SIZE: nat := 1024

  /** The pattern tables of Custom are `1 << LOCAL_HIST_BITS` and `1 << GLOBAL_HIST_BITS` long. */
  lemma CustomSizes()
    ensures Pow2(LOCAL_HIST_BITS) == LOCAL_PHT_SIZE
    ensures Pow2(GLOBAL_HIST_BITS) == GLOBAL_PHT_SIZE
  {
    Pow2Of8();
    Pow2Add(8, 5);
  }

  /** `(pc ^ ghr) & ((1 << bits) - 1)`: the Gshare table entry of a branch. */
  function GshareIndex(pc: uint32, ghr: nat, bits: nat): (i: nat)
    ensures i < Pow2(bits)
  {
    Xor(pc, ghr) % Pow2(bits)
  }

  /**
    Two addresses that agree in their low `bits` bits share a Gshare entry
    under every history: aliasing between addresses is by design.
  */
  lemma GshareAliasing(pc1: uint32, pc2: uint32, ghr: nat, bits: nat)
    requires pc1 % Pow2(bits) == pc2 % Pow2(bits)
    ensures GshareIndex(pc1, ghr, bits) == GshareIndex(pc2, ghr, bits)
  {
    XorLowBits(pc1, ghr, bits);
    XorLowBits(pc2, ghr, bits);
  }

  /**
    For one address, different histories of the register's width select
    different counters: the history spreads a branch over the table.
  */
  lemma GshareSeparatesHistories(pc: uint32, h1: nat, h2: nat, bits: nat)
    requires h1 < Pow2(bits) && h2 < Pow2(bits) && h1 != h2
    ensures GshareIndex(pc, h1, bits) != GshareIndex(pc, h2, bits)
  {
    var m := pc % Pow2(bits);
    XorLowBits(pc, h1, bits);
    XorLowBits(pc, h2, bits);
    ModSmall(h1, Pow2(bits));
    ModSmall(h2, Pow2(bits));
    if Xor(m, h1) == Xor(m, h2) {
      XorInjective(m, h1, h2);
    }
  }

  /**
    The Tournament choice rule: when the local and global predictions
    disagree, the choice counter steps toward ST if the global one was right
    and toward SN otherwise; when they agree it does not move.
  */
  function ChoiceUpdate(choice: uint8, localPred: uint8, globalPred: uint8, outcome: uint8): (c: uint8)
    ensures localPred == globalPred ==> c == choice
    ensures localPred != globalPred && globalPred == outcome ==> c == UpdateCounter(choice, TAKEN)
    ensures localPred != globalPred && globalPred != outcome ==> c == UpdateCounter(choice, NOTTAKEN)
    ensures IsCounter(choice) ==> IsCounter(c)
  {
    if localPred != globalPred then
      if globalPred == outcome then (if choice < ST then choice + 1 else ST)
      else (if choice > SN then choice - 1 else SN)
    else choice
  }

  /**
    The Custom choice rule, written with two guarded steps. For a counter in
    [SN, ST] and outcomes and predictions that are single bits it is the
    Tournament rule.
  */
  function CustomChoiceUpdate(choice: uint8, localPred: uint8, globalPred: uint8, outcome: uint8): (c: uint8)
    ensures IsCounter(choice) && IsOutcome(localPred) && IsOutcome(globalPred) && IsOutcome(outcome)
      ==> c == ChoiceUpdate(choice, localPred, globalPred, outcome)
  {
    if localPred != globalPred then
      if globalPred == outcome && choice < ST then choice + 1
      else if localPred == outcome && choice > SN then choice - 1
      else choice
    else choice
  }

  /** Every entry of a counter table lies in [SN, ST]. */
  ghost predicate Counters(table: seq<uint8>) {
    forall i :: 0 <= i < |table| ==> IsCounter(table[i])
  }

  lemma CountersUpdate(table: seq<uint8>, i: nat, c: uint8)
    requires Counters(table) && i < |table| && IsCounter(c)
    ensures Counters(table[i := c])
  {
  }

  /** Every entry of a local history table is below `bound`. */
  ghost predicate HistoriesBelow(histories: seq<uint32>, bound: nat) {
    forall i :: 0 <= i < |histories| ==> histories[i] < bound
  }

  lemma HistoriesUpdate(histories: seq<uint32>, i: nat, h: uint32, bound: nat)
    requires HistoriesBelow(histories, bound) && i < |histories| && h < bound
    ensures HistoriesBelow(histories[i := h], bound)
  {
  }

  /**
    The predictor state: the global variables of src/predictor.c. The
    configuration is set by the caller before `init_predictor` and never
    changes afterwards. Before `init_predictor` the table pointers are
    NULL, modelled as empty arrays.
  */
  class Predictor {
    const ghistoryBits: nat
    const lhistoryBits: nat
    const pcIndexBits: nat
    const bpType: int

    var ghr: uint32
    var globalHistory: uint16
    var gshareBht: array<uint8>
    var localHistoryTable: array<uint32>
    var localBht: array<uint8>
    var globalBht: array<uint8>
    var choiceTable: array<uint8>

    /** Tournament and Custom share their tables and their training rule. */
    predicate IsHybrid() {
      bpType == TOURNAMENT || bpType == CUSTOM
    }

    predicate IsKnown() {
      bpType == STATIC || bpType == GSHARE || IsHybrid()
    }

    /** The history widths the kind in use shifts by are below 31, so `1 << bits` is defined. */
    predicate ConfigOk() {
      && (bpType == GSHARE ==> ghistoryBits < 31)
      && (bpType == TOURNAMENT ==> ghistoryBits < 31 && lhistoryBits < 31 && pcIndexBits < 31)
    }

    /** Width of a local history entry. */
    function LocalHistoryBits(): nat {
      if bpType == TOURNAMENT then lhistoryBits else LOCAL_HIST_BITS
    }

    /**
      The tables of a hybrid predictor: three distinct counter tables of the
      given sizes and a local history table whose every entry indexes the
      local counter table.
    */
    ghost predicate HybridTables(slots: nat, patterns: nat, globals: nat)
      reads this, localHistoryTable, localBht, globalBht, choiceTable
    {
      && localBht != globalBht && localBht != choiceTable && globalBht != choiceTable
      && gshareBht != localBht && gshareBht != globalBht && gshareBht != choiceTable
      && localHistoryTable.Length == slots
      && localBht.Length == patterns
      && globalBht.Length == globals && choiceTable.Length == globals
      && HistoriesBelow(localHistoryTable[..], patterns)
      && Counters(localBht[..]) && Counters(globalBht[..]) && Counters(choiceTable[..])
    }

    /** The invariant every operation after `init_predictor` keeps. */
    ghost predicate Valid()
      reads this, gshareBht, localHistoryTable, localBht, globalBht, choiceTable
    {
      && ConfigOk()
      && globalHistory < GLOBAL_PHT_SIZE
      && (bpType == GSHARE ==>
            && gshareBht != localBht && gshareBht != globalBht && gshareBht != choiceTable
            && gshareBht.Length == Pow2(ghistoryBits)
            && Counters(gshareBht[..])
            && ghr < Pow2(ghistoryBits))
      && (bpType == TOURNAMENT ==>
            && HybridTables(Pow2(pcIndexBits), Pow2(lhistoryBits), Pow2(ghistoryBits))
            && ghr < Pow2(ghistoryBits))
      && (bpType == CUSTOM ==>
            HybridTables(LOCAL_HISTORY_TABLE_SIZE, LOCAL_PHT_SIZE, GLOBAL_PHT_SIZE))
    }

    /** The table contents `init_predictor` leaves behind. */
    ghost predicate Initialised()
      reads this, gshareBht, localHistoryTable, localBht, globalBht, choiceTable
    {
      && (bpType == GSHARE ==>
            ghr == 0 && forall i :: 0 <= i < gshareBht.Length ==> gshareBht[i] == WN)
      && (bpType == TOURNAMENT ==> ghr == 0)
      && (IsHybrid() ==>
            && (forall i :: 0 <= i < localHistoryTable.Length ==> localHistoryTable[i] == 0)
            && (forall i :: 0 <= i < localBht.Length ==> localBht[i] == WN)
            && (forall i :: 0 <= i < globalBht.Length ==> globalBht[i] == WN)
            && (forall i :: 0 <= i < choiceTable.Length ==> choiceTable[i] == WT))
    }

    /**
      The program's initial state: the configuration chosen by the caller,
      both history registers zero and no tables allocated yet.
    */
    constructor (ghistoryBits: nat, lhistoryBits: nat, pcIndexBits: nat, bpType: int)
      ensures this.ghistoryBits == ghistoryBits && this.lhistoryBits == lhistoryBits
      ensures this.pcIndexBits == pcIndexBits && this.bpType == bpType
      ensures ghr == 0 && globalHistory == 0
      ensures gshareBht.Length == 0 && localHistoryTable.Length == 0
      ensures localBht.Length == 0 && globalBht.Length == 0 && choiceTable.Length == 0
      ensures fresh(gshareBht) && fresh(localHistoryTable) && fresh(localBht)
      ensures fresh(globalBht) && fresh(choiceTable)
    {
      this.ghistoryBits := ghistoryBits;
      this.lhistoryBits := lhistoryBits;
      this.pcIndexBits := pcIndexBits;
      this.bpType := bpType;
      ghr := 0;
      globalHistory := 0;
      gshareBht := new uint8[0];
      localHistoryTable := new uint32[0];
      localBht := new uint8[0];
      globalBht := new uint8[0];
      choiceTable := new uint8[0];
    }

    // -------------------------------------------------------------------
    // The indices and component predictions of a hybrid predictor.

    /** `ghr & ((1 << ghistoryBits) - 1)`, or `global_history & (GLOBAL_PHT_SIZE - 1)` for Custom. */
    function GlobalIndex(): (i: nat)
      reads this, gshareBht, localHistoryTable, localBht, globalBht, choiceTable
      requires Valid() && IsHybrid()
      ensures i < globalBht.Length && i < choiceTable.Length
      ensures bpType == TOURNAMENT ==> i == ghr
      ensures bpType == CUSTOM ==> i == globalHistory
    {
      if bpType == TOURNAMENT then
        ModSmall(ghr, Pow2(ghistoryBits));
        ghr % Pow2(ghistoryBits)
      else
        ModSmall(globalHistory, GLOBAL_PHT_SIZE);
        globalHistory % GLOBAL_PHT_SIZE
    }

    /** The local history slot of an address: its low bits. */
    function LocalSlot(pc: uint32): (i: nat)
      reads this, gshareBht, localHistoryTable, localBht, globalBht, choiceTable
      requires Valid() && IsHybrid()
      ensures i < localHistoryTable.Length
      ensures bpType == TOURNAMENT ==> i == pc % Pow2(pcIndexBits)
      ensures bpType == CUSTOM ==> i == pc % LOCAL_HISTORY_TABLE_SIZE
    {
      if bpType == TOURNAMENT then pc % Pow2(pcIndexBits) else pc % LOCAL_HISTORY_TABLE_SIZE
    }

    /**
      The local counter an address uses: its local history, masked to the
      local history width (Tournament) or truncated to `uint8_t` (Custom).
      Both are no-ops, since every stored local history already fits, so the
      index is always within the local counter table.
    */
    function LocalPatternIndex(pc: uint32): (i: nat)
      reads this, gshareBht, localHistoryTable, localBht, globalBht, choiceTable
      requires Valid() && IsHybrid()
      ensures i < localBht.Length
      ensures i == localHistoryTable[LocalSlot(pc)]
    {
      var h := localHistoryTable[LocalSlot(pc)];
      if bpType == TOURNAMENT then
        ModSmall(h, Pow2(lhistoryBits));
        h % Pow2(lhistoryBits)
      else
        ModSmall(h, 0x100);
        h % 0x100
    }

    function LocalPrediction(pc: uint32): (p: uint8)
      reads this, gshareBht, localHistoryTable, localBht, globalBht, choiceTable
      requires Valid() && IsHybrid()
      ensures p == TAKEN <==> localBht[LocalPatternIndex(pc)] >= WT
    {
      GetPrediction(localBht[LocalPatternIndex(pc)])
    }

    function GlobalPrediction(): (p: uint8)
      reads this, gshareBht, localHistoryTable, localBht, globalBht, choiceTable
      requires Valid() && IsHybrid()
      ensures p == TAKEN <==> globalBht[GlobalIndex()] >= WT
    {
      GetPrediction(globalBht[GlobalIndex()])
    }

    // -------------------------------------------------------------------
    // The three operations.

    /** `init_predictor`: allocate the tables of the configured kind and fill them. */
    method InitPredictor()
      requires ConfigOk() && globalHistory < GLOBAL_PHT_SIZE
      modifies this`ghr, this`gshareBht, this`localHistoryTable, this`localBht, this`globalBht, this`choiceTable
      ensures Valid() && Initialised()
      ensures globalHistory == old(globalHistory)
      ensures bpType == GSHARE ==> fresh(gshareBht)
      ensures bpType != GSHARE ==> gshareBht == old(gshareBht)
      ensures IsHybrid() ==>
        fresh(localHistoryTable) && fresh(localBht) && fresh(globalBht) && fresh(choiceTable)
      ensures !IsHybrid() ==>
        && localHistoryTable == old(localHistoryTable) && localBht == old(localBht)
        && globalBht == old(globalBht) && choiceTable == old(choiceTable)
      ensures bpType != GSHARE && bpType != TOURNAMENT ==> ghr == old(ghr)
    {
      if bpType == GSHARE {
        InitGshare();
      } else if bpType == TOURNAMENT {
        InitTournament();
      } else if bpType == CUSTOM {
        InitCustom();
      }
    }

    /** The Gshare branch of `init_predictor`. */
    method InitGshare()
      requires ConfigOk() && globalHistory < GLOBAL_PHT_SIZE && bpType == GSHARE
      modifies this`ghr, this`gshareBht
      ensures Valid() && Initialised() && fresh(gshareBht)
    {
      ghr := 0;
      Pow2Below31(ghistoryBits);
      var n := Pow2(ghistoryBits);
      gshareBht := new uint8[n];
      FillGshare(n);
    }

    /** The Tournament branch of `init_predictor`. */
    method InitTournament()
      requires ConfigOk() && globalHistory < GLOBAL_PHT_SIZE && bpType == TOURNAMENT
      modifies this`ghr, this`localHistoryTable, this`localBht, this`globalBht, this`choiceTable
      ensures Valid() && Initialised()
      ensures fresh(localHistoryTable) && fresh(localBht) && fresh(globalBht) && fresh(choiceTable)
    {
      ghr := 0;
      var slots, patterns, globals := Pow2(pcIndexBits), Pow2(lhistoryBits), Pow2(ghistoryBits);
      localHistoryTable := new uint32[slots];
      localBht := new uint8[patterns];
      globalBht := new uint8[globals];
      choiceTable := new uint8[globals];
      FillTables(slots, patterns, globals);
    }

    /** The Custom branch of `init_predictor`: fixed table sizes. */
    method InitCustom()
      requires ConfigOk() && globalHistory < GLOBAL_PHT_SIZE && bpType == CUSTOM
      modifies this`localHistoryTable, this`localBht, this`globalBht, this`choiceTable
      ensures Valid() && Initialised()
      ensures fresh(localHistoryTable) && fresh(localBht) && fresh(globalBht) && fresh(choiceTable)
    {
      globalBht := new uint8[GLOBAL_PHT_SIZE];
      choiceTable := new uint8[GLOBAL_PHT_SIZE];
      localBht := new uint8[LOCAL_PHT_SIZE];
      localHistoryTable := new uint32[LOCAL_HISTORY_TABLE_SIZE];
      FillTables(LOCAL_HISTORY_TABLE_SIZE, LOCAL_PHT_SIZE, GLOBAL_PHT_SIZE);
    }

    /** The fill loop of `init_predictor` for the Gshare table. */
    method FillGshare(n: nat)
      requires gshareBht.Length == n
      modifies gshareBht
      ensures forall i :: 0 <= i < n ==> gshareBht[i] == WN
      ensures Counters(gshareBht[..])
    {
      for i := 0 to n
        invariant forall j :: 0 <= j < i ==> gshareBht[j] == WN
      {
        gshareBht[i] := WN;
      }
    }

    /** The fill loops of `init_predictor` for the hybrid tables. */
    method FillTables(slots: nat, patterns: nat, globals: nat)
      requires localHistoryTable.Length == slots && localBht.Length == patterns && patterns > 0
      requires globalBht.Length == globals && choiceTable.Length == globals
      requires localBht != globalBht && localBht != choiceTable && globalBht != choiceTable
      modifies localHistoryTable, localBht, globalBht, choiceTable
      ensures forall i :: 0 <= i < slots ==> localHistoryTable[i] == 0
      ensures forall i :: 0 <= i < patterns ==> localBht[i] == WN
      ensures forall i :: 0 <= i < globals ==> globalBht[i] == WN && choiceTable[i] == WT
      ensures HistoriesBelow(localHistoryTable[..], patterns)
      ensures Counters(localBht[..]) && Counters(globalBht[..]) && Counters(choiceTable[..])
    {
      for i := 0 to slots
        invariant forall j :: 0 <= j < i ==> localHistoryTable[j] == 0
      {
        localHistoryTable[i] := 0;
      }
      for i := 0 to patterns
        invariant forall j :: 0 <= j < slots ==> localHistoryTable[j] == 0
        invariant forall j :: 0 <= j < i ==> localBht[j] == WN
      {
        localBht[i] := WN;
      }
      for i := 0 to globals
        invariant forall j :: 0 <= j < slots ==> localHistoryTable[j] == 0
        invariant forall j :: 0 <= j < patterns ==> localBht[j] == WN
        invariant forall j :: 0 <= j < i ==> globalBht[j] == WN && choiceTable[j] == WT
      {
        globalBht[i] := WN;
        choiceTable[i] := WT;
      }
    }

    /**
      `make_prediction`: a read-only lookup. Static predicts taken, an
      unknown kind not taken; Gshare binarises its one counter; Tournament
      and Custom return the global component's prediction when the choice
      counter is at least WT and the local one's otherwise.
    */
    function MakePrediction(pc: uint32): (p: uint8)
      reads this, gshareBht, localHistoryTable, localBht, globalBht, choiceTable
      requires Valid()
      ensures IsOutcome(p)
      ensures bpType == STATIC ==> p == TAKEN
      ensures !IsKnown() ==> p == NOTTAKEN
      ensures bpType == GSHARE ==>
        (p == TAKEN <==> gshareBht[GshareIndex(pc, ghr, ghistoryBits)] >= WT)
      ensures IsHybrid() ==>
        p == (if choiceTable[GlobalIndex()] >= WT then GlobalPrediction() else LocalPrediction(pc))
    {
      if bpType == STATIC then TAKEN
      else if bpType == GSHARE then
        var index := Xor(pc, ghr) % Pow2(ghistoryBits);
        if gshareBht[index] >= WT then TAKEN else NOTTAKEN
      else if bpType == TOURNAMENT then
        var globalIndex := ghr % Pow2(ghistoryBits);
        var localIndex := pc % Pow2(pcIndexBits);
        var localHistory := localHistoryTable[localIndex];
        var localBhtIndex := localHistory % Pow2(lhistoryBits);
        var localPred := if localBht[localBhtIndex] >= WT then TAKEN else NOTTAKEN;
        var globalPred := if globalBht[globalIndex] >= WT then TAKEN else NOTTAKEN;
        if choiceTable[globalIndex] >= WT then globalPred else localPred
      else if bpType == CUSTOM then
        var globalIdx := globalHistory % GLOBAL_PHT_SIZE;
        var localIdx := pc % LOCAL_HISTORY_TABLE_SIZE;
        var localHist := localHistoryTable[localIdx] % 0x100;
        var localPred := GetPrediction(localBht[localHist]);
        var globalPred := GetPrediction(globalBht[globalIdx]);
        if choiceTable[globalIdx] >= WT then globalPred else localPred
      else NOTTAKEN
    }

    /**
      `train_predictor`: one saturating step of each counter the branch
      used, toward its outcome, then the outcome is shifted into the
      histories. Nothing else changes; Static and unknown kinds change
      nothing at all.
    */
    method TrainPredictor(pc: uint32, outcome: uint8)
      requires Valid() && IsOutcome(outcome)
      modifies this`ghr, this`globalHistory, gshareBht, localHistoryTable, localBht, globalBht, choiceTable
      ensures Valid()
      ensures bpType == GSHARE ==>
        var i := GshareIndex(pc, old(ghr), ghistoryBits);
        && gshareBht[..] == old(gshareBht[..])[i := UpdateCounter(old(gshareBht[i]), outcome)]
        && ghr == ShiftIn(old(ghr), outcome, ghistoryBits)
        && globalHistory == old(globalHistory)
        && unchanged(localHistoryTable, localBht, globalBht, choiceTable)
      ensures IsHybrid() ==>
        var g, slot, l := old(GlobalIndex()), old(LocalSlot(pc)), old(LocalPatternIndex(pc));
        var localPred, globalPred := old(LocalPrediction(pc)), old(GlobalPrediction());
        && localBht[..] == old(localBht[..])[l := UpdateCounter(old(localBht[l]), outcome)]
        && globalBht[..] == old(globalBht[..])[g := UpdateCounter(old(globalBht[g]), outcome)]
        && choiceTable[..] == old(choiceTable[..])[g := ChoiceUpdate(old(choiceTable[g]), localPred, globalPred, outcome)]
        && localHistoryTable[..] == old(localHistoryTable[..])[slot := ShiftIn(l, outcome, LocalHistoryBits())]
        && unchanged(gshareBht)
      ensures bpType == TOURNAMENT ==>
        ghr == ShiftIn(old(ghr), outcome, ghistoryBits) && globalHistory == old(globalHistory)
      ensures bpType == CUSTOM ==>
        globalHistory == ShiftIn(old(globalHistory), outcome, GLOBAL_HIST_BITS) && ghr == old(ghr)
      ensures !IsHybrid() && bpType != GSHARE ==>
        && ghr == old(ghr) && globalHistory == old(globalHistory)
        && unchanged(gshareBht, localHistoryTable, localBht, globalBht, choiceTable)
    {
      if bpType == GSHARE {
        TrainGshare(pc, outcome);
      } else if bpType == TOURNAMENT {
        TrainTournament(pc, outcome);
      } else if bpType == CUSTOM {
        TrainCustom(pc, outcome);
      }
    }

    /**
      The in-place counter step Gshare and Tournament write out at each
      table entry they train: `if (c < ST) c++` on taken, `if (c > SN) c--`
      otherwise. It is `update_counter` applied to the entry.
    */
    static method StepCounter(table: array<uint8>, index: nat, outcome: uint8)
      requires index < table.Length && Counters(table[..])
      modifies table
      ensures table[..] == old(table[..])[index := UpdateCounter(old(table[index]), outcome)]
      ensures Counters(table[..])
    {
      ghost var before := table[..];
      if outcome == TAKEN {
        if table[index] < ST { table[index] := table[index] + 1; }
      } else {
        if table[index] > SN { table[index] := table[index] - 1; }
      }
      CountersUpdate(before, index, table[index]);
    }

    /**
      Tournament's in-place choice step: when the two components disagree,
      the choice counter moves up if the global one was right and down if
      it was wrong, saturating at both ends.
    */
    static method StepChoice(table: array<uint8>, index: nat, localPred: uint8, globalPred: uint8, outcome: uint8)
      requires index < table.Length && Counters(table[..])
      modifies table
      ensures table[..] == old(table[..])[index := ChoiceUpdate(old(table[index]), localPred, globalPred, outcome)]
      ensures Counters(table[..])
    {
      ghost var before := table[..];
      if localPred != globalPred {
        if globalPred == outcome {
          table[index] := if table[index] < ST then table[index] + 1 else ST;
        } else {
          table[index] := if table[index] > SN then table[index] - 1 else SN;
        }
      }
      CountersUpdate(before, index, table[index]);
    }

    /** The GSHARE case of `train_predictor`. */
    method TrainGshare(pc: uint32, outcome: uint8)
      requires Valid() && IsOutcome(outcome) && bpType == GSHARE
      modifies this`ghr, gshareBht
      ensures Valid()
      ensures var i := GshareIndex(pc, old(ghr), ghistoryBits);
        gshareBht[..] == old(gshareBht[..])[i := UpdateCounter(old(gshareBht[i]), outcome)]
      ensures ghr == ShiftIn(old(ghr), outcome, ghistoryBits)
    {
      var index := Xor(pc, ghr) % Pow2(ghistoryBits);
      StepCounter(gshareBht, index, outcome);
      Pow2Below31(ghistoryBits);
      ghr := ShiftIn(ghr, outcome, ghistoryBits);
    }

    /**
      The counter updates of Tournament's `train_predictor`: both components
      read their predictions, their counters step toward the outcome, and
      the choice counter steps toward whichever component was right.
    */
    static method TournamentCounters(localBht: array<uint8>, globalBht: array<uint8>, choiceTable: array<uint8>,
                                     l: nat, g: nat, outcome: uint8)
      requires localBht != globalBht && localBht != choiceTable && globalBht != choiceTable
      requires l < localBht.Length && g < globalBht.Length && g < choiceTable.Length
      requires Counters(localBht[..]) && Counters(globalBht[..]) && Counters(choiceTable[..])
      modifies localBht, globalBht, choiceTable
      ensures Counters(localBht[..]) && Counters(globalBht[..]) && Counters(choiceTable[..])
      ensures localBht[..] == old(localBht[..])[l := UpdateCounter(old(localBht[l]), outcome)]
      ensures globalBht[..] == old(globalBht[..])[g := UpdateCounter(old(globalBht[g]), outcome)]
      ensures var localPred, globalPred := GetPrediction(old(localBht[l])), GetPrediction(old(globalBht[g]));
        choiceTable[..] == old(choiceTable[..])[g := ChoiceUpdate(old(choiceTable[g]), localPred, globalPred, outcome)]
    {
      var localPred := if localBht[l] >= WT then TAKEN else NOTTAKEN;
      var globalPred := if globalBht[g] >= WT then TAKEN else NOTTAKEN;
      StepCounter(localBht, l, outcome);
      StepCounter(globalBht, g, outcome);
      StepChoice(choiceTable, g, localPred, globalPred, outcome);
    }

    /** The TOURNAMENT case of `train_predictor`. */
    method TrainTournament(pc: uint32, outcome: uint8)
      requires Valid() && IsOutcome(outcome) && bpType == TOURNAMENT
      modifies this`ghr, localHistoryTable, localBht, globalBht, choiceTable
      ensures Valid()
      ensures
        var g, slot, l := old(GlobalIndex()), old(LocalSlot(pc)), old(LocalPatternIndex(pc));
        var localPred, globalPred := old(LocalPrediction(pc)), old(GlobalPrediction());
        && localBht[..] == old(localBht[..])[l := UpdateCounter(old(localBht[l]), outcome)]
        && globalBht[..] == old(globalBht[..])[g := UpdateCounter(old(globalBht[g]), outcome)]
        && choiceTable[..] == old(choiceTable[..])[g := ChoiceUpdate(old(choiceTable[g]), localPred, globalPred, outcome)]
        && localHistoryTable[..] == old(localHistoryTable[..])[slot := ShiftIn(l, outcome, lhistoryBits)]
      ensures ghr == ShiftIn(old(ghr), outcome, ghistoryBits)
    {
      var globalIndex := ghr % Pow2(ghistoryBits);
      var localIndex := pc % Pow2(pcIndexBits);
      var localHistory := localHistoryTable[localIndex];
      var localBhtIndex := localHistory % Pow2(lhistoryBits);
      assert globalIndex == GlobalIndex() && localIndex == LocalSlot(pc);
      assert localBhtIndex == LocalPatternIndex(pc);
      TournamentCounters(localBht, globalBht, choiceTable, localBhtIndex, globalIndex, outcome);
      Pow2Below31(lhistoryBits);
      Pow2Below31(ghistoryBits);
      ghost var histories0 := localHistoryTable[..];
      localHistoryTable[localIndex] := ShiftIn(localHistory, outcome, lhistoryBits);
      ghr := ShiftIn(ghr, outcome, ghistoryBits);
      HistoriesUpdate(histories0, localIndex, localHistoryTable[localIndex], Pow2(lhistoryBits));
    }

    /**
      The counter updates of Custom's `train_predictor`: the same steps as
      Tournament's, written with `update_counter` and a guarded choice step.
    */
    static method CustomCounters(localBht: array<uint8>, globalBht: array<uint8>, choiceTable: array<uint8>,
                                 l: nat, g: nat, outcome: uint8)
      requires localBht != globalBht && localBht != choiceTable && globalBht != choiceTable
      requires l < localBht.Length && g < globalBht.Length && g < choiceTable.Length
      requires Counters(localBht[..]) && Counters(globalBht[..]) && Counters(choiceTable[..])
      requires IsOutcome(outcome)
      modifies localBht, globalBht, choiceTable
      ensures Counters(localBht[..]) && Counters(globalBht[..]) && Counters(choiceTable[..])
      ensures localBht[..] == old(localBht[..])[l := UpdateCounter(old(localBht[l]), outcome)]
      ensures globalBht[..] == old(globalBht[..])[g := UpdateCounter(old(globalBht[g]), outcome)]
      ensures var localPred, globalPred := GetPrediction(old(localBht[l])), GetPrediction(old(globalBht[g]));
        choiceTable[..] == old(choiceTable[..])[g := ChoiceUpdate(old(choiceTable[g]), localPred, globalPred, outcome)]
    {
      var localPred := GetPrediction(localBht[l]);
      var globalPred := GetPrediction(globalBht[g]);
      ghost var local0, global0, choice0 := localBht[..], globalBht[..], choiceTable[..];

      localBht[l] := UpdateCounter(localBht[l], outcome);
      globalBht[g] := UpdateCounter(globalBht[g], outcome);
      CountersUpdate(local0, l, localBht[l]);
      CountersUpdate(global0, g, globalBht[g]);

      if localPred != globalPred {
        choiceTable[g] := CustomChoiceUpdate(choiceTable[g], localPred, globalPred, outcome);
      }
      CountersUpdate(choice0, g, choiceTable[g]);
    }

    /** The CUSTOM case of `train_predictor`. */
    method TrainCustom(pc: uint32, outcome: uint8)
      requires Valid() && IsOutcome(outcome) && bpType == CUSTOM
      modifies this`globalHistory, localHistoryTable, localBht, globalBht, choiceTable
      ensures Valid()
      ensures
        var g, slot, l := old(GlobalIndex()), old(LocalSlot(pc)), old(LocalPatternIndex(pc));
        var localPred, globalPred := old(LocalPrediction(pc)), old(GlobalPrediction());
        && localBht[..] == old(localBht[..])[l := UpdateCounter(old(localBht[l]), outcome)]
        && globalBht[..] == old(globalBht[..])[g := UpdateCounter(old(globalBht[g]), outcome)]
        && choiceTable[..] == old(choiceTable[..])[g := ChoiceUpdate(old(choiceTable[g]), localPred, globalPred, outcome)]
        && localHistoryTable[..] == old(localHistoryTable[..])[slot := ShiftIn(l, outcome, LOCAL_HIST_BITS)]
      ensures globalHistory == ShiftIn(old(globalHistory), outcome, GLOBAL_HIST_BITS)
    {
      var globalIdx := globalHistory % GLOBAL_PHT_SIZE;
      var localIdx := pc % LOCAL_HISTORY_TABLE_SIZE;
      var localHist := localHistoryTable[localIdx] % 0x100;
      assert globalIdx == GlobalIndex() && localIdx == LocalSlot(pc);
      assert localHist == LocalPatternIndex(pc);
      CustomCounters(localBht, globalBht, choiceTable, localHist, globalIdx, outcome);
      CustomSizes();
      ghost var histories0 := localHistoryTable[..];
      localHistoryTable[localIdx] := ShiftIn(localHist, outcome, LOCAL_HIST_BITS);
      globalHistory := ShiftIn(globalHistory, outcome, GLOBAL_HIST_BITS);
      HistoriesUpdate(histories0, localIdx, localHistoryTable[localIdx], LOCAL_PHT_SIZE);
    }
  }

  /**
    Right after `init_predictor` every address is predicted not taken by
    Gshare, Tournament and Custom: every counter starts weakly not taken and
    every choice counter weakly prefers the global component.
  */
  lemma FirstPredictionNotTaken(p: Predictor, pc: uint32)
    requires p.Valid() && p.Initialised()
    requires p.bpType == GSHARE || p.IsHybrid()
    ensures p.MakePrediction(pc) == NOTTAKEN
  {
  }
}
