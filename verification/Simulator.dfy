/**
 * The simulated terminal: note inventory, terminal cash and customer accounts,
 * the dispenser and acceptor adapters over them, and the withdrawal, deposit
 * and admin modules that move money.
 */
module Simulator {
  import opened Prelude
  import opened CashAllocation

  const MAX_SAFE_INTEGER := 9_007_199_254_740_991
  const MAX_DENOMINATION_COUNT := 32

  // ----- the profile -----

  datatype Profile = Profile(
    currencyCode: string,
    cashDispenser: bool,
    cashAcceptor: bool,
    hostAuthorization: bool,
    dispenseDenominations: seq<int>,
    acceptDenominations: seq<int>,
    initialInventory: map<int, int>,
    maxDispenseAmount: int,
    maxDepositAmount: int,
    recycleDeposits: bool)

  predicate ValidDenominations(ds: seq<int>) {
    && 0 < |ds| <= MAX_DENOMINATION_COUNT
    && (forall i :: 0 <= i < |ds| ==> 0 < ds[i] <= MAX_SAFE_INTEGER)
    && forall i, j :: 0 <= i < j < |ds| ==> ds[i] != ds[j]
  }

  /** What `defineSimulatorProfile` accepts, the inventory total aside. */
  predicate ValidProfile(p: Profile) {
    && ValidDenominations(p.dispenseDenominations)
    && ValidDenominations(p.acceptDenominations)
    && 0 < p.maxDispenseAmount <= MAX_TRANSACTION_AMOUNT
    && 0 < p.maxDepositAmount <= MAX_TRANSACTION_AMOUNT
    && (forall d :: d in p.initialInventory ==>
          d in p.dispenseDenominations && 0 <= p.initialInventory[d] <= MAX_CASH_UNIT_COUNT)
    && (forall i :: 0 <= i < |p.dispenseDenominations| ==> p.dispenseDenominations[i] in p.initialInventory)
    && (p.recycleDeposits ==>
          forall i :: 0 <= i < |p.acceptDenominations| ==> p.acceptDenominations[i] in p.dispenseDenominations)
  }

  /** The rules of a profile, denomination by denomination. */
  lemma ProfileMeans(p: Profile)
    ensures ValidProfile(p) <==>
      && 1 <= |p.dispenseDenominations| <= 32 && 1 <= |p.acceptDenominations| <= 32
      && (forall d :: d in p.dispenseDenominations || d in p.acceptDenominations ==> 1 <= d <= MAX_SAFE_INTEGER)
      && Unrepeated(p.dispenseDenominations) && Unrepeated(p.acceptDenominations)
      && 1 <= p.maxDispenseAmount <= 100_000 && 1 <= p.maxDepositAmount <= 100_000
      && (forall d :: d in p.initialInventory <==> d in p.dispenseDenominations)
      && (forall d :: d in p.initialInventory ==> 0 <= p.initialInventory[d] <= 10_000)
      && (p.recycleDeposits ==> forall d :: d in p.acceptDenominations ==> d in p.dispenseDenominations)
  {
    DenominationsExact(p.dispenseDenominations);
    DenominationsExact(p.acceptDenominations);
    assert forall i :: 0 <= i < |p.acceptDenominations| ==> p.acceptDenominations[i] in p.acceptDenominations;
    assert forall i :: 0 <= i < |p.dispenseDenominations| ==> p.dispenseDenominations[i] in p.dispenseDenominations;
  }

  lemma DenominationsExact(ds: seq<int>)
    ensures ValidDenominations(ds) <==> DenominationsMean(ds)
  {
    assert forall i :: 0 <= i < |ds| ==> ds[i] in ds;
  }

  predicate Unrepeated(ds: seq<int>) {
    forall i, j :: 0 <= i < |ds| && 0 <= j < |ds| && i != j ==> ds[i] != ds[j]
  }

  predicate DenominationsMean(ds: seq<int>) {
    1 <= |ds| <= 32 && (forall d :: d in ds ==> 1 <= d <= MAX_SAFE_INTEGER) && Unrepeated(ds)
  }

  const DEFAULT_PROFILE := Profile("AUD", true, true, true, [10, 20, 50, 100], [10, 20, 50, 100],
    map[10 := 10, 20 := 20, 50 := 10, 100 := 40], 1000, 5000, true)

  lemma DefaultProfileValid()
    ensures ValidProfile(DEFAULT_PROFILE)
  {
    var ds := [10, 20, 50, 100];
    assert ds[0] == 10 && ds[1] == 20 && ds[2] == 50 && ds[3] == 100;
    assert ValidDenominations(ds);
  }

  lemma DefaultInventoryWorth()
    ensures Worth(DEFAULT_PROFILE.initialInventory) == 5000
  {
    var none: Counts := map[];
    WorthUpdate(none, 10, 10);
    WorthUpdate(none[10 := 10], 20, 20);
    WorthUpdate(none[10 := 10][20 := 20], 50, 10);
    WorthUpdate(none[10 := 10][20 := 20][50 := 10], 100, 40);
    assert DEFAULT_PROFILE.initialInventory == none[10 := 10][20 := 20][50 := 10][100 := 40];
  }

  // ----- the ledger as a value -----

  datatype Ledger = Ledger(
    profile: Profile,
    legacyScalarCash: bool,
    inventory: Counts,
    terminalCash: int,
    accounts: map<string, int>,
    hostApproved: bool,
    dispenserOnline: bool,
    acceptorOnline: bool)

  /** The part of the ledger invariant that every operation needs. */
  predicate Stocked(l: Ledger) {
    && ValidProfile(l.profile)
    && (!l.legacyScalarCash ==>
      && (forall i :: 0 <= i < |l.profile.dispenseDenominations| ==> l.profile.dispenseDenominations[i] in l.inventory)
      && forall d :: d in l.inventory ==> l.inventory[d] <= MAX_CASH_UNIT_COUNT)
  }

  function Balance(l: Ledger, account: string): int {
    if account in l.accounts then l.accounts[account] else 0
  }

  predicate SafeInteger(n: int) {
    -MAX_SAFE_INTEGER <= n <= MAX_SAFE_INTEGER
  }

  /** Removing notes that are there, and putting notes in. */
  function TakeNotes(inventory: Counts, notes: Counts): Counts
    requires forall d :: d in notes ==> d in inventory && notes[d] <= inventory[d]
  {
    map d | d in inventory :: inventory[d] - CountOf(notes, d)
  }

  function PutNotes(inventory: Counts, notes: Counts): Counts {
    inventory + map d | d in notes :: CountOf(inventory, d) + notes[d]
  }

  /** Moving one denomination of the notes across. */
  lemma TakeOne(inventory: Counts, notes: Counts, d: Denomination)
    requires forall e :: e in notes ==> e in inventory && notes[e] <= inventory[e]
    requires d in notes
    ensures var less := inventory[d := inventory[d] - notes[d]];
      && (forall e :: e in notes - {d} ==> e in less && notes[e] <= less[e])
      && TakeNotes(less, notes - {d}) == TakeNotes(inventory, notes)
  {}

  lemma PutOne(inventory: Counts, notes: Counts, d: Denomination)
    requires d in notes
    ensures PutNotes(inventory[d := CountOf(inventory, d) + notes[d]], notes - {d}) == PutNotes(inventory, notes)
  {}

  lemma PutNone(inventory: Counts)
    ensures PutNotes(inventory, map[]) == inventory
  {}

  lemma WorthRaise(c: Counts, d: Denomination, n: nat)
    ensures Worth(c[d := CountOf(c, d) + n]) == Worth(c) + d * n
  {
    WorthUpdate(c, d, CountOf(c, d) + n);
    Distribute(d, CountOf(c, d), n);
  }

  lemma WorthLower(c: Counts, d: Denomination, n: nat)
    requires d in c && n <= c[d]
    ensures Worth(c[d := c[d] - n]) == Worth(c) - d * n
  {
    WorthUpdate(c, d, c[d] - n);
    Distribute(d, c[d] - n, n);
  }

  lemma TakeWorthOne(inventory: Counts, notes: Counts, d: Denomination)
    requires d in notes && d in inventory && notes[d] <= inventory[d]
    ensures Worth(inventory[d := inventory[d] - notes[d]]) - Worth(notes - {d}) == Worth(inventory) - Worth(notes)
  {
    WorthLower(inventory, d, notes[d]);
    WorthPick(notes, d);
  }

  lemma PutWorthOne(inventory: Counts, notes: Counts, d: Denomination)
    requires d in notes
    ensures Worth(inventory[d := CountOf(inventory, d) + notes[d]]) + Worth(notes - {d}) == Worth(inventory) + Worth(notes)
  {
    WorthRaise(inventory, d, notes[d]);
    WorthPick(notes, d);
  }

  lemma {:induction false} TakeWorth(inventory: Counts, notes: Counts)
    requires forall d :: d in notes ==> d in inventory && notes[d] <= inventory[d]
    ensures Worth(TakeNotes(inventory, notes)) == Worth(inventory) - Worth(notes)
    decreases |notes|
  {
    if notes == map[] {
      assert TakeNotes(inventory, notes) == inventory;
    } else {
      var d: Denomination :| d in notes;
      TakeOne(inventory, notes, d);
      TakeWorth(inventory[d := inventory[d] - notes[d]], notes - {d});
      TakeWorthOne(inventory, notes, d);
    }
  }

  lemma {:induction false} PutWorth(inventory: Counts, notes: Counts)
    ensures Worth(PutNotes(inventory, notes)) == Worth(inventory) + Worth(notes)
    decreases |notes|
  {
    if notes == map[] {
      PutNone(inventory);
    } else {
      var d: Denomination :| d in notes;
      PutOne(inventory, notes, d);
      PutWorth(inventory[d := CountOf(inventory, d) + notes[d]], notes - {d});
      PutWorthOne(inventory, notes, d);
    }
  }

  function PlanDispense(l: Ledger, amount: int): (plan: Option<Counts>)
    requires Stocked(l)
    ensures plan.Some? && !l.legacyScalarCash ==>
      forall d :: d in plan.value ==> d in l.inventory && plan.value[d] <= l.inventory[d]
  {
    if !SafeInteger(amount) || amount <= 0 then None
    else if l.legacyScalarCash then (if amount <= l.terminalCash then Some(map[]) else None)
    else
      AllocationExact(amount, l.profile.dispenseDenominations, Some(l.inventory));
      AllocationOf(amount, l.profile.dispenseDenominations, Some(l.inventory))
  }

  predicate CanAccept(l: Ledger, amount: int)
    requires Stocked(l)
  {
    SafeInteger(amount) && amount > 0 && AllocationOf(amount, l.profile.acceptDenominations, None).Some?
  }

  predicate CanAddTerminalCash(l: Ledger, amount: int)
    requires Stocked(l)
  {
    && SafeInteger(amount) && amount >= 0
    && SafeInteger(l.terminalCash + amount)
    && (l.legacyScalarCash || !l.profile.recycleDeposits || amount == 0 ||
        var notes := AllocationOf(amount, l.profile.acceptDenominations, None);
        notes.Some? && forall d :: d in notes.value ==> CountOf(l.inventory, d) + notes.value[d] <= MAX_CASH_UNIT_COUNT)
  }

  function RemoveTerminalCash(l: Ledger, amount: int): Result<Ledger, string>
    requires Stocked(l)
  {
    var plan := PlanDispense(l, amount);
    if plan.None? then Err("cannot dispense")
    else Ok(l.(
      terminalCash := l.terminalCash - amount,
      inventory := if l.legacyScalarCash then l.inventory else TakeNotes(l.inventory, plan.value)))
  }

  function AddTerminalCash(l: Ledger, amount: int): Result<Ledger, string>
    requires Stocked(l)
  {
    if !CanAddTerminalCash(l, amount) then Err("exceeds safe cash capacity")
    else
      var notes := if !l.legacyScalarCash && l.profile.recycleDeposits
        then AllocationOf(amount, l.profile.acceptDenominations, None) else None;
      Ok(l.(
        terminalCash := l.terminalCash + amount,
        inventory := if notes.Some? then PutNotes(l.inventory, notes.value) else l.inventory))
  }

  // ----- the adapters -----

  datatype ResultCode =
    | HostUnavailable | HostDeclined | InsufficientFunds | HostApproved
    | DispenserUnavailable | DispenserOffline | DispenseLimitExceeded | InsufficientTerminalCash | Dispensed
    | AcceptorUnavailable | AcceptorOffline | DepositLimitExceeded | CashCapacityExceeded | Accepted
    | InvalidAmount | UnsupportedCurrency | DenominationUnavailable

  /** The result code of `dispense`; Dispensed is the only success. */
  function DispenseCode(l: Ledger, amount: int, currencyCode: string): ResultCode
    requires Stocked(l)
  {
    if !l.profile.cashDispenser then DispenserUnavailable
    else if !l.dispenserOnline then DispenserOffline
    else if !SafeInteger(amount) || amount <= 0 then InvalidAmount
    else if !l.legacyScalarCash && currencyCode != l.profile.currencyCode then UnsupportedCurrency
    else if !l.legacyScalarCash && amount > l.profile.maxDispenseAmount then DispenseLimitExceeded
    else if amount > l.terminalCash then InsufficientTerminalCash
    else if PlanDispense(l, amount).None? then DenominationUnavailable
    else Dispensed
  }

  /** The result code of `accept`; Accepted is the only success. */
  function AcceptCode(l: Ledger, amount: int, currencyCode: string): ResultCode
    requires Stocked(l)
  {
    if !l.profile.cashAcceptor then AcceptorUnavailable
    else if !l.acceptorOnline then AcceptorOffline
    else if !SafeInteger(amount) || amount < 0 || (!l.legacyScalarCash && amount == 0) then InvalidAmount
    else if !l.legacyScalarCash && currencyCode != l.profile.currencyCode then UnsupportedCurrency
    else if !l.legacyScalarCash && amount > l.profile.maxDepositAmount then DepositLimitExceeded
    else if !l.legacyScalarCash && !CanAccept(l, amount) then DenominationUnavailable
    else if !CanAddTerminalCash(l, amount) then CashCapacityExceeded
    else Accepted
  }

  /** The ledger after a dispense call; an adapter that throws leaves no value, hence the Result. */
  function Dispense(l: Ledger, amount: int, currencyCode: string): Result<Ledger, string>
    requires Stocked(l)
  {
    if DispenseCode(l, amount, currencyCode) == Dispensed then RemoveTerminalCash(l, amount) else Ok(l)
  }

  function Accept(l: Ledger, amount: int, currencyCode: string): Result<Ledger, string>
    requires Stocked(l)
  {
    if AcceptCode(l, amount, currencyCode) == Accepted then AddTerminalCash(l, amount) else Ok(l)
  }

  // ----- the modules -----

  datatype WithdrawalKind = CashWithdrawal | CardlessCashWithdrawal | FastCash

  /** The simulated host checks funds only for names that contain "Withdrawal". */
  function AuthorizationCode(l: Ledger, kind: WithdrawalKind, account: string, amount: int): ResultCode {
    if !l.profile.hostAuthorization then HostUnavailable
    else if !l.hostApproved then HostDeclined
    else if amount != 0 && !kind.FastCash? && amount > Balance(l, account) then InsufficientFunds
    else HostApproved
  }

  function Debit(l: Ledger, account: string, amount: int): Ledger {
    l.(accounts := l.accounts[account := Balance(l, account) - amount])
  }

  function Credit(l: Ledger, account: string, amount: int): Ledger {
    l.(accounts := l.accounts[account := Balance(l, account) + amount])
  }

  datatype Operation =
    | Withdraw(kind: WithdrawalKind, account: string, amount: int, currencyCode: string)
    | Deposit(account: string, amount: int, currencyCode: string)
    | AdminAdd(added: nat)
    | AdminRemove(removed: nat)
    | SwitchDevices(host: bool, dispenser: bool, acceptor: bool)

  /** One module execution. A throw escapes the module before it changes anything more. */
  function Step(l: Ledger, op: Operation): Ledger
    requires Stocked(l)
  {
    match op
    case Withdraw(kind, account, amount, currencyCode) =>
      if AuthorizationCode(l, kind, account, amount) != HostApproved then l
      else if DispenseCode(l, amount, currencyCode) != Dispensed then l
      else (match Dispense(l, amount, currencyCode)
            case Ok(l') => Debit(l', account, amount)
            case Err(_) => l)
    case Deposit(account, amount, currencyCode) =>
      if AcceptCode(l, amount, currencyCode) != Accepted then l
      else (match Accept(l, amount, currencyCode)
            case Ok(l') => Credit(l', account, amount)
            case Err(_) => l)
    case AdminAdd(amount) =>
      if amount > 0 && AddTerminalCash(l, amount).Ok? then AddTerminalCash(l, amount).value else l
    case AdminRemove(amount) =>
      if amount > 0 && RemoveTerminalCash(l, amount).Ok? then RemoveTerminalCash(l, amount).value else l
    case SwitchDevices(host, dispenser, acceptor) =>
      l.(hostApproved := host, dispenserOnline := dispenser, acceptorOnline := acceptor)
  }

  /** Cash an operation puts in that no cash unit holds, because deposits are not recycled. */
  function Unrecycled(l: Ledger, op: Operation): nat
    requires Stocked(l)
  {
    if l.profile.recycleDeposits then 0
    else if op.Deposit? && AcceptCode(l, op.amount, op.currencyCode) == Accepted then op.amount
    else if op.AdminAdd? && CanAddTerminalCash(l, op.added) then op.added
    else 0
  }

  /** The amount an administrator puts in or takes out, by what capacity and stock allow. */
  function Adjusted(l: Ledger, op: Operation): int
    requires Stocked(l)
  {
    if op.AdminAdd? && CanAddTerminalCash(l, op.added) then op.added
    else if op.AdminRemove? && PlanDispense(l, op.removed).Some? then -(op.removed as int)
    else 0
  }

  // ----- what one step keeps -----

  /** The ledger identity, with `extra` the cash held outside the cash units. */
  ghost predicate Balanced(l: Ledger, extra: nat) {
    && Stocked(l)
    && 0 <= l.terminalCash <= MAX_SAFE_INTEGER
    && (!l.legacyScalarCash ==> l.terminalCash == Worth(l.inventory) + extra)
  }

  lemma RemoveKeeps(l: Ledger, amount: int, extra: nat)
    requires Balanced(l, extra) && PlanDispense(l, amount).Some?
    ensures RemoveTerminalCash(l, amount).Ok?
    ensures var l' := RemoveTerminalCash(l, amount).value;
      Balanced(l', extra) && l'.terminalCash == l.terminalCash - amount && l'.accounts == l.accounts
  {
    if !l.legacyScalarCash {
      AllocationExact(amount, l.profile.dispenseDenominations, Some(l.inventory));
      TakeWorth(l.inventory, PlanDispense(l, amount).value);
    }
  }

  lemma AddKeeps(l: Ledger, amount: nat, extra: nat)
    requires Balanced(l, extra) && CanAddTerminalCash(l, amount)
    ensures AddTerminalCash(l, amount).Ok?
    ensures var l' := AddTerminalCash(l, amount).value;
      && Balanced(l', if l.profile.recycleDeposits then extra else extra + amount)
      && l'.terminalCash == l.terminalCash + amount && l'.accounts == l.accounts
  {
    AllocationExact(amount, l.profile.acceptDenominations, None);
    if !l.legacyScalarCash && l.profile.recycleDeposits && amount > 0 {
      PutWorth(l.inventory, AllocationOf(amount, l.profile.acceptDenominations, None).value);
    }
  }

  /** The dispenser never reaches its throwing branch; success moves exactly the amount, failure moves nothing. */
  lemma DispenseExact(l: Ledger, amount: int, currencyCode: string, extra: nat)
    requires Balanced(l, extra)
    ensures Dispense(l, amount, currencyCode).Ok?
    ensures var l' := Dispense(l, amount, currencyCode).value;
      && Balanced(l', extra)
      && l'.accounts == l.accounts
      && (DispenseCode(l, amount, currencyCode) == Dispensed ==> l'.terminalCash == l.terminalCash - amount)
      && (DispenseCode(l, amount, currencyCode) != Dispensed ==> l' == l)
  {
    if DispenseCode(l, amount, currencyCode) == Dispensed {
      RemoveKeeps(l, amount, extra);
    }
  }

  /** In finite mode a dispense succeeds exactly when the device allows it and the stock can pay. */
  lemma DispenseComplete(l: Ledger, amount: int, currencyCode: string, extra: nat)
    requires Balanced(l, extra) && !l.legacyScalarCash
    ensures DispenseCode(l, amount, currencyCode) == Dispensed <==>
      && l.profile.cashDispenser && l.dispenserOnline
      && currencyCode == l.profile.currencyCode && 0 < amount <= l.profile.maxDispenseAmount
      && Payable(amount, l.profile.dispenseDenominations, Some(l.inventory))
  {
    AllocationExact(amount, l.profile.dispenseDenominations, Some(l.inventory));
    if 0 < amount <= l.profile.maxDispenseAmount && PlanDispense(l, amount).Some? {
      TakeWorth(l.inventory, PlanDispense(l, amount).value);
    }
  }

  // ----- when money moves -----

  /** Device, currency and limit allow paying the amount out, and the stock can. */
  ghost predicate PaysOut(l: Ledger, amount: int, currencyCode: string)
    requires Stocked(l)
  {
    && l.profile.cashDispenser && l.dispenserOnline && 0 < amount <= MAX_SAFE_INTEGER
    && if l.legacyScalarCash then amount <= l.terminalCash
       else
         && currencyCode == l.profile.currencyCode && amount <= l.profile.maxDispenseAmount
         && Payable(amount, l.profile.dispenseDenominations, Some(l.inventory))
  }

  /** Every unit has room for its share of the notes the amount comes in. */
  predicate HasRoom(l: Ledger, amount: int)
    requires Stocked(l)
  {
    var notes := AllocationOf(amount, l.profile.acceptDenominations, None);
    notes.Some? && forall d :: d in notes.value ==> CountOf(l.inventory, d) + notes.value[d] <= MAX_CASH_UNIT_COUNT
  }

  /** Device, currency and limit allow taking the amount in, its notes exist, and it fits. */
  ghost predicate TakesIn(l: Ledger, amount: int, currencyCode: string)
    requires Stocked(l)
  {
    && l.profile.cashAcceptor && l.acceptorOnline && 0 <= amount && l.terminalCash + amount <= MAX_SAFE_INTEGER
    && (!l.legacyScalarCash ==>
          && 0 < amount && currencyCode == l.profile.currencyCode && amount <= l.profile.maxDepositAmount
          && Payable(amount, l.profile.acceptDenominations, None)
          && (l.profile.recycleDeposits ==> HasRoom(l, amount)))
  }

  /** What an amount needs to be put in: it stays safe, and where deposits are recycled its notes exist and fit. */
  ghost predicate Fits(l: Ledger, amount: int)
    requires Stocked(l)
  {
    && 0 <= amount && l.terminalCash + amount <= MAX_SAFE_INTEGER
    && (!l.legacyScalarCash && l.profile.recycleDeposits && amount > 0 ==>
          amount <= MAX_TRANSACTION_AMOUNT && Payable(amount, l.profile.acceptDenominations, None) && HasRoom(l, amount))
  }

  /** What an amount needs to be taken out: enough cash, or notes of the stock that make it up. */
  ghost predicate InStock(l: Ledger, amount: int)
    requires Stocked(l)
  {
    0 < amount && if l.legacyScalarCash then amount <= l.terminalCash
                  else amount <= MAX_TRANSACTION_AMOUNT && Payable(amount, l.profile.dispenseDenominations, Some(l.inventory))
  }

  lemma PlanExact(l: Ledger, amount: int, extra: nat)
    requires Balanced(l, extra)
    ensures PlanDispense(l, amount).Some? <==> InStock(l, amount)
  {
    if !l.legacyScalarCash { AllocationExact(amount, l.profile.dispenseDenominations, Some(l.inventory)); }
  }

  lemma PaysOutExact(l: Ledger, amount: int, currencyCode: string, extra: nat)
    requires Balanced(l, extra)
    ensures DispenseCode(l, amount, currencyCode).Dispensed? <==> PaysOut(l, amount, currencyCode)
  {
    if !l.legacyScalarCash { DispenseComplete(l, amount, currencyCode, extra); }
  }

  /** A deposit is accepted exactly when the acceptor takes it in. */
  lemma AcceptComplete(l: Ledger, amount: int, currencyCode: string, extra: nat)
    requires Balanced(l, extra)
    ensures AcceptCode(l, amount, currencyCode).Accepted? <==> TakesIn(l, amount, currencyCode)
  {
    if !l.legacyScalarCash { AllocationExact(amount, l.profile.acceptDenominations, None); }
  }

  lemma CanAddExact(l: Ledger, amount: int, extra: nat)
    requires Balanced(l, extra)
    ensures CanAddTerminalCash(l, amount) <==> Fits(l, amount)
  {
    AllocationExact(amount, l.profile.acceptDenominations, None);
  }

  lemma AcceptExact(l: Ledger, amount: int, currencyCode: string, extra: nat)
    requires Balanced(l, extra)
    ensures Accept(l, amount, currencyCode).Ok?
    ensures var l' := Accept(l, amount, currencyCode).value;
      && l'.accounts == l.accounts
      && (AcceptCode(l, amount, currencyCode) == Accepted ==>
           && amount >= 0 && l'.terminalCash == l.terminalCash + amount
           && Balanced(l', if l.profile.recycleDeposits then extra else extra + amount))
      && (AcceptCode(l, amount, currencyCode) != Accepted ==> l' == l)
  {
    if AcceptCode(l, amount, currencyCode) == Accepted {
      AddKeeps(l, amount, extra);
    }
  }

  /** The host is there, approves, and finds the funds it looks for: only withdrawals by that name are looked at. */
  predicate Authorized(l: Ledger, kind: WithdrawalKind, account: string, amount: int) {
    l.profile.hostAuthorization && l.hostApproved && (kind.FastCash? || amount == 0 || amount <= Balance(l, account))
  }

  /** Cash and notes of exactly the amount leave; no unit gains a note. */
  ghost predicate PaidOut(l: Ledger, l': Ledger, amount: int) {
    && l'.terminalCash == l.terminalCash - amount
    && if l.legacyScalarCash then l'.inventory == l.inventory
       else
         && Worth(l'.inventory) == Worth(l.inventory) - amount && l'.inventory.Keys == l.inventory.Keys
         && forall d :: d in l'.inventory ==> l'.inventory[d] <= l.inventory[d]
  }

  lemma RemovePays(l: Ledger, amount: int, extra: nat)
    requires Balanced(l, extra) && PlanDispense(l, amount).Some?
    ensures RemoveTerminalCash(l, amount).Ok?
    ensures var l' := RemoveTerminalCash(l, amount).value;
      PaidOut(l, l', amount) && l' == l.(terminalCash := l'.terminalCash, inventory := l'.inventory)
  {
    RemoveKeeps(l, amount, extra);
  }

  /** A withdrawal pays out exactly its amount and takes it off the account iff it is authorized and can be paid; otherwise nothing changes. */
  lemma WithdrawDecides(l: Ledger, kind: WithdrawalKind, account: string, amount: int, currencyCode: string, extra: nat)
    requires Balanced(l, extra)
    ensures var l' := Step(l, Withdraw(kind, account, amount, currencyCode));
      if Authorized(l, kind, account, amount) && PaysOut(l, amount, currencyCode) then
        && PaidOut(l, l', amount)
        && l' == l.(terminalCash := l'.terminalCash, inventory := l'.inventory,
                    accounts := l.accounts[account := Balance(l, account) - amount])
      else l' == l
  {
    PaysOutExact(l, amount, currencyCode, extra);
    if PlanDispense(l, amount).Some? { RemovePays(l, amount, extra); }
  }

  /** A deposit moves exactly its amount, onto the account and into the terminal, iff the acceptor takes it in; otherwise nothing. */
  lemma DepositDecides(l: Ledger, account: string, amount: int, currencyCode: string, extra: nat)
    requires Balanced(l, extra)
    ensures var l' := Step(l, Deposit(account, amount, currencyCode));
      if TakesIn(l, amount, currencyCode) then
        && TakenIn(l, l', amount)
        && l' == l.(terminalCash := l'.terminalCash, inventory := l'.inventory,
                    accounts := l.accounts[account := Balance(l, account) + amount])
      else l' == l
  {
    AcceptComplete(l, amount, currencyCode, extra);
    AcceptExact(l, amount, currencyCode, extra);
  }

  /** Cash goes in, and its notes where deposits are recycled. */
  ghost predicate TakenIn(l: Ledger, l': Ledger, amount: int) {
    && l'.terminalCash == l.terminalCash + amount
    && if l.legacyScalarCash || !l.profile.recycleDeposits then l'.inventory == l.inventory
       else Worth(l'.inventory) == Worth(l.inventory) + amount
  }

  /** An administrator moves exactly the amount named, in or out, iff it fits or is in stock; accounts and everything else stay. */
  lemma AdminDecides(l: Ledger, amount: nat, extra: nat)
    requires Balanced(l, extra)
    ensures var l' := Step(l, AdminAdd(amount));
      if Fits(l, amount) then TakenIn(l, l', amount) && l' == l.(terminalCash := l'.terminalCash, inventory := l'.inventory) else l' == l
    ensures var l' := Step(l, AdminRemove(amount));
      if InStock(l, amount) then PaidOut(l, l', amount) && l' == l.(terminalCash := l'.terminalCash, inventory := l'.inventory) else l' == l
  {
    CanAddExact(l, amount, extra);
    PlanExact(l, amount, extra);
    if Fits(l, amount) { AddKeeps(l, amount, extra); }
    if InStock(l, amount) { RemovePays(l, amount, extra); }
  }

  /** What each result of a withdrawal says. */
  ghost predicate WithdrawalSays(l: Ledger, kind: WithdrawalKind, account: string, amount: int, currencyCode: string, code: ResultCode)
    requires Stocked(l)
  {
    match code
    case HostUnavailable => !l.profile.hostAuthorization
    case HostDeclined => l.profile.hostAuthorization && !l.hostApproved
    case InsufficientFunds => l.profile.hostAuthorization && l.hostApproved && !Authorized(l, kind, account, amount)
    case Dispensed => Authorized(l, kind, account, amount) && PaysOut(l, amount, currencyCode)
    case _ => Authorized(l, kind, account, amount) && DispenseSays(l, amount, currencyCode, code)
  }

  /** What each refusal of the dispenser says, in the order in which they are looked for. */
  ghost predicate DispenseSays(l: Ledger, amount: int, currencyCode: string, code: ResultCode)
    requires Stocked(l)
  {
    var ready := l.profile.cashDispenser && l.dispenserOnline;
    var valid := ready && 0 < amount <= MAX_SAFE_INTEGER;
    var known := valid && (l.legacyScalarCash || currencyCode == l.profile.currencyCode);
    var allowed := known && (l.legacyScalarCash || amount <= l.profile.maxDispenseAmount);
    match code
    case DispenserUnavailable => !l.profile.cashDispenser
    case DispenserOffline => l.profile.cashDispenser && !l.dispenserOnline
    case InvalidAmount => ready && !valid
    case UnsupportedCurrency => valid && !known
    case DispenseLimitExceeded => known && !allowed
    case InsufficientTerminalCash => allowed && amount > l.terminalCash
    case DenominationUnavailable =>
      allowed && amount <= l.terminalCash && !Payable(amount, l.profile.dispenseDenominations, Some(l.inventory)) && !l.legacyScalarCash
    case _ => false
  }

  function WithdrawalCode(l: Ledger, kind: WithdrawalKind, account: string, amount: int, currencyCode: string): ResultCode
    requires Stocked(l)
  {
    var code := AuthorizationCode(l, kind, account, amount);
    if code.HostApproved? then DispenseCode(l, amount, currencyCode) else code
  }

  lemma DispenseCodeSays(l: Ledger, amount: int, currencyCode: string, extra: nat)
    requires Balanced(l, extra)
    ensures var code := DispenseCode(l, amount, currencyCode);
      forall other: ResultCode :: !other.Dispensed? ==> (DispenseSays(l, amount, currencyCode, other) <==> other == code)
  {
    PaysOutExact(l, amount, currencyCode, extra);
  }

  /** The result of a withdrawal is exactly the one that says what is the case. */
  lemma WithdrawalCodeSays(l: Ledger, kind: WithdrawalKind, account: string, amount: int, currencyCode: string, extra: nat)
    requires Balanced(l, extra)
    ensures forall code :: WithdrawalSays(l, kind, account, amount, currencyCode, code) <==>
      code == WithdrawalCode(l, kind, account, amount, currencyCode)
  {
    PaysOutExact(l, amount, currencyCode, extra);
    DispenseCodeSays(l, amount, currencyCode, extra);
  }

  /** What each result of a deposit says, in the order in which they are looked for. */
  ghost predicate DepositSays(l: Ledger, amount: int, currencyCode: string, code: ResultCode)
    requires Stocked(l)
  {
    var ready := l.profile.cashAcceptor && l.acceptorOnline;
    var valid := ready && (if l.legacyScalarCash then 0 else 1) <= amount <= MAX_SAFE_INTEGER;
    var known := valid && (l.legacyScalarCash || currencyCode == l.profile.currencyCode);
    var allowed := known && (l.legacyScalarCash || amount <= l.profile.maxDepositAmount);
    var payable := allowed && (l.legacyScalarCash || Payable(amount, l.profile.acceptDenominations, None));
    match code
    case AcceptorUnavailable => !l.profile.cashAcceptor
    case AcceptorOffline => l.profile.cashAcceptor && !l.acceptorOnline
    case InvalidAmount => ready && !valid
    case UnsupportedCurrency => valid && !known
    case DepositLimitExceeded => known && !allowed
    case DenominationUnavailable => allowed && !payable
    case CashCapacityExceeded => payable && !TakesIn(l, amount, currencyCode)
    case Accepted => TakesIn(l, amount, currencyCode)
    case _ => false
  }

  lemma DepositCodeSays(l: Ledger, amount: int, currencyCode: string, extra: nat)
    requires Balanced(l, extra)
    ensures forall code :: DepositSays(l, amount, currencyCode, code) <==> code == AcceptCode(l, amount, currencyCode)
  {
    AcceptComplete(l, amount, currencyCode, extra);
    AllocationExact(amount, l.profile.acceptDenominations, None);
  }

  // ----- whole runs -----

  ghost function Total(accounts: map<string, int>): int {
    if accounts == map[] then 0 else
      var a: string :| a in accounts;
      accounts[a] + Total(accounts - {a})
  }

  lemma {:induction false} TotalPick(accounts: map<string, int>, a: string)
    requires a in accounts
    ensures Total(accounts) == accounts[a] + Total(accounts - {a})
    decreases |accounts|
  {
    var e: string :| e in accounts && Total(accounts) == accounts[e] + Total(accounts - {e});
    if e != a {
      TotalPick(accounts - {e}, a);
      TotalPick(accounts - {a}, e);
      assert accounts - {e} - {a} == accounts - {a} - {e};
    }
  }

  lemma TotalUpdate(accounts: map<string, int>, a: string, n: int)
    ensures Total(accounts[a := n]) == Total(accounts) - (if a in accounts then accounts[a] else 0) + n
  {
    TotalPick(accounts[a := n], a);
    if a in accounts {
      TotalPick(accounts, a);
      assert accounts[a := n] - {a} == accounts - {a};
    } else {
      assert accounts[a := n] - {a} == accounts;
    }
  }

  /** What every step keeps. */
  ghost predicate Kept(l: Ledger, op: Operation, extra: nat)
    requires Stocked(l)
  {
    var l' := Step(l, op);
    && Balanced(l', extra + Unrecycled(l, op))
    && l'.profile == l.profile && l'.legacyScalarCash == l.legacyScalarCash
    && Total(l'.accounts) - l'.terminalCash == Total(l.accounts) - l.terminalCash - Adjusted(l, op)
  }

  lemma WithdrawKeeps(l: Ledger, kind: WithdrawalKind, account: string, amount: int, currencyCode: string, extra: nat)
    requires Balanced(l, extra)
    ensures Kept(l, Withdraw(kind, account, amount, currencyCode), extra)
  {
    DispenseExact(l, amount, currencyCode, extra);
    TotalUpdate(l.accounts, account, Balance(l, account) - amount);
  }

  lemma DepositKeeps(l: Ledger, account: string, amount: int, currencyCode: string, extra: nat)
    requires Balanced(l, extra)
    ensures Kept(l, Deposit(account, amount, currencyCode), extra)
  {
    AcceptExact(l, amount, currencyCode, extra);
    if AcceptCode(l, amount, currencyCode) == Accepted {
      TotalUpdate(l.accounts, account, Balance(l, account) + amount);
    }
  }

  lemma AdminAddKeeps(l: Ledger, amount: nat, extra: nat)
    requires Balanced(l, extra)
    ensures Kept(l, AdminAdd(amount), extra)
  {
    if CanAddTerminalCash(l, amount) { AddKeeps(l, amount, extra); }
  }

  lemma AdminRemoveKeeps(l: Ledger, amount: nat, extra: nat)
    requires Balanced(l, extra)
    ensures Kept(l, AdminRemove(amount), extra)
  {
    if PlanDispense(l, amount).Some? { RemoveKeeps(l, amount, extra); }
  }

  lemma StepKeeps(l: Ledger, op: Operation, extra: nat)
    requires Balanced(l, extra)
    ensures Kept(l, op, extra)
  {
    match op
    case Withdraw(kind, account, amount, currencyCode) => WithdrawKeeps(l, kind, account, amount, currencyCode, extra);
    case Deposit(account, amount, currencyCode) => DepositKeeps(l, account, amount, currencyCode, extra);
    case AdminAdd(amount) => AdminAddKeeps(l, amount, extra);
    case AdminRemove(amount) => AdminRemoveKeeps(l, amount, extra);
    case SwitchDevices(_, _, _) =>
  }

  datatype Trace = Trace(ledger: Ledger, unrecycled: nat, adjusted: int)

  /** A run, accumulating the unrecycled deposits and the admin adjustments on the way. */
  ghost function Run(t: Trace, ops: seq<Operation>): Trace
    requires Balanced(t.ledger, t.unrecycled)
    decreases |ops|
  {
    if ops == [] then t else
      StepKeeps(t.ledger, ops[0], t.unrecycled);
      var next := Trace(Step(t.ledger, ops[0]),
        t.unrecycled + Unrecycled(t.ledger, ops[0]), t.adjusted + Adjusted(t.ledger, ops[0]));
      Run(next, ops[1..])
  }

  /**
   * After any run: terminal cash is the worth of the notes plus the deposits
   * not recycled (none when recycling is on), it never goes negative, every
   * count stays within its unit, and accounts minus cash moves only by
   * administration.
   */
  lemma {:induction false} RunBalances(t: Trace, ops: seq<Operation>)
    requires Balanced(t.ledger, t.unrecycled)
    ensures var t' := Run(t, ops);
      && Balanced(t'.ledger, t'.unrecycled)
      && t'.ledger.profile == t.ledger.profile
      && (t.ledger.profile.recycleDeposits ==> t'.unrecycled == t.unrecycled)
      && Total(t'.ledger.accounts) - t'.ledger.terminalCash + t'.adjusted
         == Total(t.ledger.accounts) - t.ledger.terminalCash + t.adjusted
      && ((forall i :: 0 <= i < |ops| ==> !ops[i].AdminAdd? && !ops[i].AdminRemove?) ==> t'.adjusted == t.adjusted)
    decreases |ops|
  {
    if ops != [] {
      StepKeeps(t.ledger, ops[0], t.unrecycled);
      var next := Trace(Step(t.ledger, ops[0]),
        t.unrecycled + Unrecycled(t.ledger, ops[0]), t.adjusted + Adjusted(t.ledger, ops[0]));
      RunBalances(next, ops[1..]);
    }
  }

  /** Withdrawals and deposits alone leave accounts minus terminal cash unchanged. */
  lemma MoneyConserved(l: Ledger, ops: seq<Operation>, extra: nat)
    requires Balanced(l, extra)
    requires forall i :: 0 <= i < |ops| ==> !ops[i].AdminAdd? && !ops[i].AdminRemove?
    ensures var l' := Run(Trace(l, extra, 0), ops).ledger;
      Total(l'.accounts) - l'.terminalCash == Total(l.accounts) - l.terminalCash
  {
    RunBalances(Trace(l, extra, 0), ops);
  }

  /** A withdrawal overdraws the account exactly when it is FastCash beyond the balance. */
  lemma OverdraftOnlyFastCash(l: Ledger, kind: WithdrawalKind, account: string, amount: int, currencyCode: string, extra: nat)
    requires Balanced(l, extra)
    requires AuthorizationCode(l, kind, account, amount) == HostApproved
    requires DispenseCode(l, amount, currencyCode) == Dispensed
    ensures var l' := Step(l, Withdraw(kind, account, amount, currencyCode));
      Balance(l', account) < 0 <==> kind.FastCash? && amount > Balance(l, account)
  {
    DispenseExact(l, amount, currencyCode, extra);
  }

  /** The default terminal, and a customer with 40 in the account. */
  const LOW_BALANCE := Ledger(DEFAULT_PROFILE, false, DEFAULT_PROFILE.initialInventory, 5000, map["Checking" := 40],
    true, true, true)

  lemma LowBalanceStarts()
    ensures Balanced(LOW_BALANCE, 0)
  {
    DefaultProfileValid();
    DefaultInventoryWorth();
  }

  lemma HundredPayable()
    ensures Payable(100, DEFAULT_PROFILE.dispenseDenominations, Some(DEFAULT_PROFILE.initialInventory))
  {
    var none: Counts := map[];
    WorthUpdate(none, 100, 1);
    assert DEFAULT_PROFILE.dispenseDenominations[3] == 100;
    assert Within(none[100 := 1], DEFAULT_PROFILE.dispenseDenominations, Some(DEFAULT_PROFILE.initialInventory));
  }

  lemma HundredDispensed()
    ensures DispenseCode(LOW_BALANCE, 100, "AUD") == Dispensed
  {
    LowBalanceStarts();
    HundredPayable();
    DispenseComplete(LOW_BALANCE, 100, "AUD", 0);
  }

  /** FastCash of 100 pays out and leaves the account at -60. */
  lemma FastCashOverdraws()
    ensures Stocked(LOW_BALANCE)
    ensures var l' := Step(LOW_BALANCE, Withdraw(FastCash, "Checking", 100, "AUD"));
      Balance(l', "Checking") == -60 && l'.terminalCash == 4900
  {
    LowBalanceStarts();
    HundredDispensed();
    DispenseExact(LOW_BALANCE, 100, "AUD", 0);
  }

  // ----- the simulator object -----

  class RuntimeSimulator {
    const profile: Profile
    const usesLegacyScalarCash: bool
    var cashInventory: Counts
    var terminalCash: int
    var accounts: map<string, int>
    var hostApproved: bool
    var dispenserOnline: bool
    var acceptorOnline: bool

    function State(): Ledger
      reads this
    {
      Ledger(profile, usesLegacyScalarCash, cashInventory, terminalCash, accounts,
        hostApproved, dispenserOnline, acceptorOnline)
    }

    constructor (profile: Profile, scalarCash: Option<int>, accounts: map<string, int>)
      requires ValidProfile(profile)
      requires scalarCash.Some? ==> 0 <= scalarCash.value <= MAX_SAFE_INTEGER
      requires Worth(profile.initialInventory) <= MAX_SAFE_INTEGER
      ensures Balanced(State(), 0)
      ensures terminalCash == if scalarCash.Some? then scalarCash.value else Worth(profile.initialInventory)
      ensures this.accounts == accounts && this.profile == profile && usesLegacyScalarCash == scalarCash.Some?
    {
      this.profile := profile;
      this.usesLegacyScalarCash := scalarCash.Some?;
      this.cashInventory := if scalarCash.Some? then map[] else profile.initialInventory;
      this.accounts := accounts;
      this.hostApproved := true;
      this.dispenserOnline := true;
      this.acceptorOnline := true;
      new;
      if scalarCash.Some? {
        this.terminalCash := scalarCash.value;
      } else {
        this.terminalCash := InventoryTotal(cashInventory);
      }
    }

    /** The constructor with the source's rejections: a bad profile, an unsafe total, or both cash options at once. */
    static method Create(profile: Option<Profile>, scalarCash: Option<int>, accounts: map<string, int>)
      returns (r: Result<RuntimeSimulator, string>)
      ensures r.Ok? <==>
        && !(profile.Some? && scalarCash.Some?)
        && (profile.Some? ==> ValidProfile(profile.value) && Worth(profile.value.initialInventory) <= MAX_SAFE_INTEGER)
        && (scalarCash.Some? ==> 0 <= scalarCash.value <= MAX_SAFE_INTEGER)
      ensures r.Ok? ==> fresh(r.value) && Balanced(r.value.State(), 0)
    {
      if profile.Some? && scalarCash.Some? {
        return Err("cannot combine profile with terminalCash");
      }
      var chosen := if profile.Some? then profile.value else DEFAULT_PROFILE;
      if !ValidProfile(chosen) {
        DefaultProfileValid();
        return Err("invalid profile");
      }
      var inventory: Counts := map d | d in chosen.initialInventory :: chosen.initialInventory[d];
      assert inventory == chosen.initialInventory;
      var total := InventoryTotal(inventory);
      if total > MAX_SAFE_INTEGER {
        DefaultInventoryWorth();
        return Err("inventory total must be a safe integer");
      }
      if scalarCash.Some? && !(0 <= scalarCash.value <= MAX_SAFE_INTEGER) {
        return Err("terminalCash must be a non-negative safe integer");
      }
      var simulator := new RuntimeSimulator(chosen, scalarCash, accounts);
      return Ok(simulator);
    }

    static method InventoryTotal(inventory: Counts) returns (total: nat)
      ensures total == Worth(inventory)
    {
      total := 0;
      var rest: Counts := inventory;
      while rest != map[]
        invariant total + Worth(rest) == Worth(inventory)
        decreases |rest|
      {
        var d: Denomination :| d in rest;
        WorthPick(rest, d);
        total := total + d * rest[d];
        rest := rest - {d};
      }
    }

    method Plan(amount: int) returns (plan: Option<Counts>)
      requires Stocked(State())
      ensures plan == PlanDispense(State(), amount)
    {
      if !SafeInteger(amount) || amount <= 0 {
        return None;
      }
      if usesLegacyScalarCash {
        return if amount <= terminalCash then Some(map[]) else None;
      }
      plan := AllocateCash(amount, profile.dispenseDenominations, Some(cashInventory));
    }

    /** The loop over the allocation's entries that takes notes out. */
    method TakeOut(notes: Counts)
      requires forall d :: d in notes ==> d in cashInventory && notes[d] <= cashInventory[d]
      modifies this`cashInventory
      ensures cashInventory == TakeNotes(old(cashInventory), notes)
    {
      var rest: Counts := notes;
      while rest != map[]
        invariant forall d :: d in rest ==> d in cashInventory && rest[d] <= cashInventory[d]
        invariant TakeNotes(cashInventory, rest) == TakeNotes(old(cashInventory), notes)
        decreases |rest|
      {
        var d: Denomination :| d in rest;
        TakeOne(cashInventory, rest, d);
        cashInventory := cashInventory[d := cashInventory[d] - rest[d]];
        rest := rest - {d};
      }
      assert TakeNotes(cashInventory, rest) == cashInventory;
    }

    /** The loop over the allocation's entries that puts notes in. */
    method PutIn(notes: Counts)
      modifies this`cashInventory
      ensures cashInventory == PutNotes(old(cashInventory), notes)
    {
      var rest: Counts := notes;
      ghost var target := PutNotes(cashInventory, notes);
      while rest != map[]
        invariant PutNotes(cashInventory, rest) == target
        decreases |rest|
      {
        var d: Denomination :| d in rest;
        var more: Counts := cashInventory[d := CountOf(cashInventory, d) + rest[d]];
        assert PutNotes(more, rest - {d}) == target by { PutOne(cashInventory, rest, d); }
        cashInventory := more;
        rest := rest - {d};
      }
      PutNone(cashInventory);
    }

    method Remove(amount: int) returns (done: bool)
      requires Stocked(State())
      modifies this
      ensures done == RemoveTerminalCash(old(State()), amount).Ok?
      ensures State() == if done then RemoveTerminalCash(old(State()), amount).value else old(State())
    {
      var plan := Plan(amount);
      if plan.None? {
        return false;
      }
      if !usesLegacyScalarCash {
        TakeOut(plan.value);
      }
      terminalCash := terminalCash - amount;
      return true;
    }

    method CanAdd(amount: int) returns (can: bool)
      requires Stocked(State())
      ensures can == CanAddTerminalCash(State(), amount)
    {
      if !SafeInteger(amount) || amount < 0 || !SafeInteger(terminalCash + amount) {
        return false;
      }
      if usesLegacyScalarCash || !profile.recycleDeposits || amount == 0 {
        return true;
      }
      var notes := AllocateCash(amount, profile.acceptDenominations, None);
      return notes.Some? && forall d :: d in notes.value ==>
        CountOf(cashInventory, d) + notes.value[d] <= MAX_CASH_UNIT_COUNT;
    }

    method Add(amount: int) returns (done: bool)
      requires Stocked(State())
      modifies this
      ensures done == AddTerminalCash(old(State()), amount).Ok?
      ensures State() == if done then AddTerminalCash(old(State()), amount).value else old(State())
    {
      var can := CanAdd(amount);
      if !can {
        return false;
      }
      if !usesLegacyScalarCash && profile.recycleDeposits {
        var notes := AllocateCash(amount, profile.acceptDenominations, None);
        if notes.Some? {
          PutIn(notes.value);
        }
      }
      terminalCash := terminalCash + amount;
      return true;
    }

    /** The withdrawal module over the simulated host and dispenser. */
    method Withdrawal(kind: WithdrawalKind, account: string, amount: int, currencyCode: string, ghost extra: nat)
      returns (code: ResultCode)
      requires Balanced(State(), extra)
      modifies this
      ensures State() == Step(old(State()), Withdraw(kind, account, amount, currencyCode))
      ensures Balanced(State(), extra)
      ensures WithdrawalSays(old(State()), kind, account, amount, currencyCode, code)
    {
      StepKeeps(State(), Withdraw(kind, account, amount, currencyCode), extra);
      WithdrawalCodeSays(State(), kind, account, amount, currencyCode, extra);
      code := AuthorizationCode(State(), kind, account, amount);
      if code != HostApproved {
        return;
      }
      code := DispenseCode(State(), amount, currencyCode);
      if code != Dispensed {
        return;
      }
      var done := Remove(amount);
      accounts := accounts[account := Balance(State(), account) - amount];
    }

    /** The deposit module over the simulated acceptor. */
    method CashDeposit(account: string, amount: int, currencyCode: string, ghost extra: nat)
      returns (code: ResultCode)
      requires Balanced(State(), extra)
      modifies this
      ensures State() == Step(old(State()), Deposit(account, amount, currencyCode))
      ensures Balanced(State(), extra + Unrecycled(old(State()), Deposit(account, amount, currencyCode)))
      ensures DepositSays(old(State()), amount, currencyCode, code)
    {
      DepositCodeSays(State(), amount, currencyCode, extra);
      StepKeeps(State(), Deposit(account, amount, currencyCode), extra);
      code := AcceptCode(State(), amount, currencyCode);
      if code != Accepted {
        return;
      }
      var done := Add(amount);
      accounts := accounts[account := Balance(State(), account) + amount];
    }
  }
}
