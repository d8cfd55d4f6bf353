/** Admission of resource requests against host budgets, in 64-bit arithmetic. */
module Resources {
  import opened Common

  const U64_MAX := 0xffff_ffff_ffff_ffff
  const U32_MAX := 0xffff_ffff
  const U16_MAX := 0xffff
  const MAX_CONCURRENT_LANES := 32
  const MEMORY_BUDGET_PERCENT := 75
  const CPU_BUDGET_PERCENT := 200
  const DISK_BUDGET_PERCENT := 90
  const BYTES_PER_GIB := 1_073_741_824

  type u64 = n: nat | n <= U64_MAX
  type u32 = n: nat | n <= U32_MAX
  type u16 = n: nat | n <= U16_MAX

  datatype Profile = Profile(memoryMb: u32, cpus: u16)

  // Amounts of the four resources; sums of leases are exact here.
  datatype Amounts = Amounts(lanes: nat, memoryMb: nat, cpus: nat, diskBytes: nat) {
    predicate FitsU64() {
      lanes <= U64_MAX && memoryMb <= U64_MAX && cpus <= U64_MAX && diskBytes <= U64_MAX
    }

    function Plus(other: Amounts): Amounts {
      Amounts(lanes + other.lanes, memoryMb + other.memoryMb, cpus + other.cpus, diskBytes + other.diskBytes)
    }

    predicate AtMost(other: Amounts) {
      lanes <= other.lanes && memoryMb <= other.memoryMb && cpus <= other.cpus && diskBytes <= other.diskBytes
    }
  }

  const NOTHING := Amounts(0, 0, 0, 0)

  datatype Capacity = Capacity(memoryMb: Option<u64>, cpus: Option<u64>, diskBytes: Option<u64>) {
    predicate Known() {
      memoryMb.Some? && cpus.Some? && diskBytes.Some?
    }
  }

  datatype Request = Request(lanes: u64, profile: Profile, sizeGb: u64, capacity: Capacity, force: bool)

  datatype AdmissionError =
    | InvalidConcurrency | Overflow | UnknownCapacity | LaneLimit | MemoryBudget | CpuBudget | DiskBudget

  datatype Admission = Admission(requested: Amounts, reserved: Amounts, budgets: Capacity, forced: bool)

  function CheckedAdd(a: u64, b: u64): Option<u64> {
    if a + b <= U64_MAX then Some(a + b) else None
  }

  function CheckedMul(a: u64, b: u64): Option<u64> {
    if a * b <= U64_MAX then Some(a * b) else None
  }

  function SaturatingMul(a: u64, b: u64): u64 {
    if a * b <= U64_MAX then a * b else U64_MAX
  }

  function Budget(available: Option<u64>, percent: u64): Option<u64> {
    if available.Some? then Some(SaturatingMul(available.value, percent) / 100) else None
  }

  function Budgets(capacity: Capacity): Capacity {
    Capacity(Budget(capacity.memoryMb, MEMORY_BUDGET_PERCENT),
             Budget(capacity.cpus, CPU_BUDGET_PERCENT),
             Budget(capacity.diskBytes, DISK_BUDGET_PERCENT))
  }

  // Saturation only ever lowers a budget: it never exceeds the exact percentage, and is its
  // floor whenever the product fits.
  lemma BudgetNeverExceedsPercentage(available: u64, percent: u64)
    ensures 100 * Budget(Some(available), percent).value <= available * percent
    ensures available * percent <= U64_MAX ==>
      available * percent < 100 * (Budget(Some(available), percent).value + 1)
  {
  }

  function RequestedAmounts(r: Request): Option<Amounts> {
    var memory := CheckedMul(r.lanes, r.profile.memoryMb);
    var cpus := CheckedMul(r.lanes, r.profile.cpus);
    var gib := CheckedMul(r.lanes, r.sizeGb);
    if memory.None? || cpus.None? || gib.None? then None
    else
      var disk := CheckedMul(gib.value, BYTES_PER_GIB);
      if disk.None? then None else Some(Amounts(r.lanes, memory.value, cpus.value, disk.value))
  }

  function Combine(a: Amounts, b: Amounts): Option<Amounts>
    requires a.FitsU64() && b.FitsU64()
  {
    var lanes := CheckedAdd(a.lanes, b.lanes);
    var memory := CheckedAdd(a.memoryMb, b.memoryMb);
    var cpus := CheckedAdd(a.cpus, b.cpus);
    var disk := CheckedAdd(a.diskBytes, b.diskBytes);
    if lanes.None? || memory.None? || cpus.None? || disk.None? then None
    else Some(Amounts(lanes.value, memory.value, cpus.value, disk.value))
  }

  predicate WithinBudget(total: nat, budget: Option<u64>) {
    budget.Some? ==> total <= budget.value
  }

  function Admit(request: Request, reserved: Amounts): Result<Admission, AdmissionError>
    requires reserved.FitsU64()
  {
    var requested := RequestedAmounts(request);
    if !(1 <= request.lanes <= MAX_CONCURRENT_LANES) then Err(InvalidConcurrency)
    else if requested.None? then Err(Overflow)
    else
      var combined := Combine(reserved, requested.value);
      var budgets := Budgets(request.capacity);
      if combined.None? then Err(Overflow)
      else if combined.value.lanes > 1 && !request.force && !request.capacity.Known() then Err(UnknownCapacity)
      else if combined.value.lanes > MAX_CONCURRENT_LANES && !request.force then Err(LaneLimit)
      else if !WithinBudget(combined.value.memoryMb, budgets.memoryMb) && !request.force then Err(MemoryBudget)
      else if !WithinBudget(combined.value.cpus, budgets.cpus) && !request.force then Err(CpuBudget)
      else if !WithinBudget(combined.value.diskBytes, budgets.diskBytes) && !request.force then Err(DiskBudget)
      else Ok(Admission(requested.value, reserved, budgets, request.force))
  }

  // What follows states the limits in figures: 32 lanes, 75 percent of the memory, 200 percent of
  // the CPUs, 90 percent of the disk, and amounts below 2^64.

  // Totals a host of this capacity may have reserved without force.
  ghost predicate WithinBudgets(total: Amounts, capacity: Capacity) {
    && total.lanes <= 32
    && (capacity.memoryMb.Some? ==> 100 * total.memoryMb <= capacity.memoryMb.value * 75)
    && (capacity.cpus.Some? ==> 100 * total.cpus <= capacity.cpus.value * 200)
    && (capacity.diskBytes.Some? ==> 100 * total.diskBytes <= capacity.diskBytes.value * 90)
  }

  // The exact amounts of a request.
  function ExactAmounts(r: Request): Amounts {
    Amounts(r.lanes, r.lanes * r.profile.memoryMb, r.lanes * r.profile.cpus, r.lanes * r.sizeGb * 1_073_741_824)
  }

  ghost predicate InRange(total: Amounts) {
    && total.lanes < 0x1_0000_0000_0000_0000 && total.memoryMb < 0x1_0000_0000_0000_0000
    && total.cpus < 0x1_0000_0000_0000_0000 && total.diskBytes < 0x1_0000_0000_0000_0000
  }

  // A hundred times an amount fits 64 bits, as a saturated budget requires of it.
  ghost predicate FitsScaled(total: nat, available: Option<u64>) {
    available.Some? ==> 100 * total < 0x1_0000_0000_0000_0000
  }

  ghost predicate FitsHost(total: Amounts, c: Capacity) {
    && WithinBudgets(total, c)
    && FitsScaled(total.memoryMb, c.memoryMb) && FitsScaled(total.cpus, c.cpus) && FitsScaled(total.diskBytes, c.diskBytes)
  }

  // An admission fits all totals in 64 bits; without force it also keeps them within the lane
  // limit and the exact percentages of the capacity.
  lemma AdmittedTotals(request: Request, reserved: Amounts)
    requires reserved.FitsU64() && Admit(request, reserved).Ok?
    ensures
      var requested := Admit(request, reserved).value.requested;
      && 1 <= requested.lanes <= MAX_CONCURRENT_LANES
      && requested == Amounts(request.lanes, request.lanes * request.profile.memoryMb,
                              request.lanes * request.profile.cpus, request.lanes * request.sizeGb * BYTES_PER_GIB)
      && reserved.Plus(requested).FitsU64()
      && (!request.force ==> WithinBudgets(reserved.Plus(requested), request.capacity))
      && (!request.force && reserved.Plus(requested).lanes > 1 ==> request.capacity.Known())
  {
    var c := request.capacity;
    if c.memoryMb.Some? { BudgetNeverExceedsPercentage(c.memoryMb.value, MEMORY_BUDGET_PERCENT); }
    if c.cpus.Some? { BudgetNeverExceedsPercentage(c.cpus.value, CPU_BUDGET_PERCENT); }
    if c.diskBytes.Some? { BudgetNeverExceedsPercentage(c.diskBytes.value, DISK_BUDGET_PERCENT); }
  }

  // A total is within a budget if and only if it is within the exact percentage and, scaled, in
  // range: where the product saturates, the budget is 2^64 / 100 instead.
  lemma WithinBudgetIff(total: nat, available: Option<u64>, percent: u64)
    ensures WithinBudget(total, Budget(available, percent)) <==>
            (available.Some? ==> 100 * total <= available.value * percent) && FitsScaled(total, available)
  {
  }

  lemma BudgetsIff(total: Amounts, c: Capacity)
    ensures
      var budgets := Budgets(c);
      && (WithinBudget(total.memoryMb, budgets.memoryMb) <==>
            (c.memoryMb.Some? ==> 100 * total.memoryMb <= c.memoryMb.value * 75) && FitsScaled(total.memoryMb, c.memoryMb))
      && (WithinBudget(total.cpus, budgets.cpus) <==>
            (c.cpus.Some? ==> 100 * total.cpus <= c.cpus.value * 200) && FitsScaled(total.cpus, c.cpus))
      && (WithinBudget(total.diskBytes, budgets.diskBytes) <==>
            (c.diskBytes.Some? ==> 100 * total.diskBytes <= c.diskBytes.value * 90) && FitsScaled(total.diskBytes, c.diskBytes))
  {
    WithinBudgetIff(total.memoryMb, c.memoryMb, MEMORY_BUDGET_PERCENT);
    WithinBudgetIff(total.cpus, c.cpus, CPU_BUDGET_PERCENT);
    WithinBudgetIff(total.diskBytes, c.diskBytes, DISK_BUDGET_PERCENT);
  }

  // A request is admitted exactly when its lane count is in range, the exact totals fit 64 bits,
  // and, unless it is forced, its capacity is known or it would be the only lane, and the exact
  // totals keep to the lane limit and the exact percentages. The admission records the request,
  // what was reserved before, the budgets, and whether it was forced.
  lemma AdmissionIff(request: Request, reserved: Amounts)
    requires reserved.FitsU64()
    ensures
      var total, c := reserved.Plus(ExactAmounts(request)), request.capacity;
      Admit(request, reserved).Ok? <==>
      && 1 <= request.lanes <= 32
      && InRange(total)
      && (request.force
          || ((total.lanes <= 1 || (c.memoryMb.Some? && c.cpus.Some? && c.diskBytes.Some?)) && FitsHost(total, c)))
    ensures Admit(request, reserved).Ok? ==>
      Admit(request, reserved).value == Admission(ExactAmounts(request), reserved, Budgets(request.capacity), request.force)
  {
    if request.lanes >= 1 {
      BudgetsIff(reserved.Plus(ExactAmounts(request)), request.capacity);
      CheckedProductsAreExact(request);
    }
  }

  lemma UnforcedAdmissionIffFits(request: Request, reserved: Amounts)
    requires reserved.FitsU64() && !request.force
    ensures
      var total, c := reserved.Plus(ExactAmounts(request)), request.capacity;
      Admit(request, reserved).Ok? <==>
      && 1 <= request.lanes <= 32 && InRange(total)
      && (total.lanes <= 1 || (c.memoryMb.Some? && c.cpus.Some? && c.diskBytes.Some?))
      && FitsHost(total, c)
  {
    AdmissionIff(request, reserved);
  }

  // A forced request is refused only for its lane count or because a total overflows.
  lemma ForcedAdmissionIff(request: Request, reserved: Amounts)
    requires reserved.FitsU64() && request.force
    ensures Admit(request, reserved).Ok? <==>
            1 <= request.lanes <= 32 && InRange(reserved.Plus(ExactAmounts(request)))
  {
    AdmissionIff(request, reserved);
  }

  ghost predicate Exceeds(total: nat, available: Option<u64>, percent: nat) {
    available.Some? && (100 * total > available.value * percent || !FitsScaled(total, available))
  }

  // The reason given for a refusal is true.
  lemma RefusalIsTrue(request: Request, reserved: Amounts)
    requires reserved.FitsU64() && Admit(request, reserved).Err?
    ensures
      var total, c := reserved.Plus(ExactAmounts(request)), request.capacity;
      match Admit(request, reserved).error
      case InvalidConcurrency => !(1 <= request.lanes <= 32)
      case Overflow => !InRange(total)
      case UnknownCapacity => !request.force && total.lanes > 1 && (c.memoryMb.None? || c.cpus.None? || c.diskBytes.None?)
      case LaneLimit => !request.force && total.lanes > 32
      case MemoryBudget => !request.force && Exceeds(total.memoryMb, c.memoryMb, 75)
      case CpuBudget => !request.force && Exceeds(total.cpus, c.cpus, 200)
      case DiskBudget => !request.force && Exceeds(total.diskBytes, c.diskBytes, 90)
  {
    if request.lanes >= 1 {
      BudgetsIff(reserved.Plus(ExactAmounts(request)), request.capacity);
      CheckedProductsAreExact(request);
    }
  }

  // With at least one lane the checked products fail exactly when an exact amount does not fit.
  lemma CheckedProductsAreExact(request: Request)
    requires request.lanes >= 1
    ensures RequestedAmounts(request) == if InRange(ExactAmounts(request)) then Some(ExactAmounts(request)) else None
  {
  }
}
