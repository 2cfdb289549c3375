/** Host memory admission for virtual machines. */
module Memory {
  import opened Arith
  import opened Collections

  const TWO_64: nat := 0x1_0000_0000_0000_0000
  const HEADROOM: nat := 0x4000_0000
  const OVERHEAD: nat := 0x1000_0000
  const MIB: nat := 0x10_0000

  /** Unsigned 64-bit arithmetic. */
  function Wrap(x: int): nat { x % TWO_64 }

  type Run = nat

  datatype HostMemory = HostMemory(total: nat, available: nat) {
    predicate Valid() { total < TWO_64 && available < TWO_64 }
  }

  datatype Config = Config(memoryMib: nat, budgetMib: nat, maxRunning: nat) {
    predicate Valid() { 256 <= memoryMib <= 1048576 && budgetMib <= 0x4000_0000 && maxRunning >= 1 }

    /** What one machine is charged: its whole RAM and an allowance for the process. */
    function Charge(): nat { memoryMib * MIB + OVERHEAD }
  }

  datatype Outcome = Accepted | CheckFailed | NoCapacity

  /** The resident memory a process is credited with. */
  function Credit(resident: map<Run, Option<nat>>, run: Run, charge: nat): nat {
    if run in resident && resident[run].Some? then Min(resident[run].value, charge) else 0
  }

  ghost function Credits(runs: set<Run>, resident: map<Run, Option<nat>>, charge: nat): nat {
    if runs == {} then 0
    else
      var run :| run in runs;
      Credit(resident, run, charge) + Credits(runs - {run}, resident, charge)
  }

  /** The sum does not depend on the order of the processes. */
  lemma CreditsRemove(runs: set<Run>, resident: map<Run, Option<nat>>, charge: nat, run: Run)
    requires run in runs
    ensures Credits(runs, resident, charge) == Credit(resident, run, charge) + Credits(runs - {run}, resident, charge)
    decreases runs
  {
    var first :| first in runs && Credits(runs, resident, charge)
                 == Credit(resident, first, charge) + Credits(runs - {first}, resident, charge);
    if first != run {
      CreditsRemove(runs - {first}, resident, charge, run);
      CreditsRemove(runs - {run}, resident, charge, first);
      assert runs - {first} - {run} == runs - {run} - {first};
    }
  }

  lemma OneMore(n: nat, charge: nat)
    ensures (n + 1) * charge == n * charge + charge
  {
  }

  lemma CreditsBound(runs: set<Run>, resident: map<Run, Option<nat>>, charge: nat)
    ensures Credits(runs, resident, charge) <= |runs| * charge
    decreases runs
  {
    if runs != {} {
      var run :| run in runs;
      CreditsRemove(runs, resident, charge, run);
      var rest := runs - {run};
      CreditsBound(rest, resident, charge);
      hide Credits;
      assert |runs| == |rest| + 1;
      OneMore(|rest|, charge);
    }
  }

  /** The budget an idle manager snapshots. */
  function Snapshot(config: Config, memory: HostMemory): nat {
    var free := if memory.available > HEADROOM then memory.available - HEADROOM else 0;
    if config.budgetMib > 0 then Min(free, config.budgetMib * MIB) else free
  }

  /** What the budget comes to under the host's present total. */
  function Effective(budget: nat, memory: HostMemory): nat {
    if memory.total <= HEADROOM then 0 else Min(budget, memory.total - HEADROOM)
  }

  /** The budget is the largest that leaves a GiB of what is available and keeps to the configured limit. */
  lemma SnapshotLargest(config: Config, memory: HostMemory, b: nat)
    ensures b <= Snapshot(config, memory) <==>
      && (b == 0 || b + 0x4000_0000 <= memory.available)
      && (config.budgetMib > 0 ==> b <= config.budgetMib * 0x10_0000)
  {
    if config.budgetMib > 0 {
      assert config.budgetMib * MIB == config.budgetMib * 0x10_0000;
    }
  }

  /** Under the present total it is the largest part of itself that leaves a GiB of all memory. */
  lemma EffectiveLargest(budget: nat, memory: HostMemory, b: nat)
    ensures b <= Effective(budget, memory) <==> b <= budget && (b == 0 || b + 0x4000_0000 <= memory.total)
  {
  }

  /** One more machine fits the budget, and its and all uncommitted reservations fit the free memory. */
  ghost predicate Room(active: nat, charge: nat, budget: nat, credits: nat, memory: HostMemory) {
    && (active + 1) * charge <= Effective(budget, memory)
    && HEADROOM + (active + 1) * charge <= memory.available + credits
  }

  /** Dividing the budget decides whether one more reservation fits it. */
  lemma BudgetDivision(active: nat, budget: nat, charge: nat)
    requires charge > 0
    ensures active >= budget / charge <==> (active + 1) * charge > budget
  {
    var q, r := budget / charge, budget % charge;
    assert budget == charge * q + r;
    if active >= q {
      MulStep(charge, active + 1, q);
    } else if active + 1 < q {
      MulStep(charge, q, active + 1);
    }
  }

  /** Adds up what the tracked processes have resident, each up to its own charge. */
  method ResidentMemory(processes: set<Run>, resident: map<Run, Option<nat>>, charge: nat) returns (sum: nat)
    requires |processes| * charge < TWO_64
    ensures sum == Credits(processes, resident, charge)
  {
    sum := 0;
    CreditsBound(processes, resident, charge);
    var todo := processes;
    while todo != {}
      invariant sum + Credits(todo, resident, charge) == Credits(processes, resident, charge)
    {
      var run :| run in todo;
      CreditsRemove(todo, resident, charge, run);
      if run in resident && resident[run].Some? {
        sum := Wrap(sum + Min(resident[run].value, charge));
      }
      todo := todo - {run};
    }
  }

  lemma ResidentFits(active: nat, tracked: nat, charge: nat, budget: nat)
    requires tracked <= active && (active > 0 ==> active * charge <= budget) && budget < TWO_64
    ensures tracked * charge < TWO_64
  {
    assert tracked * charge <= active * charge;
  }

  /** The two capacity checks, in unsigned 64-bit arithmetic. */
  method HasRoom(active: nat, tracked: nat, charge: nat, memoryBudget: nat, resident: nat, memory: HostMemory)
    returns (ok: bool)
    requires charge > 0 && memoryBudget < TWO_64 && tracked <= active && resident <= tracked * charge
    ensures ok <==> Room(active, charge, memoryBudget, resident, memory)
  {
    var budget := if memory.total <= HEADROOM then 0 else Min(memoryBudget, memory.total - HEADROOM);
    BudgetDivision(active, budget, charge);
    if active >= budget / charge {
      return false;
    }
    NoUnderflow(active, tracked, charge, resident, budget);
    var uncommitted := Wrap(Wrap((active + 1) * charge) - resident);
    return !(memory.available < HEADROOM || memory.available - HEADROOM < uncommitted);
  }

  class Manager {
    const config: Config
    var active: nat
    var processes: set<Run>
    var memoryBudget: nat
    var closed: bool
    ghost var starting: nat // reservations whose process is not tracked yet

    constructor (config: Config)
      requires config.Valid()
      ensures Valid() && active == 0 && this.config == config
    {
      this.config := config;
      active, processes, memoryBudget, closed, starting := 0, {}, 0, false, 0;
    }

    /** Every reservation is a tracked process or one being started, and together they fit the budget. */
    ghost predicate Valid()
      reads this
    {
      && config.Valid() && memoryBudget < TWO_64
      && active == |processes| + starting && active <= config.maxRunning
      && (active > 0 ==> active * config.Charge() <= memoryBudget)
    }

    /** Whether one more machine may start, given the resident sizes and host memory read for it. */
    method CheckMemory(resident: map<Run, Option<nat>>, host: Option<HostMemory>) returns (r: Outcome)
      requires Valid() && (host.Some? ==> host.value.Valid())
      modifies `memoryBudget
      ensures Valid()
      ensures r.CheckFailed? <==> host.None?
      ensures host.None? ==> memoryBudget == old(memoryBudget)
      ensures host.Some? ==>
        && memoryBudget == (if active == 0 then Snapshot(config, host.value) else old(memoryBudget))
        && (r.Accepted? <==>
              Room(active, config.Charge(), memoryBudget, Credits(processes, resident, config.Charge()), host.value))
    {
      var charge := Wrap(config.memoryMib * MIB + OVERHEAD);
      assert charge == config.Charge();
      hide Room, Config.Charge, Credits;
      ResidentFits(active, |processes|, charge, memoryBudget);
      CreditsBound(processes, resident, charge);
      var sum := ResidentMemory(processes, resident, charge);
      if host.None? {
        return CheckFailed;
      }
      var memory := host.value;
      if active == 0 {
        memoryBudget := 0;
        if memory.available > HEADROOM {
          memoryBudget := memory.available - HEADROOM;
        }
        if config.budgetMib > 0 {
          memoryBudget := Min(memoryBudget, config.budgetMib * MIB);
        }
      }
      var ok := HasRoom(active, |processes|, charge, memoryBudget, sum, memory);
      return if ok then Accepted else NoCapacity;
    }

    /** Reserves a slot for one more machine. */
    method Reserve(resident: map<Run, Option<nat>>, host: Option<HostMemory>) returns (r: Outcome)
      requires Valid() && (host.Some? ==> host.value.Valid())
      modifies `active, `memoryBudget, `starting
      ensures Valid()
      ensures r.Accepted? ==>
        && host.Some? && active == old(active) + 1 && starting == old(starting) + 1
        && active * config.Charge() <= memoryBudget
        && HEADROOM + active * config.Charge()
           <= host.value.available + Credits(processes, resident, config.Charge())
      ensures r.Accepted? <==>
        && !closed && old(active) < config.maxRunning && host.Some?
        && Room(old(active), config.Charge(), memoryBudget, Credits(processes, resident, config.Charge()), host.value)
      ensures !r.Accepted? ==> active == old(active) && starting == old(starting)
      ensures r.CheckFailed? <==> !closed && old(active) < config.maxRunning && host.None?
      ensures memoryBudget == if old(active) == 0 && !closed && old(active) < config.maxRunning && host.Some?
                              then Snapshot(config, host.value) else old(memoryBudget)
    {
      if closed || active >= config.maxRunning {
        return NoCapacity;
      }
      r := CheckMemory(resident, host);
      if r.Accepted? {
        active := active + 1;
        starting := starting + 1;
      }
    }

    /** The process could not be started: its slot is free again. */
    method StartFailed()
      requires Valid() && starting > 0
      modifies `active, `starting
      ensures Valid() && active == old(active) - 1 && starting == old(starting) - 1
    {
      FewerFit(active, config.Charge(), memoryBudget);
      active := active - 1;
      starting := starting - 1;
    }

    /** The process was started and is tracked from now on. */
    method Track(run: Run)
      requires Valid() && starting > 0 && run !in processes
      modifies `processes, `starting
      ensures Valid() && processes == old(processes) + {run} && starting == old(starting) - 1
    {
      processes := processes + {run};
      starting := starting - 1;
    }

    /** A tracked process exited. */
    method Exit(run: Run)
      requires Valid() && run in processes
      modifies `active, `processes
      ensures Valid() && processes == old(processes) - {run} && active == old(active) - 1
    {
      FewerFit(active, config.Charge(), memoryBudget);
      processes := processes - {run};
      active := active - 1;
    }
  }

  /** The subtraction of resident memory stays within unsigned 64 bits, as does the product before it. */
  lemma NoUnderflow(active: nat, tracked: nat, charge: nat, credits: nat, budget: nat)
    requires tracked <= active && credits <= tracked * charge
    requires (active + 1) * charge <= budget < TWO_64
    ensures Wrap((active + 1) * charge) == (active + 1) * charge
    ensures Wrap(Wrap((active + 1) * charge) - credits) == (active + 1) * charge - credits
  {
    assert tracked * charge <= active * charge;
    assert (active + 1) * charge == active * charge + charge;
  }

  lemma FewerFit(active: nat, charge: nat, budget: nat)
    requires active > 0 && active * charge <= budget
    ensures (active - 1) * charge <= budget
  {
    assert active * charge == (active - 1) * charge + charge;
  }
}
