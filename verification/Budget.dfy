/** The budget ladder of an attack: grants per attempt under a cap on episodes. */
module Budget {

  import opened Basics

  datatype Result<+T> = Ok(value: T) | ValueError

  /** A ladder has rungs, all positive, that never go down. */
  ghost predicate LadderOk(rungs: seq<int>) {
    && rungs != []
    && (forall i :: 0 <= i < |rungs| ==> rungs[i] > 0)
    && (forall i, j :: 0 <= i <= j < |rungs| ==> rungs[i] <= rungs[j])
  }

  /** `BudgetLadder.__post_init__`: neighbours are compared, which is enough. */
  method CheckLadder(rungs: seq<int>) returns (ok: bool)
    ensures ok <==> LadderOk(rungs)
  {
    if rungs == [] {
      return false;
    }
    for i := 0 to |rungs|
      invariant forall k :: 0 <= k < i ==> rungs[k] > 0
    {
      if rungs[i] <= 0 {
        return false;
      }
    }
    for i := 1 to |rungs|
      invariant forall j, k :: 0 <= j <= k < i ==> rungs[j] <= rungs[k]
    {
      if rungs[i] < rungs[i - 1] {
        return false;
      }
    }
    return true;
  }

  /** `BudgetLadder.allocate` for an attempt number that is not negative: past the last rung the last rung is repeated. */
  function Rung(rungs: seq<int>, attempt: nat): int
    requires rungs != []
  {
    rungs[Min(attempt, |rungs| - 1)]
  }

  /** What the ladder would give attempts 0 to n - 1 if there were no cap. */
  function Allotted(rungs: seq<int>, n: nat): int
    requires rungs != []
  {
    if n == 0 then 0 else Allotted(rungs, n - 1) + Rung(rungs, n - 1)
  }

  /** What attempt n is granted when all attempts before it were started. */
  function Grant(rungs: seq<int>, cap: int, n: nat): int
    requires rungs != []
  {
    Min(cap, Allotted(rungs, n + 1)) - Min(cap, Allotted(rungs, n))
  }

  lemma {:induction false} AllottedGrows(rungs: seq<int>, m: nat, n: nat)
    requires LadderOk(rungs) && m <= n
    ensures Allotted(rungs, m) + (n - m) <= Allotted(rungs, n)
  {
    if m < n {
      AllottedGrows(rungs, m, n - 1);
    }
  }

  /** An attempt gets an episode exactly when the attempts before it have not used up the cap. */
  lemma GrantPositiveIff(rungs: seq<int>, cap: int, n: nat)
    requires LadderOk(rungs)
    ensures Grant(rungs, cap, n) >= 0
    ensures Grant(rungs, cap, n) > 0 <==> Allotted(rungs, n) < cap
  {
    AllottedGrows(rungs, n, n + 1);
  }

  /** Later attempts get at least as much as earlier ones, except where the cap cuts the later one short. */
  lemma GrantsGrowIff(rungs: seq<int>, cap: int, n: nat)
    requires LadderOk(rungs)
    ensures Grant(rungs, cap, n) <= Grant(rungs, cap, n + 1)
      <==> Allotted(rungs, n + 1) + Rung(rungs, n) <= cap || Allotted(rungs, n) >= cap
  {
    assert Allotted(rungs, n + 2) == Allotted(rungs, n + 1) + Rung(rungs, n + 1);
    assert Rung(rungs, n + 1) >= Rung(rungs, n) > 0;
  }

  /** A ladder of one rung of 2 under a cap of 3: the second attempt gets less than the first. */
  lemma GrantShrinks()
    ensures LadderOk([2]) && Grant([2], 3, 0) == 2 && Grant([2], 3, 1) == 1
  {
    var rungs := [2];
    assert Allotted(rungs, 0) == 0;
    assert Allotted(rungs, 1) == 2 && Allotted(rungs, 2) == 4;
  }

  class AttackBudget {
    const rungs: seq<int>
    const cap: int
    var committed: int
    var attemptLimit: int
    var spentAttempt: int

    ghost predicate Valid()
      reads this
    {
      && LadderOk(rungs) && cap > 0
      && 0 <= committed <= cap && 0 <= spentAttempt <= attemptLimit <= committed
    }

    constructor (rungs: seq<int>, cap: int)
      requires LadderOk(rungs) && cap > 0
      ensures Valid() && this.rungs == rungs && this.cap == cap
      ensures committed == attemptLimit == spentAttempt == 0
    {
      this.rungs, this.cap := rungs, cap;
      committed, attemptLimit, spentAttempt := 0, 0, 0;
    }

    /** Episodes left in the current attempt. */
    function Remaining(): (r: int)
      requires Valid()
      reads this
      ensures 0 <= r <= cap
    {
      attemptLimit - spentAttempt
    }

    /** `start_attempt`: commits the rung, cut to what is left of the cap. */
    method StartAttempt(attempt: int) returns (r: Result<int>)
      requires Valid()
      modifies this
      ensures Valid() && (r.ValueError? <==> attempt < 0)
      ensures r.ValueError? ==> unchanged(this)
      ensures r.Ok? ==> committed == Min(cap, old(committed) + Rung(rungs, attempt)) && spentAttempt == 0
      ensures r.Ok? ==>
        var rung := if attempt < |rungs| then rungs[attempt] else rungs[|rungs| - 1];
        r.value == if rung <= cap - old(committed) then rung else cap - old(committed)
      ensures r.Ok? ==> attemptLimit == r.value == committed - old(committed)
    {
      if attempt < 0 {
        return ValueError;
      }
      var grant := Min(Rung(rungs, attempt), cap - committed);
      committed := committed + grant;
      attemptLimit := grant;
      spentAttempt := 0;
      return Ok(grant);
    }

    /** `consume`: a budget never used starts attempt 0 by itself, even if the cost is then refused. */
    method Consume(cost: int) returns (r: Result<()>)
      requires Valid()
      modifies this
      ensures Valid()
      ensures cost < 0 ==> r.ValueError? && unchanged(this)
      ensures cost >= 0 ==> committed == if old(committed) == 0 then Min(cap, rungs[0]) else old(committed)
      ensures cost >= 0 ==> attemptLimit == if old(committed) == 0 then committed else old(attemptLimit)
      ensures cost >= 0 ==> (r.Ok? <==> cost <= attemptLimit - if old(committed) == 0 then 0 else old(spentAttempt))
      ensures cost >= 0 ==> spentAttempt == (if old(committed) == 0 then 0 else old(spentAttempt)) + if r.Ok? then cost else 0
    {
      if cost < 0 {
        return ValueError;
      }
      if committed == 0 {
        var _ := StartAttempt(0);
      }
      if cost > Remaining() {
        return ValueError;
      }
      spentAttempt := spentAttempt + cost;
      return Ok(());
    }
  }
}
