/** Trading limits: the check before a trade, and the counters that trades, settlements and resets move. */
module FxLimit {
  import opened Wrappers

  datatype Action = Warn | Block | Notify | Escalate | RequireApproval

  /** A row of fx_limits; amounts in cents, times of day in minutes, counters set. */
  datatype Limit = Limit(
    corporate: string,
    pair: Option<string>,
    allCurrencies: bool,
    isActive: bool,
    maxBuy: int, maxSell: int, minTrade: int,
    dailyLimit: int, dailyUsed: int, dailyWarning: int, dailyAction: Action, dailyResetAt: int,
    monthlyLimit: int, monthlyUsed: int, monthlyAction: Action, monthlyResetAt: int,
    annualLimit: int, annualUsed: int, annualAction: Action,
    maxOpen: int, open: int,
    maxNotional: int, notional: int,
    marginPercent: int,
    blockOnBreach: bool, overrideAllowed: bool,
    hoursOnly: bool, hours: Option<seq<(int, int)>>
  )

  type Rows = map<nat, Limit>

  // ---------- getLimits ----------

  predicate Specific(l: Limit, corporate: string, pair: string) {
    l.corporate == corporate && l.isActive && l.pair == Some(pair)
  }

  predicate Fallback(l: Limit, corporate: string) {
    l.corporate == corporate && l.isActive && l.pair == None && l.allCurrencies
  }

  /** `findOne` may return any row that fits; a pair-specific row goes first. */
  ghost predicate Picks(rows: Rows, corporate: string, pair: string, id: nat) {
    id in rows &&
    if pair == "" then rows[id].corporate == corporate && rows[id].isActive
    else if exists j :: j in rows && Specific(rows[j], corporate, pair) then Specific(rows[id], corporate, pair)
    else Fallback(rows[id], corporate)
  }

  method GetLimits(rows: Rows, corporate: string, pair: string) returns (r: Option<nat>)
    ensures r.Some? ==> Picks(rows, corporate, pair, r.value)
    ensures r.None? ==> forall id :: !Picks(rows, corporate, pair, id)
    ensures r.Some? ==>
              && r.value in rows && rows[r.value].corporate == corporate && rows[r.value].isActive
              && (pair != "" && rows[r.value].pair != Some(pair) ==>
                    && rows[r.value].pair == None && rows[r.value].allCurrencies
                    && forall id | id in rows && rows[id].corporate == corporate && rows[id].isActive ::
                         rows[id].pair != Some(pair))
    ensures r.None? ==>
              forall id | id in rows && rows[id].corporate == corporate && rows[id].isActive ::
                pair != "" && rows[id].pair != Some(pair) && !(rows[id].pair == None && rows[id].allCurrencies)
  {
    if pair != "" {
      var specific := set id | id in rows && Specific(rows[id], corporate, pair);
      if specific != {} {
        var id :| id in specific;
        return Some(id);
      }
      var fallback := set id | id in rows && Fallback(rows[id], corporate);
      assert forall j | j in rows :: j !in specific;
      if fallback == {} {
        assert forall id | id in rows :: id !in fallback;
        return None;
      }
      var id :| id in fallback;
      return Some(id);
    }
    var any := set id | id in rows && rows[id].corporate == corporate && rows[id].isActive;
    if any == {} {
      assert forall id | id in rows :: id !in any;
      return None;
    }
    var id :| id in any;
    r := Some(id);
  }

  // ---------- checkLimits ----------

  datatype Kind =
    | MaxBuy | MaxSell | MinTrade | Daily | Monthly | Annual | OpenPositions | Notional | Hours
    | DailyWarning | Margin

  datatype Check = Check(kind: Kind, passed: bool, action: Option<Action>)

  datatype Verdict = Verdict(
    allowed: bool, blocked: bool, requiresApproval: bool, requiresOverride: bool, checks: seq<Check>)

  predicate WithinHours(hours: seq<(int, int)>, minute: int) {
    exists slot <- hours :: slot.0 <= minute <= slot.1
  }

  /** What each limit forbids; a limit that is not positive forbids nothing. */
  predicate Breaches(l: Limit, buy: int, sell: int, minute: int, kind: Kind) {
    match kind
    case MaxBuy => buy > l.maxBuy
    case MaxSell => sell > l.maxSell
    case MinTrade => 0 < buy < l.minTrade
    case Daily => l.dailyLimit > 0 && l.dailyUsed + buy > l.dailyLimit
    case Monthly => l.monthlyLimit > 0 && l.monthlyUsed + buy > l.monthlyLimit
    case Annual => l.annualLimit > 0 && l.annualUsed + buy > l.annualLimit
    case OpenPositions => l.maxOpen > 0 && l.open >= l.maxOpen
    case Notional => l.maxNotional > 0 && l.notional + buy > l.maxNotional
    case Hours => l.hoursOnly && l.hours.Some? && !WithinHours(l.hours.value, minute)
    case DailyWarning => false
    case Margin => false
  }

  ghost predicate Admissible(l: Limit, buy: int, sell: int, minute: int) {
    forall kind :: !Breaches(l, buy, sell, minute, kind)
  }

  /** Whether a breach of this kind blocks the trade. */
  predicate BlocksFor(l: Limit, kind: Kind) {
    match kind
    case MaxBuy => l.blockOnBreach
    case MaxSell => l.blockOnBreach
    case Notional => l.blockOnBreach
    case Daily => l.dailyAction.Block?
    case Monthly => l.monthlyAction.Block?
    case Annual => l.annualAction.Block?
    case _ => true
  }

  /** The action that a failed check carries. */
  ghost function ActionOf(l: Limit, kind: Kind): Action {
    match kind
    case MaxBuy => l.dailyAction
    case MaxSell => l.dailyAction
    case Daily => l.dailyAction
    case Monthly => l.monthlyAction
    case Annual => l.annualAction
    case _ => Block
  }

  ghost predicate BlockedAmong(l: Limit, buy: int, sell: int, minute: int, kinds: set<Kind>) {
    exists kind <- kinds :: Breaches(l, buy, sell, minute, kind) && BlocksFor(l, kind)
  }

  ghost predicate Blocks(l: Limit, buy: int, sell: int, minute: int) {
    exists kind :: Breaches(l, buy, sell, minute, kind) && BlocksFor(l, kind)
  }

  /** `Math.round(100 * used / limit)` */
  function Utilization(used: int, limit: int): int
    requires limit > 0
  {
    (200 * used + limit) / (2 * limit)
  }

  /** Some check of this kind is listed, passed or not. */
  ghost predicate Told(checks: seq<Check>, kind: Kind) {
    exists c <- checks :: c.kind == kind
  }

  lemma ToldMore(checks: seq<Check>, c: Check)
    ensures forall k :: Told(checks + [c], k) <==> Told(checks, k) || c.kind == k
  {
    forall k ensures Told(checks + [c], k) <==> Told(checks, k) || c.kind == k {
      if Told(checks, k) {
        var d :| d in checks && d.kind == k;
        assert d in checks + [c];
      }
      assert c in checks + [c];
    }
  }

  ghost predicate Fails(checks: seq<Check>, kind: Kind) {
    exists c <- checks :: c.kind == kind && !c.passed
  }

  /** Rounded half up, the percentage reaches a threshold that is at most half a percent above it. */
  lemma UtilizationReaches(used: int, limit: int, threshold: int)
    requires limit > 0
    ensures Utilization(used, limit) >= threshold <==> 200 * used + limit >= 2 * limit * threshold
  {
    var q, r := Utilization(used, limit), (200 * used + limit) % (2 * limit);
    assert 200 * used + limit == q * (2 * limit) + r;
    if q >= threshold {
      assert q * (2 * limit) >= threshold * (2 * limit);
    } else {
      assert (q + 1) * (2 * limit) <= threshold * (2 * limit);
    }
  }

  /** The daily limit is kept, and the percentage used has reached the warning threshold. */
  ghost predicate WarningDue(l: Limit, buy: int) {
    && l.dailyLimit > 0 && l.dailyUsed + buy <= l.dailyLimit
    && 200 * (l.dailyUsed + buy) + l.dailyLimit >= 2 * l.dailyLimit * l.dailyWarning
  }

  /** The failed checks in the list are exactly the breaches among `kinds`. */
  ghost predicate Lists(l: Limit, buy: int, sell: int, minute: int, kinds: set<Kind>, checks: seq<Check>) {
    && (forall c <- checks :: !c.passed ==>
          c.kind in kinds && Breaches(l, buy, sell, minute, c.kind) && c.action == Some(ActionOf(l, c.kind)))
    && (forall k <- kinds :: Breaches(l, buy, sell, minute, k) ==> Fails(checks, k))
  }

  lemma FailsMore(checks: seq<Check>, c: Check)
    ensures forall k :: Fails(checks + [c], k) <==> Fails(checks, k) || (c.kind == k && !c.passed)
  {
    forall k ensures Fails(checks + [c], k) <==> Fails(checks, k) || (c.kind == k && !c.passed) {
      if Fails(checks, k) {
        var d :| d in checks && d.kind == k && !d.passed;
        assert d in checks + [c];
      }
      assert c in checks + [c];
    }
  }

  lemma BlockedAmongMore(l: Limit, buy: int, sell: int, minute: int, kinds: set<Kind>, kind: Kind)
    ensures BlockedAmong(l, buy, sell, minute, kinds + {kind})
       <==> BlockedAmong(l, buy, sell, minute, kinds) || (Breaches(l, buy, sell, minute, kind) && BlocksFor(l, kind))
  {
    if BlockedAmong(l, buy, sell, minute, kinds) {
      var k :| k in kinds && Breaches(l, buy, sell, minute, k) && BlocksFor(l, k);
      assert k in kinds + {kind};
    }
    assert kind in kinds + {kind};
  }

  /** One step of the check: a breach is listed as a failed check, and may block. */
  method Examine(ghost l: Limit, ghost buy: int, ghost sell: int, ghost minute: int, ghost kinds: set<Kind>,
                 checks: seq<Check>, blocked: bool, kind: Kind, breached: bool, action: Action, blocks: bool)
    returns (more: seq<Check>, nowBlocked: bool)
    requires Lists(l, buy, sell, minute, kinds, checks) && blocked == BlockedAmong(l, buy, sell, minute, kinds)
    requires breached == Breaches(l, buy, sell, minute, kind) && blocks == BlocksFor(l, kind)
    requires action == ActionOf(l, kind) && kind != DailyWarning && kind != Margin
    ensures Told(more, DailyWarning) == Told(checks, DailyWarning) && Told(more, Margin) == Told(checks, Margin)
    ensures Lists(l, buy, sell, minute, kinds + {kind}, more)
    ensures nowBlocked == BlockedAmong(l, buy, sell, minute, kinds + {kind})
  {
    more, nowBlocked := checks, blocked;
    if breached {
      FailsMore(checks, Check(kind, false, Some(action)));
      ToldMore(checks, Check(kind, false, Some(action)));
      more := checks + [Check(kind, false, Some(action))];
      if blocks {
        nowBlocked := true;
      }
    }
    BlockedAmongMore(l, buy, sell, minute, kinds, kind);
  }

  /** A check that only informs. */
  lemma Informs(l: Limit, buy: int, sell: int, minute: int, kinds: set<Kind>, checks: seq<Check>, c: Check)
    requires Lists(l, buy, sell, minute, kinds, checks) && c.passed
    ensures Lists(l, buy, sell, minute, kinds, checks + [c])
  {
    FailsMore(checks, c);
  }

  /** Checks 1 and 2: the size of the trade. */
  method CheckSizes(l: Limit, buy: int, sell: int, ghost minute: int) returns (checks: seq<Check>, blocked: bool)
    ensures Lists(l, buy, sell, minute, {} + {MaxBuy} + {MaxSell} + {MinTrade}, checks)
    ensures !Told(checks, DailyWarning) && !Told(checks, Margin)
    ensures blocked == BlockedAmong(l, buy, sell, minute, {} + {MaxBuy} + {MaxSell} + {MinTrade})
  {
    checks, blocked := [], false;
    ghost var kinds: set<Kind> := {};
    checks, blocked := Examine(l, buy, sell, minute, kinds, checks, blocked,
                               MaxBuy, buy > l.maxBuy, l.dailyAction, l.blockOnBreach);
    kinds := kinds + {MaxBuy};
    checks, blocked := Examine(l, buy, sell, minute, kinds, checks, blocked,
                               MaxSell, sell > l.maxSell, l.dailyAction, l.blockOnBreach);
    kinds := kinds + {MaxSell};
    checks, blocked := Examine(l, buy, sell, minute, kinds, checks, blocked,
                               MinTrade, buy < l.minTrade && buy > 0, Block, true);
  }

  /** Checks 3 to 5: daily, with its warning, monthly and annual volume. */
  method CheckVolumes(l: Limit, buy: int, ghost sell: int, ghost minute: int, ghost kinds: set<Kind>,
                      checks0: seq<Check>, blocked0: bool) returns (checks: seq<Check>, blocked: bool)
    requires Lists(l, buy, sell, minute, kinds, checks0) && blocked0 == BlockedAmong(l, buy, sell, minute, kinds)
    requires !Told(checks0, DailyWarning) && !Told(checks0, Margin)
    ensures Lists(l, buy, sell, minute, kinds + {Daily} + {Monthly} + {Annual}, checks)
    ensures Told(checks, DailyWarning) <==> WarningDue(l, buy)
    ensures !Told(checks, Margin)
    ensures blocked == BlockedAmong(l, buy, sell, minute, kinds + {Daily} + {Monthly} + {Annual})
  {
    var newDailyUsed := l.dailyUsed + buy;
    if l.dailyLimit > 0 {
      UtilizationReaches(newDailyUsed, l.dailyLimit, l.dailyWarning);
    }
    var overDaily := newDailyUsed > l.dailyLimit && l.dailyLimit > 0;
    checks, blocked := Examine(l, buy, sell, minute, kinds, checks0, blocked0,
                               Daily, overDaily, l.dailyAction, l.dailyAction == Block);
    if !overDaily && l.dailyLimit > 0 && Utilization(newDailyUsed, l.dailyLimit) >= l.dailyWarning {
      Informs(l, buy, sell, minute, kinds + {Daily}, checks, Check(DailyWarning, true, None));
      ToldMore(checks, Check(DailyWarning, true, None));
      checks := checks + [Check(DailyWarning, true, None)];
    }
    checks, blocked := Examine(l, buy, sell, minute, kinds + {Daily}, checks, blocked, Monthly,
                               l.monthlyUsed + buy > l.monthlyLimit && l.monthlyLimit > 0,
                               l.monthlyAction, l.monthlyAction == Block);
    checks, blocked := Examine(l, buy, sell, minute, kinds + {Daily} + {Monthly}, checks, blocked, Annual,
                               l.annualUsed + buy > l.annualLimit && l.annualLimit > 0,
                               l.annualAction, l.annualAction == Block);
  }

  /** Checks 6 to 9: open positions, notional, margin and trading hours. */
  method CheckPositions(l: Limit, buy: int, ghost sell: int, minute: int, ghost kinds: set<Kind>,
                        checks0: seq<Check>, blocked0: bool) returns (checks: seq<Check>, blocked: bool)
    requires Lists(l, buy, sell, minute, kinds, checks0) && blocked0 == BlockedAmong(l, buy, sell, minute, kinds)
    requires !Told(checks0, Margin)
    ensures Lists(l, buy, sell, minute, kinds + {OpenPositions} + {Notional} + {Hours}, checks)
    ensures Told(checks, DailyWarning) == Told(checks0, DailyWarning)
    ensures Told(checks, Margin) <==> l.marginPercent > 0
    ensures blocked == BlockedAmong(l, buy, sell, minute, kinds + {OpenPositions} + {Notional} + {Hours})
  {
    checks, blocked := Examine(l, buy, sell, minute, kinds, checks0, blocked0, OpenPositions,
                               l.open >= l.maxOpen && l.maxOpen > 0, Block, true);
    checks, blocked := Examine(l, buy, sell, minute, kinds + {OpenPositions}, checks, blocked, Notional,
                               l.notional + buy > l.maxNotional && l.maxNotional > 0, Block, l.blockOnBreach);
    if l.marginPercent > 0 {
      Informs(l, buy, sell, minute, kinds + {OpenPositions} + {Notional}, checks, Check(Margin, true, None));
      ToldMore(checks, Check(Margin, true, None));
      checks := checks + [Check(Margin, true, None)];
    }
    checks, blocked := Examine(l, buy, sell, minute, kinds + {OpenPositions} + {Notional}, checks, blocked, Hours,
                               l.hoursOnly && l.hours.Some? && !WithinHours(l.hours.value, minute), Block, true);
  }

  /** Only breaches block, so a trade is allowed exactly when no check failed. */
  lemma BlocksOnlyBreaches(l: Limit, buy: int, sell: int, minute: int, kinds: set<Kind>)
    requires forall k :: k in kinds || k == DailyWarning || k == Margin
    ensures BlockedAmong(l, buy, sell, minute, kinds) <==> Blocks(l, buy, sell, minute)
    ensures Blocks(l, buy, sell, minute) ==> !Admissible(l, buy, sell, minute)
  {
    if Blocks(l, buy, sell, minute) {
      var k :| Breaches(l, buy, sell, minute, k) && BlocksFor(l, k);
      assert k in kinds;
    }
  }

  lemma Summarize(l: Limit, buy: int, sell: int, minute: int, kinds: set<Kind>, checks: seq<Check>)
    requires Lists(l, buy, sell, minute, kinds, checks)
    requires forall k :: k in kinds || k == DailyWarning || k == Margin
    ensures forall k :: Fails(checks, k) <==> Breaches(l, buy, sell, minute, k)
  {
    forall k ensures Fails(checks, k) <==> Breaches(l, buy, sell, minute, k) {
      assert k in kinds || k == DailyWarning || k == Margin;
    }
  }

  lemma AllPassedIff(checks: seq<Check>)
    ensures (forall c <- checks :: c.passed) <==> forall k :: !Fails(checks, k)
  {
    if forall k :: !Fails(checks, k) {
      forall c | c in checks ensures c.passed {
        assert !Fails(checks, c.kind);
      }
    }
  }

  lemma ApprovalIff(l: Limit, buy: int, sell: int, minute: int, kinds: set<Kind>, checks: seq<Check>)
    requires Lists(l, buy, sell, minute, kinds, checks)
    requires forall k :: k in kinds || k == DailyWarning || k == Margin
    ensures (exists c <- checks :: !c.passed && c.action == Some(RequireApproval))
       <==> exists k :: Breaches(l, buy, sell, minute, k) && ActionOf(l, k) == RequireApproval
  {
    Summarize(l, buy, sell, minute, kinds, checks);
    if exists k :: Breaches(l, buy, sell, minute, k) && ActionOf(l, k) == RequireApproval {
      var k :| Breaches(l, buy, sell, minute, k) && ActionOf(l, k) == RequireApproval;
      assert Fails(checks, k);
      var c :| c in checks && c.kind == k && !c.passed;
    }
  }

  /** The trade keeps every limit that is set, and the hours. */
  ghost predicate InOrder(l: Limit, buy: int, sell: int, minute: int) {
    && buy <= l.maxBuy && sell <= l.maxSell && (buy <= 0 || l.minTrade <= buy)
    && (l.dailyLimit <= 0 || l.dailyUsed + buy <= l.dailyLimit)
    && (l.monthlyLimit <= 0 || l.monthlyUsed + buy <= l.monthlyLimit)
    && (l.annualLimit <= 0 || l.annualUsed + buy <= l.annualLimit)
    && (l.maxOpen <= 0 || l.open < l.maxOpen)
    && (l.maxNotional <= 0 || l.notional + buy <= l.maxNotional)
    && (l.hoursOnly && l.hours.Some? ==> exists slot <- l.hours.value :: slot.0 <= minute <= slot.1)
  }

  /** Something that is configured to block is exceeded. */
  ghost predicate Stopped(l: Limit, buy: int, sell: int, minute: int) {
    || (l.blockOnBreach && (buy > l.maxBuy || sell > l.maxSell
                            || (l.maxNotional > 0 && l.notional + buy > l.maxNotional)))
    || 0 < buy < l.minTrade
    || (l.dailyAction == Block && l.dailyLimit > 0 && l.dailyUsed + buy > l.dailyLimit)
    || (l.monthlyAction == Block && l.monthlyLimit > 0 && l.monthlyUsed + buy > l.monthlyLimit)
    || (l.annualAction == Block && l.annualLimit > 0 && l.annualUsed + buy > l.annualLimit)
    || (l.maxOpen > 0 && l.open >= l.maxOpen)
    || (l.hoursOnly && l.hours.Some? && !exists slot <- l.hours.value :: slot.0 <= minute <= slot.1)
  }

  /** Something whose action is the approval is exceeded. */
  ghost predicate NeedsApproval(l: Limit, buy: int, sell: int) {
    || (l.dailyAction == RequireApproval
        && (buy > l.maxBuy || sell > l.maxSell || (l.dailyLimit > 0 && l.dailyUsed + buy > l.dailyLimit)))
    || (l.monthlyAction == RequireApproval && l.monthlyLimit > 0 && l.monthlyUsed + buy > l.monthlyLimit)
    || (l.annualAction == RequireApproval && l.annualLimit > 0 && l.annualUsed + buy > l.annualLimit)
  }

  /**
   * Maximal sizes and the daily limit have the daily action,
   * the monthly and annual limits their own, the rest blocks.
   */
  ghost predicate Carries(l: Limit, c: Check) {
    && (c.kind == MaxBuy || c.kind == MaxSell || c.kind == Daily ==> c.action == Some(l.dailyAction))
    && (c.kind == Monthly ==> c.action == Some(l.monthlyAction))
    && (c.kind == Annual ==> c.action == Some(l.annualAction))
    && (c.kind == MinTrade || c.kind == OpenPositions || c.kind == Notional || c.kind == Hours ==>
          c.action == Some(Block))
  }

  lemma FailedCarry(l: Limit, buy: int, sell: int, minute: int, kinds: set<Kind>, checks: seq<Check>)
    requires Lists(l, buy, sell, minute, kinds, checks)
    ensures forall c <- checks :: !c.passed ==> Carries(l, c)
  {
  }

  lemma AdmissibleIff(l: Limit, buy: int, sell: int, minute: int)
    ensures Admissible(l, buy, sell, minute) <==> InOrder(l, buy, sell, minute)
  {
    if Admissible(l, buy, sell, minute) {
      assert !Breaches(l, buy, sell, minute, MaxBuy) && !Breaches(l, buy, sell, minute, MaxSell);
      assert !Breaches(l, buy, sell, minute, MinTrade) && !Breaches(l, buy, sell, minute, Daily);
      assert !Breaches(l, buy, sell, minute, Monthly) && !Breaches(l, buy, sell, minute, Annual);
      assert !Breaches(l, buy, sell, minute, OpenPositions) && !Breaches(l, buy, sell, minute, Notional);
      assert !Breaches(l, buy, sell, minute, Hours);
    }
  }

  lemma BlocksIff(l: Limit, buy: int, sell: int, minute: int)
    ensures Blocks(l, buy, sell, minute) <==> Stopped(l, buy, sell, minute)
  {
    if !Blocks(l, buy, sell, minute) {
      assert BlocksFor(l, MinTrade) && BlocksFor(l, OpenPositions) && BlocksFor(l, Hours);
      assert !Breaches(l, buy, sell, minute, MinTrade) && !Breaches(l, buy, sell, minute, OpenPositions);
      assert !Breaches(l, buy, sell, minute, Hours);
      assert BlocksFor(l, Daily) ==> !Breaches(l, buy, sell, minute, Daily);
      assert BlocksFor(l, Monthly) ==> !Breaches(l, buy, sell, minute, Monthly);
      assert BlocksFor(l, Annual) ==> !Breaches(l, buy, sell, minute, Annual);
      assert BlocksFor(l, MaxBuy) ==>
               !Breaches(l, buy, sell, minute, MaxBuy) && !Breaches(l, buy, sell, minute, MaxSell);
      assert BlocksFor(l, Notional) ==> !Breaches(l, buy, sell, minute, Notional);
    }
  }

  lemma AskIff(l: Limit, buy: int, sell: int, minute: int)
    ensures (exists k :: Breaches(l, buy, sell, minute, k) && ActionOf(l, k) == RequireApproval)
       <==> NeedsApproval(l, buy, sell)
  {
    assert Breaches(l, buy, sell, minute, MaxBuy) <==> buy > l.maxBuy;
    assert Breaches(l, buy, sell, minute, MaxSell) <==> sell > l.maxSell;
    assert Breaches(l, buy, sell, minute, Daily) <==> l.dailyLimit > 0 && l.dailyUsed + buy > l.dailyLimit;
    assert Breaches(l, buy, sell, minute, Monthly) <==> l.monthlyLimit > 0 && l.monthlyUsed + buy > l.monthlyLimit;
    assert Breaches(l, buy, sell, minute, Annual) <==> l.annualLimit > 0 && l.annualUsed + buy > l.annualLimit;
  }

  /** The summary at the end of `checkLimits`. */
  method Conclude(l: Limit, ghost buy: int, ghost sell: int, ghost minute: int, ghost kinds: set<Kind>,
                  checks: seq<Check>, blocked: bool) returns (v: Verdict)
    requires Lists(l, buy, sell, minute, kinds, checks) && blocked == BlockedAmong(l, buy, sell, minute, kinds)
    requires forall k :: k in kinds || k == DailyWarning || k == Margin
    ensures v.allowed <==> Admissible(l, buy, sell, minute)
    ensures v.blocked <==> Blocks(l, buy, sell, minute)
    ensures v.requiresOverride <==> v.blocked && l.overrideAllowed
    ensures v.requiresApproval <==> exists k :: Breaches(l, buy, sell, minute, k) && ActionOf(l, k) == RequireApproval
    ensures v.checks == checks && forall k :: Fails(checks, k) <==> Breaches(l, buy, sell, minute, k)
  {
    ApprovalIff(l, buy, sell, minute, kinds, checks);
    Summarize(l, buy, sell, minute, kinds, checks);
    var allPassed := forall c <- checks :: c.passed;
    AllPassedIff(checks);
    BlocksOnlyBreaches(l, buy, sell, minute, kinds);
    v := Verdict(allPassed && !blocked, blocked,
                 exists c <- checks :: !c.passed && c.action == Some(RequireApproval),
                 blocked && l.overrideAllowed, checks);
  }

  /**
   * `checkLimits` on the row that was found and is active: what makes a trade
   * allowed, blocked and subject to approval, which checks are listed, and which
   * action a failed one carries.
   */
  method CheckLimits(l: Limit, buy: int, sell: int, minute: int) returns (v: Verdict)
    ensures v.allowed <==> Admissible(l, buy, sell, minute)
    ensures v.allowed <==> InOrder(l, buy, sell, minute)
    ensures v.blocked <==> Blocks(l, buy, sell, minute)
    ensures v.blocked <==> Stopped(l, buy, sell, minute)
    ensures v.requiresOverride <==> v.blocked && l.overrideAllowed
    ensures v.requiresApproval <==> NeedsApproval(l, buy, sell)
    ensures forall k :: Fails(v.checks, k) <==> Breaches(l, buy, sell, minute, k)
    ensures forall c <- v.checks :: !c.passed ==> Carries(l, c)
    ensures Told(v.checks, Margin) <==> l.marginPercent > 0
    ensures Told(v.checks, DailyWarning) <==> WarningDue(l, buy)
  {
    var checks, blocked := CheckSizes(l, buy, sell, minute);
    ghost var kinds := {} + {MaxBuy} + {MaxSell} + {MinTrade};
    checks, blocked := CheckVolumes(l, buy, sell, minute, kinds, checks, blocked);
    kinds := kinds + {Daily} + {Monthly} + {Annual};
    checks, blocked := CheckPositions(l, buy, sell, minute, kinds, checks, blocked);
    kinds := kinds + {OpenPositions} + {Notional} + {Hours};
    v := Conclude(l, buy, sell, minute, kinds, checks, blocked);
    AdmissibleIff(l, buy, sell, minute);
    BlocksIff(l, buy, sell, minute);
    AskIff(l, buy, sell, minute);
    FailedCarry(l, buy, sell, minute, kinds, checks);
  }

  /** `checkLimits`: without a row there is no trade. */
  method CheckTrade(rows: Rows, corporate: string, pair: string, buy: int, sell: int, minute: int)
    returns (checked: Option<nat>, allowed: bool)
    ensures checked.None? ==> !allowed && forall id :: !Picks(rows, corporate, pair, id)
    ensures checked.Some? ==> Picks(rows, corporate, pair, checked.value)
                              && (allowed <==> Admissible(rows[checked.value], buy, sell, minute))
                              && (allowed <==> InOrder(rows[checked.value], buy, sell, minute))
  {
    checked := GetLimits(rows, corporate, pair);
    if checked.None? {
      return None, false;
    }
    var v := CheckLimits(rows[checked.value], buy, sell, minute);
    allowed := v.allowed;
  }

  // ---------- The counters ----------

  /** The rows that a trade of this client in this pair counts against. */
  predicate Matches(l: Limit, corporate: string, pair: string) {
    l.corporate == corporate && (l.pair == Some(pair) || (l.pair == None && l.allCurrencies))
  }

  function UsedRow(l: Limit, amount: int, isNew: bool): Limit {
    l.(dailyUsed := l.dailyUsed + amount, monthlyUsed := l.monthlyUsed + amount,
       annualUsed := l.annualUsed + amount, notional := l.notional + amount,
       open := if isNew then l.open + 1 else l.open)
  }

  function Used(rows: Rows, corporate: string, pair: string, amount: int, isNew: bool): Rows {
    map id | id in rows ::
      if Matches(rows[id], corporate, pair) && rows[id].isActive then UsedRow(rows[id], amount, isNew) else rows[id]
  }

  /** `GREATEST(0, x)` */
  function Greatest0(x: int): nat {
    if x < 0 then 0 else x
  }

  function SettledRow(l: Limit, amount: int): Limit {
    l.(notional := Greatest0(l.notional - amount), open := Greatest0(l.open - 1))
  }

  function Settled(rows: Rows, corporate: string, pair: string, amount: int): Rows {
    map id | id in rows ::
      if Matches(rows[id], corporate, pair) && rows[id].isActive then SettledRow(rows[id], amount) else rows[id]
  }

  const DAY := 1440
  const MONTH := 43200

  function ResetDay(rows: Rows, now: int): Rows {
    map id | id in rows ::
      if rows[id].dailyResetAt < now && rows[id].isActive
      then rows[id].(dailyUsed := 0, dailyResetAt := now + DAY) else rows[id]
  }

  function ResetMonth(rows: Rows, now: int): Rows {
    map id | id in rows ::
      if rows[id].monthlyResetAt < now && rows[id].isActive
      then rows[id].(monthlyUsed := 0, monthlyResetAt := now + MONTH) else rows[id]
  }

  function SetActive(rows: Rows, id: nat, isActive: bool): Rows {
    if id in rows then rows[id := rows[id].(isActive := isActive)] else rows
  }

  // ---------- Limits hold over every run ----------

  /** A trade is recorded right after a check of the same amount allowed it. */
  datatype Event =
    | Trade(checked: nat, corporate: string, pair: string, buy: int, sell: int, minute: int, isNew: bool)
    | Settlement(corporate: string, pair: string, amount: int)
    | DayReset(now: int)
    | MonthReset(now: int)
    | Suspension(id: nat)
    | Approval(id: nat)

  ghost predicate Possible(rows: Rows, e: Event) {
    match e
    case Trade(id, corporate, pair, buy, sell, minute, _) =>
      pair != "" && buy > 0 && Picks(rows, corporate, pair, id) && Admissible(rows[id], buy, sell, minute)
    case Settlement(_, _, amount) => amount > 0
    case _ => true
  }

  function Next(rows: Rows, e: Event): Rows {
    match e
    case Trade(_, corporate, pair, buy, _, _, isNew) => Used(rows, corporate, pair, buy, isNew)
    case Settlement(corporate, pair, amount) => Settled(rows, corporate, pair, amount)
    case DayReset(now) => ResetDay(rows, now)
    case MonthReset(now) => ResetMonth(rows, now)
    case Suspension(id) => SetActive(rows, id, false)
    case Approval(id) => SetActive(rows, id, true)
  }

  /** What each statement writes into a row, and that it writes nothing else. */
  ghost predicate Written(l: Limit, m: Limit, e: Event, id: nat) {
    match e
    case Trade(_, corporate, pair, buy, _, _, isNew) =>
      if l.isActive && l.corporate == corporate && (l.pair == Some(pair) || (l.pair == None && l.allCurrencies))
      then m == l.(dailyUsed := l.dailyUsed + buy, monthlyUsed := l.monthlyUsed + buy,
                   annualUsed := l.annualUsed + buy, notional := l.notional + buy,
                   open := l.open + if isNew then 1 else 0)
      else m == l
    case Settlement(corporate, pair, amount) =>
      if l.isActive && l.corporate == corporate && (l.pair == Some(pair) || (l.pair == None && l.allCurrencies))
      then m == l.(notional := if amount <= l.notional then l.notional - amount else 0,
                   open := if 1 <= l.open then l.open - 1 else 0)
      else m == l
    case DayReset(now) =>
      m == if l.isActive && l.dailyResetAt < now then l.(dailyUsed := 0, dailyResetAt := now + 1440) else l
    case MonthReset(now) =>
      m == if l.isActive && l.monthlyResetAt < now then l.(monthlyUsed := 0, monthlyResetAt := now + 43200) else l
    case Suspension(other) => m == if other == id then l.(isActive := false) else l
    case Approval(other) => m == if other == id then l.(isActive := true) else l
  }

  lemma TradeWrites(rows: Rows, e: Event, id: nat)
    requires e.Trade? && id in rows
    ensures Written(rows[id], Next(rows, e)[id], e, id)
  {
    var l := rows[id];
    assert Next(rows, e)[id] == if Matches(l, e.corporate, e.pair) && l.isActive then UsedRow(l, e.buy, e.isNew) else l;
  }

  lemma SettlementWrites(rows: Rows, e: Event, id: nat)
    requires e.Settlement? && id in rows
    ensures Written(rows[id], Next(rows, e)[id], e, id)
  {
    var l := rows[id];
    assert Next(rows, e)[id] == if Matches(l, e.corporate, e.pair) && l.isActive then SettledRow(l, e.amount) else l;
  }

  /** The statements in full: matching active rows, or the row that is named, and no other. */
  lemma StatementsWrite(rows: Rows, e: Event)
    ensures Next(rows, e).Keys == rows.Keys
    ensures forall id | id in rows :: Written(rows[id], Next(rows, e)[id], e, id)
  {
    forall id | id in rows ensures Written(rows[id], Next(rows, e)[id], e, id) {
      match e
      case Trade(_, _, _, _, _, _, _) =>
        TradeWrites(rows, e, id);
      case Settlement(_, _, _) =>
        SettlementWrites(rows, e, id);
      case _ =>
    }
  }

  ghost predicate Run(rows: Rows, events: seq<Event>, last: Rows)
    decreases |events|
  {
    if events == [] then last == rows
    else Possible(rows, events[0]) && Run(Next(rows, events[0]), events[1..], last)
  }

  /** Every positive limit of the row is kept. */
  ghost predicate Kept(l: Limit) {
    && (l.dailyLimit > 0 ==> l.dailyUsed <= l.dailyLimit)
    && (l.monthlyLimit > 0 ==> l.monthlyUsed <= l.monthlyLimit)
    && (l.annualLimit > 0 ==> l.annualUsed <= l.annualLimit)
    && (l.maxNotional > 0 ==> l.notional <= l.maxNotional)
    && (l.maxOpen > 0 ==> l.open <= l.maxOpen)
  }

  /** A check of the row would find room for the usage: in the volumes, and for a new position. */
  predicate Fits(l: Limit, buy: int, isNew: bool) {
    && !Breaches(l, buy, 0, 0, Daily) && !Breaches(l, buy, 0, 0, Monthly)
    && !Breaches(l, buy, 0, 0, Annual) && !Breaches(l, buy, 0, 0, Notional)
    && (isNew ==> !Breaches(l, buy, 0, 0, OpenPositions))
  }

  predicate Counts(l: Limit, e: Event) {
    e.Trade? && Matches(l, e.corporate, e.pair) && l.isActive
  }

  predicate Positive(e: Event) {
    (e.Trade? ==> e.buy > 0) && (e.Settlement? ==> e.amount > 0)
  }

  /**
   * The row is the one that its trades are checked against: the only row of its
   * client and pair, or an all-currencies row whose client has no other row that trades touch.
   */
  ghost predicate Sole(rows: Rows, id: nat) {
    id in rows &&
    forall j | j in rows && rows[j].corporate == rows[id].corporate ::
      if rows[id].pair.Some? then rows[j].pair == rows[id].pair ==> j == id
      else rows[id].allCurrencies && (rows[j].pair.Some? || rows[j].allCurrencies ==> j == id)
  }

  lemma TradeChecksSoleRow(rows: Rows, id: nat, e: Event)
    requires Sole(rows, id) && e.Trade? && Possible(rows, e)
    requires Counts(rows[id], e)
    ensures e.checked == id
  {
    if rows[id].pair.Some? {
      assert Specific(rows[id], e.corporate, e.pair);
    } else {
      assert rows[e.checked].corporate == rows[id].corporate;
    }
  }

  /** No event changes which client and pairs a row is for. */
  ghost predicate SameScopes(rows: Rows, next: Rows) {
    && rows.Keys == next.Keys
    && forall j | j in rows ::
         rows[j].corporate == next[j].corporate && rows[j].pair == next[j].pair
         && rows[j].allCurrencies == next[j].allCurrencies
  }

  lemma StepKeepsScopes(rows: Rows, e: Event)
    ensures SameScopes(rows, Next(rows, e))
  {
  }

  lemma SoleByScopes(rows: Rows, next: Rows, id: nat)
    requires Sole(rows, id) && SameScopes(rows, next)
    ensures Sole(next, id)
  {
    forall j | j in next && next[j].corporate == next[id].corporate
      ensures if next[id].pair.Some? then next[j].pair == next[id].pair ==> j == id
              else next[id].allCurrencies && (next[j].pair.Some? || next[j].allCurrencies ==> j == id)
    {
      assert rows[j].corporate == rows[id].corporate;
    }
  }

  lemma UsageKeepsIff(l: Limit, buy: int, isNew: bool)
    requires Kept(l)
    ensures Kept(UsedRow(l, buy, isNew)) <==> Fits(l, buy, isNew)
  {
  }

  lemma OtherStepKeeps(rows: Rows, id: nat, e: Event)
    requires id in rows && Kept(rows[id]) && Positive(e) && !Counts(rows[id], e)
    ensures Kept(Next(rows, e)[id])
  {
  }

  /** One event takes a row past its limits exactly when it is a trade that counts and does not fit. */
  lemma StepKeepsIff(rows: Rows, id: nat, e: Event)
    requires id in rows && Kept(rows[id]) && Positive(e)
    ensures id in Next(rows, e)
    ensures Kept(Next(rows, e)[id]) <==> (Counts(rows[id], e) ==> Fits(rows[id], e.buy, e.isNew))
  {
    if Counts(rows[id], e) {
      assert Next(rows, e)[id] == UsedRow(rows[id], e.buy, e.isNew);
      UsageKeepsIff(rows[id], e.buy, e.isNew);
    } else {
      OtherStepKeeps(rows, id, e);
    }
  }

  lemma AllowedFits(l: Limit, buy: int, sell: int, minute: int, isNew: bool)
    requires Admissible(l, buy, sell, minute)
    ensures Fits(l, buy, isNew)
  {
    assert !Breaches(l, buy, sell, minute, Daily) && !Breaches(l, buy, sell, minute, Monthly);
    assert !Breaches(l, buy, sell, minute, Annual) && !Breaches(l, buy, sell, minute, Notional);
    assert !Breaches(l, buy, sell, minute, OpenPositions);
  }

  lemma StepKeepsLimits(rows: Rows, id: nat, e: Event)
    requires Sole(rows, id) && Kept(rows[id]) && Possible(rows, e)
    ensures Sole(Next(rows, e), id) && Kept(Next(rows, e)[id])
  {
    StepKeepsScopes(rows, e);
    SoleByScopes(rows, Next(rows, e), id);
    StepKeepsIff(rows, id, e);
    if Counts(rows[id], e) {
      TradeChecksSoleRow(rows, id, e);
      AllowedFits(rows[id], e.buy, e.sell, e.minute, e.isNew);
    }
  }

  /**
   * When every recorded trade was allowed, a row that its trades are checked
   * against keeps all its positive limits in every reachable state, whatever
   * settlements, resets, suspensions and approvals come in between.
   */
  lemma {:induction false} LimitsHoldOverRuns(rows: Rows, id: nat, events: seq<Event>, last: Rows)
    requires Sole(rows, id) && Kept(rows[id]) && Run(rows, events, last)
    ensures id in last && Kept(last[id])
    decreases |events|
  {
    if events != [] {
      StepKeepsLimits(rows, id, events[0]);
      LimitsHoldOverRuns(Next(rows, events[0]), id, events[1..], last);
    }
  }

  // ---------- Rows that trades are counted against ----------

  /** The row keeps its limits in every state of the run. */
  ghost predicate KeptThroughout(rows: Rows, id: nat, events: seq<Event>)
    requires id in rows
    decreases |events|
  {
    Kept(rows[id]) && (events == [] || KeptThroughout(Next(rows, events[0]), id, events[1..]))
  }

  /** Every trade that counts against the row fits it in the state that it meets. */
  ghost predicate TradesFit(rows: Rows, id: nat, events: seq<Event>)
    requires id in rows
    decreases |events|
  {
    events == []
    || ((Counts(rows[id], events[0]) ==> Fits(rows[id], events[0].buy, events[0].isNew))
        && TradesFit(Next(rows, events[0]), id, events[1..]))
  }

  /** The same, asked only of the trades that were checked against another row. */
  ghost predicate UncheckedFit(rows: Rows, id: nat, events: seq<Event>)
    requires id in rows
    decreases |events|
  {
    events == []
    || ((Counts(rows[id], events[0]) && events[0].checked != id ==> Fits(rows[id], events[0].buy, events[0].isNew))
        && UncheckedFit(Next(rows, events[0]), id, events[1..]))
  }

  /**
   * Whatever was checked, and when: a row keeps its limits in every state of a
   * run exactly when each trade that counts against it fits as it is recorded.
   */
  lemma {:induction false} KeptThroughoutIff(rows: Rows, id: nat, events: seq<Event>)
    requires id in rows && Kept(rows[id]) && forall e <- events :: Positive(e)
    ensures KeptThroughout(rows, id, events) <==> TradesFit(rows, id, events)
    decreases |events|
  {
    if events != [] {
      StepKeepsIff(rows, id, events[0]);
      if Kept(Next(rows, events[0])[id]) {
        KeptThroughoutIff(Next(rows, events[0]), id, events[1..]);
      }
    }
  }

  lemma {:induction false} RunChecks(rows: Rows, id: nat, events: seq<Event>, last: Rows)
    requires id in rows && Run(rows, events, last)
    ensures TradesFit(rows, id, events) <==> UncheckedFit(rows, id, events)
    ensures forall e <- events :: Positive(e)
    decreases |events|
  {
    if events != [] {
      var e := events[0];
      RunChecks(Next(rows, e), id, events[1..], last);
      if e.Trade? && e.checked == id {
        AllowedFits(rows[id], e.buy, e.sell, e.minute, e.isNew);
      }
      assert events == [e] + events[1..];
    }
  }

  /**
   * In a run whose recorded trades were all allowed, a row keeps its limits in
   * every state exactly when the trades that counted against it, but were
   * checked against another row, would have been found to fit it too.
   */
  lemma RowKeptOverRunIff(rows: Rows, id: nat, events: seq<Event>, last: Rows)
    requires id in rows && Kept(rows[id]) && Run(rows, events, last)
    ensures KeptThroughout(rows, id, events) <==> UncheckedFit(rows, id, events)
  {
    RunChecks(rows, id, events, last);
    KeptThroughoutIff(rows, id, events);
  }

  /**
   * Beside a pair-specific row the all-currencies row of the client is counted
   * up but not checked, so an allowed trade takes it past its limits exactly
   * when it does not fit that row.
   */
  lemma UncheckedRowIsCountedUp(rows: Rows, id: nat, all: nat, e: Event)
    requires e.Trade? && Possible(rows, e) && id in rows && all in rows
    requires Specific(rows[id], e.corporate, e.pair) && Fallback(rows[all], e.corporate)
    requires Kept(rows[all])
    ensures e.checked != all
    ensures Kept(Next(rows, e)[all]) <==> Fits(rows[all], e.buy, e.isNew)
  {
    assert Specific(rows[e.checked], e.corporate, e.pair);
    StepKeepsIff(rows, all, e);
  }

  /** An active row with a daily limit and no other, not used yet. */
  function OnlyDaily(pair: Option<string>, dailyLimit: int): Limit {
    Limit("c", pair, pair == None, true, 100, 100, 0, dailyLimit, 0, 80, Block, 0,
          0, 0, Block, 0, 0, 0, Block, 0, 0, 0, 0, 0, true, false, false, None)
  }

  /** It happens: a trade of 10 is checked against a limit of 100 and counted against one of 5. */
  lemma UncheckedRowOverruns() returns (rows: Rows, all: nat, e: Event)
    ensures Possible(rows, e) && all in rows && Kept(rows[all]) && !Kept(Next(rows, e)[all])
  {
    rows := map[0 := OnlyDaily(Some("EURUSD"), 100), 1 := OnlyDaily(None, 5)];
    all := 1;
    e := Trade(0, "c", "EURUSD", 10, 0, 0, true);
    assert Specific(rows[0], "c", "EURUSD");
  }

  // ---------- Checks that come too early ----------

  datatype Usage = Usage(amount: nat, isNew: bool)

  function UsedAll(l: Limit, usages: seq<Usage>): Limit
    decreases |usages|
  {
    if usages == [] then l else UsedAll(UsedRow(l, usages[0].amount, usages[0].isNew), usages[1..])
  }

  /** Each usage fits what the ones before it have left. */
  predicate FitInTurn(l: Limit, usages: seq<Usage>)
    decreases |usages|
  {
    usages == []
    || (Fits(l, usages[0].amount, usages[0].isNew)
        && FitInTurn(UsedRow(l, usages[0].amount, usages[0].isNew), usages[1..]))
  }

  /** Usages only add, so limits that are kept at the end were kept before. */
  lemma {:induction false} KeptBefore(l: Limit, usages: seq<Usage>)
    requires Kept(UsedAll(l, usages))
    ensures Kept(l)
    decreases |usages|
  {
    if usages != [] {
      KeptBefore(UsedRow(l, usages[0].amount, usages[0].isNew), usages[1..]);
    }
  }

  /**
   * The check and the record belong together: however many usages were allowed
   * before any of them was recorded, the limits survive the records exactly when
   * a check right before each of them would have found room.
   */
  lemma {:induction false} CheckedTogetherIff(l: Limit, usages: seq<Usage>)
    requires Kept(l)
    ensures Kept(UsedAll(l, usages)) <==> FitInTurn(l, usages)
    decreases |usages|
  {
    if usages != [] {
      var next := UsedRow(l, usages[0].amount, usages[0].isNew);
      UsageKeepsIff(l, usages[0].amount, usages[0].isNew);
      if Kept(next) {
        CheckedTogetherIff(next, usages[1..]);
      } else if Kept(UsedAll(next, usages[1..])) {
        KeptBefore(next, usages[1..]);
      }
    }
  }

  /** It happens: two usages of 60 are each allowed under a limit of 100. */
  lemma CheckedTogetherOverruns() returns (l: Limit, usages: seq<Usage>)
    ensures Kept(l) && (forall u <- usages :: Admissible(l, u.amount, 0, 0)) && !Kept(UsedAll(l, usages))
  {
    l := OnlyDaily(Some("EURUSD"), 100);
    usages := [Usage(60, true), Usage(60, true)];
    CheckedTogetherIff(l, usages);
  }

  // ---------- Notional and positions are the open trades ----------

  /** A usage that has not been settled. */
  datatype OpenTrade = OpenTrade(corporate: string, pair: string, amount: nat, isNew: bool)

  datatype Ledger = Ledger(rows: Rows, book: seq<OpenTrade>)

  /** Usages, settlements of one booked new position each, and resets. */
  datatype Entry =
    | Book(trade: OpenTrade)
    | Settle(index: nat)
    | Daily0(now: int)
    | Monthly0(now: int)

  predicate Enterable(ledger: Ledger, e: Entry) {
    e.Settle? ==> e.index < |ledger.book| && ledger.book[e.index].isNew
  }

  function Enter(ledger: Ledger, e: Entry): Ledger
    requires Enterable(ledger, e)
  {
    match e
    case Book(t) => Ledger(Used(ledger.rows, t.corporate, t.pair, t.amount, t.isNew), ledger.book + [t])
    case Settle(i) =>
      var t := ledger.book[i];
      Ledger(Settled(ledger.rows, t.corporate, t.pair, t.amount), ledger.book[..i] + ledger.book[i + 1..])
    case Daily0(now) => ledger.(rows := ResetDay(ledger.rows, now))
    case Monthly0(now) => ledger.(rows := ResetMonth(ledger.rows, now))
  }

  /** An entry writes what its statement writes, and adds to the book or takes from it. */
  lemma EntriesWrite(ledger: Ledger, e: Entry)
    requires Enterable(ledger, e)
    ensures var rows, after := ledger.rows, Enter(ledger, e);
            && after.rows.Keys == rows.Keys
            && match e
               case Book(t) =>
                 && after.book == ledger.book + [t]
                 && forall id | id in rows ::
                      Written(rows[id], after.rows[id], Trade(id, t.corporate, t.pair, t.amount, 0, 0, t.isNew), id)
               case Settle(k) =>
                 var t := ledger.book[k];
                 && after.book == ledger.book[..k] + ledger.book[k + 1..]
                 && forall id | id in rows ::
                      Written(rows[id], after.rows[id], Settlement(t.corporate, t.pair, t.amount), id)
               case Daily0(now) =>
                 && after.book == ledger.book
                 && forall id | id in rows :: Written(rows[id], after.rows[id], DayReset(now), id)
               case Monthly0(now) =>
                 && after.book == ledger.book
                 && forall id | id in rows :: Written(rows[id], after.rows[id], MonthReset(now), id)
  {
    match e
    case Book(t) =>
      forall id | id in ledger.rows
        ensures Written(ledger.rows[id], Enter(ledger, e).rows[id],
                        Trade(id, t.corporate, t.pair, t.amount, 0, 0, t.isNew), id)
      {
        StatementsWrite(ledger.rows, Trade(id, t.corporate, t.pair, t.amount, 0, 0, t.isNew));
      }
    case Settle(k) =>
      var t := ledger.book[k];
      StatementsWrite(ledger.rows, Settlement(t.corporate, t.pair, t.amount));
    case Daily0(now) => StatementsWrite(ledger.rows, DayReset(now));
    case Monthly0(now) => StatementsWrite(ledger.rows, MonthReset(now));
  }

  ghost predicate LedgerRun(ledger: Ledger, entries: seq<Entry>, last: Ledger)
    decreases |entries|
  {
    if entries == [] then last == ledger
    else Enterable(ledger, entries[0]) && LedgerRun(Enter(ledger, entries[0]), entries[1..], last)
  }

  /** The amounts of the booked trades that count against the row. */
  function Outstanding(book: seq<OpenTrade>, l: Limit): nat {
    if book == [] then 0
    else (if Matches(l, book[0].corporate, book[0].pair) then book[0].amount else 0) + Outstanding(book[1..], l)
  }

  /** The number of booked new positions that count against the row. */
  function Positions(book: seq<OpenTrade>, l: Limit): nat {
    if book == [] then 0
    else (if Matches(l, book[0].corporate, book[0].pair) && book[0].isNew then 1 else 0) + Positions(book[1..], l)
  }

  /** Notional and positions of the row are those of its trades in the book. */
  ghost predicate RowBalanced(l: Limit, book: seq<OpenTrade>) {
    l.isActive && l.notional == Outstanding(book, l) && l.open == Positions(book, l)
  }

  ghost predicate Balanced(ledger: Ledger) {
    forall id | id in ledger.rows :: RowBalanced(ledger.rows[id], ledger.book)
  }

  lemma {:induction false} SumsConcat(a: seq<OpenTrade>, b: seq<OpenTrade>, l: Limit)
    ensures Outstanding(a + b, l) == Outstanding(a, l) + Outstanding(b, l)
    ensures Positions(a + b, l) == Positions(a, l) + Positions(b, l)
  {
    if a == [] {
      assert a + b == b;
    } else {
      assert (a + b)[1..] == a[1..] + b;
      SumsConcat(a[1..], b, l);
    }
  }

  /** The sums look only at the client and pair of the row. */
  lemma {:induction false} SameScopeSameSums(book: seq<OpenTrade>, l: Limit, m: Limit)
    requires l.corporate == m.corporate && l.pair == m.pair && l.allCurrencies == m.allCurrencies
    ensures Outstanding(book, l) == Outstanding(book, m) && Positions(book, l) == Positions(book, m)
  {
    if book != [] {
      SameScopeSameSums(book[1..], l, m);
    }
  }

  lemma SumsWithout(book: seq<OpenTrade>, i: nat, l: Limit)
    requires i < |book|
    ensures var t, rest := book[i], book[..i] + book[i + 1..];
            && Outstanding(book, l) == Outstanding(rest, l) + (if Matches(l, t.corporate, t.pair) then t.amount else 0)
            && Positions(book, l)
               == Positions(rest, l) + (if Matches(l, t.corporate, t.pair) && t.isNew then 1 else 0)
  {
    var t := book[i];
    assert book == book[..i] + ([t] + book[i + 1..]);
    SumsConcat(book[..i], [t] + book[i + 1..], l);
    SumsConcat([t], book[i + 1..], l);
    SumsConcat(book[..i], book[i + 1..], l);
    assert Outstanding([t], l) == (if Matches(l, t.corporate, t.pair) then t.amount else 0) + Outstanding([], l);
    assert Positions([t], l) == (if Matches(l, t.corporate, t.pair) && t.isNew then 1 else 0) + Positions([], l);
  }

  lemma BookKeepsBalance(ledger: Ledger, t: OpenTrade, id: nat)
    requires id in ledger.rows && RowBalanced(ledger.rows[id], ledger.book)
    ensures RowBalanced(Enter(ledger, Book(t)).rows[id], ledger.book + [t])
  {
    var l, m := ledger.rows[id], Enter(ledger, Book(t)).rows[id];
    SameScopeSameSums(ledger.book + [t], l, m);
    SumsConcat(ledger.book, [t], l);
    assert Outstanding([t], l) == (if Matches(l, t.corporate, t.pair) then t.amount else 0) + Outstanding([], l);
    assert Positions([t], l) == (if Matches(l, t.corporate, t.pair) && t.isNew then 1 else 0) + Positions([], l);
  }

  lemma SettleKeepsBalance(ledger: Ledger, i: nat, id: nat)
    requires Enterable(ledger, Settle(i)) && id in ledger.rows && RowBalanced(ledger.rows[id], ledger.book)
    ensures RowBalanced(Enter(ledger, Settle(i)).rows[id], ledger.book[..i] + ledger.book[i + 1..])
  {
    var l, m := ledger.rows[id], Enter(ledger, Settle(i)).rows[id];
    SameScopeSameSums(ledger.book[..i] + ledger.book[i + 1..], l, m);
    SumsWithout(ledger.book, i, l);
  }

  lemma EntryKeepsBalance(ledger: Ledger, e: Entry)
    requires Balanced(ledger) && Enterable(ledger, e)
    ensures Balanced(Enter(ledger, e))
  {
    var next := Enter(ledger, e);
    forall id | id in next.rows ensures RowBalanced(next.rows[id], next.book) {
      match e {
        case Book(t) => BookKeepsBalance(ledger, t, id);
        case Settle(i) => SettleKeepsBalance(ledger, i, id);
        case _ => SameScopeSameSums(next.book, ledger.rows[id], next.rows[id]);
      }
    }
  }

  /** In a balanced ledger the clamp at zero never changes a value. */
  lemma ClampNeverActs(ledger: Ledger, i: nat, id: nat)
    requires Balanced(ledger) && Enterable(ledger, Settle(i)) && id in ledger.rows
    requires Matches(ledger.rows[id], ledger.book[i].corporate, ledger.book[i].pair)
    ensures var l, m := ledger.rows[id], Enter(ledger, Settle(i)).rows[id];
            m.notional == l.notional - ledger.book[i].amount && m.open == l.open - 1
  {
    SumsWithout(ledger.book, i, ledger.rows[id]);
  }

  /**
   * From rows that start at zero, and stay active, notional outstanding is the
   * sum of the row's unsettled trades and open positions their number, after any run.
   */
  lemma {:induction false} CountersAreTheOpenTrades(ledger: Ledger, entries: seq<Entry>, last: Ledger)
    requires Balanced(ledger) && LedgerRun(ledger, entries, last)
    ensures Balanced(last)
    decreases |entries|
  {
    if entries != [] {
      EntryKeepsBalance(ledger, entries[0]);
      CountersAreTheOpenTrades(Enter(ledger, entries[0]), entries[1..], last);
    }
  }

  lemma EmptyLedgerIsBalanced(rows: Rows)
    requires forall id | id in rows :: rows[id].isActive && rows[id].notional == 0 && rows[id].open == 0
    ensures Balanced(Ledger(rows, []))
  {
  }
}
